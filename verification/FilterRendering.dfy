/** Lexing inverts rendering: a written list of tokens is read back as that list. */
module FilterRendering {
  import opened Strings
  import opened FilterTypes
  import opened FilterLexer
  import opened FilterLexemes
  import opened FilterLexerSound

  function Written(h: Piece): string {
    (if h.before then " " else "") + Spelling(h.kind, h.value) + (if h.after then " " else "")
  }

  function Render(ps: seq<Piece>): string {
    if ps == [] then "" else Written(ps[0]) + Render(ps[1..])
  }

  lemma {:induction false} RenderConcat(a: seq<Piece>, b: seq<Piece>)
    ensures Render(a + b) == Render(a) + Render(b)
  {
    if a == [] {
      assert a + b == b;
    } else {
      assert (a + b)[1..] == a[1..] + b;
      RenderConcat(a[1..], b);
    }
  }

  // What may stand next to what

  /** What may follow a literal that is written bare. */
  predicate EndsLiteral(next: Option<char>) {
    next.None? || IsSpace(next.value) || next.value == ',' || next.value == ')'
  }

  /** What may follow a word. */
  predicate EndsWord(next: Option<char>) {
    EndsLiteral(next) || next.value == '(' || next.value == '/' || next.value == ':'
  }

  predicate FitsBefore(last: Option<TokenType>, kind: TokenType, next: Option<char>, beforeParen: bool) {
    match kind
    case PropertyToken => EndsWord(next) && !beforeParen
    case FunctionToken => EndsWord(next) && beforeParen
    case LambdaOp => EndsWord(next) && (last == Some(Slash) || beforeParen)
    case StringToken => next != Some('\'')
    case NumberToken | DateToken | DateTimeOffsetToken | TimeOfDayToken | GuidToken => EndsLiteral(next)
    case BooleanToken | NullToken | ComparisonOp | LogicalOp | NotOp | ArithmeticOp => EndsWord(next)
    case _ => true
  }

  /** A token that can stand after `last` and before `next`, a minus sign aside. */
  predicate Fits(last: Option<TokenType>, h: Piece, next: Option<char>, beforeParen: bool) {
    ValidLexeme(h.kind, h.value) && WordAllowed(last, h.kind, h.value) && FitsBefore(last, h.kind, next, beforeParen)
  }

  function FirstChar(ps: seq<Piece>, follow: Option<char>): Option<char> {
    if ps == [] then follow
    else if Written(ps[0]) == "" then None
    else Some(Written(ps[0])[0])
  }

  predicate OpensParen(ps: seq<Piece>) {
    ps != [] && ps[0].kind == LParen
  }

  /** Every token fits where it stands, in a list written after a token of kind `last` and before `follow`. */
  predicate Flows(last: Option<TokenType>, ps: seq<Piece>, follow: Option<char>)
    decreases ps
  {
    ps == [] ||
    (&& Fits(last, ps[0], if ps[0].after then Some(' ') else FirstChar(ps[1..], follow), OpensParen(ps[1..]))
     && Flows(Some(ps[0].kind), ps[1..], follow))
  }

  /** Every minus sign stands where the lexer takes it for the start of a number. */
  predicate SignsAllowed(last: Option<TokenType>, ps: seq<Piece>)
    decreases ps
  {
    ps == [] || (SignAllowed(last, ps[0].kind, ps[0].value) && SignsAllowed(Some(ps[0].kind), ps[1..]))
  }

  // Reading one token back

  function CharAfter(s: string, p: nat): Option<char> {
    if p < |s| then Some(s[p]) else None
  }

  ghost predicate ParenAfter(s: string, p: nat)
    requires p <= |s|
  {
    CharAt(s, SpanEnd(s, p, Space), '(')
  }

  ghost predicate Holds(s: string, p: nat, text: string) {
    p + |text| <= |s| && s[p..p + |text|] == text
  }

  lemma HoldsAt(s: string, p: nat, text: string, i: nat)
    requires Holds(s, p, text) && i < |text|
    ensures s[p + i] == text[i]
  {
    assert s[p..p + |text|][i] == text[i];
  }

  /** What `ReadToken` makes of a token's spelling: the token, and then at most white space skipped. */
  ghost predicate ReadsBack(s: string, p: nat, last: Option<TokenType>, kind: TokenType, value: string, end: nat)
    requires p < |s|
  {
    var r := ReadToken(s, p, last);
    && r.Success? && r.value.token == Token(kind, value, p)
    && end <= r.value.next <= |s| && AllIn(s, end, r.value.next, Space)
  }

  lemma {:induction false} StringBodyReads(s: string, p: nat, value: string, rest: string)
    requires Holds(s, p, Escape(rest) + "'") && !CharAt(s, p + |Escape(rest)| + 1, '\'')
    ensures StringBody(s, p, value) == Some((value + rest, p + |Escape(rest)| + 1))
    decreases |rest|
  {
    var text := Escape(rest) + "'";
    HoldsAt(s, p, text, 0);
    if rest == "" {
      assert value + rest == value;
    } else {
      var tail := Escape(rest[1..]) + "'";
      var step := if rest[0] == '\'' then 2 else 1;
      assert text == (if rest[0] == '\'' then "''" else [rest[0]]) + tail;
      if rest[0] == '\'' {
        HoldsAt(s, p, text, 1);
      }
      assert s[p + step..p + step + |tail|] == text[step..];
      StringBodyReads(s, p + step, value + [rest[0]], rest[1..]);
      assert value + rest == value + [rest[0]] + rest[1..];
    }
  }

  lemma StringReads(s: string, p: nat, last: Option<TokenType>, value: string)
    requires Holds(s, p, Spelling(StringToken, value))
    requires !CharAt(s, p + |Spelling(StringToken, value)|, '\'')
    ensures p < |s| && ReadsBack(s, p, last, StringToken, value, p + |Spelling(StringToken, value)|)
  {
    var text := Spelling(StringToken, value);
    HoldsAt(s, p, text, 0);
    assert s[p + 1..p + |text|] == text[1..];
    assert text[1..] == Escape(value) + "'";
    StringBodyReads(s, p + 1, "", value);
    assert "" + value == value;
  }

  // Literals written bare

  lemma NumberReads(s: string, p: nat, value: string)
    requires IsNumber(value) && Holds(s, p, value) && EndsLiteral(CharAfter(s, p + |value|))
    ensures NumberEnd(s, p) == p + |value|
  {
    var sign := if CharAt(value, 0, '-') then 1 else 0;
    var whole := SpanEnd(value, sign, Digit);
    SpanEndInside(value, s, p, sign, Digit);
    HoldsAt(s, p, value, 0);
    if CharAt(value, whole, '.') {
      HoldsAt(s, p, value, whole);
      SpanEndInside(value, s, p, whole + 1, Digit);
    }
  }

  /** No date, time or identifier pattern matches at a number that a literal's end follows. */
  lemma NumberIsNoPattern(s: string, p: nat, value: string)
    requires IsNumber(value) && Holds(s, p, value) && EndsLiteral(CharAfter(s, p + |value|))
    ensures !DateAt(s, p) && !TimeOfDayAt(s, p) && !GuidAt(s, p)
  {
    var sign := if CharAt(value, 0, '-') then 1 else 0;
    assert forall i | sign <= i < |value| :: IsDigit(value[i]) || value[i] == '.';
    forall i | p + sign <= i <= p + |value| && i < |s|
      ensures s[i] != '-' && s[i] != ':'
    {
      if i < p + |value| {
        HoldsAt(s, p, value, i - p);
      }
    }
    HoldsAt(s, p, value, 0);
  }

  lemma DigitsNumberReads(s: string, p: nat, last: Option<TokenType>, value: string)
    requires IsNumber(value) && Holds(s, p, value) && EndsLiteral(CharAfter(s, p + |value|))
    requires !CharAt(value, 0, '-')
    ensures p < |s| && ReadsBack(s, p, last, NumberToken, value, p + |value|)
  {
    HoldsAt(s, p, value, 0);
    NumberReads(s, p, value);
    NumberIsNoPattern(s, p, value);
  }

  lemma NegativeReads(s: string, p: nat, last: Option<TokenType>, value: string)
    requires IsNumber(value) && Holds(s, p, value) && EndsLiteral(CharAfter(s, p + |value|))
    requires CharAt(value, 0, '-')
    ensures p < |s|
    ensures if AllowsNegative(last) then ReadsBack(s, p, last, NumberToken, value, p + |value|)
            else ReadToken(s, p, last).Failure?
  {
    HoldsAt(s, p, value, 0);
    HoldsAt(s, p, value, 1);
    NumberReads(s, p, value);
  }

  lemma AllInHeld(s: string, p: nat, text: string, lo: nat, hi: nat, class_: CharClass)
    requires Holds(s, p, text) && AllIn(text, lo, hi, class_)
    ensures AllIn(s, p + lo, p + hi, class_)
  {
    forall i | p + lo <= i < p + hi ensures InClass(s[i], class_) {
      HoldsAt(s, p, text, i - p);
    }
  }

  lemma DateHeld(s: string, p: nat, text: string)
    requires Holds(s, p, text) && DateAt(text, 0)
    ensures DateAt(s, p) && IsDigit(s[p]) && s[p + 4] == '-'
  {
    AllInHeld(s, p, text, 0, 4, Digit);
    AllInHeld(s, p, text, 5, 7, Digit);
    AllInHeld(s, p, text, 8, 10, Digit);
    HoldsAt(s, p, text, 4);
    HoldsAt(s, p, text, 7);
    HoldsAt(s, p, text, 0);
  }

  lemma TimeHeld(s: string, p: nat, text: string, at: nat)
    requires Holds(s, p, text) && TimeOfDayAt(text, at)
    ensures TimeOfDayAt(s, p + at) && IsDigit(s[p + at]) && s[p + at + 2] == ':'
  {
    AllInHeld(s, p, text, at, at + 2, Digit);
    AllInHeld(s, p, text, at + 3, at + 5, Digit);
    AllInHeld(s, p, text, at + 6, at + 8, Digit);
    HoldsAt(s, p, text, at);
    HoldsAt(s, p, text, at + 2);
    HoldsAt(s, p, text, at + 5);
  }

  /** What another mark stands in has neither the shape of a guid nor, before the fifth character, that of a date. */
  lemma OtherShape(s: string, p: nat, i: nat)
    requires i < 8 && p + i < |s| && !IsHexDigit(s[p + i])
    ensures !GuidAt(s, p) && (i < 4 ==> !DateAt(s, p))
  {
  }

  lemma DateReads(s: string, p: nat, last: Option<TokenType>, value: string)
    requires |value| == 10 && DateAt(value, 0) && Holds(s, p, value) && EndsLiteral(CharAfter(s, p + 10))
    ensures p < |s| && ReadsBack(s, p, last, DateToken, value, p + 10)
  {
    hide DateAt, GuidAt, TimeOfDayAt, ZoneEnd, FractionEnd, ReadNumber;
    DateHeld(s, p, value);
    OtherShape(s, p, 4);
  }

  lemma TimeOfDayReads(s: string, p: nat, last: Option<TokenType>, value: string)
    requires |value| == 8 && TimeOfDayAt(value, 0) && Holds(s, p, value) && EndsLiteral(CharAfter(s, p + 8))
    ensures p < |s| && ReadsBack(s, p, last, TimeOfDayToken, value, p + 8)
  {
    hide DateAt, GuidAt, TimeOfDayAt, ZoneEnd, FractionEnd, ReadNumber;
    TimeHeld(s, p, value, 0);
    OtherShape(s, p, 2);
  }

  lemma GuidReads(s: string, p: nat, last: Option<TokenType>, value: string)
    requires IsGuid(value) && Holds(s, p, value) && EndsLiteral(CharAfter(s, p + 36))
    ensures p < |s| && ReadsBack(s, p, last, GuidToken, value, p + 36)
  {
    assert forall i | p <= i < p + 36 :: s[i] == value[i - p];
    assert s[p] == value[0];
  }

  lemma FractionHeld(s: string, p: nat, text: string, at: nat)
    requires Holds(s, p, text) && at < |text| && ZoneEnd(text, FractionEnd(text, at)).Some?
    ensures p + at < |s| && FractionEnd(s, p + at) == p + FractionEnd(text, at)
  {
    HoldsAt(s, p, text, at);
    if CharAt(text, at, '.') && SpanEnd(text, at + 1, Digit) < |text| {
      SpanHeld(s, p, text, at + 1, Digit);
    }
  }

  lemma ZoneHeld(s: string, p: nat, text: string, at: nat)
    requires Holds(s, p, text) && ZoneEnd(text, at).Some?
    ensures at < |text| && ZoneEnd(s, p + at) == Some(p + ZoneEnd(text, at).value)
  {
    HoldsAt(s, p, text, at);
    if text[at] != 'Z' {
      AllInHeld(s, p, text, at + 1, at + 3, Digit);
      AllInHeld(s, p, text, at + 4, at + 6, Digit);
      HoldsAt(s, p, text, at + 3);
    }
    hide AllIn, Holds;
  }

  lemma DateTimeOffsetReads(s: string, p: nat, last: Option<TokenType>, value: string)
    requires IsDateTimeOffset(value) && Holds(s, p, value)
    ensures p < |s| && ReadsBack(s, p, last, DateTimeOffsetToken, value, p + |value|)
  {
    hide DateAt, GuidAt, TimeOfDayAt, ZoneEnd, FractionEnd, ReadNumber;
    DateHeld(s, p, value);
    OtherShape(s, p, 4);
    TimeHeld(s, p, value, 11);
    HoldsAt(s, p, value, 10);
    TimeFits(value, 11);
    ZoneHeld(s, p, value, FractionEnd(value, 19));
    FractionHeld(s, p, value, 19);
  }

  lemma DurationReads(s: string, p: nat, last: Option<TokenType>, value: string)
    requires AllIn(value, 0, |value|, NotQuote) && Holds(s, p, Spelling(DurationToken, value))
    ensures p < |s| && ReadsBack(s, p, last, DurationToken, value, p + |Spelling(DurationToken, value)|)
  {
    var text := Spelling(DurationToken, value);
    var close := p + |text| - 1;
    assert forall i | p <= i <= close :: s[i] == text[i - p];
    assert text[..8] == "duration" && text[8] == '\'' && text[9..|text| - 1] == value;
    assert s[p..p + 8] == text[..8];
    SpanEndUnique(s, p, p + 8, WordChar);
    assert forall i | p + 9 <= i < close :: s[i] == value[i - p - 9];
    SpanEndUnique(s, p + 9, close, NotQuote);
    assert s[p + 9..close] == value;
    assert s[p] == 'd';
  }

  lemma WordStarts(s: string, p: nat, last: Option<TokenType>)
    requires p < |s| && (IsLetter(s[p]) || s[p] == '_')
    ensures ReadToken(s, p, last) == ReadWord(s, p, last)
  {
    hide ReadWord, ReadDigits, ReadString;
  }

  lemma EnumParts(value: string)
    requires IsEnum(value)
    ensures var end := SpanEnd(value, 0, WordChar);
            && 0 < end && end + 1 < |value| && value[end] == '\''
            && SpanEnd(value, end + 1, NotQuote) == |value| - 1
            && (IsLetter(value[0]) || value[0] == '_') && InClass(value[0], WordChar)
  {
    var end := SpanEnd(value, 0, WordChar);
    assert value[..end][0] == value[0];
    hide SpanEnd;
  }

  lemma EnumHasPeriod(value: string)
    requires IsEnum(value)
    ensures '.' in value[..SpanEnd(value, 0, WordChar)]
  {
  }

  /** A run that ends within a text ends there too where the text stands. */
  lemma SpanHeld(s: string, p: nat, text: string, from: nat, class_: CharClass)
    requires Holds(s, p, text) && from <= |text| && SpanEnd(text, from, class_) < |text|
    ensures p + |text| <= |s| && SpanEnd(s, p + from, class_) == p + SpanEnd(text, from, class_)
  {
    hide SpanEnd, AllIn;
    SpanEndInside(text, s, p, from, class_);
  }

  lemma EnumSpans(s: string, p: nat, value: string)
    requires IsEnum(value) && Holds(s, p, value)
    ensures var end := p + SpanEnd(value, 0, WordChar);
            && end < p + |value| <= |s| && s[end] == '\'' && SpanEnd(s, p, WordChar) == end
            && SpanEnd(s, end + 1, NotQuote) == p + |value| - 1
  {
    hide *;
    EnumParts(value);
    var end := SpanEnd(value, 0, WordChar);
    HoldsAt(s, p, value, end);
    SpanHeld(s, p, value, 0, WordChar);
    SpanHeld(s, p, value, end + 1, NotQuote);
  }

  lemma EnumReads(s: string, p: nat, last: Option<TokenType>, value: string)
    requires IsEnum(value) && Holds(s, p, value)
    ensures p < |s| && ReadsBack(s, p, last, EnumToken, value, p + |value|)
  {
    hide *;
    var end := SpanEnd(value, 0, WordChar);
    EnumParts(value);
    EnumHasPeriod(value);
    EnumSpans(s, p, value);
    HoldsAt(s, p, value, 0);
    SliceOf(s, p, value, end);
    WordStarts(s, p, last);
    EnumIsRead(s, p, last, p + end, p + |value| - 1);
  }

  lemma SliceOf(s: string, p: nat, text: string, end: nat)
    requires Holds(s, p, text) && end <= |text|
    ensures p + |text| <= |s| && s[p..p + end] == text[..end] && s[p..p + |text|] == text
  {
    assert s[p..p + end] == s[p..p + |text|][..end];
  }

  lemma EnumIsRead(s: string, p: nat, last: Option<TokenType>, end: nat, close: nat)
    requires p < |s| && InClass(s[p], WordChar) && SpanEnd(s, p, WordChar) == end && end < |s| && s[end] == '\''
    requires '.' in s[p..end] && SpanEnd(s, end + 1, NotQuote) == close && close < |s|
    requires ReadToken(s, p, last) == ReadWord(s, p, last)
    ensures ReadsBack(s, p, last, EnumToken, s[p..close + 1], close + 1)
  {
    hide SpanEnd, ReadToken;
    assert '.' !in "duration";
  }

  lemma PunctuationReads(s: string, p: nat, last: Option<TokenType>, kind: TokenType, value: string)
    requires kind == LParen || kind == RParen || kind == Comma || kind == Colon || kind == Slash
    requires ValidLexeme(kind, value) && Holds(s, p, value)
    ensures p < |s| && ReadsBack(s, p, last, kind, value, p + 1)
  {
    HoldsAt(s, p, value, 0);
    assert [s[p]] == value;
  }

  // Words

  /** A word that a word's end follows is read whole, and is not taken for the start of a quoted literal. */
  lemma WordReads(s: string, p: nat, last: Option<TokenType>, word: string)
    requires IsWord(word) && Holds(s, p, word) && EndsWord(CharAfter(s, p + |word|))
    ensures p < |s| && ReadToken(s, p, last) == Success(ReadPlainWord(s, p, p + |word|, last))
    ensures s[p..p + |word|] == word
  {
    hide ReadPlainWord, ReadToken;
    HoldsAt(s, p, word, 0);
    WordStarts(s, p, last);
    SpanEndInside(word, s, p, 0, WordChar);
  }

  lemma LowerFixed(word: string)
    requires forall i | 0 <= i < |word| :: !('A' <= word[i] <= 'Z')
    ensures Lower(word) == word
  {
  }

  /** The words that stand for an operator or a constant are words, in lower case. */
  lemma KeywordIsWord(kind: TokenType, value: string)
    requires ValidLexeme(kind, value)
    requires kind == BooleanToken || kind == ComparisonOp || kind == LogicalOp || kind == NotOp || kind == ArithmeticOp || kind == LambdaOp
    ensures IsWord(value) && Lower(value) == value
  {
    hide IsFunctionName;
    LowerFixed(value);
  }

  lemma NullIsWord(value: string)
    requires Lower(value) == "null"
    ensures IsWord(value)
  {
    assert forall i | 0 <= i < 4 :: LowerChar(value[i]) == "null"[i];
  }

  lemma FixedWordIs(kind: TokenType, value: string)
    requires ValidLexeme(kind, value)
    requires || kind == BooleanToken || kind == NullToken || kind == LogicalOp || kind == NotOp || kind == ArithmeticOp
             || (kind == ComparisonOp && value != "in")
    ensures IsWord(value) && FixedWord(Lower(value)) == Some(kind) && (kind != NullToken ==> Lower(value) == value)
  {
    hide IsFunctionName;
    if kind == NullToken {
      NullIsWord(value);
    } else {
      KeywordIsWord(kind, value);
    }
  }

  lemma FixedWordReads(s: string, p: nat, last: Option<TokenType>, kind: TokenType, value: string)
    requires ValidLexeme(kind, value) && Holds(s, p, value) && EndsWord(CharAfter(s, p + |value|))
    requires || kind == BooleanToken || kind == NullToken || kind == LogicalOp || kind == NotOp || kind == ArithmeticOp
             || (kind == ComparisonOp && value != "in")
    ensures p < |s| && ReadsBack(s, p, last, kind, value, p + |value|)
  {
    hide ReadToken, IsFunctionName, NameWord, ContextWord, ValidLexeme, FixedWord, IsWord, Lower, Holds, EndsWord;
    FixedWordIs(kind, value);
    WordReads(s, p, last, value);
  }

  lemma InReads(s: string, p: nat, last: Option<TokenType>)
    requires Holds(s, p, "in") && EndsWord(CharAfter(s, p + 2)) && last.Some? && EndsValue(last.value)
    ensures p < |s| && ReadsBack(s, p, last, ComparisonOp, "in", p + 2)
  {
    hide ReadToken, IsFunctionName, NameWord;
    KeywordIsWord(ComparisonOp, "in");
    WordReads(s, p, last, "in");
    assert FixedWord("in").None?;
  }

  lemma LambdaWord(value: string)
    requires IsLambdaOp(value)
    ensures IsWord(value) && Lower(value) == value && FixedWord(value).None? && value != "in"
    ensures !IsFunctionName(value)
  {
    hide IsFunctionName;
    KeywordIsWord(LambdaOp, value);
    LambdaOpIsNoFunction(value);
  }

  lemma SlashLambdaReads(s: string, p: nat, value: string)
    requires Holds(s, p, value) && EndsWord(CharAfter(s, p + |value|)) && IsLambdaOp(value)
    ensures p < |s| && ReadsBack(s, p, Some(Slash), LambdaOp, value, p + |value|)
  {
    hide ReadToken, IsFunctionName, NameWord, FixedWord, IsWord;
    LambdaWord(value);
    WordReads(s, p, Some(Slash), value);
  }

  lemma LambdaOpReads(s: string, p: nat, last: Option<TokenType>, value: string)
    requires Holds(s, p, value) && EndsWord(CharAfter(s, p + |value|))
    requires IsLambdaOp(value) && last != Some(Slash) && ParenAfter(s, p + |value|)
    ensures p < |s| && ReadsBack(s, p, last, LambdaOp, value, p + |value|)
  {
    hide ReadToken, IsFunctionName, FixedWord, IsWord;
    LambdaWord(value);
    WordReads(s, p, last, value);
  }

  lemma NameReads(s: string, p: nat, last: Option<TokenType>, kind: TokenType, value: string)
    requires kind == PropertyToken || kind == FunctionToken
    requires ValidLexeme(kind, value) && WordAllowed(last, kind, value)
    requires Holds(s, p, value) && EndsWord(CharAfter(s, p + |value|))
    requires ParenAfter(s, p + |value|) <==> kind == FunctionToken
    ensures p < |s| && ReadsBack(s, p, last, kind, value, p + |value|)
  {
    hide ReadToken, IsFunctionName, FixedWord;
    WordReads(s, p, last, value);
    assert ContextWord(Lower(value), last).None?;
  }

  lemma OperatorReads(s: string, p: nat, last: Option<TokenType>, kind: TokenType, value: string)
    requires kind == ComparisonOp || kind == LambdaOp
    requires ValidLexeme(kind, value) && WordAllowed(last, kind, value) && Holds(s, p, value)
    requires FitsBefore(last, kind, CharAfter(s, p + |value|), ParenAfter(s, p + |value|))
    ensures p < |s| && ReadsBack(s, p, last, kind, value, p + |value|)
  {
    hide ReadsBack;
    if kind == ComparisonOp {
      if value == "in" {
        InReads(s, p, last);
      } else {
        FixedWordReads(s, p, last, kind, value);
      }
    } else if last == Some(Slash) {
      SlashLambdaReads(s, p, value);
    } else {
      LambdaOpReads(s, p, last, value);
    }
  }

  lemma CharAfterIs(s: string, p: nat)
    ensures CharAfter(s, p) != Some('\'') <==> !CharAt(s, p, '\'')
  {
  }

  lemma GuidLength(value: string)
    requires IsGuid(value)
    ensures |value| == 36
  {
  }

  /** A literal of the rendering but a number is read back. */
  lemma LiteralPieceReads(s: string, p: nat, last: Option<TokenType>, h: Piece)
    requires Holds(s, p, Spelling(h.kind, h.value))
    requires Fits(last, h, CharAfter(s, p + |Spelling(h.kind, h.value)|), ParenAfter(s, p + |Spelling(h.kind, h.value)|))
    requires h.kind == StringToken || h.kind == DateToken || h.kind == DateTimeOffsetToken || h.kind == TimeOfDayToken
          || h.kind == DurationToken || h.kind == GuidToken || h.kind == EnumToken
    ensures p < |s| && ReadsBack(s, p, last, h.kind, h.value, p + |Spelling(h.kind, h.value)|)
  {
    hide ReadToken, ReadsBack, Holds, IsDateTimeOffset, DateAt, TimeOfDayAt, IsGuid, IsEnum, AllIn, Escape, EndsLiteral, EndsWord,
      CharAfter, ParenAfter, WordAllowed, IsName, IsNumber, IsFunctionName, IsComparisonOp, IsArithmeticOp, IsLogicalOp, IsBoolean, Lower;
    match h.kind
    case StringToken =>
      CharAfterIs(s, p + |Spelling(h.kind, h.value)|);
      StringReads(s, p, last, h.value);
    case DateToken => DateReads(s, p, last, h.value);
    case DateTimeOffsetToken => DateTimeOffsetReads(s, p, last, h.value);
    case TimeOfDayToken => TimeOfDayReads(s, p, last, h.value);
    case DurationToken => DurationReads(s, p, last, h.value);
    case GuidToken =>
      GuidLength(h.value);
      GuidReads(s, p, last, h.value);
    case EnumToken => EnumReads(s, p, last, h.value);
  }

  /** One token of the rendering is read back, except that a minus sign is refused where none is allowed. */
  lemma PieceReads(s: string, p: nat, last: Option<TokenType>, h: Piece)
    requires Holds(s, p, Spelling(h.kind, h.value))
    requires Fits(last, h, CharAfter(s, p + |Spelling(h.kind, h.value)|), ParenAfter(s, p + |Spelling(h.kind, h.value)|))
    ensures p < |s| && !IsSpace(s[p])
    ensures if SignAllowed(last, h.kind, h.value)
            then ReadsBack(s, p, last, h.kind, h.value, p + |Spelling(h.kind, h.value)|)
            else ReadToken(s, p, last).Failure?
  {
    hide ReadToken, ReadsBack, FixedWord, IsDateTimeOffset, DateAt, TimeOfDayAt, GuidAt, IsEnum, IsNumber, IsName,
      WordAllowed, IsComparisonOp, IsFunctionName, IsBoolean, IsArithmeticOp, AllIn, Escape, EndsLiteral, EndsWord, ParenAfter, Lower;
    var text := Spelling(h.kind, h.value);
    SpellingStarts(h.kind, h.value);
    HoldsAt(s, p, text, 0);
    match h.kind
    case PropertyToken | FunctionToken => NameReads(s, p, last, h.kind, h.value);
    case NumberToken =>
      if CharAt(h.value, 0, '-') {
        NegativeReads(s, p, last, h.value);
      } else {
        DigitsNumberReads(s, p, last, h.value);
      }
    case BooleanToken | NullToken | LogicalOp | NotOp | ArithmeticOp => FixedWordReads(s, p, last, h.kind, h.value);
    case ComparisonOp | LambdaOp => OperatorReads(s, p, last, h.kind, h.value);
    case LParen | RParen | Comma | Colon | Slash => PunctuationReads(s, p, last, h.kind, h.value);
    case _ => LiteralPieceReads(s, p, last, h);
  }

  /** No spelling is empty or starts with white space, and only an opening parenthesis starts with one. */
  lemma SpellingStarts(kind: TokenType, value: string)
    requires ValidLexeme(kind, value)
    ensures Spelling(kind, value) != "" && !IsSpace(Spelling(kind, value)[0])
    ensures Spelling(kind, value)[0] == '(' <==> kind == LParen
  {
    hide IsFunctionName;
    match kind
    case NullToken => NullIsWord(value);
    case BooleanToken | ComparisonOp | LogicalOp | NotOp | ArithmeticOp | LambdaOp => KeywordIsWord(kind, value);
    case EnumToken => assert value[..SpanEnd(value, 0, WordChar)][0] == value[0];
    case _ =>
  }

  // The whole list

  /** Skipping white space first changes nothing. */
  lemma LexFromSkips(s: string, p: nat, q: nat, tokens: seq<Token>)
    requires AllIn(s, p, q, Space)
    ensures LexFrom(s, p, tokens) == LexFrom(s, q, tokens)
  {
    SpanEndUnique(s, p, SpanEnd(s, q, Space), Space);
  }

  /** These tokens are those pieces, wherever they stand. */
  ghost predicate SameTokens(tokens: seq<Token>, ps: seq<Piece>) {
    && |tokens| == |ps|
    && forall i | 0 <= i < |ps| :: tokens[i].kind == ps[i].kind && tokens[i].value == ps[i].value
  }

  lemma WrittenParts(h: Piece)
    requires ValidLexeme(h.kind, h.value)
    ensures |Written(h)| == (if h.before then 1 else 0) + |Spelling(h.kind, h.value)| + (if h.after then 1 else 0)
    ensures h.before ==> Written(h)[0] == ' '
    ensures h.after ==> Written(h)[|Written(h)| - 1] == ' '
    ensures Holds(Written(h), if h.before then 1 else 0, Spelling(h.kind, h.value))
  {
    hide Spelling, ValidLexeme;
  }

  /** What `Flows` says follows a token is what follows it in the rendering. */
  lemma NextInRendering(s: string, q: nat, last: Option<TokenType>, ps: seq<Piece>)
    requires q <= |s| && s[q..] == Render(ps) && Flows(last, ps, None)
    ensures CharAfter(s, q) == FirstChar(ps, None)
    ensures ParenAfter(s, q) <==> OpensParen(ps)
  {
    hide Spelling, ValidLexeme, WordAllowed, FitsBefore, Written;
    if ps != [] {
      var h := ps[0];
      WrittenParts(h);
      SpellingStarts(h.kind, h.value);
      var text := Written(h);
      assert s[q..][..|text|] == text;
      assert Holds(s, q, text);
      HoldsAt(s, q, text, 0);
      if h.before {
        HoldsAt(text, 1, Spelling(h.kind, h.value), 0);
        HoldsAt(s, q, text, 1);
        SpanEndUnique(s, q, q + 1, Space);
      } else {
        HoldsAt(text, 0, Spelling(h.kind, h.value), 0);
        SpanEndUnique(s, q, q, Space);
      }
    }
  }

  function TokenStart(p: nat, h: Piece): nat {
    if h.before then p + 1 else p
  }

  /** Where a written text stands in the input, its middle and what follows it stand too. */
  lemma MiddleAhead(s: string, p: nat, written: string, rest: string, from: nat, text: string)
    requires p <= |s| && s[p..] == written + rest && Holds(written, from, text)
    ensures Holds(s, p, written) && Holds(s, p + from, text) && s[p + |written|..] == rest
  {
    assert s == s[..p] + (written + rest);
    assert s[p..p + |written|] == written;
    assert s[p + from..p + from + |text|] == written[from..from + |text|];
  }

  /** The first token of a rendering stands where it should, white space about it, and the rest follows it. */
  lemma WrittenAhead(s: string, p: nat, ps: seq<Piece>)
    requires p <= |s| && s[p..] == Render(ps) && ps != [] && ValidLexeme(ps[0].kind, ps[0].value)
    ensures var h := ps[0]; var start := TokenStart(p, h); var end := start + |Spelling(h.kind, h.value)|;
            var next := p + |Written(h)|;
            && Holds(s, start, Spelling(h.kind, h.value))
            && AllIn(s, p, start, Space) && AllIn(s, end, next, Space)
            && next <= |s| && s[next..] == Render(ps[1..])
            && next == (if h.after then end + 1 else end) && (h.after ==> s[end] == ' ')
  {
    hide Spelling, ValidLexeme, Written;
    var h := ps[0];
    var written := Written(h);
    WrittenParts(h);
    MiddleAhead(s, p, written, Render(ps[1..]), if h.before then 1 else 0, Spelling(h.kind, h.value));
    hide Render;
    SpaceOrNot(s, p, written, h.before, 0);
    SpaceOrNot(s, p, written, h.after, |written| - 1);
    hide Holds, AllIn;
  }

  /** A space that a written text has at a place, and nothing where it has none, is white space in the input. */
  lemma SpaceOrNot(s: string, p: nat, written: string, space: bool, at: int)
    requires Holds(s, p, written)
    requires space ==> 0 <= at < |written| && written[at] == ' '
    ensures space ==> s[p + at] == ' ' && AllIn(s, p + at, p + at + 1, Space)
    ensures AllIn(s, p, p, Space) && AllIn(s, p + |written|, p + |written|, Space)
  {
    if space {
      HoldsAt(s, p, written, at);
    }
  }

  lemma PiecesAhead(s: string, p: nat, last: Option<TokenType>, ps: seq<Piece>)
    requires p <= |s| && s[p..] == Render(ps) && ps != [] && Flows(last, ps, None)
    ensures var h := ps[0]; var start := TokenStart(p, h); var end := start + |Spelling(h.kind, h.value)|;
            var next := p + |Written(h)|;
            && Holds(s, start, Spelling(h.kind, h.value))
            && AllIn(s, p, start, Space) && AllIn(s, end, next, Space)
            && s[next..] == Render(ps[1..])
            && Fits(last, h, CharAfter(s, end), ParenAfter(s, end))
  {
    hide Spelling, ValidLexeme, WordAllowed, FitsBefore, Written, Render;
    var h := ps[0];
    WrittenAhead(s, p, ps);
    var start, next := TokenStart(p, h), p + |Written(h)|;
    var end := start + |Spelling(h.kind, h.value)|;
    NextInRendering(s, next, Some(h.kind), ps[1..]);
    hide Holds;
    if h.after {
      SpanEndUnique(s, end, SpanEnd(s, next, Space), Space);
    }
  }

  lemma LexFromReads(s: string, p: nat, start: nat, tokens: seq<Token>)
    requires AllIn(s, p, start, Space) && start < |s| && !IsSpace(s[start])
    ensures var read := ReadToken(s, start, LastKind(tokens));
            if read.Failure? then LexFrom(s, p, tokens).Failure?
            else LexFrom(s, p, tokens) == LexFrom(s, read.value.next, tokens + [read.value.token])
  {
    SpanEndUnique(s, p, start, Space);
  }

  /** One step of the lexer over a rendering. */
  lemma LexStep(s: string, p: nat, tokens: seq<Token>, ps: seq<Piece>)
    requires p <= |s| && s[p..] == Render(ps) && ps != [] && Flows(LastKind(tokens), ps, None)
    ensures var h := ps[0]; var next := p + |Written(h)|;
            && next <= |s| && s[next..] == Render(ps[1..])
            && (if SignAllowed(LastKind(tokens), h.kind, h.value)
                then LexFrom(s, p, tokens) == LexFrom(s, next, tokens + [Token(h.kind, h.value, TokenStart(p, h))])
                else LexFrom(s, p, tokens).Failure?)
  {
    hide Spelling, Fits, Written, ReadToken, SignAllowed, Flows, LexFrom;
    var h, last := ps[0], LastKind(tokens);
    var start := TokenStart(p, h);
    PiecesAhead(s, p, last, ps);
    PieceReads(s, start, last, h);
    hide Holds, Render, CharAfter, ParenAfter, LastKind;
    LexFromReads(s, p, start, tokens);
    if SignAllowed(last, h.kind, h.value) {
      var reading := ReadToken(s, start, last).value;
      var end := start + |Spelling(h.kind, h.value)|;
      hide AllIn;
      LexFromSkips(s, end, reading.next, tokens + [reading.token]);
      LexFromSkips(s, end, p + |Written(h)|, tokens + [reading.token]);
    }
  }

  lemma LexEnd(s: string, tokens: seq<Token>)
    ensures LexFrom(s, |s|, tokens) == Success(tokens)
  {
  }

  /**
   * Lexing inverts rendering: a list of tokens that flows, written at the end of the input, is read back as that list
   * after the tokens already read, unless a minus sign stands where the lexer allows none, and then it is refused.
   */
  lemma {:induction false} LexRendered(s: string, p: nat, tokens: seq<Token>, ps: seq<Piece>) returns (more: seq<Token>)
    requires p <= |s| && s[p..] == Render(ps) && Flows(LastKind(tokens), ps, None)
    ensures SignsAllowed(LastKind(tokens), ps) ==> SameTokens(more, ps) && LexFrom(s, p, tokens) == Success(tokens + more)
    ensures !SignsAllowed(LastKind(tokens), ps) ==> LexFrom(s, p, tokens).Failure?
    decreases |ps|
  {
    hide Fits, Written, SignAllowed, LexFrom;
    more := [];
    if ps == [] {
      LexEnd(s, tokens);
      assert tokens + more == tokens;
    } else {
      var h := ps[0];
      LexStep(s, p, tokens, ps);
      if SignAllowed(LastKind(tokens), h.kind, h.value) {
        var token := Token(h.kind, h.value, TokenStart(p, h));
        var rest := LexRendered(s, p + |Written(h)|, tokens + [token], ps[1..]);
        more := [token] + rest;
        assert tokens + more == tokens + [token] + rest;
      }
    }
  }
}
