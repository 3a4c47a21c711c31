/** What the lexer accepts: every token is well formed where it stands, and the input is the tokens and white space. */
module FilterLexerSound {
  import opened Strings
  import opened FilterTypes
  import opened FilterLexer
  import opened FilterLexemes

  /** The words that may be written in any case. */
  predicate AnyCase(kind: TokenType, value: string) {
    || kind == BooleanToken || kind == ComparisonOp || kind == LogicalOp || kind == NotOp || kind == ArithmeticOp
    || kind == LambdaOp || (kind == FunctionToken && IsFunctionName(value))
  }

  /** `text` is a way to write a token of this kind and value. */
  predicate SpelledAs(text: string, kind: TokenType, value: string) {
    text == Spelling(kind, value) || (AnyCase(kind, value) && IsWord(text) && Lower(text) == value)
  }

  predicate Spells(text: string, token: Token) {
    SpelledAs(text, token.kind, token.value)
  }

  /** A reading of the input at `p` that ends at `end`, before any white space it skips. */
  predicate ReadsSoundly(s: string, p: nat, end: nat, last: Option<TokenType>, r: Reading) {
    && p < end <= r.next && AllIn(s, end, r.next, Space)
    && r.token.position == p && Spells(s[p..end], r.token)
    && ValidLexeme(r.token.kind, r.token.value) && ValidAfter(last, r.token.kind, r.token.value)
  }

  lemma {:induction false} EscapeAppend(a: string, c: char)
    ensures Escape(a + [c]) == Escape(a) + Escape([c])
  {
    if a == "" {
      assert a + [c] == [c];
    } else {
      assert (a + [c])[1..] == a[1..] + [c];
      EscapeAppend(a[1..], c);
    }
  }

  lemma {:induction false} StringBodySpelled(s: string, p: nat, value: string)
    requires p <= |s| && StringBody(s, p, value).Some?
    ensures var (all, next) := StringBody(s, p, value).value;
            Escape(value) + s[p..next] == Escape(all) + "'"
    decreases |s| - p
  {
    var (all, next) := StringBody(s, p, value).value;
    if s[p] == '\'' {
      if CharAt(s, p + 1, '\'') {
        EscapeAppend(value, '\'');
        StringBodySpelled(s, p + 2, value + ['\'']);
        assert s[p..next] == "''" + s[p + 2..next];
      }
    } else {
      EscapeAppend(value, s[p]);
      StringBodySpelled(s, p + 1, value + [s[p]]);
      assert s[p..next] == [s[p]] + s[p + 1..next];
    }
  }

  lemma NumberSpelled(s: string, p: nat)
    requires p < |s| && (IsDigit(s[p]) || (s[p] == '-' && p + 1 < |s| && IsDigit(s[p + 1])))
    ensures IsNumber(s[p..NumberEnd(s, p)])
  {
    var end := NumberEnd(s, p);
    var value := s[p..end];
    var sign := if s[p] == '-' then 1 else 0;
    var whole := SpanEnd(s, p + sign, Digit);
    SpanEndUnique(value, sign, whole - p, Digit);
    if CharAt(s, whole, '.') {
      SpanEndUnique(value, whole + 1 - p, end - p, Digit);
    }
  }

  lemma AllInSlice(s: string, p: nat, end: nat, lo: nat, hi: nat, class_: CharClass)
    requires p <= lo && hi <= end <= |s| && AllIn(s, lo, hi, class_)
    ensures AllIn(s[p..end], lo - p, hi - p, class_)
  {
    hide InClass;
  }

  lemma DateInSlice(s: string, p: nat, end: nat)
    requires DateAt(s, p) && p + 10 <= end <= |s|
    ensures DateAt(s[p..end], 0)
  {
    AllInSlice(s, p, end, p, p + 4, Digit);
    AllInSlice(s, p, end, p + 5, p + 7, Digit);
    AllInSlice(s, p, end, p + 8, p + 10, Digit);
    hide AllIn;
  }

  lemma TimeInSlice(s: string, p: nat, at: nat, end: nat)
    requires p <= at && TimeOfDayAt(s, at) && at + 8 <= end <= |s|
    ensures TimeOfDayAt(s[p..end], at - p)
  {
    AllInSlice(s, p, end, at, at + 2, Digit);
    AllInSlice(s, p, end, at + 3, at + 5, Digit);
    AllInSlice(s, p, end, at + 6, at + 8, Digit);
    hide AllIn;
  }

  lemma FractionInSlice(s: string, p: nat, at: nat, end: nat)
    requires p <= at <= end <= |s| && FractionEnd(s, at) < end
    ensures FractionEnd(s[p..end], at - p) == FractionEnd(s, at) - p
  {
    var value := s[p..end];
    if CharAt(s, at, '.') {
      var digits := SpanEnd(s, at + 1, Digit);
      AllInSlice(s, p, end, at + 1, if digits <= end then digits else end, Digit);
      SpanEndUnique(value, at + 1 - p, (if digits <= end then digits else end) - p, Digit);
    }
  }

  lemma ZoneInSlice(s: string, p: nat, at: nat)
    requires p <= at && ZoneEnd(s, at).Some?
    ensures at < ZoneEnd(s, at).value <= |s|
    ensures ZoneEnd(s[p..ZoneEnd(s, at).value], at - p) == Some(ZoneEnd(s, at).value - p)
  {
    var end := ZoneEnd(s, at).value;
    if !CharAt(s, at, 'Z') {
      AllInSlice(s, p, end, at + 1, at + 3, Digit);
      AllInSlice(s, p, end, at + 4, at + 6, Digit);
    }
    hide AllIn;
  }

  lemma DateTimeOffsetSpelled(s: string, p: nat)
    requires DateTimeOffsetEnd(s, p).Some?
    ensures p < DateTimeOffsetEnd(s, p).value <= |s|
    ensures IsDateTimeOffset(s[p..DateTimeOffsetEnd(s, p).value])
  {
    hide DateAt, TimeOfDayAt, ZoneEnd, FractionEnd;
    var end := DateTimeOffsetEnd(s, p).value;
    assert p + 19 <= |s| by {
      TimeFits(s, p + 11);
    }
    var fraction := FractionEnd(s, p + 19);
    ZoneInSlice(s, p, fraction);
    DateInSlice(s, p, end);
    TimeInSlice(s, p, p + 11, end);
    FractionInSlice(s, p, p + 19, end);
  }

  lemma DateFits(s: string, p: nat)
    requires DateAt(s, p)
    ensures p + 10 <= |s|
  {
  }

  lemma TimeFits(s: string, p: nat)
    requires TimeOfDayAt(s, p)
    ensures p + 8 <= |s|
  {
  }

  lemma GuidInSlice(s: string, p: nat)
    requires GuidAt(s, p)
    ensures p + 36 <= |s| && GuidAt(s[p..p + 36], 0)
  {
    AllInSlice(s, p, p + 36, p, p + 8, HexDigit);
    AllInSlice(s, p, p + 36, p + 9, p + 13, HexDigit);
    AllInSlice(s, p, p + 36, p + 14, p + 18, HexDigit);
    AllInSlice(s, p, p + 36, p + 19, p + 23, HexDigit);
    AllInSlice(s, p, p + 36, p + 24, p + 36, HexDigit);
    hide AllIn;
  }

  lemma DigitsSound(s: string, p: nat, last: Option<TokenType>)
    requires p < |s| && IsDigit(s[p])
    ensures var r := ReadDigits(s, p); ReadsSoundly(s, p, r.next, last, r)
  {
    hide DateAt, TimeOfDayAt, GuidAt, DateTimeOffsetEnd, EndsCleanly, NumberEnd, IsNumber;
    if GuidAt(s, p) && EndsCleanly(s, p + 36) {
      GuidInSlice(s, p);
    } else if DateTimeOffsetEnd(s, p).Some? {
      DateTimeOffsetSpelled(s, p);
    } else if DateAt(s, p) && EndsCleanly(s, p + 10) {
      DateFits(s, p);
      DateInSlice(s, p, p + 10);
    } else if TimeOfDayAt(s, p) && EndsCleanly(s, p + 8) {
      TimeFits(s, p);
      TimeInSlice(s, p, p, p + 8);
    } else {
      NumberSpelled(s, p);
    }
  }

  lemma WordValid(word: string)
    requires IsWord(word)
    ensures IsWord(Lower(word)) && Lower(Lower(word)) == Lower(word)
  {
    LowerIdempotent(word);
  }

  lemma LambdaOpIsNoFunction(word: string)
    requires IsLambdaOp(Lower(word))
    ensures !IsFunctionName(word) && !IsFunctionName(Lower(word))
  {
    assert Lower(word)[0] == 'a' && (word[0] == 'a' || word[0] == 'A');
  }

  lemma InIsNoFunction()
    ensures !IsFunctionName("in")
  {
  }

  lemma FixedWordValid(word: string, last: Option<TokenType>)
    requires FixedWord(Lower(word)).Some?
    ensures var kind := FixedWord(Lower(word)).value;
            && ValidLexeme(kind, if kind == NullToken then word else Lower(word))
            && ValidAfter(last, kind, if kind == NullToken then word else Lower(word))
    ensures var kind := FixedWord(Lower(word)).value; kind == NullToken || AnyCase(kind, Lower(word))
  {
    LowerIdempotent(word);
    hide IsFunctionName, IsComparisonOp, IsBoolean, IsLogicalOp, IsArithmeticOp, Lower, IsName, IsNumber, IsGuid, IsEnum, IsDateTimeOffset, DateAt, TimeOfDayAt, AllIn;
  }

  lemma ContextWordValid(word: string, last: Option<TokenType>)
    requires ContextWord(Lower(word), last).Some?
    ensures var kind := ContextWord(Lower(word), last).value;
            ValidLexeme(kind, Lower(word)) && ValidAfter(last, kind, Lower(word))
    ensures AnyCase(ContextWord(Lower(word), last).value, Lower(word))
  {
    hide IsFunctionName;
  }

  lemma NameWordValid(word: string, beforeParen: bool, last: Option<TokenType>)
    requires IsWord(word) && FixedWord(Lower(word)).None? && ContextWord(Lower(word), last).None?
    ensures var (kind, value) := NameWord(word, beforeParen);
            && ValidLexeme(kind, value) && ValidAfter(last, kind, value)
            && ((value == word && kind != StringToken && kind != DurationToken) || (AnyCase(kind, value) && Lower(word) == value))
  {
    hide IsFunctionName, FixedWord;
    WordValid(word);
    InIsNoFunction();
    if IsLambdaOp(Lower(word)) {
      LambdaOpIsNoFunction(word);
    }
  }

  lemma PlainWordSound(s: string, p: nat, end: nat, last: Option<TokenType>)
    requires p < end <= |s| && IsWord(s[p..end])
    ensures ReadsSoundly(s, p, end, last, ReadPlainWord(s, p, end, last))
  {
    hide IsFunctionName, FixedWord, ContextWord, NameWord, ValidLexeme, ValidAfter;
    var word := s[p..end];
    WordValid(word);
    if FixedWord(Lower(word)).Some? {
      FixedWordValid(word, last);
    } else if ContextWord(Lower(word), last).Some? {
      ContextWordValid(word, last);
    } else {
      NameWordValid(word, CharAt(s, SpanEnd(s, end, Space), '('), last);
    }
  }

  lemma DurationSound(s: string, p: nat, end: nat, close: nat, last: Option<TokenType>)
    requires p < end < close < |s| && s[end] == '\'' && s[close] == '\'' && AllIn(s, end + 1, close, NotQuote)
    requires s[p..end] == "duration"
    ensures ReadsSoundly(s, p, close + 1, last, Reading(Token(DurationToken, s[end + 1..close], p), close + 1))
  {
    hide IsFunctionName, IsWord;
    var value := s[end + 1..close];
    assert s[p..close + 1] == s[p..end] + "'" + value + "'";
    assert Spelling(DurationToken, value) == "duration" + "'" + value + "'";
    assert forall i | 0 <= i < |value| :: value[i] == s[end + 1 + i];
  }

  lemma EnumSound(s: string, p: nat, end: nat, close: nat, last: Option<TokenType>)
    requires p < end < close < |s| && s[end] == '\'' && s[close] == '\'' && AllIn(s, end + 1, close, NotQuote)
    requires IsWord(s[p..end]) && '.' in s[p..end]
    ensures ReadsSoundly(s, p, close + 1, last, Reading(Token(EnumToken, s[p..close + 1], p), close + 1))
  {
    EnumSpelled(s, p, end, close);
    hide IsEnum, IsWord, AllIn;
  }

  lemma EnumSpelled(s: string, p: nat, end: nat, close: nat)
    requires p < end < close < |s| && s[end] == '\'' && s[close] == '\'' && AllIn(s, end + 1, close, NotQuote)
    requires IsWord(s[p..end]) && '.' in s[p..end]
    ensures IsEnum(s[p..close + 1])
  {
    var word, value := s[p..end], s[p..close + 1];
    assert value[..end - p] == word;
    AllInSlice(s, p, close + 1, end + 1, close, NotQuote);
    assert AllIn(value, 0, end - p, WordChar) by {
      assert forall i | 0 <= i < end - p :: value[i] == word[i];
    }
    hide AllIn, IsWord;
    SpanEndUnique(value, 0, end - p, WordChar);
    SpanEndUnique(value, end + 1 - p, close - p, NotQuote);
  }

  lemma WordSound(s: string, p: nat, last: Option<TokenType>) returns (end: nat)
    requires p < |s| && (IsLetter(s[p]) || s[p] == '_')
    ensures var r := ReadWord(s, p, last); r.Success? ==> ReadsSoundly(s, p, end, last, r.value)
  {
    hide IsFunctionName, ReadPlainWord, ReadsSoundly;
    end := SpanEnd(s, p, WordChar);
    var word := s[p..end];
    if CharAt(s, end, '\'') && SpanEnd(s, end + 1, NotQuote) < |s| && (word == "duration" || '.' in word) {
      var close := SpanEnd(s, end + 1, NotQuote);
      if word == "duration" {
        DurationSound(s, p, end, close, last);
      } else {
        EnumSound(s, p, end, close, last);
      }
      end := close + 1;
    } else {
      PlainWordSound(s, p, end, last);
    }
  }

  lemma StringSound(s: string, p: nat, last: Option<TokenType>)
    requires p < |s| && s[p] == '\'' && ReadString(s, p).Success?
    ensures ReadsSoundly(s, p, ReadString(s, p).value.next, last, ReadString(s, p).value)
  {
    var end := ReadString(s, p).value.next;
    StringBodySpelled(s, p + 1, "");
    hide StringBody, IsWord;
    assert s[p..end] == "'" + (Escape("") + s[p + 1..end]);
  }

  lemma PunctuationSound(s: string, p: nat, last: Option<TokenType>)
    requires p < |s| && Punctuation(s[p]).Some?
    ensures ReadsSoundly(s, p, p + 1, last, Reading(Token(Punctuation(s[p]).value, [s[p]], p), p + 1))
  {
    hide IsWord, Lower;
    assert s[p..p + 1] == [s[p]];
  }

  lemma NegativeSound(s: string, p: nat, last: Option<TokenType>)
    requires p + 1 < |s| && s[p] == '-' && IsDigit(s[p + 1]) && AllowsNegative(last)
    ensures ReadsSoundly(s, p, ReadNumber(s, p).next, last, ReadNumber(s, p))
  {
    NumberSpelled(s, p);
    hide IsNumber, NumberEnd, IsWord;
  }

  /** One token: it is well formed, spelled by the input, and followed only by white space that is skipped. */
  lemma TokenSound(s: string, p: nat, last: Option<TokenType>) returns (end: nat)
    requires p < |s| && ReadToken(s, p, last).Success?
    ensures ReadsSoundly(s, p, end, last, ReadToken(s, p, last).value)
  {
    hide IsFunctionName, ReadWord, ReadsSoundly, ReadDigits, ReadString, ReadNumber, NumberEnd;
    end := ReadToken(s, p, last).value.next;
    var c := s[p];
    if IsDigit(c) {
      DigitsSound(s, p, last);
    } else if c == '\'' {
      StringSound(s, p, last);
    } else if Punctuation(c).Some? {
      PunctuationSound(s, p, last);
    } else if c == '-' {
      NegativeSound(s, p, last);
    } else {
      end := WordSound(s, p, last);
    }
  }

  /** The tokens are spelled by spans of the input, in order and apart, with only white space between and around them. */
  predicate Covers(s: string, p: nat, tokens: seq<Token>, ends: seq<nat>)
    requires |ends| == |tokens|
    decreases |tokens|
  {
    if tokens == [] then AllIn(s, p, |s|, Space)
    else
      && p <= tokens[0].position < ends[0] <= |s|
      && AllIn(s, p, tokens[0].position, Space)
      && Spells(s[tokens[0].position..ends[0]], tokens[0])
      && Covers(s, ends[0], tokens[1..], ends[1..])
  }

  lemma CoversFrom(s: string, p: nat, q: nat, tokens: seq<Token>, ends: seq<nat>)
    requires |ends| == |tokens| && Covers(s, q, tokens, ends) && AllIn(s, p, q, Space)
    ensures Covers(s, p, tokens, ends)
  {
  }

  lemma {:induction false} LexFromSound(s: string, p: nat, tokens: seq<Token>) returns (more: seq<Token>, ends: seq<nat>)
    requires p <= |s| && Lexed(tokens) && LexFrom(s, p, tokens).Success?
    ensures LexFrom(s, p, tokens).value == tokens + more && Lexed(tokens + more)
    ensures |ends| == |more| && Covers(s, p, more, ends)
    decreases |s| - p
  {
    hide IsFunctionName, ReadToken, ValidLexeme, ValidAfter, Spells;
    var start := SpanEnd(s, p, Space);
    if start == |s| {
      more, ends := [], [];
      assert tokens + more == tokens;
    } else {
      var reading := ReadToken(s, start, LastKind(tokens)).value;
      var end := TokenSound(s, start, LastKind(tokens));
      var rest, restEnds := LexFromSound(s, reading.next, tokens + [reading.token]);
      more, ends := [reading.token] + rest, [end] + restEnds;
      CoversFrom(s, end, reading.next, rest, restEnds);
      assert tokens + more == tokens + [reading.token] + rest;
      assert more[1..] == rest && ends[1..] == restEnds;
    }
  }

  /**
   * The lexer loses nothing: whatever it accepts is a row of spans that spell its tokens, disjoint and in order, with
   * only white space between and around them, and each token is well formed where it stands.
   */
  lemma LexSound(s: string, tokens: seq<Token>)
    requires Lex(s) == Success(tokens)
    ensures Lexed(tokens)
    ensures exists ends: seq<nat> | |ends| == |tokens| :: Covers(s, 0, tokens, ends)
  {
    var more, ends := LexFromSound(s, 0, []);
    assert [] + more == more;
  }

  /** A guid is read only where a digit starts it: one that starts with a letter is read as something else. */
  lemma GuidNeedsDigit(s: string, p: nat, last: Option<TokenType>)
    requires p < |s| && ReadToken(s, p, last).Success? && ReadToken(s, p, last).value.token.kind == GuidToken
    ensures IsDigit(s[p]) && GuidAt(s, p)
  {
    hide GuidAt, DateAt, TimeOfDayAt, DateTimeOffsetEnd, IsFunctionName, IsComparisonOp, IsArithmeticOp, IsLogicalOp, IsBoolean;
  }

  // What the lexer refuses

  /** The error says what stands where it says: a character no token starts with, or a quotation mark never closed. */
  predicate Explains(s: string, error: LexerError) {
    error.position < |s| &&
    var c := s[error.position];
    match error.message
    case UnexpectedCharacter(said) =>
      said == c && !IsSpace(c) && !IsDigit(c) && !IsLetter(c) && c !in "_'(),:/"
    case UnterminatedString => c == '\''
    case UnterminatedEnum =>
      var end := SpanEnd(s, error.position, WordChar);
      (IsLetter(c) || c == '_') && CharAt(s, end, '\'') && '\'' !in s[end + 1..]
  }

  lemma NoQuoteAhead(s: string, p: nat)
    requires p <= |s| && SpanEnd(s, p, NotQuote) == |s|
    ensures '\'' !in s[p..]
  {
    forall i | 0 <= i < |s[p..]| ensures s[p..][i] != '\'' {
      assert InClass(s[p + i], NotQuote);
    }
  }

  lemma ReadErrorExplains(s: string, p: nat, last: Option<TokenType>)
    requires p < |s| && !IsSpace(s[p]) && ReadToken(s, p, last).Failure?
    ensures ReadToken(s, p, last).error.position == p && Explains(s, ReadToken(s, p, last).error)
  {
    hide ReadPlainWord, ReadDigits, ReadNumber, StringBody;
    var c, end := s[p], SpanEnd(s, p, WordChar);
    if IsLetter(c) || c == '_' {
      assert ReadToken(s, p, last) == ReadWord(s, p, last);
      assert CharAt(s, end, '\'') && SpanEnd(s, end + 1, NotQuote) == |s|;
      NoQuoteAhead(s, end + 1);
    } else if c != '\'' {
      Unexpected(c);
    }
  }

  lemma Unexpected(c: char)
    requires Punctuation(c).None? && c != '_' && c != '\''
    ensures c !in "_'(),:/"
  {
  }

  lemma {:induction false} LexFromExplains(s: string, p: nat, tokens: seq<Token>)
    requires p <= |s| && LexFrom(s, p, tokens).Failure?
    ensures Explains(s, LexFrom(s, p, tokens).error)
    decreases |s| - p
  {
    hide ReadToken, Explains;
    var start := SpanEnd(s, p, Space);
    if ReadToken(s, start, LastKind(tokens)).Failure? {
      ReadErrorExplains(s, start, LastKind(tokens));
    } else {
      var reading := ReadToken(s, start, LastKind(tokens)).value;
      LexFromExplains(s, reading.next, tokens + [reading.token]);
    }
  }

  /** Whatever text the lexer refuses, it says truly where and why. */
  lemma LexErrorExplains(s: string)
    requires Lex(s).Failure?
    ensures Explains(s, Lex(s).error)
  {
    hide Explains, LexFrom;
    LexFromExplains(s, 0, []);
  }
}
