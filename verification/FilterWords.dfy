/** The words of the `$filter` language, written out: what each makes of a text, in whatever case its letters are. */
module FilterWords {
  import opened Strings
  import opened FilterTypes
  import opened FilterLexer
  import opened FilterLexemes
  import opened FilterLexerSound
  import opened FilterRendering
  import opened FilterSerializer
  import opened FilterGrammar
  import opened FilterPrinting
  import opened FilterParser
  import opened FilterWriting
  import opened FilterSpelling

  // Forms

  predicate IsSpaces(gap: string) {
    gap != "" && AllIn(gap, 0, |gap|, Space)
  }

  function NameForm(name: string, gap: string): Form {
    Form(PropertyToken, name, name, gap)
  }

  function LiteralForm(value: LiteralValue, dataType: LiteralDataType, gap: string): Form {
    Form(LiteralKind(dataType), ValueText(value), LiteralText(value, dataType), gap)
  }

  function Sign(kind: TokenType, letter: char): Form {
    Form(kind, [letter], [letter], "")
  }

  /** A word whose letters, in lower case, are a word of lower-case letters, is a word. */
  lemma CasedWord(word: string, lower: string)
    requires Lower(word) == lower && lower != "" && forall i | 0 <= i < |lower| :: 'a' <= lower[i] <= 'z'
    ensures IsWord(word)
  {
    assert forall i | 0 <= i < |word| :: lower[i] == LowerChar(word[i]);
  }

  lemma NameStands(last: Option<TokenType>, name: string, gap: string, next: Option<Form>)
    requires IsName(name) && AllIn(gap, 0, |gap|, Space)
    requires last.None? || !(EndsValue(last.value) || last == Some(Slash))
    requires next.Some? ==> next.value.kind != LParen && (gap != "" || (next.value.text != "" && EndsWord(Some(next.value.text[0]))))
    ensures Neighbours(last, NameForm(name, gap), next)
  {
    hide FixedWord, Lower;
  }

  lemma LiteralStands(last: Option<TokenType>, value: LiteralValue, dataType: LiteralDataType, gap: string, next: Option<Form>)
    requires WellFormedLiteral(value, dataType) && AllIn(gap, 0, |gap|, Space) && AllowsNegative(last)
    requires next.Some? ==> gap != "" || (next.value.text != "" && EndsLiteral(Some(next.value.text[0])))
    ensures Neighbours(last, LiteralForm(value, dataType, gap), next)
  {
    hide WellFormedLiteral, AllowsNegative, Fits, LiteralText, LiteralKind, ValueText, Spelling, EndsLiteral, Neighbours;
    var follow := if gap != "" then Some(gap[0]) else if next.Some? then Some(next.value.text[0]) else None;
    SpaceEnds(gap);
    LiteralFits(value, dataType, last, follow);
    LiteralSpelled(value, dataType);
    FitsBeside(last, LiteralForm(value, dataType, gap), follow, next);
  }

  lemma SpaceEnds(gap: string)
    requires AllIn(gap, 0, |gap|, Space)
    ensures gap != "" ==> EndsLiteral(Some(gap[0]))
    ensures EndsLiteral(None)
  {
  }

  /** A token but a word that fits before what follows it stands beside it. */
  lemma FitsBeside(last: Option<TokenType>, form: Form, follow: Option<char>, next: Option<Form>)
    requires form.text == Spelling(form.kind, form.value) && AllIn(form.gap, 0, |form.gap|, Space) && AllowsNegative(last)
    requires form.kind != PropertyToken && form.kind != FunctionToken && form.kind != ComparisonOp && form.kind != LambdaOp
    requires Fits(last, Tight(form.kind, form.value), follow, false)
    requires follow == if form.gap != "" then Some(form.gap[0])
                       else if next.Some? && next.value.text != "" then Some(next.value.text[0]) else None
    ensures Neighbours(last, form, next)
  {
    SpellingStarts(form.kind, form.value);
    hide ValidLexeme, Spelling, AllowsNegative, EndsLiteral, EndsWord, Lower;
  }

  lemma LiteralSpelled(value: LiteralValue, dataType: LiteralDataType)
    requires WellFormedLiteral(value, dataType)
    ensures LiteralText(value, dataType) == Spelling(LiteralKind(dataType), ValueText(value))
    ensures var kind := LiteralKind(dataType); kind != PropertyToken && kind != FunctionToken && kind != ComparisonOp && kind != LambdaOp
    ensures LiteralKind(dataType) != LParen
  {
    hide ValidLexeme, IsNumber;
  }

  // Rows of a few tokens

  /** The text so far, and the forms after it. */
  function Line(text: string, forms: seq<Form>): string
    decreases |forms|
  {
    if forms == [] then text
    else Line(if forms[0].gap == "" then text + forms[0].text else text + forms[0].text + forms[0].gap, forms[1..])
  }

  lemma {:induction false} LineIs(text: string, forms: seq<Form>)
    ensures Line(text, forms) == text + TextOf(forms)
    decreases |forms|
  {
    if forms == [] {
      assert text + "" == text;
    } else {
      var form, rest := forms[0], forms[1..];
      LineIs(if form.gap == "" then text + form.text else text + form.text + form.gap, rest);
      ConcatAssociates(text + form.text, form.gap, TextOf(rest));
      ConcatAssociates(text, form.text, form.gap + TextOf(rest));
      assert text + form.text + "" == text + form.text;
    }
  }

  /** Tokens that stand, and that write a tree wherever they are, are a text that parses to it. */
  lemma LineParses(forms: seq<Form>, e: FilterExpression)
    requires forall i | 0 <= i < |forms| :: Neighbours(KindBefore(None, forms, i), forms[i], FormAt(forms, i + 1))
    requires Writes(TokensAt(forms, 0), 0, |forms|, e, OrLevel)
    ensures ParseFilter(Line("", forms)) == Success(e)
  {
    hide Neighbours, Stand, TextOf, ParseFilter, Writes, Line, TokensAt;
    NeighboursStand(None, forms);
    WrittenFilterParsesExactly("", forms, e);
    LineIs("", forms);
  }

  // Comparison words

  lemma WordStands(last: Option<TokenType>, kind: TokenType, word: string, gap: string, next: Option<Form>)
    requires IsWord(word) && AnyCase(kind, Lower(word)) && ValidLexeme(kind, Lower(word)) && WordAllowed(last, kind, Lower(word))
    requires kind != FunctionToken && kind != LambdaOp && IsSpaces(gap)
    ensures Neighbours(last, Form(kind, Lower(word), word, gap), next)
  {
    hide ValidLexeme, WordAllowed, Lower;
  }

  lemma ThreeStand(a: Form, b: Form, c: Form)
    requires Neighbours(None, a, Some(b)) && Neighbours(Some(a.kind), b, Some(c)) && Neighbours(Some(b.kind), c, None)
    ensures forall i | 0 <= i < 3 :: Neighbours(KindBefore(None, [a, b, c], i), [a, b, c][i], FormAt([a, b, c], i + 1))
  {
    hide Neighbours;
  }

  lemma ThreeLine(a: Form, b: Form, c: Form)
    requires a.gap != "" && b.gap != "" && c.gap == ""
    ensures Line("", [a, b, c]) == a.text + a.gap + b.text + b.gap + c.text
  {
    assert "" + a.text == a.text;
    assert [a, b, c][1..] == [b, c] && [b, c][1..] == [c] && [c][1..] == [];
    assert Line("", [a, b, c]) == Line(a.text + a.gap, [b, c]);
    assert Line(a.text + a.gap, [b, c]) == Line(a.text + a.gap + b.text + b.gap, [c]);
  }

  lemma ComparisonWord(word: string)
    requires Lower(word) in ["eq", "ne", "gt", "ge", "lt", "le", "has"]
    ensures IsWord(word) && ValidLexeme(ComparisonOp, Lower(word)) && AnyCase(ComparisonOp, Lower(word)) && Lower(word) != "in"
  {
    CasedWord(word, Lower(word));
  }

  /** A name, a comparison word in any case, and a literal, with any white space between. */
  lemma ComparisonWords(name: string, before: string, word: string, after: string, value: LiteralValue, dataType: LiteralDataType)
    requires IsName(name) && WellFormedLiteral(value, dataType) && IsSpaces(before) && IsSpaces(after)
    requires Lower(word) in ["eq", "ne", "gt", "ge", "lt", "le", "has"]
    ensures ParseFilter(name + before + word + after + LiteralText(value, dataType))
         == Success(Comparison(Lower(word), Property(name), Literal(value, dataType)))
  {
    hide IsName, WellFormedLiteral, LiteralText, LiteralKind, ValueText, Lower, IsWord, ValidLexeme, AnyCase, Neighbours, Line, Writes,
      ParseFilter;
    var a, b, c := NameForm(name, before), Form(ComparisonOp, Lower(word), word, after), LiteralForm(value, dataType, "");
    var e := Comparison(Lower(word), Property(name), Literal(value, dataType));
    ComparisonWord(word);
    NameStands(None, name, before, Some(b));
    WordStands(Some(PropertyToken), ComparisonOp, word, after, Some(c));
    LiteralStands(Some(ComparisonOp), value, dataType, "", None);
    ThreeStand(a, b, c);
    ThreeLine(a, b, c);
    ComparisonRow(TokensAt([a, b, c], 0), e);
    LineParses([a, b, c], e);
  }

  lemma ComparisonRow(ts: seq<Token>, e: FilterExpression)
    requires |ts| == 3 && e.Comparison? && e.operator != "in" && ts[1].kind == ComparisonOp && ts[1].value == e.operator
    requires e.left.Property? && ts[0].kind == PropertyToken && ts[0].value == e.left.name
    requires e.right.Literal? && ts[2].kind == LiteralKind(e.right.dataType) && ts[2].value == ValueText(e.right.value)
    requires WellFormedLiteral(e.right.value, e.right.dataType)
    ensures Writes(ts, 0, 3, e, OrLevel)
  {
    hide LiteralKind, ValueText, WellFormedLiteral, Writes;
    NameIsWritten(ts, 0, e.left.name, ArithmeticLevel);
    LiteralIsWritten(ts, 2, e.right.value, e.right.dataType, ArithmeticLevel);
    ComparisonIsWritten(ts, 0, 1, 3, e);
    Looser(ts, 0, 3, e, ComparisonLevel, OrLevel);
  }

  // Words between names

  lemma LogicalWord(word: string)
    requires Lower(word) in ["and", "or"]
    ensures IsWord(word) && ValidLexeme(LogicalOp, Lower(word)) && AnyCase(LogicalOp, Lower(word))
  {
    CasedWord(word, Lower(word));
  }

  lemma ArithmeticWord(word: string)
    requires Lower(word) in ["add", "sub", "mul", "div", "mod", "divby"]
    ensures IsWord(word) && ValidLexeme(ArithmeticOp, Lower(word)) && AnyCase(ArithmeticOp, Lower(word))
  {
    CasedWord(word, Lower(word));
  }

  lemma BetweenNames(left: string, before: string, word: string, after: string, right: string, kind: TokenType, e: FilterExpression)
    requires IsName(left) && IsName(right) && IsSpaces(before) && IsSpaces(after)
    requires kind == LogicalOp || kind == ArithmeticOp
    requires IsWord(word) && ValidLexeme(kind, Lower(word)) && AnyCase(kind, Lower(word))
    requires e == if kind == LogicalOp then Logical(Lower(word), Property(left), Property(right))
                  else Arithmetic(Lower(word), Property(left), Property(right))
    requires kind == LogicalOp ==> Lower(word) in ["and", "or"]
    ensures ParseFilter(left + before + word + after + right) == Success(e)
  {
    hide IsName, Lower, IsWord, ValidLexeme, AnyCase, Neighbours, Line, Writes, ParseFilter;
    var a, b, c := NameForm(left, before), Form(kind, Lower(word), word, after), NameForm(right, "");
    NameStands(None, left, before, Some(b));
    WordStands(Some(PropertyToken), kind, word, after, Some(c));
    NameStands(Some(kind), right, "", None);
    ThreeStand(a, b, c);
    ThreeLine(a, b, c);
    BinaryRow(TokensAt([a, b, c], 0), e);
    LineParses([a, b, c], e);
  }

  lemma BinaryRow(ts: seq<Token>, e: FilterExpression)
    requires |ts| == 3 && (e.Logical? || e.Arithmetic?)
    requires ts[1].kind == (if e.Logical? then LogicalOp else ArithmeticOp) && ts[1].value == e.operator
    requires e.Logical? ==> e.operator == "and" || e.operator == "or"
    requires e.left.Property? && ts[0].kind == PropertyToken && ts[0].value == e.left.name
    requires e.right.Property? && ts[2].kind == PropertyToken && ts[2].value == e.right.name
    ensures Writes(ts, 0, 3, e, OrLevel)
  {
    hide Writes;
    var or := e.operator == "or";
    NameIsWritten(ts, 0, e.left.name, if e.Arithmetic? then ArithmeticLevel else if or then OrLevel else AndLevel);
    NameIsWritten(ts, 2, e.right.name, if e.Arithmetic? then PrimaryLevel else if or then AndLevel else NotLevel);
    if e.Arithmetic? {
      ArithmeticIsWritten(ts, 0, 1, 3, e);
    } else {
      LogicalIsWritten(ts, 0, 1, 3, e);
    }
    Looser(ts, 0, 3, e, LevelOf(e), OrLevel);
  }

  lemma LogicalWords(left: string, before: string, word: string, after: string, right: string)
    requires IsName(left) && IsName(right) && IsSpaces(before) && IsSpaces(after)
    requires Lower(word) in ["and", "or"]
    ensures ParseFilter(left + before + word + after + right) == Success(Logical(Lower(word), Property(left), Property(right)))
  {
    hide IsName, IsWord, ValidLexeme, AnyCase, ParseFilter;
    LogicalWord(word);
    BetweenNames(left, before, word, after, right, LogicalOp, Logical(Lower(word), Property(left), Property(right)));
  }

  lemma ArithmeticWords(left: string, before: string, word: string, after: string, right: string)
    requires IsName(left) && IsName(right) && IsSpaces(before) && IsSpaces(after)
    requires Lower(word) in ["add", "sub", "mul", "div", "mod", "divby"]
    ensures ParseFilter(left + before + word + after + right) == Success(Arithmetic(Lower(word), Property(left), Property(right)))
  {
    hide IsName, IsWord, ValidLexeme, AnyCase, ParseFilter;
    ArithmeticWord(word);
    BetweenNames(left, before, word, after, right, ArithmeticOp, Arithmetic(Lower(word), Property(left), Property(right)));
  }

  // Words alone

  lemma NotWords(word: string, after: string, name: string)
    requires IsName(name) && IsSpaces(after) && Lower(word) == "not"
    ensures ParseFilter(word + after + name) == Success(Not(Property(name)))
  {
    var a, b := Form(NotOp, "not", word, after), NameForm(name, "");
    CasedWord(word, "not");
    hide IsName, Lower, IsWord, Neighbours, Line, Writes, ParseFilter;
    WordStands(None, NotOp, word, after, Some(b));
    NameStands(Some(NotOp), name, "", None);
    assert forall i | 0 <= i < 2 :: Neighbours(KindBefore(None, [a, b], i), [a, b][i], FormAt([a, b], i + 1));
    NotRow(TokensAt([a, b], 0), name);
    LineParses([a, b], Not(Property(name)));
    TwoLine(a, b);
  }

  lemma TwoLine(a: Form, b: Form)
    requires a.gap != "" && b.gap == ""
    ensures Line("", [a, b]) == a.text + a.gap + b.text
  {
    assert "" + a.text == a.text;
    assert [a, b][1..] == [b] && [b][1..] == [];
    assert Line("", [a, b]) == Line(a.text + a.gap, [b]);
  }

  lemma NotRow(ts: seq<Token>, name: string)
    requires |ts| == 2 && ts[0].kind == NotOp && ts[1].kind == PropertyToken && ts[1].value == name
    ensures Writes(ts, 0, 2, Not(Property(name)), OrLevel)
  {
    hide Writes;
    NameIsWritten(ts, 1, name, NotLevel);
    NotIsWritten(ts, 0, 2, Not(Property(name)));
    Looser(ts, 0, 2, Not(Property(name)), NotLevel, OrLevel);
  }

  lemma ConstantWords(word: string)
    ensures Lower(word) in ["true", "false"] ==> ParseFilter(word) == Success(Literal(Boolean(Lower(word) == "true"), BooleanType))
    ensures Lower(word) == "null" ==> ParseFilter(word) == Success(Literal(Null, NullType))
  {
    hide ParseFilter;
    if Lower(word) in ["true", "false"] {
      CasedWord(word, Lower(word));
      OneParses(Form(BooleanToken, Lower(word), word, ""), Literal(Boolean(Lower(word) == "true"), BooleanType));
    } else if Lower(word) == "null" {
      CasedWord(word, "null");
      OneParses(Form(NullToken, word, word, ""), Literal(Null, NullType));
    }
  }

  lemma OneParses(a: Form, e: FilterExpression)
    requires a.gap == "" && Neighbours(None, a, None) && e.Literal? && Denotes(Token(a.kind, a.value, 0), e.value, e.dataType)
    ensures ParseFilter(a.text) == Success(e)
  {
    hide Neighbours, Line, ParseFilter, Denotes;
    var ts := TokensAt([a], 0);
    assert ts == [Token(a.kind, a.value, 0)];
    assert Writes(ts, 0, 1, e, PrimaryLevel);
    hide Writes;
    Looser(ts, 0, 1, e, PrimaryLevel, OrLevel);
    assert forall i | 0 <= i < 1 :: Neighbours(KindBefore(None, [a], i), [a][i], FormAt([a], i + 1));
    LineParses([a], e);
    OneLine(a);
  }

  lemma OneLine(a: Form)
    requires a.gap == ""
    ensures Line("", [a]) == a.text
  {
    assert [a][1..] == [] && "" + a.text == a.text;
  }

  // Words before parentheses

  predicate IsTextFunction(word: string) {
    || word == "contains" || word == "startswith" || word == "endswith" || word == "length" || word == "indexof"
    || word == "substring" || word == "tolower" || word == "toupper" || word == "trim" || word == "concat"
  }

  predicate IsPartFunction(word: string) {
    || word == "year" || word == "month" || word == "day" || word == "hour" || word == "minute" || word == "second"
    || word == "fractionalseconds" || word == "totalseconds" || word == "totaloffsetminutes"
  }

  predicate IsOtherFunction(word: string) {
    || word == "date" || word == "time" || word == "now" || word == "maxdatetime" || word == "mindatetime"
    || word == "round" || word == "floor" || word == "ceiling" || word == "cast" || word == "isof"
  }

  /** The functions' names, but for `matchesPattern`, which has a capital. */
  predicate IsLowerFunction(word: string) {
    IsTextFunction(word) || IsPartFunction(word) || IsOtherFunction(word)
  }

  predicate IsLowerCase(word: string) {
    word != "" && forall i | 0 <= i < |word| :: 'a' <= word[i] <= 'z'
  }

  lemma TextFunction(word: string)
    requires IsTextFunction(word)
    ensures IsFunctionName(word) && IsLowerCase(word) && (|word| <= 5 ==> word == "trim")
  {
  }

  lemma PartFunction(word: string)
    requires IsPartFunction(word)
    ensures IsFunctionName(word) && IsLowerCase(word)
    ensures |word| <= 5 ==> word == "year" || word == "month" || word == "day" || word == "hour"
  {
  }

  lemma OtherFunction(word: string)
    requires IsOtherFunction(word)
    ensures IsFunctionName(word) && IsLowerCase(word)
    ensures |word| <= 5 ==>
              word == "date" || word == "time" || word == "now" || word == "round" || word == "floor" || word == "cast" || word == "isof"
  {
  }

  lemma LongIsFree(word: string)
    requires |word| > 5
    ensures FixedWord(word).None?
  {
  }

  lemma ShortIsFree(word: string)
    requires word == "trim" || word == "year" || word == "month" || word == "day" || word == "hour"
    ensures FixedWord(word).None?
  {
  }

  lemma OtherShortIsFree(word: string)
    requires word == "date" || word == "time" || word == "now" || word == "round" || word == "floor" || word == "cast" || word == "isof"
    ensures FixedWord(word).None?
  {
  }

  lemma FunctionIsListed(word: string)
    requires IsFunctionName(word)
    ensures IsLowerFunction(word) || word == "matchesPattern"
  {
  }

  lemma SignStands(last: Option<TokenType>, kind: TokenType, letter: char, next: Option<Form>)
    requires Punctuation(letter) == Some(kind)
    ensures Neighbours(last, Sign(kind, letter), next)
  {
  }

  lemma FunctionStands(last: Option<TokenType>, word: string, value: string, next: Form)
    requires IsWord(word) && SpelledAs(word, FunctionToken, value) && ValidLexeme(FunctionToken, value)
    requires WordAllowed(last, FunctionToken, value) && next.kind == LParen && next.text == "("
    ensures Neighbours(last, Form(FunctionToken, value, word, ""), Some(next))
  {
    hide ValidLexeme, WordAllowed, SpelledAs, Lower;
  }

  lemma CallParses(word: string, value: string, name: string)
    requires IsWord(word) && SpelledAs(word, FunctionToken, value) && ValidLexeme(FunctionToken, value) && IsName(name)
    ensures ParseFilter(word + "(" + name + ")") == Success(FunctionCall(value, [Property(name)]))
  {
    hide IsName, Lower, IsWord, ValidLexeme, SpelledAs, Neighbours, Line, Writes, ParseFilter;
    var a, b, c, d := Form(FunctionToken, value, word, ""), Sign(LParen, '('), NameForm(name, ""), Sign(RParen, ')');
    FunctionStands(None, word, value, b);
    SignStands(Some(FunctionToken), LParen, '(', Some(c));
    NameStands(Some(LParen), name, "", Some(d));
    SignStands(Some(PropertyToken), RParen, ')', None);
    var forms := [a, b, c, d];
    assert forall i | 0 <= i < 4 :: Neighbours(KindBefore(None, forms, i), forms[i], FormAt(forms, i + 1));
    CallRow(TokensAt(forms, 0), value, name);
    LineParses(forms, FunctionCall(value, [Property(name)]));
    FourLine(a, b, c, d);
  }

  lemma FourLine(a: Form, b: Form, c: Form, d: Form)
    requires a.gap == "" && b.gap == "" && c.gap == "" && d.gap == ""
    ensures Line("", [a, b, c, d]) == a.text + b.text + c.text + d.text
  {
    assert "" + a.text == a.text;
    assert [a, b, c, d][1..] == [b, c, d] && [b, c, d][1..] == [c, d] && [c, d][1..] == [d] && [d][1..] == [];
    assert Line("", [a, b, c, d]) == Line(a.text, [b, c, d]);
    assert Line(a.text, [b, c, d]) == Line(a.text + b.text, [c, d]);
    assert Line(a.text + b.text, [c, d]) == Line(a.text + b.text + c.text, [d]);
  }

  lemma CallRow(ts: seq<Token>, value: string, name: string)
    requires |ts| == 4 && ts[0].kind == FunctionToken && ts[0].value == value && ts[1].kind == LParen
    requires ts[2].kind == PropertyToken && ts[2].value == name && ts[3].kind == RParen
    ensures Writes(ts, 0, 4, FunctionCall(value, [Property(name)]), OrLevel)
  {
    hide Writes;
    var e := FunctionCall(value, [Property(name)]);
    NameIsWritten(ts, 2, name, OrLevel);
    assert WritesList(ts, 2, 3, e.args);
    FunctionIsWritten(ts, 0, 4, e);
    Looser(ts, 0, 4, e, PrimaryLevel, OrLevel);
  }

  lemma LowerFunction(word: string)
    requires IsLowerFunction(Lower(word))
    ensures IsWord(word) && IsFunctionName(Lower(word)) && ValidLexeme(FunctionToken, Lower(word))
  {
    var value := Lower(word);
    if IsTextFunction(value) {
      TextFunction(value);
    } else if IsPartFunction(value) {
      PartFunction(value);
    } else {
      OtherFunction(value);
    }
    CasedWord(word, value);
    hide IsFunctionName, FixedWord, IsLowerFunction;
    if |value| > 5 {
      LongIsFree(value);
    } else if IsOtherFunction(value) {
      OtherShortIsFree(value);
    } else {
      ShortIsFree(value);
    }
    LowerIdempotent(word);
    CasedWord(value, value);
    if IsLambdaOp(value) {
      LambdaOpIsNoFunction(value);
    }
  }

  lemma LowerHasNoCapital(word: string)
    ensures Lower(word) != "matchesPattern"
  {
    var lower := Lower(word);
    if |lower| > 7 {
      assert lower[7] == LowerChar(word[7]) && lower[7] != 'P';
    }
  }

  lemma UnlistedFunction(word: string)
    requires IsName(word) && !IsLowerFunction(Lower(word)) && Lower(word) !in ["any", "all"]
    ensures ValidLexeme(FunctionToken, word)
  {
    if IsFunctionName(Lower(word)) {
      FunctionIsListed(Lower(word));
      LowerHasNoCapital(word);
    }
  }

  /** A function's name in any case is read in lower case, and every other name as it stands. */
  lemma FunctionWords(word: string, name: string)
    requires IsName(name)
    ensures IsLowerFunction(Lower(word)) ==> ParseFilter(word + "(" + name + ")") == Success(FunctionCall(Lower(word), [Property(name)]))
    ensures IsName(word) && !IsLowerFunction(Lower(word)) && Lower(word) !in ["any", "all"] ==>
              ParseFilter(word + "(" + name + ")") == Success(FunctionCall(word, [Property(name)]))
  {
    hide ParseFilter, IsName, ValidLexeme, IsLowerFunction, IsFunctionName, Lower;
    if IsLowerFunction(Lower(word)) {
      LowerFunction(word);
      CallParses(word, Lower(word), name);
    } else if IsName(word) && Lower(word) !in ["any", "all"] {
      UnlistedFunction(word);
      NameIsWord(word);
      CallParses(word, word, name);
    }
  }

  lemma NameIsWord(word: string)
    requires IsName(word)
    ensures IsWord(word)
  {
  }

  // Lambda words

  lemma LambdaWordStands(word: string, next: Form)
    requires Lower(word) in ["any", "all"] && next.kind == LParen && next.text == "("
    ensures Neighbours(Some(Slash), Form(LambdaOp, Lower(word), word, ""), Some(next))
  {
    CasedWord(word, Lower(word));
  }

  /** One form more before those that stand, with no white space after it. */
  lemma Grows(last: Option<TokenType>, form: Form, rest: seq<Form>)
    requires Neighbours(last, form, FormAt(rest, 0)) && Stand(Some(form.kind), rest) && form.gap == ""
    ensures Stand(last, [form] + rest) && TextOf([form] + rest) == form.text + TextOf(rest)
  {
    hide SpelledAs, ValidLexeme, ValidAfter, FitsBefore;
    assert ([form] + rest)[1..] == rest;
    assert "" + TextOf(rest) == TextOf(rest);
    if rest != [] {
      SpelledStarts(rest[0].text, rest[0].kind, rest[0].value);
      assert TextOf(rest)[0] == rest[0].text[0];
    }
  }

  lemma EightTexts(a: string, b: string, c: string, d: string, f: string, g: string, h: string, i: string)
    ensures a + (b + (c + (d + (f + (g + (h + i)))))) == a + b + c + d + f + g + h + i
  {
    ConcatAssociates(a + b + c + d + f + g, h, i);
    ConcatAssociates(a + b + c + d + f, g, h + i);
    ConcatAssociates(a + b + c + d, f, g + (h + i));
    ConcatAssociates(a + b + c, d, f + (g + (h + i)));
    ConcatAssociates(a + b, c, d + (f + (g + (h + i))));
    ConcatAssociates(a, b, c + (d + (f + (g + (h + i)))));
  }

  /** What a lambda encloses: a variable, a colon and a condition. */
  function BindingForms(variable: string, condition: string): seq<Form> {
    [Sign(LParen, '(')] + ([NameForm(variable, "")] + ([Sign(Colon, ':')] + ([NameForm(condition, "")] + [Sign(RParen, ')')])))
  }

  function LambdaForms(name: string, word: string, variable: string, condition: string): seq<Form> {
    [NameForm(name, "")] + ([Sign(Slash, '/')] + ([Form(LambdaOp, Lower(word), word, "")] + BindingForms(variable, condition)))
  }

  lemma BindingStands(variable: string, condition: string)
    requires IsName(variable) && IsName(condition)
    ensures Stand(Some(LambdaOp), BindingForms(variable, condition))
    ensures TextOf(BindingForms(variable, condition)) == "(" + (variable + (":" + (condition + ")")))
    ensures FormAt(BindingForms(variable, condition), 0) == Some(Sign(LParen, '('))
  {
    hide IsName, Neighbours, Stand, TextOf;
    var close, colon := Sign(RParen, ')'), Sign(Colon, ':');
    var g := [NameForm(condition, "")] + [close];
    var f := [colon] + g;
    NoForms(Some(RParen));
    SignStands(Some(PropertyToken), RParen, ')', None);
    Grows(Some(PropertyToken), close, []);
    assert [close] + [] == [close] && ")" + "" == ")";
    NameStands(Some(Colon), condition, "", Some(close));
    Grows(Some(Colon), NameForm(condition, ""), [close]);
    SignStands(Some(PropertyToken), Colon, ':', Some(NameForm(condition, "")));
    Grows(Some(PropertyToken), colon, g);
    NameStands(Some(LParen), variable, "", Some(colon));
    Grows(Some(LParen), NameForm(variable, ""), f);
    SignStands(Some(LambdaOp), LParen, '(', Some(NameForm(variable, "")));
    Grows(Some(LambdaOp), Sign(LParen, '('), [NameForm(variable, "")] + f);
  }

  lemma LambdaFormsStand(name: string, word: string, variable: string, condition: string)
    requires IsName(name) && IsName(variable) && IsName(condition) && Lower(word) in ["any", "all"]
    ensures Stand(None, LambdaForms(name, word, variable, condition))
    ensures TextOf(LambdaForms(name, word, variable, condition)) == name + "/" + word + "(" + variable + ":" + condition + ")"
  {
    hide IsName, Lower, Neighbours, Stand, TextOf, BindingForms;
    var slash, op, binding := Sign(Slash, '/'), Form(LambdaOp, Lower(word), word, ""), BindingForms(variable, condition);
    BindingStands(variable, condition);
    LambdaWordStands(word, Sign(LParen, '('));
    Grows(Some(Slash), op, binding);
    SignStands(Some(PropertyToken), Slash, '/', Some(op));
    Grows(Some(PropertyToken), slash, [op] + binding);
    NameStands(None, name, "", Some(slash));
    Grows(None, NameForm(name, ""), [slash] + ([op] + binding));
    hide *;
    EightTexts(name, "/", word, "(", variable, ":", condition, ")");
  }

  lemma NoForms(last: Option<TokenType>)
    ensures Stand(last, []) && TextOf([]) == ""
  {
  }

  /** `any` and `all` in any case, after a slash. */
  lemma LambdaWords(name: string, word: string, variable: string, condition: string)
    requires IsName(name) && IsName(variable) && IsName(condition) && Lower(word) in ["any", "all"]
    ensures ParseFilter(name + "/" + word + "(" + variable + ":" + condition + ")")
         == Success(Lambda(Lower(word), variable, Property(name), Property(condition)))
  {
    hide IsName, Lower, Stand, Writes, ParseFilter, TextOf, Writes;
    var forms, e := LambdaForms(name, word, variable, condition), Lambda(Lower(word), variable, Property(name), Property(condition));
    LambdaFormsStand(name, word, variable, condition);
    LambdaRow(TokensAt(forms, 0), e);
    hide LambdaForms;
    WrittenFilterParsesExactly("", forms, e);
    assert "" + TextOf(forms) == TextOf(forms);
  }

  lemma LambdaRow(ts: seq<Token>, e: FilterExpression)
    requires e.Lambda? && e.source.Property? && e.condition.Property? && |ts| == 8
    requires ts[0].kind == PropertyToken && ts[0].value == e.source.name && ts[1].kind == Slash
    requires ts[2].kind == LambdaOp && ts[2].value == e.operator && ts[3].kind == LParen
    requires ts[4].kind == PropertyToken && ts[4].value == e.variable && ts[5].kind == Colon
    requires ts[6].kind == PropertyToken && ts[6].value == e.condition.name && ts[7].kind == RParen
    ensures Writes(ts, 0, 8, e, OrLevel)
  {
    NameIsWritten(ts, 6, e.condition.name, OrLevel);
    assert WritesPath(ts, 0, 1, e.source);
    hide Writes;
    assert WritesLambda(ts, 1, 8, e);
    assert WritesPath(ts, 0, 8, e);
    PathIsWritten(ts, 0, 8, e, OrLevel);
  }

  // Lists after `in`

  datatype Item = Item(value: LiteralValue, dataType: LiteralDataType)

  predicate AreLiterals(items: seq<Item>) {
    forall item <- items :: WellFormedLiteral(item.value, item.dataType)
  }

  function Literals(items: seq<Item>): (es: seq<FilterExpression>)
    ensures |es| == |items| && forall i | 0 <= i < |items| :: es[i] == Literal(items[i].value, items[i].dataType)
  {
    seq(|items|, i requires 0 <= i < |items| => Literal(items[i].value, items[i].dataType))
  }

  /** The items with commas between, and the closing parenthesis. */
  function ListForms(items: seq<Item>): (forms: seq<Form>)
    ensures |forms| == if items == [] then 1 else 2 * |items|
  {
    if items == [] then [Sign(RParen, ')')]
    else if |items| == 1 then [LiteralForm(items[0].value, items[0].dataType, ""), Sign(RParen, ')')]
    else [LiteralForm(items[0].value, items[0].dataType, ""), Form(Comma, ",", ",", " ")] + ListForms(items[1..])
  }

  function ListText(items: seq<Item>): string {
    if items == [] then ")"
    else if |items| == 1 then LiteralText(items[0].value, items[0].dataType) + ")"
    else LiteralText(items[0].value, items[0].dataType) + ", " + ListText(items[1..])
  }

  lemma {:induction false} ListStands(items: seq<Item>, last: Option<TokenType>)
    requires AreLiterals(items) && (last == Some(LParen) || last == Some(Comma))
    ensures Stand(last, ListForms(items)) && TextOf(ListForms(items)) == ListText(items)
    ensures items != [] ==> FormAt(ListForms(items), 0).Some?
    decreases |items|
  {
    hide Stand, Neighbours, TextOf, LiteralText, WellFormedLiteral, EndsLiteral;
    var close := Sign(RParen, ')');
    NoForms(Some(RParen));
    EndsHere();
    if items == [] {
      SignStands(last, RParen, ')', None);
      Grows(last, close, []);
      assert [close] + [] == [close] && ")" + "" == ")";
    } else {
      var item := LiteralForm(items[0].value, items[0].dataType, "");
      assert items[0] in items;
      if |items| == 1 {
        SignStands(Some(item.kind), RParen, ')', None);
        Grows(Some(item.kind), close, []);
        assert [close] + [] == [close] && ")" + "" == ")";
        LiteralStands(last, items[0].value, items[0].dataType, "", Some(close));
        Grows(last, item, [close]);
        assert [item] + [close] == [item, close];
      } else {
        var comma, rest := Form(Comma, ",", ",", " "), ListForms(items[1..]);
        ListStands(items[1..], Some(Comma));
        CommaStands(Some(item.kind), rest);
        LiteralStands(last, items[0].value, items[0].dataType, "", Some(comma));
        Grows(last, item, [comma] + rest);
        assert [item] + ([comma] + rest) == [item, comma] + rest;
        ConcatAssociates(item.text, ", ", ListText(items[1..]));
      }
    }
  }

  lemma EndsHere()
    ensures EndsLiteral(Some(')')) && EndsLiteral(Some(','))
  {
  }

  lemma CommaBeside(last: Option<TokenType>, next: Option<Form>)
    ensures Neighbours(last, Form(Comma, ",", ",", " "), next)
  {
  }

  lemma CommaStands(last: Option<TokenType>, rest: seq<Form>)
    requires Stand(Some(Comma), rest)
    ensures Stand(last, [Form(Comma, ",", ",", " ")] + rest)
    ensures TextOf([Form(Comma, ",", ",", " ")] + rest) == ", " + TextOf(rest)
  {
    var comma := Form(Comma, ",", ",", " ");
    CommaBeside(last, FormAt(rest, 0));
    hide *;
    GrowsApart(last, comma, rest);
    ConcatAssociates(",", " ", TextOf(rest));
    assert "," + " " == ", ";
  }

  lemma {:induction false} ListFormAt(items: seq<Item>, i: nat)
    requires i < |items|
    ensures var forms := ListForms(items);
            && forms[2 * i].kind == LiteralKind(items[i].dataType) && forms[2 * i].value == ValueText(items[i].value)
            && forms[2 * i + 1].kind == if i == |items| - 1 then RParen else Comma
    decreases i
  {
    hide LiteralKind, ValueText, LiteralText;
    if i > 0 {
      ListFormAt(items[1..], i - 1);
      assert ListForms(items)[2..] == ListForms(items[1..]);
      assert ListForms(items)[2 * i] == ListForms(items)[2..][2 * (i - 1)];
      assert ListForms(items)[2 * i + 1] == ListForms(items)[2..][2 * (i - 1) + 1];
    }
  }

  lemma {:induction false} ListIsWritten(ts: seq<Token>, p: nat, items: seq<Item>)
    requires items != [] && AreLiterals(items) && p + 2 * |items| - 1 <= |ts|
    requires forall i | 0 <= i < |items| ::
               ts[p + 2 * i].kind == LiteralKind(items[i].dataType) && ts[p + 2 * i].value == ValueText(items[i].value)
    requires forall i | 0 <= i < |items| - 1 :: ts[p + 2 * i + 1].kind == Comma
    ensures WritesList(ts, p, p + 2 * |items| - 1, Literals(items))
    decreases |items|
  {
    hide LiteralKind, ValueText, WellFormedLiteral, Writes;
    var k := |items| - 1;
    assert items[k] in items && ts[p + 2 * k].kind == LiteralKind(items[k].dataType);
    LiteralIsWritten(ts, p + 2 * k, items[k].value, items[k].dataType, OrLevel);
    if k > 0 {
      assert ts[p + 2 * (k - 1) + 1].kind == Comma;
      ListIsWritten(ts, p, items[..k]);
      assert Literals(items)[..k] == Literals(items[..k]);
    }
  }

  /** `in` in any case, after a name, and a list of literals in parentheses. */
  lemma InWords(name: string, before: string, word: string, after: string, items: seq<Item>)
    requires IsName(name) && IsSpaces(before) && IsSpaces(after) && Lower(word) == "in" && AreLiterals(items)
    ensures ParseFilter(name + before + word + after + "(" + ListText(items))
         == Success(Comparison("in", Property(name), Collection(Literals(items))))
  {
    hide Stand, Writes, ParseFilter, TextOf, IsName, AreLiterals, ListForms, IsSpaces;
    var forms := InForms(name, before, word, after, items);
    var e := Comparison("in", Property(name), Collection(Literals(items)));
    InFormsStand(name, before, word, after, items);
    InRow(TokensAt(forms, 0), name, items);
    hide InForms;
    WrittenFilterParsesExactly("", forms, e);
    assert "" + TextOf(forms) == TextOf(forms);
  }

  function InForms(name: string, before: string, word: string, after: string, items: seq<Item>): seq<Form> {
    [NameForm(name, before)] + ([Form(ComparisonOp, "in", word, after)] + ([Sign(LParen, '(')] + ListForms(items)))
  }

  /** One form more before those that stand, with white space after it. */
  lemma GrowsApart(last: Option<TokenType>, form: Form, rest: seq<Form>)
    requires Neighbours(last, form, FormAt(rest, 0)) && Stand(Some(form.kind), rest) && form.gap != ""
    ensures Stand(last, [form] + rest) && TextOf([form] + rest) == form.text + (form.gap + TextOf(rest))
  {
    hide SpelledAs, ValidLexeme, ValidAfter, FitsBefore;
    assert ([form] + rest)[1..] == rest;
  }

  lemma InWordStands(word: string, gap: string, next: Form)
    requires Lower(word) == "in" && IsSpaces(gap)
    ensures Neighbours(Some(PropertyToken), Form(ComparisonOp, "in", word, gap), Some(next))
  {
    CasedWord(word, "in");
    WordStands(Some(PropertyToken), ComparisonOp, word, gap, Some(next));
  }

  lemma InFormsStand(name: string, before: string, word: string, after: string, items: seq<Item>)
    requires IsName(name) && IsSpaces(before) && IsSpaces(after) && Lower(word) == "in" && AreLiterals(items)
    ensures Stand(None, InForms(name, before, word, after, items))
    ensures TextOf(InForms(name, before, word, after, items)) == name + before + word + after + "(" + ListText(items)
  {
    hide Stand, TextOf, IsName, AreLiterals, ListForms, Neighbours, Lower;
    var op, open, list := Form(ComparisonOp, "in", word, after), Sign(LParen, '('), ListForms(items);
    ListStands(items, Some(LParen));
    SignStands(Some(ComparisonOp), LParen, '(', FormAt(list, 0));
    Grows(Some(ComparisonOp), open, list);
    InWordStands(word, after, open);
    GrowsApart(Some(PropertyToken), op, [open] + list);
    NameStands(None, name, before, Some(op));
    GrowsApart(None, NameForm(name, before), [op] + ([open] + list));
    hide *;
    ConcatAssociates(name + before + word + after, "(", ListText(items));
    ConcatAssociates(name + before + word, after, "(" + ListText(items));
    ConcatAssociates(name + before, word, after + ("(" + ListText(items)));
    ConcatAssociates(name, before, word + (after + ("(" + ListText(items))));
  }

  lemma InRow(ts: seq<Token>, name: string, items: seq<Item>)
    requires AreLiterals(items) && |ts| == 3 + |ListForms(items)|
    requires ts[0].kind == PropertyToken && ts[0].value == name && ts[1].kind == ComparisonOp && ts[1].value == "in" && ts[2].kind == LParen
    requires forall i | 0 <= i < |ListForms(items)| ::
               ts[3 + i].kind == ListForms(items)[i].kind && ts[3 + i].value == ListForms(items)[i].value
    ensures Writes(ts, 0, |ts|, Comparison("in", Property(name), Collection(Literals(items))), OrLevel)
  {
    hide AreLiterals, Writes, WritesList;
    NameIsWritten(ts, 0, name, ArithmeticLevel);
    RestIsWritten(ts, 3, items);
    var e := Comparison("in", Property(name), Collection(Literals(items)));
    InIsWritten(ts, 0, 1, |ts|, e);
    Looser(ts, 0, |ts|, e, ComparisonLevel, OrLevel);
  }

  lemma RestIsWritten(ts: seq<Token>, p: nat, items: seq<Item>)
    requires AreLiterals(items) && |ts| == p + |ListForms(items)|
    requires forall i | 0 <= i < |ListForms(items)| ::
               ts[p + i].kind == ListForms(items)[i].kind && ts[p + i].value == ListForms(items)[i].value
    ensures WritesList(ts, p, |ts| - 1, Literals(items)) && ts[|ts| - 1].kind == RParen
  {
    hide Writes;
    if items == [] {
      var forms := ListForms(items);
      assert forms[0].kind == RParen && ts[p + 0].kind == forms[0].kind;
    } else {
      ItemsAreWritten(ts, p, items);
    }
  }

  lemma ItemsAreWritten(ts: seq<Token>, p: nat, items: seq<Item>)
    requires AreLiterals(items) && items != [] && |ts| == p + |ListForms(items)|
    requires forall i | 0 <= i < |ListForms(items)| ::
               ts[p + i].kind == ListForms(items)[i].kind && ts[p + i].value == ListForms(items)[i].value
    ensures WritesList(ts, p, |ts| - 1, Literals(items)) && ts[|ts| - 1].kind == RParen
  {
    hide *;
    var k := |items| - 1;
    forall i | 0 <= i < |items|
      ensures ts[p + 2 * i].kind == LiteralKind(items[i].dataType) && ts[p + 2 * i].value == ValueText(items[i].value)
      ensures ts[p + 2 * i + 1].kind == if i == k then RParen else Comma
    {
      ListRowAt(ts, p, items, i);
    }
    ListIsWritten(ts, p, items);
    assert ts[p + 2 * k + 1].kind == RParen;
  }

  lemma ListRowAt(ts: seq<Token>, p: nat, items: seq<Item>, i: nat)
    requires i < |items| && |ts| == p + |ListForms(items)|
    requires forall k | 0 <= k < |ListForms(items)| ::
               ts[p + k].kind == ListForms(items)[k].kind && ts[p + k].value == ListForms(items)[k].value
    ensures ts[p + 2 * i].kind == LiteralKind(items[i].dataType) && ts[p + 2 * i].value == ValueText(items[i].value)
    ensures ts[p + 2 * i + 1].kind == if i == |items| - 1 then RParen else Comma
  {
    hide ListForms, LiteralKind, ValueText;
    ListFormAt(items, i);
    assert ts[p + (2 * i)].kind == ListForms(items)[2 * i].kind && ts[p + (2 * i + 1)].kind == ListForms(items)[2 * i + 1].kind;
  }
}
