/** Written filters: tokens spelled in any case, with any white space between, are read, and parse as the grammar groups them. */
module FilterSpelling {
  import opened Strings
  import opened FilterTypes
  import opened FilterLexer
  import opened FilterLexemes
  import opened FilterLexerSound
  import opened FilterRendering
  import opened FilterGrammar
  import opened FilterParser
  import opened FilterWriting

  /** A token as it is written: its kind and value, its letters, and the white space after it. */
  datatype Form = Form(kind: TokenType, value: string, text: string, gap: string)

  function TextOf(forms: seq<Form>): string {
    if forms == [] then "" else forms[0].text + (forms[0].gap + TextOf(forms[1..]))
  }

  function TokensAt(forms: seq<Form>, p: nat): (tokens: seq<Token>)
    ensures |tokens| == |forms|
    ensures forall i | 0 <= i < |forms| :: tokens[i].kind == forms[i].kind && tokens[i].value == forms[i].value
  {
    if forms == [] then []
    else [Token(forms[0].kind, forms[0].value, p)] + TokensAt(forms[1..], p + |forms[0].text| + |forms[0].gap|)
  }

  /** The letters spell the token, which is one that can stand after `last` and before what follows it. */
  predicate Stands(last: Option<TokenType>, form: Form, rest: seq<Form>) {
    && SpelledAs(form.text, form.kind, form.value) && AllIn(form.gap, 0, |form.gap|, Space)
    && ValidLexeme(form.kind, form.value) && ValidAfter(last, form.kind, form.value)
    && FitsBefore(last, form.kind, CharAfter(form.gap + TextOf(rest), 0), rest != [] && rest[0].kind == LParen)
  }

  predicate Stand(last: Option<TokenType>, forms: seq<Form>)
    decreases |forms|
  {
    forms == [] || (Stands(last, forms[0], forms[1..]) && Stand(Some(forms[0].kind), forms[1..]))
  }

  /** The same, told from the form that follows alone. */
  predicate Neighbours(last: Option<TokenType>, form: Form, next: Option<Form>) {
    && form.text != "" && SpelledAs(form.text, form.kind, form.value) && AllIn(form.gap, 0, |form.gap|, Space)
    && ValidLexeme(form.kind, form.value) && ValidAfter(last, form.kind, form.value)
    && FitsBefore(last, form.kind,
         if form.gap != "" then Some(form.gap[0])
         else if next.Some? && next.value.text != "" then Some(next.value.text[0]) else None,
         next.Some? && next.value.kind == LParen)
  }

  /** The form at a place of a list, and the kind of the token before it. */
  function FormAt(forms: seq<Form>, i: nat): Option<Form> {
    if i < |forms| then Some(forms[i]) else None
  }

  function KindBefore(last: Option<TokenType>, forms: seq<Form>, i: nat): Option<TokenType>
    requires i <= |forms|
  {
    if i == 0 then last else Some(forms[i - 1].kind)
  }

  /** Forms that each stand beside their neighbours stand. */
  lemma {:induction false} NeighboursStand(last: Option<TokenType>, forms: seq<Form>)
    requires forall i | 0 <= i < |forms| :: Neighbours(KindBefore(last, forms, i), forms[i], FormAt(forms, i + 1))
    ensures Stand(last, forms)
    decreases |forms|
  {
    hide SpelledAs, ValidLexeme, ValidAfter, FitsBefore;
    if forms != [] {
      var form, rest := forms[0], forms[1..];
      assert Neighbours(KindBefore(last, forms, 0), form, FormAt(forms, 1));
      if rest != [] {
        assert Neighbours(KindBefore(last, forms, 1), forms[1], FormAt(forms, 2)) && rest[0] == forms[1];
      }
      forall i | 0 <= i < |rest| ensures Neighbours(KindBefore(Some(form.kind), rest, i), rest[i], FormAt(rest, i + 1)) {
        assert Neighbours(KindBefore(last, forms, i + 1), forms[i + 1], FormAt(forms, i + 2));
      }
      NeighboursStand(Some(form.kind), rest);
    }
  }

  // One token

  lemma FunctionCase(text: string)
    requires IsFunctionName(text) && IsFunctionName(Lower(text))
    ensures Lower(text) == text
  {
    if |text| <= 6 {
      ShortNameIsLower(text);
      LowerFixed(text);
    } else if |text| <= 8 {
      NameIsLower(text);
      LowerFixed(text);
    } else if |text| <= 11 {
      LongerNameIsLower(text);
      LowerFixed(text);
    } else if text != "matchesPattern" {
      LongNameIsLower(text);
      LowerFixed(text);
    }
  }

  lemma ShortNameIsLower(text: string)
    requires IsFunctionName(text) && |text| <= 6
    ensures forall i | 0 <= i < |text| :: !('A' <= text[i] <= 'Z')
  {
  }

  lemma NameIsLower(text: string)
    requires IsFunctionName(text) && 6 < |text| <= 8
    ensures forall i | 0 <= i < |text| :: !('A' <= text[i] <= 'Z')
  {
  }

  lemma LongerNameIsLower(text: string)
    requires IsFunctionName(text) && 8 < |text| <= 11
    ensures forall i | 0 <= i < |text| :: !('A' <= text[i] <= 'Z')
  {
  }

  lemma LongNameIsLower(text: string)
    requires IsFunctionName(text) && |text| > 11 && text != "matchesPattern"
    ensures forall i | 0 <= i < |text| :: !('A' <= text[i] <= 'Z')
  {
    assert text == "totalseconds" || text == "fractionalseconds" || text == "totaloffsetminutes";
    hide IsFunctionName;
  }

  lemma CasedFixedReads(s: string, p: nat, last: Option<TokenType>, text: string, kind: TokenType, value: string)
    requires Holds(s, p, text) && IsWord(text) && Lower(text) == value && EndsWord(CharAfter(s, p + |text|))
    requires kind == BooleanToken || kind == LogicalOp || kind == NotOp || kind == ArithmeticOp || (kind == ComparisonOp && value != "in")
    requires ValidLexeme(kind, value)
    ensures p < |s| && ReadsBack(s, p, last, kind, value, p + |text|)
  {
    hide ReadToken, IsFunctionName, NameWord, ContextWord, ValidLexeme, FixedWord, IsWord, Lower, Holds, EndsWord;
    FixedWordIs(kind, value);
    WordReads(s, p, last, text);
  }

  lemma CasedInReads(s: string, p: nat, last: Option<TokenType>, text: string)
    requires Holds(s, p, text) && IsWord(text) && Lower(text) == "in" && EndsWord(CharAfter(s, p + |text|))
    requires last.Some? && EndsValue(last.value)
    ensures p < |s| && ReadsBack(s, p, last, ComparisonOp, "in", p + |text|)
  {
    hide ReadToken, IsFunctionName, NameWord, IsWord, Lower, Holds, EndsWord;
    WordReads(s, p, last, text);
    assert FixedWord("in").None?;
  }

  lemma CasedLambdaReads(s: string, p: nat, last: Option<TokenType>, text: string, value: string)
    requires Holds(s, p, text) && IsWord(text) && Lower(text) == value && EndsWord(CharAfter(s, p + |text|))
    requires IsLambdaOp(value) && (last == Some(Slash) || ParenAfter(s, p + |text|))
    ensures p < |s| && ReadsBack(s, p, last, LambdaOp, value, p + |text|)
  {
    hide ReadToken, IsFunctionName, FixedWord, IsWord, Lower, Holds, EndsWord;
    LambdaWord(value);
    LambdaOpIsNoFunction(text);
    WordReads(s, p, last, text);
  }

  lemma CasedFunctionReads(s: string, p: nat, last: Option<TokenType>, text: string, value: string)
    requires Holds(s, p, text) && IsWord(text) && Lower(text) == value && EndsWord(CharAfter(s, p + |text|))
    requires IsFunctionName(value) && ValidLexeme(FunctionToken, value) && ParenAfter(s, p + |text|)
    ensures p < |s| && ReadsBack(s, p, last, FunctionToken, value, p + |text|)
  {
    hide ReadToken, IsFunctionName, FixedWord, IsWord, Lower, Holds, EndsWord, NameWord, ContextWord, ValidLexeme;
    FunctionWord(last, text, value);
    WordReads(s, p, last, text);
  }

  lemma FunctionWord(last: Option<TokenType>, text: string, value: string)
    requires Lower(text) == value && IsFunctionName(value) && ValidLexeme(FunctionToken, value)
    ensures FixedWord(value).None? && ContextWord(value, last).None? && NameWord(text, true) == (FunctionToken, value)
  {
    hide IsFunctionName, FixedWord, IsWord, Lower;
    LowerIdempotent(text);
    InIsNoFunction();
    if IsFunctionName(text) {
      FunctionCase(text);
    }
  }

  lemma FormReads(s: string, p: nat, last: Option<TokenType>, text: string, kind: TokenType, value: string)
    requires Holds(s, p, text) && SpelledAs(text, kind, value) && ValidLexeme(kind, value) && ValidAfter(last, kind, value)
    requires FitsBefore(last, kind, CharAfter(s, p + |text|), ParenAfter(s, p + |text|))
    ensures p < |s| && !IsSpace(s[p]) && ReadsBack(s, p, last, kind, value, p + |text|)
  {
    hide ReadsBack, ValidLexeme, WordAllowed, SignAllowed, Holds, Spelling, EndsWord, ParenAfter, CharAfter, IsFunctionName, Lower;
    if text == Spelling(kind, value) {
      PieceReads(s, p, last, Piece(kind, value, false, false));
    } else {
      HoldsAt(s, p, text, 0);
      WordIsNoSpace(text);
      match kind
      case ComparisonOp =>
        if value == "in" {
          InAfter(last);
          CasedInReads(s, p, last, text);
        } else {
          CasedFixedReads(s, p, last, text, kind, value);
        }
      case LambdaOp =>
        LambdaLexeme(value);
        CasedLambdaReads(s, p, last, text, value);
      case FunctionToken => CasedFunctionReads(s, p, last, text, value);
      case _ => CasedFixedReads(s, p, last, text, kind, value);
    }
  }

  lemma WordIsNoSpace(text: string)
    requires IsWord(text)
    ensures text != "" && !IsSpace(text[0]) && text[0] != '('
  {
  }

  lemma InAfter(last: Option<TokenType>)
    requires WordAllowed(last, ComparisonOp, "in")
    ensures last.Some? && EndsValue(last.value)
  {
  }

  lemma LambdaLexeme(value: string)
    requires ValidLexeme(LambdaOp, value)
    ensures IsLambdaOp(value)
  {
  }

  /** No token's letters start with white space, and only an opening parenthesis's start with one. */
  lemma SpelledStarts(text: string, kind: TokenType, value: string)
    requires SpelledAs(text, kind, value) && ValidLexeme(kind, value)
    ensures text != "" && !IsSpace(text[0]) && (text[0] == '(' <==> kind == LParen)
  {
    hide ValidLexeme, Spelling, IsFunctionName, Lower;
    SpellingStarts(kind, value);
    if text != Spelling(kind, value) {
      WordIsNoSpace(text);
    }
  }

  // All tokens

  lemma NextInText(s: string, q: nat, gap: string, last: Option<TokenType>, rest: seq<Form>)
    requires q <= |s| && s[q..] == gap + TextOf(rest) && AllIn(gap, 0, |gap|, Space) && Stand(last, rest)
    ensures CharAfter(s, q) == CharAfter(gap + TextOf(rest), 0)
    ensures ParenAfter(s, q) <==> rest != [] && rest[0].kind == LParen
  {
    hide SpelledAs, ValidLexeme, ValidAfter, FitsBefore, CharAfter;
    CharFrom(s, q, gap + TextOf(rest));
    var end := q + |gap|;
    assert s[q..][..|gap|] == gap && s[q..][|gap|..] == TextOf(rest);
    assert s[end..] == TextOf(rest);
    assert forall i | q <= i < end :: s[i] == gap[i - q];
    if rest != [] {
      SpelledStarts(rest[0].text, rest[0].kind, rest[0].value);
      assert s[end..][0] == rest[0].text[0];
      assert s[end] == rest[0].text[0];
    }
    SpanEndUnique(s, q, end, Space);
  }

  lemma CharFrom(s: string, q: nat, text: string)
    requires q <= |s| && s[q..] == text
    ensures CharAfter(s, q) == CharAfter(text, 0)
  {
  }

  lemma FormAhead(s: string, p: nat, form: Form, rest: seq<Form>)
    requires p <= |s| && s[p..] == form.text + (form.gap + TextOf(rest)) && AllIn(form.gap, 0, |form.gap|, Space)
    ensures var q := p + |form.text|; var next := q + |form.gap|;
            && Holds(s, p, form.text) && next <= |s| && s[q..] == form.gap + TextOf(rest) && s[next..] == TextOf(rest)
            && AllIn(s, q, next, Space)
  {
    hide TextOf;
    var q := p + |form.text|;
    assert s == s[..p] + s[p..];
    assert s[q..] == form.gap + TextOf(rest);
    assert s[q + |form.gap|..] == TextOf(rest);
    assert s[p..p + |form.text|] == form.text;
    assert forall i | 0 <= i < |form.gap| :: s[q..][i] == form.gap[i];
  }

  lemma FormStep(s: string, p: nat, tokens: seq<Token>, form: Form, rest: seq<Form>)
    requires p <= |s| && s[p..] == form.text + (form.gap + TextOf(rest))
    requires Stands(LastKind(tokens), form, rest) && Stand(Some(form.kind), rest)
    ensures var next := p + |form.text| + |form.gap|;
            && next <= |s| && s[next..] == TextOf(rest)
            && LexFrom(s, p, tokens) == LexFrom(s, next, tokens + [Token(form.kind, form.value, p)])
  {
    hide ReadToken, SpelledAs, ValidLexeme, ValidAfter, FitsBefore, LexFrom, Stand, TextOf;
    var last, q := LastKind(tokens), p + |form.text|;
    FormAhead(s, p, form, rest);
    NextInText(s, q, form.gap, Some(form.kind), rest);
    hide Holds, CharAfter, ParenAfter;
    FormReads(s, p, last, form.text, form.kind, form.value);
    EmptySpan(s, p);
    LexFromReads(s, p, p, tokens);
    var reading := ReadToken(s, p, last).value;
    hide AllIn, LastKind;
    LexFromSkips(s, q, reading.next, tokens + [reading.token]);
    LexFromSkips(s, q, q + |form.gap|, tokens + [reading.token]);
  }

  lemma EmptySpan(s: string, p: nat)
    requires p <= |s|
    ensures AllIn(s, p, p, Space)
  {
  }

  /** Tokens that stand, written at the end of the input, are read back after the tokens already read. */
  lemma {:induction false} LexForms(s: string, p: nat, tokens: seq<Token>, forms: seq<Form>)
    requires p <= |s| && s[p..] == TextOf(forms) && Stand(LastKind(tokens), forms)
    ensures LexFrom(s, p, tokens) == Success(tokens + TokensAt(forms, p))
    decreases |forms|
  {
    hide LexFrom, Stands;
    if forms == [] {
      assert |s[p..]| == 0;
      LexEnd(s, tokens);
      assert tokens + [] == tokens;
    } else {
      var form, rest := forms[0], forms[1..];
      var token := Token(form.kind, form.value, p);
      FormStep(s, p, tokens, form, rest);
      LexForms(s, p + |form.text| + |form.gap|, tokens + [token], rest);
      ConcatAssociates(tokens, [token], TokensAt(rest, p + |form.text| + |form.gap|));
    }
  }

  /**
   * A written filter parses to a tree exactly when its tokens write the tree: however the words' letters are cased, and
   * whatever white space stands between the tokens, before them and after.
   */
  lemma WrittenFilterParsesExactly(lead: string, forms: seq<Form>, e: FilterExpression)
    requires AllIn(lead, 0, |lead|, Space) && Stand(None, forms)
    ensures ParseFilter(lead + TextOf(forms)) == Success(e) <==> Writes(TokensAt(forms, |lead|), 0, |forms|, e, OrLevel)
  {
    hide LexFrom, ParseTokens, Writes, Stand, TextOf;
    var s := lead + TextOf(forms);
    assert s[|lead|..] == TextOf(forms);
    assert AllIn(s, 0, |lead|, Space);
    LexFromSkips(s, 0, |lead|, []);
    LexForms(s, |lead|, [], forms);
    assert [] + TokensAt(forms, |lead|) == TokensAt(forms, |lead|);
    ParsesExactly(TokensAt(forms, |lead|), e);
  }
}
