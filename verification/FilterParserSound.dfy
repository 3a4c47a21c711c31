/** What the parser builds: a well-formed expression that holds every token it took but parentheses, which it balances. */
module FilterParserSound {
  import opened Strings
  import opened FilterTypes
  import opened FilterLexer
  import opened FilterLexemes
  import opened FilterNumerals
  import opened FilterSerializer
  import opened FilterGrammar
  import opened FilterParser
  import opened FilterRoundTrip

  /** A token's kind and value, wherever it stands. */
  type Lexeme = (TokenType, string)

  function TokenLexemes(ts: seq<Token>): (ls: seq<Lexeme>)
    ensures |ls| == |ts| && forall i | 0 <= i < |ts| :: ls[i] == (ts[i].kind, ts[i].value)
  {
    seq(|ts|, i requires 0 <= i < |ts| => (ts[i].kind, ts[i].value))
  }

  function PieceLexemes(ps: seq<Piece>): (ls: seq<Lexeme>)
    ensures |ls| == |ps| && forall i | 0 <= i < |ps| :: ls[i] == (ps[i].kind, ps[i].value)
  {
    seq(|ps|, i requires 0 <= i < |ps| => (ps[i].kind, ps[i].value))
  }

  function Span(ts: seq<Token>, p: nat, q: nat): seq<Lexeme>
    requires p <= q <= |ts|
  {
    TokenLexemes(ts[p..q])
  }

  predicate IsParen(kind: TokenType) {
    kind == LParen || kind == RParen
  }

  /** The value the tree keeps: `null` in any case is null, and a number is what it denotes. */
  function Settled(l: Lexeme): Lexeme {
    if l.0 == NullToken then (NullToken, "null")
    else if l.0 == NumberToken then (NumberToken, NumeralOf(l.1))
    else l
  }

  /** The tokens but the parentheses, in order. */
  function Yield(ls: seq<Lexeme>): seq<Lexeme> {
    if ls == [] then []
    else (if IsParen(ls[0].0) then [] else [Settled(ls[0])]) + Yield(ls[1..])
  }

  function ParenDepth(ls: seq<Lexeme>): int {
    if ls == [] then 0
    else (if ls[0].0 == LParen then 1 else if ls[0].0 == RParen then -1 else 0) + ParenDepth(ls[1..])
  }

  /** Every parenthesis is matched within the list. */
  ghost predicate Balanced(ls: seq<Lexeme>) {
    ParenDepth(ls) == 0 && forall i | 0 <= i <= |ls| :: ParenDepth(ls[..i]) >= 0
  }

  lemma {:induction false} YieldConcat(a: seq<Lexeme>, b: seq<Lexeme>)
    ensures Yield(a + b) == Yield(a) + Yield(b)
  {
    ConcatRest(a, b);
    if a != [] {
      YieldConcat(a[1..], b);
      ConcatAssociates(if IsParen(a[0].0) then [] else [Settled(a[0])], Yield(a[1..]), Yield(b));
    }
  }

  lemma {:induction false} ParenDepthConcat(a: seq<Lexeme>, b: seq<Lexeme>)
    ensures ParenDepth(a + b) == ParenDepth(a) + ParenDepth(b)
  {
    ConcatRest(a, b);
    if a != [] {
      ParenDepthConcat(a[1..], b);
    }
  }

  lemma BalancedConcat(a: seq<Lexeme>, b: seq<Lexeme>)
    requires Balanced(a) && Balanced(b)
    ensures Balanced(a + b)
  {
    ParenDepthConcat(a, b);
    forall i | 0 <= i <= |a + b| ensures ParenDepth((a + b)[..i]) >= 0 {
      if i <= |a| {
        assert (a + b)[..i] == a[..i];
      } else {
        assert (a + b)[..i] == a + b[..i - |a|];
        ParenDepthConcat(a, b[..i - |a|]);
      }
    }
  }

  lemma BalancedOne(l: Lexeme)
    requires !IsParen(l.0)
    ensures Balanced([l]) && Yield([l]) == [Settled(l)]
  {
    assert [l][1..] == [];
    assert forall i | 0 <= i <= 1 :: [l][..i] == if i == 0 then [] else [l];
  }

  lemma EnclosedDepth(inner: seq<Lexeme>)
    ensures ParenDepth([(LParen, "(")] + inner + [(RParen, ")")]) == ParenDepth(inner)
    ensures Yield([(LParen, "(")] + inner + [(RParen, ")")]) == Yield(inner)
  {
    var open, close: seq<Lexeme> := [(LParen, "(")], [(RParen, ")")];
    assert open[1..] == [] && close[1..] == [];
    ParenDepthConcat(open + inner, close);
    ParenDepthConcat(open, inner);
    YieldConcat(open + inner, close);
    YieldConcat(open, inner);
  }

  lemma BalancedEnclosed(inner: seq<Lexeme>)
    requires Balanced(inner)
    ensures Balanced([(LParen, "(")] + inner + [(RParen, ")")])
    ensures Yield([(LParen, "(")] + inner + [(RParen, ")")]) == Yield(inner)
  {
    var open, close: seq<Lexeme> := [(LParen, "(")], [(RParen, ")")];
    var all := open + inner + close;
    EnclosedDepth(inner);
    forall i | 0 <= i <= |all| ensures ParenDepth(all[..i]) >= 0 {
      if i == 0 {
      } else if i <= |inner| + 1 {
        assert all[..i] == open + inner[..i - 1];
        ParenDepthConcat(open, inner[..i - 1]);
        assert open[1..] == [];
      } else {
        assert all[..i] == all;
      }
    }
  }

  lemma BalancedNone()
    ensures Balanced([])
  {
    var none: seq<Lexeme> := [];
    assert forall i | 0 <= i <= 0 :: none[..i] == none;
  }

  // Spans of the tokens

  lemma SpanSplit(ts: seq<Token>, p: nat, m: nat, q: nat)
    requires p <= m <= q <= |ts|
    ensures Span(ts, p, q) == Span(ts, p, m) + Span(ts, m, q)
  {
    assert ts[p..q] == ts[p..m] + ts[m..q];
  }

  lemma SpanOne(ts: seq<Token>, p: nat)
    requires p < |ts|
    ensures Span(ts, p, p + 1) == [(ts[p].kind, ts[p].value)]
  {
  }

  lemma PiecesSplit(a: seq<Piece>, b: seq<Piece>)
    ensures PieceLexemes(a + b) == PieceLexemes(a) + PieceLexemes(b)
  {
  }

  /** What a span that was taken for these pieces keeps of them. */
  ghost predicate Keeps(ts: seq<Token>, p: nat, q: nat, ps: seq<Piece>) {
    && p <= q <= |ts| && Balanced(Span(ts, p, q)) && Yield(Span(ts, p, q)) == Yield(PieceLexemes(ps))
  }

  lemma KeepsConcat(ts: seq<Token>, p: nat, m: nat, q: nat, a: seq<Piece>, b: seq<Piece>)
    requires Keeps(ts, p, m, a) && Keeps(ts, m, q, b)
    ensures Keeps(ts, p, q, a + b)
  {
    SpanSplit(ts, p, m, q);
    BalancedConcat(Span(ts, p, m), Span(ts, m, q));
    YieldConcat(Span(ts, p, m), Span(ts, m, q));
    PiecesSplit(a, b);
    YieldConcat(PieceLexemes(a), PieceLexemes(b));
  }

  lemma KeepsOne(ts: seq<Token>, p: nat, h: Piece)
    requires p < |ts| && ts[p].kind == h.kind && !IsParen(h.kind)
    requires Settled((h.kind, ts[p].value)) == Settled((h.kind, h.value))
    ensures Keeps(ts, p, p + 1, [h])
  {
    SpanOne(ts, p);
    BalancedOne((ts[p].kind, ts[p].value));
    BalancedOne((h.kind, h.value));
    assert PieceLexemes([h]) == [(h.kind, h.value)];
  }

  lemma KeepsNone(ts: seq<Token>, p: nat)
    requires p <= |ts|
    ensures Keeps(ts, p, p, [])
  {
    BalancedNone();
    assert Span(ts, p, p) == [];
    assert PieceLexemes([]) == [];
  }

  predicate ParensAt(ts: seq<Token>, p: nat, q: nat) {
    p < q < |ts| && (ts[p].kind, ts[p].value) == (LParen, "(") && (ts[q].kind, ts[q].value) == (RParen, ")")
  }

  lemma EnclosedSpan(ts: seq<Token>, p: nat, q: nat)
    requires ParensAt(ts, p, q)
    ensures Span(ts, p, q + 1) == [(LParen, "(")] + Span(ts, p + 1, q) + [(RParen, ")")]
  {
    SpanSplit(ts, p, q, q + 1);
    SpanSplit(ts, p, p + 1, q);
    SpanOne(ts, p);
    SpanOne(ts, q);
  }

  /** A span in parentheses keeps what the span inside keeps, whether the pieces have the parentheses or not. */
  lemma KeepsEnclosed(ts: seq<Token>, p: nat, q: nat, ps: seq<Piece>)
    requires ParensAt(ts, p, q) && Keeps(ts, p + 1, q, ps)
    ensures Keeps(ts, p, q + 1, ps)
    ensures Keeps(ts, p, q + 1, [Tight(LParen, "(")] + ps + [Tight(RParen, ")")])
  {
    EnclosedSpan(ts, p, q);
    BalancedEnclosed(Span(ts, p + 1, q));
    var pieces := [Tight(LParen, "(")] + ps + [Tight(RParen, ")")];
    assert PieceLexemes(pieces) == [(LParen, "(")] + PieceLexemes(ps) + [(RParen, ")")];
    EnclosedDepth(PieceLexemes(ps));
  }

  lemma ParensOf(ts: seq<Token>, p: nat, q: nat)
    requires Lexed(ts) && p < q && KindAt(ts, p) == Some(LParen) && KindAt(ts, q) == Some(RParen)
    ensures ParensAt(ts, p, q)
  {
  }

  // One expression

  /** The rule took the tokens from `p` to `q` and built `e` of them. */
  ghost predicate Built(ts: seq<Token>, p: nat, q: nat, e: FilterExpression) {
    p < q && Keeps(ts, p, q, Pieces(e)) && WellFormed(e)
  }

  lemma BuiltBinary(ts: seq<Token>, p: nat, m: nat, q: nat, kind: TokenType, e: FilterExpression)
    requires WellFormed(e)
    requires if kind == LogicalOp then e.Logical? else if kind == ArithmeticOp then e.Arithmetic?
             else kind == ComparisonOp && e.Comparison? && e.operator != "in"
    requires Built(ts, p, m, e.left) && Built(ts, m + 1, q, e.right)
    requires m < |ts| && ts[m].kind == kind && ts[m].value == e.operator
    ensures Built(ts, p, q, e)
  {
    hide WellFormed, Pieces, Keeps;
    BinaryParts(e);
    KeepsBinary(ts, p, m, q, Pieces(e.left), Spaced(kind, e.operator), Pieces(e.right));
  }

  lemma KeepsBinary(ts: seq<Token>, p: nat, m: nat, q: nat, left: seq<Piece>, op: Piece, right: seq<Piece>)
    requires Keeps(ts, p, m, left) && Keeps(ts, m + 1, q, right)
    requires m < |ts| && ts[m].kind == op.kind && ts[m].value == op.value && !IsParen(op.kind)
    ensures Keeps(ts, p, q, left + [op] + right)
  {
    hide Keeps;
    KeepsOne(ts, m, op);
    KeepsConcat(ts, p, m, m + 1, left, [op]);
    KeepsConcat(ts, p, m + 1, q, left + [op], right);
  }

  /** A token, and a span in parentheses after it. */
  lemma KeepsOpening(ts: seq<Token>, p: nat, q: nat, opening: Piece, inner: seq<Piece>)
    requires p < |ts| && ts[p].kind == opening.kind && ts[p].value == opening.value && !IsParen(opening.kind)
    requires ParensAt(ts, p + 1, q) && Keeps(ts, p + 2, q, inner)
    ensures Keeps(ts, p, q + 1, [opening, Tight(LParen, "(")] + inner + [Tight(RParen, ")")])
  {
    hide Keeps;
    KeepsOne(ts, p, opening);
    KeepsEnclosed(ts, p + 1, q, inner);
    var enclosed := [Tight(LParen, "(")] + inner + [Tight(RParen, ")")];
    KeepsConcat(ts, p, p + 1, q + 1, [opening], enclosed);
    assert [opening] + enclosed == [opening, Tight(LParen, "(")] + inner + [Tight(RParen, ")")];
  }

  /** A negation keeps its operand, which need not have stood in the parentheses it is printed in. */
  lemma BuiltNot(ts: seq<Token>, p: nat, q: nat, operand: FilterExpression)
    requires Lexed(ts) && KindAt(ts, p) == Some(NotOp) && Built(ts, p + 1, q, operand)
    ensures Built(ts, p, q, Not(operand))
  {
    hide WellFormed, Pieces, Keeps;
    var e := Not(operand);
    assert WellFormed(e) by { NotWellFormed(operand); }
    NotParts(e);
    var not, ps := Piece(NotOp, "not", false, true), Pieces(operand);
    LexedNot(ts, p);
    KeepsOne(ts, p, not);
    KeepsConcat(ts, p, p + 1, q, [not], ps);
    KeepsParenthesized(ts, p, q, not, ps);
  }

  lemma NotWellFormed(operand: FilterExpression)
    requires WellFormed(operand)
    ensures WellFormed(Not(operand))
  {
  }

  lemma LexedNot(ts: seq<Token>, p: nat)
    requires Lexed(ts) && KindAt(ts, p) == Some(NotOp)
    ensures ts[p].value == "not"
  {
  }

  lemma KeepsParenthesized(ts: seq<Token>, p: nat, q: nat, opening: Piece, ps: seq<Piece>)
    requires Keeps(ts, p, q, [opening] + ps)
    ensures Keeps(ts, p, q, [opening, Tight(LParen, "(")] + ps + [Tight(RParen, ")")])
  {
    hide Balanced, Yield;
    var enclosed := [Tight(LParen, "(")] + ps + [Tight(RParen, ")")];
    var inner: seq<Lexeme> := [(LParen, "(")] + PieceLexemes(ps) + [(RParen, ")")];
    assert [opening, Tight(LParen, "(")] + ps + [Tight(RParen, ")")] == [opening] + enclosed;
    PiecesSplit([opening], enclosed);
    PiecesSplit([opening], ps);
    assert PieceLexemes(enclosed) == inner;
    YieldConcat(PieceLexemes([opening]), inner);
    YieldConcat(PieceLexemes([opening]), PieceLexemes(ps));
    EnclosedDepth(PieceLexemes(ps));
  }

  lemma BuiltFunction(ts: seq<Token>, p: nat, q: nat, args: seq<FilterExpression>)
    requires Lexed(ts) && KindAt(ts, p) == Some(FunctionToken) && KindAt(ts, p + 1) == Some(LParen) && KindAt(ts, q) == Some(RParen)
    requires p + 2 <= q && Keeps(ts, p + 2, q, ListPieces(args, false)) && forall arg <- args :: WellFormed(arg)
    ensures Built(ts, p, q + 1, FunctionCall(ts[p].value, args))
  {
    hide Keeps, ValidLexeme, ListPieces;
    var e := FunctionCall(ts[p].value, args);
    ParensOf(ts, p + 1, q);
    assert ValidLexeme(ts[p].kind, ts[p].value);
    KeepsOpening(ts, p, q, Tight(FunctionToken, ts[p].value), ListPieces(args, false));
  }

  lemma InWellFormed(left: FilterExpression, items: seq<FilterExpression>)
    requires WellFormed(left) && forall item <- items :: WellFormed(item)
    ensures var e := Comparison("in", left, Collection(items));
            && WellFormed(e)
            && Pieces(e) == Pieces(left) + [Spaced(ComparisonOp, "in"), Tight(LParen, "(")] + ListPieces(items, true) + [Tight(RParen, ")")]
  {
    hide ListPieces;
  }

  lemma BuiltIn(ts: seq<Token>, p: nat, m: nat, q: nat, left: FilterExpression, items: seq<FilterExpression>)
    requires Lexed(ts) && KindAt(ts, m) == Some(ComparisonOp) && ts[m].value == "in"
    requires KindAt(ts, m + 1) == Some(LParen) && KindAt(ts, q) == Some(RParen)
    requires Built(ts, p, m, left)
    requires m + 2 <= q && Keeps(ts, m + 2, q, ListPieces(items, true)) && forall item <- items :: WellFormed(item)
    ensures Built(ts, p, q + 1, Comparison("in", left, Collection(items)))
  {
    hide Keeps, ListPieces, WellFormed, Pieces, Lexed;
    var op, inner := Spaced(ComparisonOp, "in"), ListPieces(items, true);
    ParensOf(ts, m + 1, q);
    InWellFormed(left, items);
    KeepsOpening(ts, m, q, op, inner);
    var enclosed := [op, Tight(LParen, "(")] + inner + [Tight(RParen, ")")];
    KeepsConcat(ts, p, m, q + 1, Pieces(left), enclosed);
    assert Pieces(left) + enclosed == Pieces(left) + [op, Tight(LParen, "(")] + inner + [Tight(RParen, ")")];
  }

  /** The slash, the operator and the parentheses of a lambda, around what its condition keeps. */
  lemma KeepsLambda(ts: seq<Token>, p: nat, m: nat, q: nat, source: seq<Piece>, operator: string, inner: seq<Piece>)
    requires Lexed(ts) && KindAt(ts, m) == Some(Slash) && KindAt(ts, m + 1) == Some(LambdaOp) && ts[m + 1].value == operator
    requires KindAt(ts, m + 2) == Some(LParen) && KindAt(ts, q) == Some(RParen)
    requires Keeps(ts, p, m, source) && m + 3 <= q && Keeps(ts, m + 3, q, inner)
    ensures Keeps(ts, p, q + 1, source + LambdaOpening(operator) + inner + [Tight(RParen, ")")])
  {
    hide Keeps, Lexed;
    var slash, op := Tight(Slash, "/"), Tight(LambdaOp, operator);
    LexedAt(ts, m);
    ParensOf(ts, m + 2, q);
    KeepsOpening(ts, m + 1, q, op, inner);
    var enclosed := [op, Tight(LParen, "(")] + inner + [Tight(RParen, ")")];
    KeepsBinary(ts, p, m, q + 1, source, slash, enclosed);
    assert source + [slash] + enclosed == source + LambdaOpening(operator) + inner + [Tight(RParen, ")")];
  }

  lemma LambdaWellFormed(operator: string, variable: string, source: FilterExpression, condition: FilterExpression)
    requires IsLambdaOp(operator) && (source.Property? || source.Lambda?) && WellFormed(source)
    requires if variable == "" then condition == EMPTY_CONDITION else IsName(variable) && WellFormed(condition)
    ensures WellFormed(Lambda(operator, variable, source, condition))
  {
    hide IsName;
  }

  lemma LexedAt(ts: seq<Token>, p: nat)
    requires Lexed(ts) && p < |ts|
    ensures ts[p].kind == LambdaOp ==> IsLambdaOp(ts[p].value)
    ensures ts[p].kind == PropertyToken ==> IsName(ts[p].value) && ts[p].value != ""
    ensures ts[p].kind == PropertyToken && p > 0 && ts[p - 1].kind == Slash ==> !IsLambdaOp(Lower(ts[p].value))
    ensures ts[p].kind == Colon ==> ts[p].value == ":"
    ensures ts[p].kind == Comma ==> ts[p].value == ","
    ensures ts[p].kind == Slash ==> ts[p].value == "/"
    ensures ts[p].kind == ArithmeticOp ==> IsArithmeticOp(ts[p].value)
    ensures ts[p].kind == ComparisonOp ==> IsComparisonOp(ts[p].value)
  {
    assert ValidLexeme(ts[p].kind, ts[p].value);
  }

  lemma BuiltEmptyLambda(ts: seq<Token>, p: nat, m: nat, source: FilterExpression)
    requires Lexed(ts) && Built(ts, p, m, source) && (source.Property? || source.Lambda?)
    requires KindAt(ts, m) == Some(Slash) && KindAt(ts, m + 1) == Some(LambdaOp)
    requires KindAt(ts, m + 2) == Some(LParen) && KindAt(ts, m + 3) == Some(RParen)
    ensures Built(ts, p, m + 4, Lambda(ts[m + 1].value, "", source, EMPTY_CONDITION))
  {
    hide Keeps, WellFormed, Pieces, Lexed;
    var e := Lambda(ts[m + 1].value, "", source, EMPTY_CONDITION);
    LexedAt(ts, m + 1);
    LambdaWellFormed(ts[m + 1].value, "", source, EMPTY_CONDITION);
    LambdaParts(e);
    KeepsNone(ts, m + 3);
    KeepsLambda(ts, p, m, m + 3, Pieces(source), e.operator, []);
  }

  lemma BuiltLambda(ts: seq<Token>, p: nat, m: nat, q: nat, source: FilterExpression, condition: FilterExpression)
    requires Lexed(ts) && Built(ts, p, m, source) && (source.Property? || source.Lambda?)
    requires KindAt(ts, m) == Some(Slash) && KindAt(ts, m + 1) == Some(LambdaOp) && KindAt(ts, m + 2) == Some(LParen)
    requires KindAt(ts, m + 3) == Some(PropertyToken) && KindAt(ts, m + 4) == Some(Colon)
    requires Built(ts, m + 5, q, condition) && KindAt(ts, q) == Some(RParen)
    ensures Built(ts, p, q + 1, Lambda(ts[m + 1].value, ts[m + 3].value, source, condition))
  {
    hide Keeps, WellFormed, Pieces, Lexed;
    var e := Lambda(ts[m + 1].value, ts[m + 3].value, source, condition);
    LexedAt(ts, m + 1);
    LexedAt(ts, m + 3);
    LexedAt(ts, m + 4);
    LambdaWellFormed(e.operator, e.variable, source, condition);
    LambdaParts(e);
    KeepsBinding(ts, m + 3, q, e.variable, Pieces(condition));
    KeepsLambda(ts, p, m, q, Pieces(source), e.operator, LambdaInner(e.variable, condition));
  }

  lemma KeepsBinding(ts: seq<Token>, p: nat, q: nat, variable: string, condition: seq<Piece>)
    requires KindAt(ts, p) == Some(PropertyToken) && ts[p].value == variable
    requires KindAt(ts, p + 1) == Some(Colon) && ts[p + 1].value == ":" && Keeps(ts, p + 2, q, condition)
    ensures Keeps(ts, p, q, LambdaBinding(variable) + condition)
  {
    hide Keeps;
    var name, colon := Tight(PropertyToken, variable), Tight(Colon, ":");
    KeepsOne(ts, p, name);
    KeepsBinary(ts, p, p + 1, q, [name], colon, condition);
    assert [name] + [colon] + condition == LambdaBinding(variable) + condition;
  }

  lemma {:induction false} LastSlashAppend(name: string, part: string)
    requires '/' !in part
    ensures LastSlash(name + "/" + part) == Some(|name|)
    decreases |part|
  {
    var path := name + "/" + part;
    if part == "" {
      assert path[|path| - 1] == '/';
    } else {
      var init := part[..|part| - 1];
      assert path[|path| - 1] == part[|part| - 1];
      assert path[..|path| - 1] == name + "/" + init;
      LastSlashAppend(name, init);
    }
  }

  lemma PathGrows(name: string, part: string)
    requires IsPath(name) && IsName(part) && !IsLambdaOp(Lower(part))
    ensures IsPath(name + "/" + part)
    ensures PathPieces(name + "/" + part) == PathPieces(name) + [Tight(Slash, "/")] + [Tight(PropertyToken, part)]
  {
    hide IsLambdaOp, Lower, LastSlash;
    var path := name + "/" + part;
    LastSlashAppend(name, part);
    hide IsName;
    assert path[..|name|] == name && path[|name| + 1..] == part;
  }

  lemma NameIsPath(name: string)
    requires IsName(name)
    ensures IsPath(name) && PathPieces(name) == [Tight(PropertyToken, name)]
  {
    assert '/' !in name;
    assert LastSlash(name).None?;
  }

  lemma BuiltPath(ts: seq<Token>, p: nat, m: nat, name: string)
    requires Lexed(ts) && Built(ts, p, m, Property(name))
    requires KindAt(ts, m) == Some(Slash) && KindAt(ts, m + 1) == Some(PropertyToken)
    ensures Built(ts, p, m + 2, Property(name + "/" + ts[m + 1].value))
  {
    hide Keeps, IsPath, PathPieces, Lexed, IsName, IsLambdaOp, Lower, ValidLexeme, ListPieces, WellFormedLiteral, LambdaOpening, LambdaBinding;
    var part := ts[m + 1].value;
    LexedAt(ts, m);
    LexedAt(ts, m + 1);
    PathGrows(name, part);
    KeepsOne(ts, m + 1, Tight(PropertyToken, part));
    KeepsBinary(ts, p, m, m + 2, PathPieces(name), Tight(Slash, "/"), [Tight(PropertyToken, part)]);
  }

  lemma BuiltName(ts: seq<Token>, p: nat)
    requires Lexed(ts) && KindAt(ts, p) == Some(PropertyToken)
    ensures Built(ts, p, p + 1, Property(ts[p].value))
  {
    hide Keeps, Lexed, IsName;
    LexedAt(ts, p);
    NameIsPath(ts[p].value);
    KeepsOne(ts, p, Tight(PropertyToken, ts[p].value));
  }

  lemma LiteralWellFormed(token: Token)
    requires ValidLexeme(token.kind, token.value) && LiteralOf(token).Some?
    ensures var e := LiteralOf(token).value;
            && WellFormed(e) && LiteralKind(e.dataType) == token.kind
            && Settled((token.kind, token.value)) == Settled((token.kind, ValueText(e.value)))
  {
    hide NumeralOf, IsNumber, IsGuid, IsDateTimeOffset, DateAt, TimeOfDayAt, IsEnum, AllIn;
    if token.kind == NumberToken {
      NumeralSettled(token.value);
    }
  }

  lemma BuiltLiteral(ts: seq<Token>, p: nat)
    requires Lexed(ts) && p < |ts| && LiteralOf(ts[p]).Some?
    ensures Built(ts, p, p + 1, LiteralOf(ts[p]).value)
  {
    hide Keeps, WellFormed, LiteralOf, ValidLexeme, LiteralKind, ValueText, Settled;
    var e := LiteralOf(ts[p]).value;
    assert ValidLexeme(ts[p].kind, ts[p].value);
    LiteralWellFormed(ts[p]);
    LiteralShape(ts[p]);
    KeepsOne(ts, p, Tight(LiteralKind(e.dataType), ValueText(e.value)));
  }

  lemma LiteralShape(token: Token)
    requires LiteralOf(token).Some?
    ensures LiteralOf(token).value.Literal? && !IsParen(token.kind)
  {
  }

  // The rules

  lemma {:induction false} OrBuilds(ts: seq<Token>, p: nat)
    requires Lexed(ts) && p <= |ts| && ParseOr(ts, p).Success?
    ensures var r := ParseOr(ts, p).value; Built(ts, p, r.next, r.value)
    decreases |ts| - p, 8
  {
    hide Lexed, Built, ParseAnd, OrLoop;
    var left := ParseAnd(ts, p).value;
    AndBuilds(ts, p);
    OrLoopBuilds(ts, p, left.next, left.value);
  }

  lemma LogicalWellFormed(operator: string, left: FilterExpression, right: FilterExpression)
    requires IsLogicalOp(operator) && WellFormed(left) && WellFormed(right)
    ensures WellFormed(Logical(operator, left, right))
  {
  }

  lemma BuiltLogical(ts: seq<Token>, p: nat, m: nat, q: nat, left: FilterExpression, right: FilterExpression)
    requires m < |ts| && ts[m].kind == LogicalOp && IsLogicalOp(ts[m].value)
    requires Built(ts, p, m, left) && Built(ts, m + 1, q, right)
    ensures Built(ts, p, q, Logical(ts[m].value, left, right))
  {
    hide WellFormed, Keeps;
    LogicalWellFormed(ts[m].value, left, right);
    BuiltBinary(ts, p, m, q, LogicalOp, Logical(ts[m].value, left, right));
  }

  lemma {:induction false} OrLoopBuilds(ts: seq<Token>, p: nat, m: nat, left: FilterExpression)
    requires Lexed(ts) && p < m <= |ts| && Built(ts, p, m, left) && OrLoop(ts, m, left).Success?
    ensures var r := OrLoop(ts, m, left).value; Built(ts, p, r.next, r.value)
    decreases |ts| - m, 0
  {
    hide Lexed, Built, ParseAnd;
    if IsLogicalAt(ts, m, "or") {
      var right := ParseAnd(ts, m + 1).value;
      AndBuilds(ts, m + 1);
      BuiltLogical(ts, p, m, right.next, left, right.value);
      OrLoopBuilds(ts, p, right.next, Logical("or", left, right.value));
    }
  }

  lemma {:induction false} AndBuilds(ts: seq<Token>, p: nat)
    requires Lexed(ts) && p <= |ts| && ParseAnd(ts, p).Success?
    ensures var r := ParseAnd(ts, p).value; Built(ts, p, r.next, r.value)
    decreases |ts| - p, 7
  {
    hide Lexed, Built, ParseNot, AndLoop;
    var left := ParseNot(ts, p).value;
    NotBuilds(ts, p);
    AndLoopBuilds(ts, p, left.next, left.value);
  }

  lemma {:induction false} AndLoopBuilds(ts: seq<Token>, p: nat, m: nat, left: FilterExpression)
    requires Lexed(ts) && p < m <= |ts| && Built(ts, p, m, left) && AndLoop(ts, m, left).Success?
    ensures var r := AndLoop(ts, m, left).value; Built(ts, p, r.next, r.value)
    decreases |ts| - m, 0
  {
    hide Lexed, Built, ParseNot;
    if IsLogicalAt(ts, m, "and") {
      var right := ParseNot(ts, m + 1).value;
      NotBuilds(ts, m + 1);
      BuiltLogical(ts, p, m, right.next, left, right.value);
      AndLoopBuilds(ts, p, right.next, Logical("and", left, right.value));
    }
  }

  lemma {:induction false} NotBuilds(ts: seq<Token>, p: nat)
    requires Lexed(ts) && p <= |ts| && ParseNot(ts, p).Success?
    ensures var r := ParseNot(ts, p).value; Built(ts, p, r.next, r.value)
    decreases |ts| - p, 6
  {
    hide Lexed, Built, ParseComparison;
    if KindAt(ts, p) == Some(NotOp) {
      var operand := ParseNot(ts, p + 1).value;
      NotBuilds(ts, p + 1);
      BuiltNot(ts, p, operand.next, operand.value);
    } else {
      ComparisonBuilds(ts, p);
    }
  }

  lemma {:induction false} ComparisonBuilds(ts: seq<Token>, p: nat)
    requires Lexed(ts) && p <= |ts| && ParseComparison(ts, p).Success?
    ensures var r := ParseComparison(ts, p).value; Built(ts, p, r.next, r.value)
    decreases |ts| - p, 5
  {
    hide Lexed, Built, ParseArithmetic, ParseComparand;
    var left := ParseArithmetic(ts, p).value;
    ArithmeticBuilds(ts, p);
    if KindAt(ts, left.next) == Some(ComparisonOp) {
      ComparandBuilds(ts, p, left.next, left.value);
    }
  }

  lemma ComparisonWellFormed(operator: string, left: FilterExpression, right: FilterExpression)
    requires IsComparisonOp(operator) && operator != "in" && WellFormed(left) && WellFormed(right)
    ensures WellFormed(Comparison(operator, left, right))
  {
  }

  lemma BuiltComparison(ts: seq<Token>, p: nat, m: nat, q: nat, left: FilterExpression, right: FilterExpression)
    requires m < |ts| && ts[m].kind == ComparisonOp && IsComparisonOp(ts[m].value) && ts[m].value != "in"
    requires Built(ts, p, m, left) && Built(ts, m + 1, q, right)
    ensures Built(ts, p, q, Comparison(ts[m].value, left, right))
  {
    hide WellFormed, Keeps, IsComparisonOp;
    ComparisonWellFormed(ts[m].value, left, right);
    BuiltBinary(ts, p, m, q, ComparisonOp, Comparison(ts[m].value, left, right));
  }

  lemma {:induction false} ComparandBuilds(ts: seq<Token>, p: nat, m: nat, left: FilterExpression)
    requires Lexed(ts) && p < m < |ts| && KindAt(ts, m) == Some(ComparisonOp)
    requires Built(ts, p, m, left) && ParseComparand(ts, m, left).Success?
    ensures var r := ParseComparand(ts, m, left).value; Built(ts, p, r.next, r.value)
    decreases |ts| - m, 0
  {
    hide Lexed, WellFormed, Keeps, IsComparisonOp, ParseArithmetic, ParseList, Pieces, ListPieces;
    if ts[m].value == "in" {
      var items := ParseList(ts, m + 2).value;
      ListBuilds(ts, m + 2, true);
      BuiltIn(ts, p, m, items.next, left, items.value);
    } else {
      var right := ParseArithmetic(ts, m + 1).value;
      ArithmeticBuilds(ts, m + 1);
      LexedAt(ts, m);
      BuiltComparison(ts, p, m, right.next, left, right.value);
    }
  }

  /** The list took the tokens from `p` to `q` and built these items of them. */
  ghost predicate ListBuilt(ts: seq<Token>, p: nat, q: nat, items: seq<FilterExpression>, spaced: bool) {
    Keeps(ts, p, q, ListPieces(items, spaced)) && forall item <- items :: WellFormed(item)
  }

  lemma ListBuiltOne(ts: seq<Token>, p: nat, q: nat, item: FilterExpression, spaced: bool)
    requires Built(ts, p, q, item)
    ensures ListBuilt(ts, p, q, [item], spaced)
  {
    hide Keeps, WellFormed, Pieces;
    assert ListPieces([item], spaced) == Pieces([item][0]);
  }

  lemma ListBuiltMore(ts: seq<Token>, p: nat, m: nat, q: nat, items: seq<FilterExpression>, item: FilterExpression, spaced: bool)
    requires Lexed(ts) && KindAt(ts, m) == Some(Comma) && items != []
    requires ListBuilt(ts, p, m, items, spaced) && Built(ts, m + 1, q, item)
    ensures ListBuilt(ts, p, q, items + [item], spaced)
  {
    hide Keeps, WellFormed, Pieces, Lexed;
    var all := items + [item];
    assert all[..|all| - 1] == items && all[|all| - 1] == item;
    LexedAt(ts, m);
    KeepsBinary(ts, p, m, q, ListPieces(items, spaced), CommaPiece(spaced), Pieces(item));
  }

  lemma {:induction false} ListBuilds(ts: seq<Token>, p: nat, spaced: bool)
    requires Lexed(ts) && p <= |ts| && ParseList(ts, p).Success?
    ensures var r := ParseList(ts, p).value; ListBuilt(ts, p, r.next, r.value, spaced)
    decreases |ts| - p, 9
  {
    hide Lexed, Built, Keeps, WellFormed, ParseOr, ListLoop;
    if KindAt(ts, p) == Some(RParen) {
      KeepsNone(ts, p);
    } else {
      var first := ParseOr(ts, p).value;
      OrBuilds(ts, p);
      ListBuiltOne(ts, p, first.next, first.value, spaced);
      ListLoopBuilds(ts, p, first.next, [first.value], spaced);
    }
  }

  lemma {:induction false} ListLoopBuilds(ts: seq<Token>, p: nat, m: nat, items: seq<FilterExpression>, spaced: bool)
    requires Lexed(ts) && p < m <= |ts| && items != [] && ListBuilt(ts, p, m, items, spaced) && ListLoop(ts, m, items).Success?
    ensures var r := ListLoop(ts, m, items).value; ListBuilt(ts, p, r.next, r.value, spaced)
    decreases |ts| - m, 0
  {
    hide Lexed, Built, ListBuilt, ParseOr;
    if KindAt(ts, m) == Some(Comma) {
      var item := ParseOr(ts, m + 1).value;
      OrBuilds(ts, m + 1);
      ListBuiltMore(ts, p, m, item.next, items, item.value, spaced);
      ListLoopBuilds(ts, p, item.next, items + [item.value], spaced);
    }
  }

  lemma {:induction false} ArithmeticBuilds(ts: seq<Token>, p: nat)
    requires Lexed(ts) && p <= |ts| && ParseArithmetic(ts, p).Success?
    ensures var r := ParseArithmetic(ts, p).value; Built(ts, p, r.next, r.value)
    decreases |ts| - p, 4
  {
    hide Lexed, Built, ParsePrimary, ArithmeticLoop;
    var left := ParsePrimary(ts, p).value;
    PrimaryBuilds(ts, p);
    ArithmeticLoopBuilds(ts, p, left.next, left.value);
  }

  lemma BuiltArithmetic(ts: seq<Token>, p: nat, m: nat, q: nat, left: FilterExpression, right: FilterExpression)
    requires m < |ts| && ts[m].kind == ArithmeticOp && IsArithmeticOp(ts[m].value)
    requires Built(ts, p, m, left) && Built(ts, m + 1, q, right)
    ensures Built(ts, p, q, Arithmetic(ts[m].value, left, right))
  {
    hide Keeps, IsArithmeticOp;
    BuiltBinary(ts, p, m, q, ArithmeticOp, Arithmetic(ts[m].value, left, right));
  }

  lemma {:induction false} ArithmeticLoopBuilds(ts: seq<Token>, p: nat, m: nat, left: FilterExpression)
    requires Lexed(ts) && p < m <= |ts| && Built(ts, p, m, left) && ArithmeticLoop(ts, m, left).Success?
    ensures var r := ArithmeticLoop(ts, m, left).value; Built(ts, p, r.next, r.value)
    decreases |ts| - m, 0
  {
    hide Lexed, Built, ParsePrimary;
    if KindAt(ts, m) == Some(ArithmeticOp) {
      var right := ParsePrimary(ts, m + 1).value;
      PrimaryBuilds(ts, m + 1);
      LexedAt(ts, m);
      BuiltArithmetic(ts, p, m, right.next, left, right.value);
      ArithmeticLoopBuilds(ts, p, right.next, Arithmetic(ts[m].value, left, right.value));
    }
  }

  lemma {:induction false} PrimaryBuilds(ts: seq<Token>, p: nat)
    requires Lexed(ts) && p <= |ts| && ParsePrimary(ts, p).Success?
    ensures var r := ParsePrimary(ts, p).value; Built(ts, p, r.next, r.value)
    decreases |ts| - p, 3
  {
    hide Lexed, Built, ParseFunctionCall, ParseGrouping, PathLoop;
    var kind := ts[p].kind;
    if kind == FunctionToken {
      FunctionBuilds(ts, p);
    } else if kind == LParen {
      GroupingBuilds(ts, p);
    } else if LiteralOf(ts[p]).Some? {
      BuiltLiteral(ts, p);
    } else {
      BuiltName(ts, p);
      PathLoopBuilds(ts, p, p + 1, Property(ts[p].value));
    }
  }

  lemma {:induction false} PathLoopBuilds(ts: seq<Token>, p: nat, m: nat, expr: FilterExpression)
    requires Lexed(ts) && p < m <= |ts| && Built(ts, p, m, expr) && (expr.Property? || expr.Lambda?)
    requires PathLoop(ts, m, expr).Success?
    ensures var r := PathLoop(ts, m, expr).value; Built(ts, p, r.next, r.value)
    decreases |ts| - m, 1
  {
    hide Lexed, Built, ParseLambda;
    if KindAt(ts, m) == Some(Slash) {
      if KindAt(ts, m + 1) == Some(LambdaOp) {
        var lambda := ParseLambda(ts, m + 1, expr).value;
        LambdaBuilds(ts, p, m, expr);
        PathLoopBuilds(ts, p, lambda.next, lambda.value);
      } else {
        BuiltPath(ts, p, m, expr.name);
        PathLoopBuilds(ts, p, m + 2, Property(expr.name + "/" + ts[m + 1].value));
      }
    }
  }

  lemma {:induction false} LambdaBuilds(ts: seq<Token>, p: nat, m: nat, source: FilterExpression)
    requires Lexed(ts) && p < m && Built(ts, p, m, source) && (source.Property? || source.Lambda?)
    requires KindAt(ts, m) == Some(Slash) && KindAt(ts, m + 1) == Some(LambdaOp) && ParseLambda(ts, m + 1, source).Success?
    ensures var r := ParseLambda(ts, m + 1, source).value; Built(ts, p, r.next, r.value) && r.value.Lambda?
    decreases |ts| - m, 0
  {
    hide Lexed, Built, ParseOr;
    if KindAt(ts, m + 3) == Some(RParen) {
      BuiltEmptyLambda(ts, p, m, source);
    } else {
      var condition := ParseOr(ts, m + 5).value;
      OrBuilds(ts, m + 5);
      BuiltLambda(ts, p, m, condition.next, source, condition.value);
    }
  }

  lemma {:induction false} FunctionBuilds(ts: seq<Token>, p: nat)
    requires Lexed(ts) && KindAt(ts, p) == Some(FunctionToken) && ParseFunctionCall(ts, p).Success?
    ensures var r := ParseFunctionCall(ts, p).value; Built(ts, p, r.next, r.value)
    decreases |ts| - p, 2
  {
    hide Lexed, Built, Keeps, WellFormed, ListPieces, ParseList;
    var args := ParseList(ts, p + 2).value;
    ListBuilds(ts, p + 2, false);
    BuiltFunction(ts, p, args.next, args.value);
  }

  /** Parentheses change what is grouped, and never what it means: the group is what it encloses. */
  lemma {:induction false} GroupingBuilds(ts: seq<Token>, p: nat)
    requires Lexed(ts) && KindAt(ts, p) == Some(LParen) && ParseGrouping(ts, p).Success?
    ensures var r := ParseGrouping(ts, p).value; Built(ts, p, r.next, r.value)
    decreases |ts| - p, 2
  {
    hide Lexed, Keeps, WellFormed, Pieces, ParseOr;
    var inner := ParseOr(ts, p + 1).value;
    OrBuilds(ts, p + 1);
    ParensOf(ts, p, inner.next);
    KeepsEnclosed(ts, p, inner.next, Pieces(inner.value));
  }

  /**
   * The parser loses nothing: from well-formed tokens it builds a well-formed expression whose tokens, parentheses
   * aside, are the tokens it was given, in order; and the parentheses it was given are balanced.
   */
  lemma ParseTokensSound(ts: seq<Token>, e: FilterExpression)
    requires Lexed(ts) && ParseTokens(ts) == Success(e)
    ensures WellFormed(e) && Balanced(TokenLexemes(ts))
    ensures Yield(TokenLexemes(ts)) == Yield(PieceLexemes(Pieces(e)))
  {
    hide Lexed, WellFormed, Pieces, ParseOr;
    OrBuilds(ts, 0);
    assert ts[0..|ts|] == ts;
  }
}
