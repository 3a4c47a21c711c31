/** The exact round trip: printed and parsed, an expression comes back if and only if it is canonical. */
module FilterExact {
  import opened Strings
  import opened FilterTypes
  import opened FilterLexer
  import opened FilterLexemes
  import opened FilterLexerSound
  import opened FilterRendering
  import opened FilterSerializer
  import opened FilterGrammar
  import opened FilterPrinting
  import opened FilterParser
  import opened FilterRoundTrip
  import opened FilterParserSound

  /** The tokens from `p` to `q` are the printed tokens of `e`. */
  ghost predicate Printed(ts: seq<Token>, p: nat, q: nat, e: FilterExpression) {
    At(ts, p, Pieces(e)) && q == p + |Pieces(e)|
  }

  lemma AtSpan(ts: seq<Token>, p: nat, ps: seq<Piece>)
    requires At(ts, p, ps)
    ensures p + |ps| <= |ts| && Span(ts, p, p + |ps|) == PieceLexemes(ps)
  {
    assert forall i | p <= i < p + |ps| :: ts[i].kind == ps[i - p].kind && ts[i].value == ps[i - p].value;
  }

  lemma YieldGrows(ts: seq<Token>, p: nat, m: nat, q: nat)
    requires p <= m < q <= |ts| && !IsParen(ts[m].kind)
    ensures |Yield(Span(ts, p, m))| < |Yield(Span(ts, p, q))|
  {
    SpanSplit(ts, p, m, q);
    SpanSplit(ts, m, m + 1, q);
    SpanOne(ts, m);
    YieldConcat(Span(ts, p, m), Span(ts, m, q));
    YieldConcat(Span(ts, m, m + 1), Span(ts, m + 1, q));
    BalancedOne((ts[m].kind, ts[m].value));
  }

  /** A token that is no parenthesis stands where its place among such tokens puts it: what was taken before it fixes it. */
  lemma SplitFixed(ts: seq<Token>, p: nat, m: nat, left: seq<Piece>)
    requires Keeps(ts, p, m, left) && m < |ts| && !IsParen(ts[m].kind)
    requires At(ts, p, left) && p + |left| < |ts| && !IsParen(ts[p + |left|].kind)
    ensures m == p + |left|
  {
    AtSpan(ts, p, left);
    if m < p + |left| {
      YieldGrows(ts, p, m, p + |left|);
    } else if p + |left| < m {
      YieldGrows(ts, p, p + |left|, m);
    }
  }

  lemma BinaryPrinted(ts: seq<Token>, p: nat, m: nat, q: nat, kind: TokenType, e: FilterExpression)
    requires WellFormed(e) && Printed(ts, p, q, e)
    requires if kind == LogicalOp then e.Logical? else if kind == ArithmeticOp then e.Arithmetic?
             else kind == ComparisonOp && e.Comparison? && e.operator != "in"
    requires Built(ts, p, m, e.left) && m < |ts| && ts[m].kind == kind
    ensures Printed(ts, p, m, e.left) && Printed(ts, m + 1, q, e.right)
  {
    hide WellFormed, Pieces, Keeps, At;
    BinaryParts(e);
    AtBinary(ts, p, Pieces(e.left), Spaced(kind, e.operator), Pieces(e.right));
    SplitFixed(ts, p, m, Pieces(e.left));
  }

  // Printed parentheses are balanced

  lemma PiecesBalancedBinary(left: seq<Piece>, op: Piece, right: seq<Piece>)
    requires Balanced(PieceLexemes(left)) && Balanced(PieceLexemes(right)) && !IsParen(op.kind)
    ensures Balanced(PieceLexemes(left + [op] + right))
  {
    hide Balanced;
    BalancedOne((op.kind, op.value));
    assert PieceLexemes([op]) == [(op.kind, op.value)];
    PiecesSplit(left, [op]);
    PiecesSplit(left + [op], right);
    BalancedConcat(PieceLexemes(left), PieceLexemes([op]));
    BalancedConcat(PieceLexemes(left + [op]), PieceLexemes(right));
  }

  lemma PiecesBalancedEnclosed(opening: Piece, inner: seq<Piece>)
    requires Balanced(PieceLexemes(inner)) && !IsParen(opening.kind)
    ensures Balanced(PieceLexemes([opening, Tight(LParen, "(")] + inner + [Tight(RParen, ")")]))
  {
    hide Balanced;
    var enclosed := [Tight(LParen, "(")] + inner + [Tight(RParen, ")")];
    assert PieceLexemes(enclosed) == [(LParen, "(")] + PieceLexemes(inner) + [(RParen, ")")];
    BalancedEnclosed(PieceLexemes(inner));
    BalancedNone();
    assert PieceLexemes([]) == [];
    PiecesBalancedBinary([], opening, enclosed);
    assert [] + [opening] + enclosed == [opening, Tight(LParen, "(")] + inner + [Tight(RParen, ")")];
  }

  lemma PiecesBalancedConcat(a: seq<Piece>, b: seq<Piece>)
    requires Balanced(PieceLexemes(a)) && Balanced(PieceLexemes(b))
    ensures Balanced(PieceLexemes(a + b))
  {
    hide Balanced;
    PiecesSplit(a, b);
    BalancedConcat(PieceLexemes(a), PieceLexemes(b));
  }

  lemma PiecesBalancedOne(h: Piece)
    requires !IsParen(h.kind)
    ensures Balanced(PieceLexemes([h]))
  {
    hide Balanced;
    BalancedOne((h.kind, h.value));
    assert PieceLexemes([h]) == [(h.kind, h.value)];
  }

  lemma {:induction false} PathBalanced(name: string)
    ensures Balanced(PieceLexemes(PathPieces(name)))
    decreases |name|
  {
    hide Balanced;
    match LastSlash(name)
    case None => PiecesBalancedOne(Tight(PropertyToken, name));
    case Some(at) =>
      var prefix, slash, part := PathPieces(name[..at]), Tight(Slash, "/"), Tight(PropertyToken, name[at + 1..]);
      PathBalanced(name[..at]);
      PiecesBalancedOne(part);
      PiecesBalancedBinary(prefix, slash, [part]);
      assert prefix + [slash] + [part] == prefix + [slash, part];
  }

  lemma {:induction false} PiecesBalanced(e: FilterExpression)
    requires WellFormed(e)
    ensures Balanced(PieceLexemes(Pieces(e)))
    decreases e, 1
  {
    hide Balanced, WellFormed, Pieces, PathPieces, ListPieces, IsPath, WellFormedLiteral, IsName;
    match e
    case Comparison(operator, left, right) =>
      if operator == "in" {
        InWellFormedParts(e);
        PiecesBalanced(left);
        ItemsBalanced(right.items, true);
        var op, inner := Spaced(ComparisonOp, "in"), ListPieces(right.items, true);
        PiecesBalancedEnclosed(op, inner);
        var enclosed := [op, Tight(LParen, "(")] + inner + [Tight(RParen, ")")];
        PiecesBalancedConcat(Pieces(left), enclosed);
        assert Pieces(left) + enclosed == Pieces(left) + [op, Tight(LParen, "(")] + inner + [Tight(RParen, ")")];
      } else {
        BinaryBalanced(e);
      }
    case Logical(_, _, _) => BinaryBalanced(e);
    case Not(operand) =>
      NotParts(e);
      PiecesBalanced(operand);
      PiecesBalancedEnclosed(Piece(NotOp, "not", false, true), Pieces(operand));
    case Arithmetic(_, _, _) => BinaryBalanced(e);
    case FunctionCall(name, args) =>
      FunctionParts(e);
      ItemsBalanced(args, false);
      PiecesBalancedEnclosed(Tight(FunctionToken, name), ListPieces(args, false));
    case Lambda(operator, variable, source, condition) =>
      LambdaParts(e);
      PiecesBalanced(source);
      if variable == "" {
        BalancedNone();
        assert PieceLexemes([]) == [];
      } else {
        PiecesBalanced(condition);
        PiecesBalancedOne(Tight(PropertyToken, variable));
        PiecesBalancedBinary([Tight(PropertyToken, variable)], Tight(Colon, ":"), Pieces(condition));
        assert [Tight(PropertyToken, variable)] + [Tight(Colon, ":")] == LambdaBinding(variable);
      }
      LambdaBalanced(Pieces(source), operator, LambdaInner(variable, condition));
    case Literal(value, dataType) =>
      LeafParts(e);
      LiteralBalanced(value, dataType);
    case Property(name) =>
      LeafParts(e);
      PathBalanced(name);
    case _ => LeafParts(e);
  }

  lemma LiteralBalanced(value: LiteralValue, dataType: LiteralDataType)
    ensures Balanced(PieceLexemes([Tight(LiteralKind(dataType), ValueText(value))]))
  {
    hide Balanced;
    PiecesBalancedOne(Tight(LiteralKind(dataType), ValueText(value)));
  }

  lemma InWellFormedParts(e: FilterExpression)
    requires WellFormed(e) && e.Comparison? && e.operator == "in"
    ensures WellFormed(e.left) && e.right.Collection? && forall item <- e.right.items :: WellFormed(item)
    ensures Pieces(e) == Pieces(e.left) + [Spaced(ComparisonOp, "in"), Tight(LParen, "(")] + ListPieces(e.right.items, true) + [Tight(RParen, ")")]
  {
    hide ListPieces;
  }

  lemma {:induction false} BinaryBalanced(e: FilterExpression)
    requires WellFormed(e) && (e.Logical? || e.Arithmetic? || (e.Comparison? && e.operator != "in"))
    ensures Balanced(PieceLexemes(Pieces(e)))
    decreases e, 0
  {
    hide Balanced, WellFormed, Pieces;
    BinaryParts(e);
    PiecesBalanced(e.left);
    PiecesBalanced(e.right);
    var kind := if e.Logical? then LogicalOp else if e.Arithmetic? then ArithmeticOp else ComparisonOp;
    PiecesBalancedBinary(Pieces(e.left), Spaced(kind, e.operator), Pieces(e.right));
  }

  lemma LambdaBalanced(source: seq<Piece>, operator: string, inner: seq<Piece>)
    requires Balanced(PieceLexemes(source)) && Balanced(PieceLexemes(inner))
    ensures Balanced(PieceLexemes(source + LambdaOpening(operator) + inner + [Tight(RParen, ")")]))
  {
    hide Balanced;
    var slash, op := Tight(Slash, "/"), Tight(LambdaOp, operator);
    var enclosed := [op, Tight(LParen, "(")] + inner + [Tight(RParen, ")")];
    PiecesBalancedEnclosed(op, inner);
    PiecesBalancedBinary(source, slash, enclosed);
    assert source + [slash] + enclosed == source + LambdaOpening(operator) + inner + [Tight(RParen, ")")];
  }

  lemma {:induction false} ItemsBalanced(items: seq<FilterExpression>, spaced: bool)
    requires forall item <- items :: WellFormed(item)
    ensures Balanced(PieceLexemes(ListPieces(items, spaced)))
    decreases items, 1
  {
    hide Balanced, WellFormed, Pieces;
    if |items| == 0 {
      BalancedNone();
      assert PieceLexemes([]) == [];
    } else if |items| == 1 {
      PiecesBalanced(items[0]);
    } else {
      ItemsBalanced(items[..|items| - 1], spaced);
      PiecesBalanced(items[|items| - 1]);
      PiecesBalancedBinary(ListPieces(items[..|items| - 1], spaced), CommaPiece(spaced), Pieces(items[|items| - 1]));
    }
  }

  // The parse of printed tokens groups them as they stand

  lemma GroupedLooser(e: FilterExpression, level: Level, looser: Level)
    requires Grouped(e, level) && Rank(looser) <= Rank(level)
    ensures Grouped(e, looser)
  {
  }

  lemma {:induction false} OrExact(ts: seq<Token>, p: nat)
    requires Lexed(ts) && p <= |ts| && ParseOr(ts, p).Success?
    requires var r := ParseOr(ts, p).value; Printed(ts, p, r.next, r.value)
    ensures Grouped(ParseOr(ts, p).value.value, OrLevel)
    decreases |ts| - p, 8
  {
    hide Lexed, Built, Printed, Grouped, ParseAnd, OrLoop;
    var left := ParseAnd(ts, p).value;
    AndBuilds(ts, p);
    if Printed(ts, p, left.next, left.value) {
      AndExact(ts, p);
      GroupedLooser(left.value, AndLevel, OrLevel);
    }
    OrLoopExact(ts, p, left.next, left.value);
  }

  lemma GroupedOr(left: FilterExpression, right: FilterExpression)
    requires Grouped(left, OrLevel) && Grouped(right, AndLevel)
    ensures Grouped(Logical("or", left, right), OrLevel)
  {
  }

  lemma {:induction false} OrLoopExact(ts: seq<Token>, p: nat, m: nat, left: FilterExpression)
    requires Lexed(ts) && p < m <= |ts| && Built(ts, p, m, left) && OrLoop(ts, m, left).Success?
    requires Printed(ts, p, m, left) ==> Grouped(left, OrLevel)
    requires var r := OrLoop(ts, m, left).value; Printed(ts, p, r.next, r.value)
    ensures Grouped(OrLoop(ts, m, left).value.value, OrLevel)
    decreases |ts| - m, 0
  {
    hide Lexed, Keeps, WellFormed, Printed, Grouped, ParseAnd;
    if IsLogicalAt(ts, m, "or") {
      var right := ParseAnd(ts, m + 1).value;
      var e := Logical("or", left, right.value);
      AndBuilds(ts, m + 1);
      BuiltLogical(ts, p, m, right.next, left, right.value);
      if Printed(ts, p, right.next, e) {
        BinaryPrinted(ts, p, m, right.next, LogicalOp, e);
        AndExact(ts, m + 1);
        GroupedOr(left, right.value);
      }
      OrLoopExact(ts, p, right.next, e);
    }
  }

  lemma {:induction false} AndExact(ts: seq<Token>, p: nat)
    requires Lexed(ts) && p <= |ts| && ParseAnd(ts, p).Success?
    requires var r := ParseAnd(ts, p).value; Printed(ts, p, r.next, r.value)
    ensures Grouped(ParseAnd(ts, p).value.value, AndLevel)
    decreases |ts| - p, 7
  {
    hide Lexed, Built, Printed, Grouped, ParseNot, AndLoop;
    var left := ParseNot(ts, p).value;
    NotBuilds(ts, p);
    if Printed(ts, p, left.next, left.value) {
      NotExact(ts, p);
      GroupedLooser(left.value, NotLevel, AndLevel);
    }
    AndLoopExact(ts, p, left.next, left.value);
  }

  lemma GroupedAnd(left: FilterExpression, right: FilterExpression)
    requires Grouped(left, AndLevel) && Grouped(right, NotLevel)
    ensures Grouped(Logical("and", left, right), AndLevel)
  {
  }

  lemma {:induction false} AndLoopExact(ts: seq<Token>, p: nat, m: nat, left: FilterExpression)
    requires Lexed(ts) && p < m <= |ts| && Built(ts, p, m, left) && AndLoop(ts, m, left).Success?
    requires Printed(ts, p, m, left) ==> Grouped(left, AndLevel)
    requires var r := AndLoop(ts, m, left).value; Printed(ts, p, r.next, r.value)
    ensures Grouped(AndLoop(ts, m, left).value.value, AndLevel)
    decreases |ts| - m, 0
  {
    hide Lexed, Keeps, WellFormed, Printed, Grouped, ParseNot;
    if IsLogicalAt(ts, m, "and") {
      var right := ParseNot(ts, m + 1).value;
      var e := Logical("and", left, right.value);
      NotBuilds(ts, m + 1);
      BuiltLogical(ts, p, m, right.next, left, right.value);
      if Printed(ts, p, right.next, e) {
        BinaryPrinted(ts, p, m, right.next, LogicalOp, e);
        NotExact(ts, m + 1);
        GroupedAnd(left, right.value);
      }
      AndLoopExact(ts, p, right.next, e);
    }
  }

  /** What `not` takes, when it opens with a group: at least the group, and no more only if it is the group. */
  lemma GroupFirst(ts: seq<Token>, p: nat)
    requires KindAt(ts, p) == Some(LParen) && ParseNot(ts, p).Success?
    ensures ParseOr(ts, p + 1).Success? && KindAt(ts, ParseOr(ts, p + 1).value.next) == Some(RParen)
    ensures var inner := ParseOr(ts, p + 1).value; var r := ParseNot(ts, p).value;
            && inner.next + 1 <= r.next
            && (inner.next + 1 == r.next ==> r.value == inner.value)
  {
    hide ParseOr, ParseFunctionCall, PathLoop, ParseComparand;
    assert ParseNot(ts, p) == ParseComparison(ts, p);
    assert ParsePrimary(ts, p) == ParseGrouping(ts, p);
    assert ParseComparison(ts, p).Success? ==> ParseArithmetic(ts, p).Success?;
    assert ParseArithmetic(ts, p).Success? ==> ParseGrouping(ts, p).Success?;
    var inner := ParseOr(ts, p + 1).value;
    var left := ParseArithmetic(ts, p).value;
    assert ParseArithmetic(ts, p) == ArithmeticLoop(ts, inner.next + 1, inner.value);
    assert left.next == inner.next + 1 ==> left.value == inner.value;
  }

  lemma DepthAtClose(ts: seq<Token>, p: nat, close: nat)
    requires p <= close && KindAt(ts, close) == Some(RParen) && Balanced(Span(ts, p, close))
    ensures ParenDepth(Span(ts, p, close + 1)) == -1
  {
    SpanSplit(ts, p, close, close + 1);
    SpanOne(ts, close);
    ParenDepthConcat(Span(ts, p, close), Span(ts, close, close + 1));
    var one: seq<Lexeme> := [(ts[close].kind, ts[close].value)];
    assert one[1..] == [];
  }

  lemma PrefixDepth(ts: seq<Token>, p: nat, ps: seq<Piece>, i: nat)
    requires At(ts, p, ps) && Balanced(PieceLexemes(ps)) && i <= |ps|
    ensures p + i <= |ts| && ParenDepth(Span(ts, p, p + i)) >= 0
  {
    hide At;
    AtSpan(ts, p, ps);
    SpanSplit(ts, p, p + i, p + |ps|);
    assert PieceLexemes(ps)[..i] == Span(ts, p, p + i);
  }

  /** The parenthesis that closes a printed group is the printed one. */
  lemma CloseFixed(ts: seq<Token>, p: nat, close: nat, e: FilterExpression)
    requires WellFormed(e) && At(ts, p, Pieces(e)) && p <= close <= p + |Pieces(e)|
    requires KindAt(ts, close) == Some(RParen) && Balanced(Span(ts, p, close))
    ensures close == p + |Pieces(e)|
  {
    hide WellFormed, Pieces, At;
    PiecesBalanced(e);
    DepthAtClose(ts, p, close);
    if close < p + |Pieces(e)| {
      PrefixDepth(ts, p, Pieces(e), close + 1 - p);
    }
  }

  lemma GroupedNot(operand: FilterExpression)
    requires Grouped(operand, OrLevel)
    ensures Grouped(Not(operand), NotLevel)
  {
  }

  lemma {:induction false} NotExact(ts: seq<Token>, p: nat)
    requires Lexed(ts) && p <= |ts| && ParseNot(ts, p).Success?
    requires var r := ParseNot(ts, p).value; Printed(ts, p, r.next, r.value)
    ensures Grouped(ParseNot(ts, p).value.value, NotLevel)
    decreases |ts| - p, 6
  {
    hide Lexed, Grouped, Pieces, WellFormed, At, Balanced, ParseComparison, ParseOr;
    var r := ParseNot(ts, p).value;
    if KindAt(ts, p) == Some(NotOp) {
      var operand := r.value.operand;
      NotBuilds(ts, p);
      NotParts(r.value);
      AtEnclosed(ts, p, Piece(NotOp, "not", false, true), Pieces(operand));
      GroupFirst(ts, p + 1);
      var inner := ParseOr(ts, p + 2).value;
      OrBuilds(ts, p + 2);
      CloseFixed(ts, p + 2, inner.next, operand);
      OrExact(ts, p + 2);
      GroupedNot(operand);
    } else {
      ComparisonExact(ts, p);
      GroupedLooser(r.value, ComparisonLevel, NotLevel);
    }
  }

  lemma {:induction false} ComparisonExact(ts: seq<Token>, p: nat)
    requires Lexed(ts) && p <= |ts| && ParseComparison(ts, p).Success?
    requires var r := ParseComparison(ts, p).value; Printed(ts, p, r.next, r.value)
    ensures Grouped(ParseComparison(ts, p).value.value, ComparisonLevel)
    decreases |ts| - p, 5
  {
    hide Lexed, Built, Printed, Grouped, ParseArithmetic, ParseComparand;
    var left := ParseArithmetic(ts, p).value;
    ArithmeticBuilds(ts, p);
    if KindAt(ts, left.next) == Some(ComparisonOp) {
      ComparandExact(ts, p, left.next, left.value);
    } else {
      ArithmeticExact(ts, p);
      GroupedLooser(left.value, ArithmeticLevel, ComparisonLevel);
    }
  }

  lemma GroupedComparison(operator: string, left: FilterExpression, right: FilterExpression)
    requires Grouped(left, ArithmeticLevel)
    requires if operator == "in" then right.Collection? && forall item <- right.items :: Grouped(item, OrLevel)
             else Grouped(right, ArithmeticLevel)
    ensures Grouped(Comparison(operator, left, right), ComparisonLevel)
  {
  }

  lemma {:induction false} ComparandExact(ts: seq<Token>, p: nat, m: nat, left: FilterExpression)
    requires Lexed(ts) && KindAt(ts, m) == Some(ComparisonOp) && p < m
    requires ParseArithmetic(ts, p) == Success(Parsed(left, m)) && Built(ts, p, m, left)
    requires ParseComparand(ts, m, left).Success?
    requires var r := ParseComparand(ts, m, left).value; Printed(ts, p, r.next, r.value)
    ensures Grouped(ParseComparand(ts, m, left).value.value, ComparisonLevel)
    decreases |ts| - p, 4
  {
    hide Lexed, Keeps, WellFormed, Grouped, Pieces, At, ParseArithmetic, ParseList, ListPieces;
    var r := ParseComparand(ts, m, left).value;
    ComparandBuilds(ts, p, m, left);
    if ts[m].value == "in" {
      var items := ParseList(ts, m + 2).value;
      InWellFormedParts(r.value);
      AtIn(ts, p, Pieces(left), ListPieces(items.value, true));
      SplitFixed(ts, p, m, Pieces(left));
      ArithmeticExact(ts, p);
      ListExact(ts, m + 2, true);
      GroupedComparison("in", left, Collection(items.value));
    } else {
      var right := ParseArithmetic(ts, m + 1).value;
      BinaryPrinted(ts, p, m, r.next, ComparisonOp, r.value);
      ArithmeticExact(ts, p);
      ArithmeticExact(ts, m + 1);
      GroupedComparison(ts[m].value, left, right.value);
    }
  }

  ghost predicate ListPrinted(ts: seq<Token>, p: nat, q: nat, items: seq<FilterExpression>, spaced: bool) {
    At(ts, p, ListPieces(items, spaced)) && q == p + |ListPieces(items, spaced)|
  }

  lemma ListPrintedOne(ts: seq<Token>, p: nat, q: nat, item: FilterExpression, spaced: bool)
    requires ListPrinted(ts, p, q, [item], spaced)
    ensures Printed(ts, p, q, item)
  {
    hide At;
    assert ListPieces([item], spaced) == Pieces([item][0]);
  }

  lemma ListPrintedMore(ts: seq<Token>, p: nat, m: nat, q: nat, items: seq<FilterExpression>, item: FilterExpression, spaced: bool)
    requires items != [] && ListPrinted(ts, p, q, items + [item], spaced)
    requires ListBuilt(ts, p, m, items, spaced) && KindAt(ts, m) == Some(Comma)
    ensures ListPrinted(ts, p, m, items, spaced) && Printed(ts, m + 1, q, item)
  {
    hide At, Keeps, Pieces, WellFormed;
    var all := items + [item];
    assert all[..|all| - 1] == items && all[|all| - 1] == item;
    AtBinary(ts, p, ListPieces(items, spaced), CommaPiece(spaced), Pieces(item));
    SplitFixed(ts, p, m, ListPieces(items, spaced));
  }

  lemma {:induction false} ListExact(ts: seq<Token>, p: nat, spaced: bool)
    requires Lexed(ts) && p <= |ts| && ParseList(ts, p).Success?
    requires var r := ParseList(ts, p).value; ListPrinted(ts, p, r.next, r.value, spaced)
    ensures forall item <- ParseList(ts, p).value.value :: Grouped(item, OrLevel)
    decreases |ts| - p, 9
  {
    hide Lexed, Built, Printed, ListPrinted, ListBuilt, Grouped, ParseOr, ListLoop;
    if KindAt(ts, p) != Some(RParen) {
      var first := ParseOr(ts, p).value;
      OrBuilds(ts, p);
      ListBuiltOne(ts, p, first.next, first.value, spaced);
      if ListPrinted(ts, p, first.next, [first.value], spaced) {
        ListPrintedOne(ts, p, first.next, first.value, spaced);
        OrExact(ts, p);
      }
      ListLoopExact(ts, p, first.next, [first.value], spaced);
    }
  }

  lemma {:induction false} ListLoopExact(ts: seq<Token>, p: nat, m: nat, items: seq<FilterExpression>, spaced: bool)
    requires Lexed(ts) && p < m <= |ts| && items != [] && ListBuilt(ts, p, m, items, spaced) && ListLoop(ts, m, items).Success?
    requires ListPrinted(ts, p, m, items, spaced) ==> forall item <- items :: Grouped(item, OrLevel)
    requires var r := ListLoop(ts, m, items).value; ListPrinted(ts, p, r.next, r.value, spaced)
    ensures forall item <- ListLoop(ts, m, items).value.value :: Grouped(item, OrLevel)
    decreases |ts| - m, 0
  {
    hide Lexed, Built, Printed, ListPrinted, ListBuilt, Grouped, ParseOr;
    if KindAt(ts, m) == Some(Comma) {
      var item := ParseOr(ts, m + 1).value;
      var all := items + [item.value];
      OrBuilds(ts, m + 1);
      ListBuiltMore(ts, p, m, item.next, items, item.value, spaced);
      if ListPrinted(ts, p, item.next, all, spaced) {
        ListPrintedMore(ts, p, m, item.next, items, item.value, spaced);
        OrExact(ts, m + 1);
      }
      ListLoopExact(ts, p, item.next, all, spaced);
    }
  }

  lemma {:induction false} ArithmeticExact(ts: seq<Token>, p: nat)
    requires Lexed(ts) && p <= |ts| && ParseArithmetic(ts, p).Success?
    requires var r := ParseArithmetic(ts, p).value; Printed(ts, p, r.next, r.value)
    ensures Grouped(ParseArithmetic(ts, p).value.value, ArithmeticLevel)
    decreases |ts| - p, 3
  {
    hide Lexed, Built, Printed, Grouped, ParsePrimary, ArithmeticLoop;
    var left := ParsePrimary(ts, p).value;
    PrimaryBuilds(ts, p);
    if Printed(ts, p, left.next, left.value) {
      PrimaryExact(ts, p);
      GroupedLooser(left.value, PrimaryLevel, ArithmeticLevel);
    }
    ArithmeticLoopExact(ts, p, left.next, left.value);
  }

  lemma GroupedArithmetic(operator: string, left: FilterExpression, right: FilterExpression)
    requires Grouped(left, ArithmeticLevel) && Grouped(right, PrimaryLevel)
    ensures Grouped(Arithmetic(operator, left, right), ArithmeticLevel)
  {
  }

  lemma ArithmeticLoopStep(ts: seq<Token>, m: nat, left: FilterExpression)
    requires m <= |ts| && ArithmeticLoop(ts, m, left).Success?
    ensures if KindAt(ts, m) == Some(ArithmeticOp) then
              && ParsePrimary(ts, m + 1).Success?
              && var right := ParsePrimary(ts, m + 1).value;
                 && m < right.next <= |ts|
                 && ArithmeticLoop(ts, m, left) == ArithmeticLoop(ts, right.next, Arithmetic(ts[m].value, left, right.value))
            else ArithmeticLoop(ts, m, left) == Success(Parsed(left, m))
  {
    hide ParsePrimary;
  }

  lemma {:induction false} ArithmeticLoopExact(ts: seq<Token>, p: nat, m: nat, left: FilterExpression)
    requires Lexed(ts) && p < m <= |ts| && Built(ts, p, m, left) && ArithmeticLoop(ts, m, left).Success?
    requires Printed(ts, p, m, left) ==> Grouped(left, ArithmeticLevel)
    requires var r := ArithmeticLoop(ts, m, left).value; Printed(ts, p, r.next, r.value)
    ensures Grouped(ArithmeticLoop(ts, m, left).value.value, ArithmeticLevel)
    decreases |ts| - m, 0
  {
    hide Lexed, Keeps, WellFormed, Printed, Grouped, ParsePrimary, ArithmeticLoop;
    ArithmeticLoopStep(ts, m, left);
    if KindAt(ts, m) == Some(ArithmeticOp) {
      var right := ParsePrimary(ts, m + 1).value;
      var e := Arithmetic(ts[m].value, left, right.value);
      PrimaryBuilds(ts, m + 1);
      LexedAt(ts, m);
      BuiltArithmetic(ts, p, m, right.next, left, right.value);
      if Printed(ts, p, right.next, e) {
        BinaryPrinted(ts, p, m, right.next, ArithmeticOp, e);
        PrimaryExact(ts, m + 1);
        GroupedArithmetic(ts[m].value, left, right.value);
      }
      ArithmeticLoopExact(ts, p, right.next, e);
    }
  }

  lemma GroupedFunction(name: string, args: seq<FilterExpression>)
    requires forall arg <- args :: Grouped(arg, OrLevel)
    ensures Grouped(FunctionCall(name, args), PrimaryLevel)
  {
  }

  lemma GroupedLiteral(token: Token)
    requires LiteralOf(token).Some?
    ensures Grouped(LiteralOf(token).value, PrimaryLevel)
  {
  }

  lemma NoLeadingParen(ts: seq<Token>, p: nat, q: nat, e: FilterExpression)
    requires WellFormed(e) && Printed(ts, p, q, e)
    ensures p < |ts| && ts[p].kind != LParen
  {
    hide WellFormed, Pieces;
    Edges(e);
    assert ts[p + 0].kind == Pieces(e)[0].kind;
  }

  lemma {:induction false} PrimaryExact(ts: seq<Token>, p: nat)
    requires Lexed(ts) && p <= |ts| && ParsePrimary(ts, p).Success?
    requires var r := ParsePrimary(ts, p).value; Printed(ts, p, r.next, r.value)
    ensures Grouped(ParsePrimary(ts, p).value.value, PrimaryLevel)
    decreases |ts| - p, 2
  {
    hide Lexed, Grouped, Pieces, ListPieces, WellFormed, ParseList, ParseGrouping, PathLoop, Keeps, LiteralOf;
    var r := ParsePrimary(ts, p).value;
    PrimaryBuilds(ts, p);
    if ts[p].kind == FunctionToken {
      var args := ParseList(ts, p + 2).value;
      FunctionParts(r.value);
      AtEnclosed(ts, p, Tight(FunctionToken, r.value.name), ListPieces(args.value, false));
      ListExact(ts, p + 2, false);
      GroupedFunction(r.value.name, args.value);
    } else if ts[p].kind == LParen {
      NoLeadingParen(ts, p, r.next, r.value);
    } else if LiteralOf(ts[p]).Some? {
      GroupedLiteral(ts[p]);
    } else {
      BuiltName(ts, p);
      GroupedName(ts[p].value);
      PathLoopExact(ts, p, p + 1, Property(ts[p].value));
    }
  }

  lemma GroupedName(name: string)
    ensures Grouped(Property(name), PrimaryLevel)
  {
  }

  lemma GroupedLambda(operator: string, variable: string, source: FilterExpression, condition: FilterExpression)
    requires Grouped(source, PrimaryLevel) && (variable != "" ==> Grouped(condition, OrLevel))
    ensures Grouped(Lambda(operator, variable, source, condition), PrimaryLevel)
  {
  }

  lemma {:induction false} PathLoopExact(ts: seq<Token>, p: nat, m: nat, expr: FilterExpression)
    requires Lexed(ts) && p < m <= |ts| && Built(ts, p, m, expr) && (expr.Property? || expr.Lambda?)
    requires PathLoop(ts, m, expr).Success?
    requires Printed(ts, p, m, expr) ==> Grouped(expr, PrimaryLevel)
    requires var r := PathLoop(ts, m, expr).value; Printed(ts, p, r.next, r.value)
    ensures Grouped(PathLoop(ts, m, expr).value.value, PrimaryLevel)
    decreases |ts| - m, 1
  {
    hide Lexed, Built, Printed, Grouped, ParseLambda;
    if KindAt(ts, m) == Some(Slash) {
      if KindAt(ts, m + 1) == Some(LambdaOp) {
        var lambda := ParseLambda(ts, m + 1, expr).value;
        LambdaBuilds(ts, p, m, expr);
        if Printed(ts, p, lambda.next, lambda.value) {
          LambdaExact(ts, p, m, expr, lambda);
        }
        PathLoopExact(ts, p, lambda.next, lambda.value);
      } else {
        BuiltPath(ts, p, m, expr.name);
        GroupedName(expr.name + "/" + ts[m + 1].value);
        PathLoopExact(ts, p, m + 2, Property(expr.name + "/" + ts[m + 1].value));
      }
    }
  }

  /** What a parsed lambda is made of. */
  lemma LambdaShape(ts: seq<Token>, q: nat, source: FilterExpression)
    requires q < |ts| && ParseLambda(ts, q, source).Success?
    ensures var r := ParseLambda(ts, q, source).value;
            && r.value.Lambda? && r.value.source == source
            && (if KindAt(ts, q + 2) == Some(RParen) then r.value.variable == ""
                else
                  && KindAt(ts, q + 2) == Some(PropertyToken) && r.value.variable == ts[q + 2].value
                  && q + 4 <= |ts| && ParseOr(ts, q + 4).Success?
                  && r.value.condition == ParseOr(ts, q + 4).value.value && r.next == ParseOr(ts, q + 4).value.next + 1)
  {
    hide ParseOr;
  }

  /** Where a lambda is printed, its source is, up to where the parser found its slash, and its condition is. */
  lemma LambdaPrinted(ts: seq<Token>, p: nat, m: nat, q: nat, e: FilterExpression)
    requires e.Lambda? && Built(ts, p, q, e) && p < m < |ts| && Built(ts, p, m, e.source) && KindAt(ts, m) == Some(Slash)
    requires Printed(ts, p, q, e)
    ensures Printed(ts, p, m, e.source)
    ensures e.variable != "" ==> q > m + 5 && Printed(ts, m + 5, q - 1, e.condition)
  {
    hide Pieces, WellFormed, At, Keeps;
    LambdaParts(e);
    AtLambda(ts, p, Pieces(e.source), e.operator, LambdaInner(e.variable, e.condition));
    SplitFixed(ts, p, m, Pieces(e.source));
    if e.variable != "" {
      AtBinding(ts, m + 3, e.variable, Pieces(e.condition));
    }
  }

  lemma {:induction false} LambdaExact(ts: seq<Token>, p: nat, m: nat, source: FilterExpression, r: Parsed<FilterExpression>)
    requires Lexed(ts) && p < m && Built(ts, p, m, source) && (source.Property? || source.Lambda?)
    requires KindAt(ts, m) == Some(Slash) && KindAt(ts, m + 1) == Some(LambdaOp) && ParseLambda(ts, m + 1, source) == Success(r)
    requires Printed(ts, p, m, source) ==> Grouped(source, PrimaryLevel)
    requires Printed(ts, p, r.next, r.value)
    ensures Grouped(r.value, PrimaryLevel)
    decreases |ts| - m, 0
  {
    hide Lexed, Grouped, Built, Printed, ParseOr, ParseLambda;
    var e := r.value;
    LambdaBuilds(ts, p, m, source);
    LambdaShape(ts, m + 1, source);
    LambdaPrinted(ts, p, m, r.next, e);
    if KindAt(ts, m + 3) != Some(RParen) {
      LexedAt(ts, m + 3);
      OrExact(ts, m + 5);
    }
    GroupedLambda(e.operator, e.variable, source, e.condition);
  }

  lemma TokensExact(e: FilterExpression, ts: seq<Token>)
    requires Lexed(ts) && SameTokens(ts, Pieces(e)) && ParseTokens(ts) == Success(e)
    ensures Grouped(e, OrLevel)
  {
    hide Lexed, Grouped, Pieces, ParseOr;
    SameTokensAt(ts, Pieces(e));
    OrExact(ts, 0);
  }

  // The theorems

  /** Whatever the parser accepts, it builds a well-formed expression of. */
  lemma ParsedIsWellFormed(filter: string, e: FilterExpression)
    requires ParseFilter(filter) == Success(e)
    ensures WellFormed(e)
  {
    hide WellFormed, Lexed, ParseTokens;
    var ts := Lex(filter).value;
    LexSound(filter, ts);
    ParseTokensSound(ts, e);
  }

  /**
   * The printer undoes the parser, and the parser the printer, exactly on the canonical expressions: of all the
   * expressions that can be printed, these and no others come back from their printed string.
   */
  lemma RoundTripExactly(e: FilterExpression)
    requires Printable(e)
    ensures ParseFilter(AstToFilterString(e)) == Success(e) <==> Canonical(e)
  {
    hide WellFormed, Grouped, SignsKept, Lexed, Lex, ParseTokens, AstToFilterString, Pieces, SameTokens;
    var s := AstToFilterString(e);
    if ParseFilter(s) == Success(e) {
      ParsedIsWellFormed(s, e);
      var ts := Lex(s).value;
      LexSound(s, ts);
      var printed := LexPrinted(e);
      TokensExact(e, ts);
    }
    if Canonical(e) {
      var printed := LexPrinted(e);
      TokensReadBack(e, printed);
    }
  }
}
