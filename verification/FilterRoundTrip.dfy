/** Printed tokens parse back: grouped expressions, rule by rule. */
module FilterRoundTrip {
  import opened Strings
  import opened FilterTypes
  import opened FilterLexemes
  import opened FilterRendering
  import opened FilterSerializer
  import opened FilterGrammar
  import opened FilterParser
  import opened FilterWriting

  /** The tokens at `p` are these. */
  ghost predicate At(ts: seq<Token>, p: nat, ps: seq<Piece>) {
    && p + |ps| <= |ts|
    && forall i | 0 <= i < |ps| :: ts[p + i].kind == ps[i].kind && ts[p + i].value == ps[i].value
  }

  lemma AtSplit(ts: seq<Token>, p: nat, a: seq<Piece>, b: seq<Piece>)
    ensures At(ts, p, a + b) <==> At(ts, p, a) && At(ts, p + |a|, b)
  {
    if At(ts, p, a + b) {
      assert forall i | 0 <= i < |a| :: (a + b)[i] == a[i];
      assert forall i | 0 <= i < |b| :: (a + b)[|a| + i] == b[i] && ts[p + |a| + i] == ts[p + (|a| + i)];
    }
  }

  lemma AtFits(ts: seq<Token>, p: nat, ps: seq<Piece>)
    requires At(ts, p, ps)
    ensures p + |ps| <= |ts|
  {
  }

  lemma AtOne(ts: seq<Token>, p: nat, h: Piece)
    ensures At(ts, p, [h]) <==> p < |ts| && ts[p].kind == h.kind && ts[p].value == h.value
  {
    assert [h][0] == h;
    assert At(ts, p, [h]) ==> ts[p + 0] == ts[p];
  }

  lemma AtBinary(ts: seq<Token>, p: nat, left: seq<Piece>, op: Piece, right: seq<Piece>)
    requires At(ts, p, left + [op] + right)
    ensures var m := p + |left|;
            && At(ts, p, left) && m < |ts| && ts[m].kind == op.kind && ts[m].value == op.value && At(ts, m + 1, right)
  {
    AtSplit(ts, p, left + [op], right);
    AtSplit(ts, p, left, [op]);
    AtOne(ts, p + |left|, op);
  }

  /** A piece, an opening parenthesis, what it encloses, and the closing parenthesis. */
  lemma AtEnclosed(ts: seq<Token>, p: nat, opening: Piece, inner: seq<Piece>)
    requires At(ts, p, [opening, Tight(LParen, "(")] + inner + [Tight(RParen, ")")])
    ensures && p + |inner| + 3 <= |ts|
            && ts[p].kind == opening.kind && ts[p].value == opening.value && ts[p + 1].kind == LParen
            && At(ts, p + 2, inner) && ts[p + 2 + |inner|].kind == RParen
  {
    var open, close := Tight(LParen, "("), Tight(RParen, ")");
    AtSplit(ts, p, [opening, open] + inner, [close]);
    AtSplit(ts, p, [opening, open], inner);
    assert [opening, open] == [opening] + [open];
    AtSplit(ts, p, [opening], [open]);
    AtOne(ts, p, opening);
    AtOne(ts, p + 1, open);
    AtOne(ts, p + 2 + |inner|, close);
  }

  lemma AtIn(ts: seq<Token>, p: nat, left: seq<Piece>, items: seq<Piece>)
    requires At(ts, p, left + [Spaced(ComparisonOp, "in"), Tight(LParen, "(")] + items + [Tight(RParen, ")")])
    ensures var m := p + |left|;
            && At(ts, p, left) && m + |items| + 3 <= |ts|
            && ts[m].kind == ComparisonOp && ts[m].value == "in" && ts[m + 1].kind == LParen
            && At(ts, m + 2, items) && ts[m + 2 + |items|].kind == RParen
  {
    var enclosed := [Spaced(ComparisonOp, "in"), Tight(LParen, "(")] + items + [Tight(RParen, ")")];
    assert left + [Spaced(ComparisonOp, "in"), Tight(LParen, "(")] + items + [Tight(RParen, ")")] == left + enclosed;
    AtSplit(ts, p, left, enclosed);
    AtEnclosed(ts, p + |left|, Spaced(ComparisonOp, "in"), items);
  }

  lemma AtLambda(ts: seq<Token>, p: nat, source: seq<Piece>, operator: string, inner: seq<Piece>)
    requires At(ts, p, source + LambdaOpening(operator) + inner + [Tight(RParen, ")")])
    ensures var m := p + |source|;
            && At(ts, p, source) && m + |inner| + 4 <= |ts|
            && ts[m].kind == Slash && ts[m + 1].kind == LambdaOp && ts[m + 1].value == operator && ts[m + 2].kind == LParen
            && At(ts, m + 3, inner) && ts[m + 3 + |inner|].kind == RParen
  {
    var slash, op := Tight(Slash, "/"), Tight(LambdaOp, operator);
    var enclosed := [op, Tight(LParen, "(")] + inner + [Tight(RParen, ")")];
    assert source + LambdaOpening(operator) + inner + [Tight(RParen, ")")] == source + [slash] + enclosed;
    AtBinary(ts, p, source, slash, enclosed);
    AtEnclosed(ts, p + |source| + 1, op, inner);
  }

  lemma AtBinding(ts: seq<Token>, p: nat, variable: string, condition: seq<Piece>)
    requires At(ts, p, LambdaBinding(variable) + condition)
    ensures && p + 2 <= |ts| && ts[p].kind == PropertyToken && ts[p].value == variable && ts[p + 1].kind == Colon
            && At(ts, p + 2, condition)
  {
    var name, colon := Tight(PropertyToken, variable), Tight(Colon, ":");
    AtSplit(ts, p, LambdaBinding(variable), condition);
    assert LambdaBinding(variable) == [name] + [colon];
    AtSplit(ts, p, [name], [colon]);
    AtOne(ts, p, name);
    AtOne(ts, p + 1, colon);
  }

  ghost function End(p: nat, e: FilterExpression): nat {
    p + |Pieces(e)|
  }

  // The parts of an expression, so that the rules below need not look into every kind

  lemma BinaryParts(e: FilterExpression)
    requires WellFormed(e) && (e.Logical? || e.Arithmetic? || (e.Comparison? && e.operator != "in"))
    ensures WellFormed(e.left) && WellFormed(e.right)
    ensures var kind := if e.Logical? then LogicalOp else if e.Arithmetic? then ArithmeticOp else ComparisonOp;
            Pieces(e) == Pieces(e.left) + [Spaced(kind, e.operator)] + Pieces(e.right)
  {
    hide IsPath, IsName, PathPieces, WellFormedLiteral, ListPieces, ValidLexeme;
  }

  lemma GroupedParts(e: FilterExpression, level: Level)
    requires Grouped(e, level)
    ensures Rank(level) <= Rank(LevelOf(e))
    ensures e.Logical? ==>
              && Grouped(e.left, if e.operator == "or" then OrLevel else AndLevel)
              && Grouped(e.right, if e.operator == "or" then AndLevel else NotLevel)
    ensures e.Arithmetic? ==> Grouped(e.left, ArithmeticLevel) && Grouped(e.right, PrimaryLevel)
    ensures e.Comparison? ==> Grouped(e.left, ArithmeticLevel) && (e.operator != "in" ==> Grouped(e.right, ArithmeticLevel))
    ensures !e.Logical? ==> Grouped(e, LevelOf(e))
  {
  }

  lemma InParts(e: FilterExpression)
    requires WellFormed(e) && Grouped(e, ComparisonLevel) && e.Comparison? && e.operator == "in"
    ensures WellFormed(e.left) && Grouped(e.left, ArithmeticLevel) && e.right.Collection?
    ensures forall item <- e.right.items :: WellFormed(item) && Grouped(item, OrLevel)
    ensures Pieces(e) == Pieces(e.left) + [Spaced(ComparisonOp, "in"), Tight(LParen, "(")] + ListPieces(e.right.items, true) + [Tight(RParen, ")")]
  {
    hide ListPieces;
  }

  lemma NotParts(e: FilterExpression)
    requires WellFormed(e) && e.Not?
    ensures WellFormed(e.operand)
    ensures Grouped(e, NotLevel) ==> Grouped(e.operand, OrLevel)
    ensures Pieces(e) == [Piece(NotOp, "not", false, true), Tight(LParen, "(")] + Pieces(e.operand) + [Tight(RParen, ")")]
  {
  }

  function LambdaInner(variable: string, condition: FilterExpression): seq<Piece> {
    if variable == "" then [] else LambdaBinding(variable) + Pieces(condition)
  }

  lemma LambdaParts(e: FilterExpression)
    requires WellFormed(e) && e.Lambda?
    ensures WellFormed(e.source) && (e.source.Property? || e.source.Lambda?) && IsLambdaOp(e.operator)
    ensures if e.variable == "" then e.condition == EMPTY_CONDITION else IsName(e.variable) && WellFormed(e.condition)
    ensures Grouped(e, PrimaryLevel) ==> Grouped(e.source, PrimaryLevel) && (e.variable != "" ==> Grouped(e.condition, OrLevel))
    ensures Pieces(e) == Pieces(e.source) + LambdaOpening(e.operator) + LambdaInner(e.variable, e.condition) + [Tight(RParen, ")")]
  {
    hide LambdaOpening, LambdaBinding, IsName;
    assert Pieces(e.source) + LambdaOpening(e.operator) + [] == Pieces(e.source) + LambdaOpening(e.operator);
    assert e.variable != "" ==>
      Pieces(e.source) + LambdaOpening(e.operator) + (LambdaBinding(e.variable) + Pieces(e.condition))
      == Pieces(e.source) + LambdaOpening(e.operator) + LambdaBinding(e.variable) + Pieces(e.condition);
  }

  lemma FunctionParts(e: FilterExpression)
    requires WellFormed(e) && e.FunctionCall?
    ensures ValidLexeme(FunctionToken, e.name) && forall arg <- e.args :: WellFormed(arg)
    ensures Grouped(e, PrimaryLevel) ==> forall arg <- e.args :: Grouped(arg, OrLevel)
    ensures Pieces(e) == [Tight(FunctionToken, e.name), Tight(LParen, "(")] + ListPieces(e.args, false) + [Tight(RParen, ")")]
  {
    hide ListPieces, ValidLexeme;
  }

  lemma LeafParts(e: FilterExpression)
    requires WellFormed(e) && LevelOf(e) == PrimaryLevel && !e.Lambda? && !e.FunctionCall?
    ensures e.Literal? || e.Property?
    ensures e.Literal? ==> WellFormedLiteral(e.value, e.dataType) && Pieces(e) == [Tight(LiteralKind(e.dataType), ValueText(e.value))]
    ensures e.Property? ==> IsPath(e.name) && Pieces(e) == PathPieces(e.name)
  {
    hide IsPath, PathPieces, WellFormedLiteral;
  }

  lemma OperatorIsAnd(e: FilterExpression)
    requires e.Logical? && WellFormed(e)
    ensures e.operator == "or" || e.operator == "and"
  {
  }

  lemma SameTokensAt(ts: seq<Token>, ps: seq<Piece>)
    ensures SameTokens(ts, ps) <==> At(ts, 0, ps) && |ts| == |ps|
  {
    assert forall i: nat | i < |ts| :: ts[0 + i] == ts[i];
  }

  // What is printed is written

  lemma {:induction false} PathIsPrinted(name: string, ts: seq<Token>, p: nat)
    requires At(ts, p, PathPieces(name))
    ensures WritesPath(ts, p, p + |PathPieces(name)|, Property(name))
    decreases |name|
  {
    hide At, WritesPath;
    match LastSlash(name)
    case None =>
      AtOne(ts, p, Tight(PropertyToken, name));
      NameWrites(ts, p);
    case Some(at) =>
      var prefix, slash, part := PathPieces(name[..at]), Tight(Slash, "/"), Tight(PropertyToken, name[at + 1..]);
      AtSplit(ts, p, prefix, [slash, part]);
      hide PathPieces;
      AtFits(ts, p, prefix);
      PathIsPrinted(name[..at], ts, p);
      hide *;
      PartIsPrinted(name[..at], name[at + 1..], ts, p, p + |prefix|);
      assert name == name[..at] + "/" + name[at + 1..];
  }

  lemma PartIsPrinted(prefix: string, part: string, ts: seq<Token>, p: nat, m: nat)
    requires p <= m <= |ts| && WritesPath(ts, p, m, Property(prefix))
    requires At(ts, m, [Tight(Slash, "/"), Tight(PropertyToken, part)])
    ensures m + 2 <= |ts| && WritesPath(ts, p, m + 2, Property(prefix + "/" + part))
  {
    hide At, WritesPath;
    var slash, name := Tight(Slash, "/"), Tight(PropertyToken, part);
    PathStarts(ts, p, m, Property(prefix));
    assert [slash, name] == [slash] + [name];
    AtSplit(ts, m, [slash], [name]);
    AtOne(ts, m, slash);
    AtOne(ts, m + 1, name);
    PartIsWritten(ts, p, m, prefix);
  }

  lemma {:induction false} LambdaIsPrinted(e: FilterExpression, ts: seq<Token>, p: nat)
    requires e.Lambda? && WellFormed(e) && Grouped(e, PrimaryLevel) && At(ts, p, Pieces(e))
    ensures WritesPath(ts, p, End(p, e), e)
    decreases e, 0
  {
    hide WellFormed, Grouped, Pieces, At, Writes, IsName, WritesLambda, WritesPath;
    var m, q := End(p, e.source), End(p, e);
    LambdaParts(e);
    AtLambda(ts, p, Pieces(e.source), e.operator, LambdaInner(e.variable, e.condition));
    SourceIsPrinted(e.source, ts, p);
    if e.variable != "" {
      AtBinding(ts, m + 3, e.variable, Pieces(e.condition));
      IsPrinted(e.condition, ts, m + 5, OrLevel);
      Starts(ts, m + 5, q - 1, e.condition, OrLevel);
    }
    LambdaEnds(ts, m, q, e);
    LambdaIsWritten(ts, p, m, q, e);
  }

  /** A lambda's source is a path. */
  lemma {:induction false} SourceIsPrinted(e: FilterExpression, ts: seq<Token>, p: nat)
    requires (e.Property? || e.Lambda?) && WellFormed(e) && Grouped(e, PrimaryLevel) && At(ts, p, Pieces(e))
    ensures WritesPath(ts, p, End(p, e), e)
    decreases e, 1
  {
    hide WellFormed, Grouped, At, WritesPath, Pieces;
    if e.Lambda? {
      LambdaIsPrinted(e, ts, p);
    } else {
      LeafParts(e);
      PathIsPrinted(e.name, ts, p);
    }
  }

  lemma {:induction false} PrimaryIsPrinted(e: FilterExpression, ts: seq<Token>, p: nat)
    requires LevelOf(e) == PrimaryLevel && WellFormed(e) && Grouped(e, PrimaryLevel) && At(ts, p, Pieces(e))
    ensures Writes(ts, p, End(p, e), e, PrimaryLevel)
    decreases e, 2
  {
    hide WellFormed, Grouped, At, Pieces, Writes, WritesPath, WritesList, ListPieces, ValidLexeme, WellFormedLiteral;
    AtFits(ts, p, Pieces(e));
    match e
    case FunctionCall(name, args) =>
      FunctionParts(e);
      AtEnclosed(ts, p, Tight(FunctionToken, name), ListPieces(args, false));
      ListIsPrinted(args, false, ts, p + 2);
      FunctionIsWritten(ts, p, End(p, e), e);
    case Literal(value, dataType) =>
      LeafParts(e);
      AtOne(ts, p, Tight(LiteralKind(dataType), ValueText(value)));
      LiteralIsWritten(ts, p, value, dataType, PrimaryLevel);
    case Lambda(_, _, _, _) =>
      LambdaIsPrinted(e, ts, p);
      PathIsWritten(ts, p, End(p, e), e, PrimaryLevel);
    case Property(_) =>
      SourceIsPrinted(e, ts, p);
      PathIsWritten(ts, p, End(p, e), e, PrimaryLevel);
    case _ => LeafParts(e);
  }

  lemma {:induction false} ComparisonIsPrinted(e: FilterExpression, ts: seq<Token>, p: nat)
    requires e.Comparison? && WellFormed(e) && Grouped(e, ComparisonLevel) && At(ts, p, Pieces(e))
    ensures Writes(ts, p, End(p, e), e, ComparisonLevel)
    decreases e, 2
  {
    hide WellFormed, Grouped, At, Pieces, Writes, WritesList, ListPieces;
    var m := End(p, e.left);
    if e.operator == "in" {
      InParts(e);
      AtIn(ts, p, Pieces(e.left), ListPieces(e.right.items, true));
      IsPrinted(e.left, ts, p, ArithmeticLevel);
      ListIsPrinted(e.right.items, true, ts, m + 2);
      InIsWritten(ts, p, m, End(p, e), e);
    } else {
      GroupedParts(e, ComparisonLevel);
      BinaryParts(e);
      AtBinary(ts, p, Pieces(e.left), Spaced(ComparisonOp, e.operator), Pieces(e.right));
      IsPrinted(e.left, ts, p, ArithmeticLevel);
      IsPrinted(e.right, ts, m + 1, ArithmeticLevel);
      ComparisonIsWritten(ts, p, m, End(p, e), e);
    }
  }

  lemma {:induction false} BinaryIsPrinted(e: FilterExpression, ts: seq<Token>, p: nat)
    requires (e.Logical? || e.Arithmetic?) && WellFormed(e) && Grouped(e, LevelOf(e)) && At(ts, p, Pieces(e))
    ensures Writes(ts, p, End(p, e), e, LevelOf(e))
    decreases e, 2
  {
    hide WellFormed, Grouped, At, Pieces, Writes;
    var m, kind := End(p, e.left), if e.Logical? then LogicalOp else ArithmeticOp;
    GroupedParts(e, LevelOf(e));
    BinaryParts(e);
    AtBinary(ts, p, Pieces(e.left), Spaced(kind, e.operator), Pieces(e.right));
    if e.Arithmetic? {
      IsPrinted(e.left, ts, p, ArithmeticLevel);
      IsPrinted(e.right, ts, m + 1, PrimaryLevel);
      ArithmeticIsWritten(ts, p, m, End(p, e), e);
    } else {
      OperatorIsAnd(e);
      IsPrinted(e.left, ts, p, if e.operator == "or" then OrLevel else AndLevel);
      IsPrinted(e.right, ts, m + 1, if e.operator == "or" then AndLevel else NotLevel);
      LogicalIsWritten(ts, p, m, End(p, e), e);
    }
  }

  lemma {:induction false} NegationIsPrinted(e: FilterExpression, ts: seq<Token>, p: nat)
    requires e.Not? && WellFormed(e) && Grouped(e, NotLevel) && At(ts, p, Pieces(e))
    ensures Writes(ts, p, End(p, e), e, NotLevel)
    decreases e, 2
  {
    hide WellFormed, Grouped, At, Pieces, Writes;
    NotParts(e);
    AtEnclosed(ts, p, Piece(NotOp, "not", false, true), Pieces(e.operand));
    IsPrinted(e.operand, ts, p + 2, OrLevel);
    GroupIsWritten(ts, p + 1, End(p, e), e.operand);
    Looser(ts, p + 1, End(p, e), e.operand, PrimaryLevel, NotLevel);
    NotIsWritten(ts, p, End(p, e), e);
  }

  /** The printed tokens of an expression that is grouped as a rule of a level groups it write it at that level. */
  lemma {:induction false} IsPrinted(e: FilterExpression, ts: seq<Token>, p: nat, level: Level)
    requires WellFormed(e) && Grouped(e, level) && At(ts, p, Pieces(e))
    ensures Writes(ts, p, End(p, e), e, level)
    decreases e, 3
  {
    hide WellFormed, At, Pieces, Writes;
    GroupedParts(e, level);
    GroupedAtOwn(e, level);
    hide Grouped;
    AtFits(ts, p, Pieces(e));
    match e {
      case Comparison(_, _, _) => ComparisonIsPrinted(e, ts, p);
      case Logical(_, _, _) => BinaryIsPrinted(e, ts, p);
      case Arithmetic(_, _, _) => BinaryIsPrinted(e, ts, p);
      case Not(_) => NegationIsPrinted(e, ts, p);
      case _ => PrimaryIsPrinted(e, ts, p);
    }
    Looser(ts, p, End(p, e), e, LevelOf(e), level);
  }

  lemma GroupedAtOwn(e: FilterExpression, level: Level)
    requires Grouped(e, level)
    ensures Grouped(e, LevelOf(e))
  {
  }

  lemma {:induction false} ListIsPrinted(items: seq<FilterExpression>, spaced: bool, ts: seq<Token>, p: nat)
    requires forall item <- items :: WellFormed(item) && Grouped(item, OrLevel)
    requires At(ts, p, ListPieces(items, spaced))
    ensures WritesList(ts, p, p + |ListPieces(items, spaced)|, items)
    decreases items, 4
  {
    hide WellFormed, Grouped, Pieces, Writes;
    if |items| == 1 {
      IsPrinted(items[0], ts, p, OrLevel);
    } else if |items| > 1 {
      var init, item := items[..|items| - 1], items[|items| - 1];
      AtBinary(ts, p, ListPieces(init, spaced), CommaPiece(spaced), Pieces(item));
      hide At;
      ListIsPrinted(init, spaced, ts, p);
      IsPrinted(item, ts, p + |ListPieces(init, spaced)| + 1, OrLevel);
    }
  }

  /** The printed tokens of a grouped expression, and nothing else, parse to it. */
  lemma TokensReadBack(e: FilterExpression, ts: seq<Token>)
    requires WellFormed(e) && Grouped(e, OrLevel) && SameTokens(ts, Pieces(e))
    ensures ParseTokens(ts) == Success(e)
  {
    hide WellFormed, Grouped, Pieces, Writes, ParseTokens;
    SameTokensAt(ts, Pieces(e));
    IsPrinted(e, ts, 0, OrLevel);
    ParsesExactly(ts, e);
  }
}
