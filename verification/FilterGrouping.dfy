/** Every well-formed expression can be written: with its operands in parentheses, it parses to itself. */
module FilterGrouping {
  import opened Strings
  import opened FilterTypes
  import opened FilterLexer
  import opened FilterLexemes
  import opened FilterRendering
  import opened FilterSerializer
  import opened FilterGrammar
  import opened FilterPrinting
  import opened FilterParser
  import opened FilterWriting
  import opened FilterRoundTrip
  import opened FilterExact

  function Parenthesized(inner: seq<Piece>): (ps: seq<Piece>)
    ensures |ps| == |inner| + 2
  {
    [Tight(LParen, "(")] + inner + [Tight(RParen, ")")]
  }

  /** The tokens of an expression with every operand in parentheses. */
  function FullPieces(e: FilterExpression): seq<Piece>
    decreases e, 0
  {
    match e
    case Comparison(operator, left, right) =>
      if operator == "in" then
        Parenthesized(FullPieces(left)) + [Spaced(ComparisonOp, operator), Tight(LParen, "(")]
        + (if right.Collection? then FullList(right.items) else []) + [Tight(RParen, ")")]
      else Parenthesized(FullPieces(left)) + [Spaced(ComparisonOp, operator)] + Parenthesized(FullPieces(right))
    case Logical(operator, left, right) =>
      Parenthesized(FullPieces(left)) + [Spaced(LogicalOp, operator)] + Parenthesized(FullPieces(right))
    case Not(operand) => [Piece(NotOp, "not", false, true), Tight(LParen, "(")] + FullPieces(operand) + [Tight(RParen, ")")]
    case Arithmetic(operator, left, right) =>
      Parenthesized(FullPieces(left)) + [Spaced(ArithmeticOp, operator)] + Parenthesized(FullPieces(right))
    case FunctionCall(name, args) => [Tight(FunctionToken, name), Tight(LParen, "(")] + FullList(args) + [Tight(RParen, ")")]
    case Lambda(operator, variable, source, condition) =>
      FullPieces(source) + LambdaOpening(operator)
      + (if variable == "" then [] else LambdaBinding(variable) + Parenthesized(FullPieces(condition))) + [Tight(RParen, ")")]
    case Literal(value, dataType) => [Tight(LiteralKind(dataType), ValueText(value))]
    case Collection(items) => FullList(items)
    case Property(name) => PathPieces(name)
  }

  function FullList(items: seq<FilterExpression>): seq<Piece>
    decreases items, 1
  {
    if |items| == 0 then []
    else if |items| == 1 then FullPieces(items[0])
    else FullList(items[..|items| - 1]) + [CommaPiece(true)] + FullPieces(items[|items| - 1])
  }

  /** The expression written with every operand in parentheses. */
  function FullText(e: FilterExpression): string {
    Render(FullPieces(e))
  }

  // The tokens can be told apart

  lemma FlowsParenthesized(last: Option<TokenType>, inner: seq<Piece>, follow: Option<char>)
    requires Flows(Some(LParen), inner, Some(')'))
    ensures Flows(last, Parenthesized(inner), follow)
  {
    hide Flows;
    var close := [Tight(RParen, ")")];
    FlowsClose(LastOf(Some(LParen), inner), follow);
    FlowsConcat(Some(LParen), inner, close, follow);
    FlowsOpen(last, inner + close, follow);
    assert [Tight(LParen, "(")] + (inner + close) == Parenthesized(inner);
  }

  lemma {:induction false} FullEdges(e: FilterExpression)
    requires WellFormed(e)
    ensures FullPieces(e) != [] && EndsValue(FullPieces(e)[|FullPieces(e)| - 1].kind)
    ensures FullPieces(e)[0].kind != RParen
  {
    match e
    case Lambda(_, _, source, _) => FullEdges(source);
    case Property(name) => PathEdges(name);
    case _ =>
  }

  lemma {:induction false} FullFlows(e: FilterExpression, last: Option<TokenType>, follow: Option<char>)
    requires WellFormed(e) && StartsHere(last) && FollowsExpression(e, follow)
    ensures Flows(last, FullPieces(e), follow)
    decreases e, 1
  {
    hide Flows, IsPath, IsName, PathPieces, LambdaOpening, LambdaBinding, WellFormedLiteral, ValidLexeme, FullList, Fits,
      FirstChar, IsFunctionName, IsComparisonOp, IsLogicalOp, IsArithmeticOp, IsLambdaOp, Parenthesized;
    match e
    case Comparison(operator, left, right) =>
      OperandFlows(left, last, Some(' '));
      if operator == "in" {
        FullListFlows(right.items, Some(')'));
        FlowsIn(last, Parenthesized(FullPieces(left)), FullList(right.items), follow);
      } else {
        OperandFlows(right, Some(ComparisonOp), follow);
        FlowsBinary(last, Parenthesized(FullPieces(left)), ComparisonOp, operator, Parenthesized(FullPieces(right)), follow);
      }
    case Logical(operator, left, right) =>
      OperandFlows(left, last, Some(' '));
      OperandFlows(right, Some(LogicalOp), follow);
      FlowsBinary(last, Parenthesized(FullPieces(left)), LogicalOp, operator, Parenthesized(FullPieces(right)), follow);
    case Not(operand) =>
      FullFlows(operand, Some(LParen), Some(')'));
      FlowsNot(last, FullPieces(operand), follow);
    case Arithmetic(operator, left, right) =>
      OperandFlows(left, last, Some(' '));
      OperandFlows(right, Some(ArithmeticOp), follow);
      FlowsBinary(last, Parenthesized(FullPieces(left)), ArithmeticOp, operator, Parenthesized(FullPieces(right)), follow);
    case FunctionCall(name, args) =>
      FullListFlows(args, Some(')'));
      FlowsFunction(last, name, FullList(args), follow);
    case Lambda(operator, variable, source, condition) =>
      FullFlows(source, last, Some('/'));
      FullEdges(source);
      if variable == "" {
        FlowsNone(Some(LParen), Some(')'));
        FlowsLambda(last, FullPieces(source), operator, [], follow);
      } else {
        OperandFlows(condition, Some(Colon), Some(')'));
        FlowsBinding(variable, Parenthesized(FullPieces(condition)));
        FlowsLambda(last, FullPieces(source), operator, LambdaBinding(variable) + Parenthesized(FullPieces(condition)), follow);
      }
    case Literal(value, dataType) => FlowsLiteral(value, dataType, last, follow);
    case Property(name) => FlowsPath(name, last, follow);
  }

  lemma {:induction false} OperandFlows(e: FilterExpression, last: Option<TokenType>, follow: Option<char>)
    requires WellFormed(e)
    ensures Flows(last, Parenthesized(FullPieces(e)), follow)
    ensures Parenthesized(FullPieces(e)) != []
    ensures var ps := Parenthesized(FullPieces(e)); EndsValue(ps[|ps| - 1].kind)
    decreases e, 2
  {
    hide Flows, WellFormed, FullPieces;
    FullFlows(e, Some(LParen), Some(')'));
    FlowsParenthesized(last, FullPieces(e), follow);
  }

  lemma {:induction false} FullListFlows(items: seq<FilterExpression>, follow: Option<char>)
    requires (forall item <- items :: WellFormed(item)) && (follow == Some(')') || follow == Some(','))
    ensures Flows(Some(LParen), FullList(items), follow)
    decreases items, 3
  {
    hide Flows, WellFormed, FullPieces;
    if |items| == 0 {
      FlowsNone(Some(LParen), follow);
    } else if |items| == 1 {
      FullFlows(items[0], Some(LParen), follow);
    } else {
      var init, item := FullList(items[..|items| - 1]), items[|items| - 1];
      FullListFlows(items[..|items| - 1], Some(','));
      FullFlows(item, Some(Comma), follow);
      FlowsComma(LastOf(Some(LParen), init), true, FullPieces(item), follow);
      FlowsConcat(Some(LParen), init, [CommaPiece(true)] + FullPieces(item), follow);
      assert init + ([CommaPiece(true)] + FullPieces(item)) == init + [CommaPiece(true)] + FullPieces(item);
    }
  }

  // No minus sign stands where it is refused

  lemma SignsParenthesized(last: Option<TokenType>, inner: seq<Piece>)
    ensures SignsAllowed(last, Parenthesized(inner)) <==> SignsAllowed(Some(LParen), inner)
  {
    var open, close := Tight(LParen, "("), Tight(RParen, ")");
    SignsConcat(last, [open] + inner, [close]);
    SignsConcat(last, [open], inner);
    SignsOne(last, open);
    SignsOne(LastOf(last, [open] + inner), close);
  }

  lemma {:induction false} FullSigns(e: FilterExpression, last: Option<TokenType>)
    requires WellFormed(e) && AllowsNegative(last)
    ensures SignsAllowed(last, FullPieces(e))
    decreases e, 1
  {
    hide IsPath, IsName, PathPieces, SignsAllowed, Parenthesized, FullList;
    match e
    case Comparison(operator, left, right) =>
      OperandSigns(left, last);
      var l := Parenthesized(FullPieces(left));
      if operator == "in" {
        FullListSigns(right.items);
        SignsEnclosed(LastOf(last, l), Spaced(ComparisonOp, "in"), FullList(right.items));
        SignsAssoc(last, l, [Spaced(ComparisonOp, "in"), Tight(LParen, "(")], FullList(right.items));
      } else {
        OperandSigns(right, Some(ComparisonOp));
        SignsBinary(last, l, Spaced(ComparisonOp, operator), Parenthesized(FullPieces(right)));
      }
    case Logical(operator, left, right) =>
      OperandSigns(left, last);
      OperandSigns(right, Some(LogicalOp));
      SignsBinary(last, Parenthesized(FullPieces(left)), Spaced(LogicalOp, operator), Parenthesized(FullPieces(right)));
    case Not(operand) =>
      FullSigns(operand, Some(LParen));
      SignsEnclosed(last, Piece(NotOp, "not", false, true), FullPieces(operand));
    case Arithmetic(operator, left, right) =>
      OperandSigns(left, last);
      OperandSigns(right, Some(ArithmeticOp));
      SignsBinary(last, Parenthesized(FullPieces(left)), Spaced(ArithmeticOp, operator), Parenthesized(FullPieces(right)));
    case FunctionCall(name, args) =>
      FullListSigns(args);
      SignsEnclosed(last, Tight(FunctionToken, name), FullList(args));
    case Lambda(operator, variable, source, condition) =>
      FullSigns(source, last);
      var inner := if variable == "" then [] else LambdaBinding(variable) + Parenthesized(FullPieces(condition));
      if variable == "" {
        SignsNone(Some(LParen));
      } else {
        OperandSigns(condition, Some(Colon));
        SignsBinding(variable, Parenthesized(FullPieces(condition)));
      }
      SignsLambda(last, FullPieces(source), operator, inner);
      assert FullPieces(e) == FullPieces(source) + (LambdaOpening(operator) + inner + [Tight(RParen, ")")]);
    case Literal(value, dataType) => SignsOne(last, Tight(LiteralKind(dataType), ValueText(value)));
    case Property(name) => SignsPath(last, name);
  }

  lemma {:induction false} OperandSigns(e: FilterExpression, last: Option<TokenType>)
    requires WellFormed(e)
    ensures SignsAllowed(last, Parenthesized(FullPieces(e)))
    decreases e, 2
  {
    hide WellFormed, FullPieces;
    FullSigns(e, Some(LParen));
    SignsParenthesized(last, FullPieces(e));
  }

  lemma {:induction false} FullListSigns(items: seq<FilterExpression>)
    requires forall item <- items :: WellFormed(item)
    ensures SignsAllowed(Some(LParen), FullList(items))
    decreases items, 3
  {
    hide WellFormed, FullPieces;
    if |items| == 1 {
      FullSigns(items[0], Some(LParen));
    } else if |items| > 1 {
      FullListSigns(items[..|items| - 1]);
      FullSigns(items[|items| - 1], Some(Comma));
      SignsBinary(Some(LParen), FullList(items[..|items| - 1]), CommaPiece(true), FullPieces(items[|items| - 1]));
    }
  }

  // The tokens are a row that writes the expression

  ghost function FullEnd(p: nat, e: FilterExpression): nat {
    p + |FullPieces(e)|
  }

  lemma AtParenthesized(ts: seq<Token>, p: nat, inner: seq<Piece>)
    requires At(ts, p, Parenthesized(inner))
    ensures KindAt(ts, p) == Some(LParen) && At(ts, p + 1, inner) && KindAt(ts, p + 1 + |inner|) == Some(RParen)
  {
    var open, close := Tight(LParen, "("), Tight(RParen, ")");
    AtSplit(ts, p, [open] + inner, [close]);
    AtSplit(ts, p, [open], inner);
    AtOne(ts, p, open);
    AtOne(ts, p + 1 + |inner|, close);
  }

  function FullInner(variable: string, condition: FilterExpression): seq<Piece> {
    if variable == "" then [] else LambdaBinding(variable) + Parenthesized(FullPieces(condition))
  }

  lemma FullLambdaParts(e: FilterExpression)
    requires e.Lambda?
    ensures FullPieces(e)
         == FullPieces(e.source) + LambdaOpening(e.operator) + FullInner(e.variable, e.condition) + [Tight(RParen, ")")]
  {
    hide LambdaOpening, LambdaBinding, Parenthesized;
  }

  lemma FullFunctionParts(e: FilterExpression)
    requires e.FunctionCall?
    ensures FullPieces(e) == [Tight(FunctionToken, e.name), Tight(LParen, "(")] + FullList(e.args) + [Tight(RParen, ")")]
    ensures |FullPieces(e)| == |FullList(e.args)| + 3
  {
    hide FullList;
  }

  lemma FullNotParts(e: FilterExpression)
    requires e.Not?
    ensures FullPieces(e) == [Piece(NotOp, "not", false, true), Tight(LParen, "(")] + FullPieces(e.operand) + [Tight(RParen, ")")]
    ensures |FullPieces(e)| == |FullPieces(e.operand)| + 3
  {
  }

  lemma NoCollection(e: FilterExpression)
    requires WellFormed(e)
    ensures !e.Collection?
  {
  }

  lemma FullInParts(e: FilterExpression)
    requires e.Comparison? && e.operator == "in" && e.right.Collection?
    ensures FullPieces(e)
         == Parenthesized(FullPieces(e.left)) + [Spaced(ComparisonOp, "in"), Tight(LParen, "(")] + FullList(e.right.items)
            + [Tight(RParen, ")")]
    ensures |FullPieces(e)| == |FullPieces(e.left)| + 5 + |FullList(e.right.items)|
  {
    hide Parenthesized, FullList;
  }

  function OperatorKind(e: FilterExpression): TokenType {
    if e.Logical? then LogicalOp else if e.Arithmetic? then ArithmeticOp else ComparisonOp
  }

  lemma FullBinaryParts(e: FilterExpression)
    requires e.Logical? || e.Arithmetic? || (e.Comparison? && e.operator != "in")
    ensures FullPieces(e)
         == Parenthesized(FullPieces(e.left)) + [Spaced(OperatorKind(e), e.operator)] + Parenthesized(FullPieces(e.right))
  {
    hide Parenthesized;
  }

  lemma {:induction false} OperandIsWritten(e: FilterExpression, ts: seq<Token>, p: nat, level: Level)
    requires WellFormed(e) && At(ts, p, Parenthesized(FullPieces(e)))
    ensures Writes(ts, p, p + |FullPieces(e)| + 2, e, level)
    decreases e, 4
  {
    hide WellFormed, FullPieces, At, Writes, Parenthesized;
    AtParenthesized(ts, p, FullPieces(e));
    FullIsWritten(e, ts, p + 1);
    GroupIsWritten(ts, p, p + |FullPieces(e)| + 2, e);
    Looser(ts, p, p + |FullPieces(e)| + 2, e, PrimaryLevel, level);
  }

  lemma {:induction false} FullLambdaIsWritten(e: FilterExpression, ts: seq<Token>, p: nat)
    requires WellFormed(e) && e.Lambda? && At(ts, p, FullPieces(e))
    ensures WritesPath(ts, p, FullEnd(p, e), e)
    decreases e, 0
  {
    hide WellFormed, FullPieces, At, Writes, IsName, WritesLambda, WritesPath, Parenthesized;
    var m, q := FullEnd(p, e.source), FullEnd(p, e);
    LambdaParts(e);
    FullLambdaParts(e);
    AtLambda(ts, p, FullPieces(e.source), e.operator, FullInner(e.variable, e.condition));
    FullSourceIsWritten(e.source, ts, p);
    if e.variable != "" {
      AtBinding(ts, m + 3, e.variable, Parenthesized(FullPieces(e.condition)));
      OperandIsWritten(e.condition, ts, m + 5, OrLevel);
    }
    LambdaEnds(ts, m, q, e);
    LambdaIsWritten(ts, p, m, q, e);
  }

  lemma {:induction false} FullSourceIsWritten(e: FilterExpression, ts: seq<Token>, p: nat)
    requires (e.Property? || e.Lambda?) && WellFormed(e) && At(ts, p, FullPieces(e))
    ensures WritesPath(ts, p, FullEnd(p, e), e)
    decreases e, 1
  {
    hide WellFormed, At, WritesPath, FullPieces, PathPieces;
    if e.Lambda? {
      FullLambdaIsWritten(e, ts, p);
    } else {
      LeafParts(e);
      FullNameParts(e.name);
      PathIsPrinted(e.name, ts, p);
    }
  }

  lemma {:induction false} FullPrimaryIsWritten(e: FilterExpression, ts: seq<Token>, p: nat)
    requires WellFormed(e) && LevelOf(e) == PrimaryLevel && At(ts, p, FullPieces(e))
    ensures Writes(ts, p, FullEnd(p, e), e, PrimaryLevel)
    decreases e, 2
  {
    hide WellFormed, At, FullPieces, Writes, WritesPath, WritesList, FullList, Parenthesized, ValidLexeme, Pieces, ListPieces,
      WellFormedLiteral;
    AtFits(ts, p, FullPieces(e));
    match e
    case FunctionCall(name, args) =>
      FunctionParts(e);
      FullFunctionParts(e);
      AtEnclosed(ts, p, Tight(FunctionToken, name), FullList(args));
      FullListIsWritten(args, ts, p + 2);
      FunctionIsWritten(ts, p, FullEnd(p, e), e);
    case Literal(value, dataType) =>
      LeafParts(e);
      FullLiteralParts(e);
      AtOne(ts, p, Tight(LiteralKind(dataType), ValueText(value)));
      LiteralIsWritten(ts, p, value, dataType, PrimaryLevel);
    case Lambda(_, _, _, _) =>
      FullLambdaIsWritten(e, ts, p);
      PathIsWritten(ts, p, FullEnd(p, e), e, PrimaryLevel);
    case Property(_) =>
      FullSourceIsWritten(e, ts, p);
      PathIsWritten(ts, p, FullEnd(p, e), e, PrimaryLevel);
    case _ => LeafParts(e);
  }

  lemma FullNameParts(name: string)
    ensures FullPieces(Property(name)) == PathPieces(name)
  {
    hide PathPieces;
  }

  lemma FullLiteralParts(e: FilterExpression)
    requires e.Literal?
    ensures FullPieces(e) == [Tight(LiteralKind(e.dataType), ValueText(e.value))]
  {
  }

  lemma {:induction false} FullInIsWritten(e: FilterExpression, ts: seq<Token>, p: nat)
    requires e.Comparison? && e.operator == "in" && WellFormed(e) && At(ts, p, FullPieces(e))
    ensures Writes(ts, p, FullEnd(p, e), e, ComparisonLevel)
    decreases e, 2
  {
    hide WellFormed, At, FullList, FullPieces, Parenthesized, Writes, WritesList;
    InWellFormedParts(e);
    FullInParts(e);
    var left, items := e.left, e.right.items;
    AtIn(ts, p, Parenthesized(FullPieces(left)), FullList(items));
    OperandIsWritten(left, ts, p, ArithmeticLevel);
    var m := p + |FullPieces(left)| + 2;
    FullListIsWritten(items, ts, m + 2);
    InIsWritten(ts, p, m, FullEnd(p, e), e);
  }

  lemma {:induction false} FullBinaryIsWritten(e: FilterExpression, ts: seq<Token>, p: nat)
    requires e.Logical? || e.Arithmetic? || (e.Comparison? && e.operator != "in")
    requires WellFormed(e) && At(ts, p, FullPieces(e))
    ensures Writes(ts, p, FullEnd(p, e), e, LevelOf(e))
    decreases e, 2
  {
    hide WellFormed, At, FullPieces, Parenthesized, Writes;
    BinaryParts(e);
    FullBinaryParts(e);
    var l, r := Parenthesized(FullPieces(e.left)), Parenthesized(FullPieces(e.right));
    AtBinary(ts, p, l, Spaced(OperatorKind(e), e.operator), r);
    var m, q := p + |l|, FullEnd(p, e);
    if e.Logical? {
      OperatorIsAnd(e);
      OperandIsWritten(e.left, ts, p, LevelOf(e));
      OperandIsWritten(e.right, ts, m + 1, if e.operator == "or" then AndLevel else NotLevel);
      LogicalIsWritten(ts, p, m, q, e);
    } else if e.Arithmetic? {
      OperandIsWritten(e.left, ts, p, ArithmeticLevel);
      OperandIsWritten(e.right, ts, m + 1, PrimaryLevel);
      ArithmeticIsWritten(ts, p, m, q, e);
    } else {
      OperandIsWritten(e.left, ts, p, ArithmeticLevel);
      OperandIsWritten(e.right, ts, m + 1, ArithmeticLevel);
      ComparisonIsWritten(ts, p, m, q, e);
    }
  }

  lemma {:induction false} FullNotIsWritten(e: FilterExpression, ts: seq<Token>, p: nat)
    requires e.Not? && WellFormed(e) && At(ts, p, FullPieces(e))
    ensures Writes(ts, p, FullEnd(p, e), e, NotLevel)
    decreases e, 2
  {
    hide WellFormed, At, FullPieces, Writes;
    NotParts(e);
    FullNotParts(e);
    AtEnclosed(ts, p, Piece(NotOp, "not", false, true), FullPieces(e.operand));
    FullIsWritten(e.operand, ts, p + 2);
    GroupIsWritten(ts, p + 1, FullEnd(p, e), e.operand);
    Looser(ts, p + 1, FullEnd(p, e), e.operand, PrimaryLevel, NotLevel);
    NotIsWritten(ts, p, FullEnd(p, e), e);
  }

  lemma {:induction false} FullIsWritten(e: FilterExpression, ts: seq<Token>, p: nat)
    requires WellFormed(e) && At(ts, p, FullPieces(e))
    ensures Writes(ts, p, FullEnd(p, e), e, OrLevel)
    decreases e, 3
  {
    hide WellFormed, At, FullPieces, Writes;
    NoCollection(e);
    AtFits(ts, p, FullPieces(e));
    if e.Comparison? && e.operator == "in" {
      FullInIsWritten(e, ts, p);
    } else if e.Comparison? || e.Logical? || e.Arithmetic? {
      FullBinaryIsWritten(e, ts, p);
    } else if e.Not? {
      FullNotIsWritten(e, ts, p);
    } else {
      FullPrimaryIsWritten(e, ts, p);
    }
    Looser(ts, p, FullEnd(p, e), e, LevelOf(e), OrLevel);
  }

  lemma {:induction false} FullListIsWritten(items: seq<FilterExpression>, ts: seq<Token>, p: nat)
    requires (forall item <- items :: WellFormed(item)) && At(ts, p, FullList(items))
    ensures WritesList(ts, p, p + |FullList(items)|, items)
    decreases items, 5
  {
    hide WellFormed, FullPieces, Writes;
    if |items| == 1 {
      FullIsWritten(items[0], ts, p);
    } else if |items| > 1 {
      var init, item := items[..|items| - 1], items[|items| - 1];
      AtBinary(ts, p, FullList(init), CommaPiece(true), FullPieces(item));
      hide At;
      FullListIsWritten(init, ts, p);
      FullIsWritten(item, ts, p + |FullList(init)| + 1);
    }
  }

  // The theorems

  /** Parentheses reach every shape: an expression with its operands in parentheses parses to itself. */
  lemma FullTextLexes(e: FilterExpression) returns (tokens: seq<Token>)
    requires WellFormed(e)
    ensures Lex(FullText(e)) == Success(tokens) && SameTokens(tokens, FullPieces(e))
  {
    hide WellFormed, FullPieces, LexFrom, Render, Flows, SignsAllowed;
    var s := FullText(e);
    FullFlows(e, None, None);
    FullSigns(e, None);
    assert s[0..] == s;
    tokens := LexRendered(s, 0, [], FullPieces(e));
    assert [] + tokens == tokens;
  }

  lemma FullTextParses(e: FilterExpression)
    requires WellFormed(e)
    ensures ParseFilter(FullText(e)) == Success(e)
  {
    hide WellFormed, FullPieces, Lex, ParseTokens, Writes, SameTokens, FullText;
    var tokens := FullTextLexes(e);
    SameTokensAt(tokens, FullPieces(e));
    FullIsWritten(e, tokens, 0);
    ParsesExactly(tokens, e);
  }

  /** The parser's image: the well-formed expressions are exactly those that some filter string parses to. */
  lemma WellFormedIffParsed(e: FilterExpression)
    ensures WellFormed(e) <==> exists filter: string :: ParseFilter(filter) == Success(e)
  {
    hide WellFormed, ParseFilter;
    if WellFormed(e) {
      FullTextParses(e);
    }
    forall filter: string | ParseFilter(filter) == Success(e) ensures WellFormed(e) {
      ParsedIsWellFormed(filter, e);
    }
  }
}
