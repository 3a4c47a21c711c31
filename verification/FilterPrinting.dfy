/** The printed string is the rendering of the printed tokens, and that rendering can be read back token by token. */
module FilterPrinting {
  import opened Strings
  import opened FilterTypes
  import opened FilterLexer
  import opened FilterLexemes
  import opened FilterRendering
  import opened FilterSerializer
  import opened FilterGrammar

  lemma WellFormedPrintable(e: FilterExpression)
    requires WellFormed(e)
    ensures Printable(e)
  {
  }

  // The string is the rendering

  lemma RenderOne(h: Piece)
    ensures Render([h]) == Written(h)
  {
    assert [h][1..] == [];
    assert Written(h) + "" == Written(h);
  }

  lemma RenderNone()
    ensures Render([]) == ""
  {
  }

  lemma RenderThree(a: seq<Piece>, b: seq<Piece>, c: seq<Piece>)
    ensures Render(a + b + c) == Render(a) + Render(b) + Render(c)
  {
    RenderConcat(a + b, c);
    RenderConcat(a, b);
  }

  lemma RenderPair(g: Piece, h: Piece)
    ensures Render([g, h]) == Written(g) + Written(h)
  {
    RenderConcat([g], [h]);
    RenderOne(g);
    RenderOne(h);
    assert [g] + [h] == [g, h];
  }

  lemma {:induction false} RenderPath(name: string)
    ensures Render(PathPieces(name)) == name
    decreases |name|
  {
    hide Render;
    match LastSlash(name)
    case None => RenderOne(Tight(PropertyToken, name));
    case Some(at) =>
      RenderPath(name[..at]);
      RenderPathPart(PathPieces(name[..at]), name, at);
  }

  lemma RenderPathPart(prefix: seq<Piece>, name: string, at: nat)
    requires at < |name| && name[at] == '/' && Render(prefix) == name[..at]
    ensures Render(prefix + [Tight(Slash, "/"), Tight(PropertyToken, name[at + 1..])]) == name
  {
    var slash, part := Tight(Slash, "/"), Tight(PropertyToken, name[at + 1..]);
    RenderConcat(prefix, [slash, part]);
    RenderPair(slash, part);
    WrittenTight(Slash, "/");
    WrittenTight(PropertyToken, name[at + 1..]);
    CutAt(name, at);
    hide *;
  }

  lemma CutAt(name: string, at: nat)
    requires at < |name|
    ensures name == name[..at] + ([name[at]] + name[at + 1..])
  {
    assert name[at..] == [name[at]] + name[at + 1..];
  }

  lemma WrittenTight(kind: TokenType, value: string)
    requires kind != StringToken && kind != DurationToken
    ensures Written(Tight(kind, value)) == value
    ensures Written(Spaced(kind, value)) == " " + value + " "
  {
    assert "" + value + "" == value;
  }

  lemma RenderLambdaOpening(operator: string)
    ensures Render(LambdaOpening(operator)) == "/" + operator + "("
  {
    hide Render;
    var slash, op, open := Tight(Slash, "/"), Tight(LambdaOp, operator), Tight(LParen, "(");
    RenderPair(slash, op);
    RenderConcat([slash, op], [open]);
    RenderOne(open);
    WrittenTight(Slash, "/");
    WrittenTight(LambdaOp, operator);
    WrittenTight(LParen, "(");
    hide Written;
    assert LambdaOpening(operator) == [slash, op] + [open];
  }

  lemma RenderBinary(left: seq<Piece>, kind: TokenType, operator: string, right: seq<Piece>)
    requires kind == ComparisonOp || kind == LogicalOp || kind == ArithmeticOp
    ensures Render(left + [Spaced(kind, operator)] + right) == Render(left) + " " + operator + " " + Render(right)
  {
    hide Render;
    RenderThree(left, [Spaced(kind, operator)], right);
    RenderOne(Spaced(kind, operator));
    assert Render(left) + (" " + operator + " ") == Render(left) + " " + operator + " ";
  }

  /** Tokens between an opening token followed by a parenthesis, and a closing parenthesis. */
  lemma RenderEnclosed(opening: Piece, inner: seq<Piece>)
    ensures Render([opening, Tight(LParen, "(")] + inner + [Tight(RParen, ")")]) == Written(opening) + "(" + Render(inner) + ")"
  {
    hide Render, Written;
    RenderThree([opening, Tight(LParen, "(")], inner, [Tight(RParen, ")")]);
    RenderPair(opening, Tight(LParen, "("));
    RenderOne(Tight(RParen, ")"));
    WrittenTight(LParen, "(");
    WrittenTight(RParen, ")");
  }

  lemma RenderIn(left: seq<Piece>, items: seq<Piece>)
    ensures Render(left + [Spaced(ComparisonOp, "in"), Tight(LParen, "(")] + items + [Tight(RParen, ")")])
         == Render(left) + " in (" + Render(items) + ")"
  {
    hide Render;
    var opening := [Spaced(ComparisonOp, "in"), Tight(LParen, "(")];
    RenderEnclosed(Spaced(ComparisonOp, "in"), items);
    RenderConcat(left, opening + items + [Tight(RParen, ")")]);
    assert left + opening + items + [Tight(RParen, ")")] == left + (opening + items + [Tight(RParen, ")")]);
    assert Render(left) + (" in " + "(" + Render(items) + ")") == Render(left) + " in (" + Render(items) + ")";
  }

  lemma RenderLambda(source: seq<Piece>, operator: string, inner: seq<Piece>)
    ensures Render(source + LambdaOpening(operator) + inner + [Tight(RParen, ")")])
         == Render(source) + "/" + operator + "(" + Render(inner) + ")"
  {
    hide Render, LambdaOpening;
    RenderThree(source, LambdaOpening(operator), inner);
    RenderConcat(source + LambdaOpening(operator) + inner, [Tight(RParen, ")")]);
    RenderLambdaOpening(operator);
    RenderOne(Tight(RParen, ")"));
    assert Render(source) + ("/" + operator + "(") == Render(source) + "/" + operator + "(";
  }

  lemma RenderLambdaCondition(source: seq<Piece>, operator: string, variable: string, condition: seq<Piece>)
    ensures Render(source + LambdaOpening(operator) + LambdaBinding(variable) + condition + [Tight(RParen, ")")])
         == Render(source) + "/" + operator + "(" + variable + ":" + Render(condition) + ")"
  {
    hide Render, LambdaOpening;
    RenderLambda(source, operator, LambdaBinding(variable) + condition);
    assert source + LambdaOpening(operator) + (LambdaBinding(variable) + condition)
        == source + LambdaOpening(operator) + LambdaBinding(variable) + condition;
    RenderConcat(LambdaBinding(variable), condition);
    RenderPair(Tight(PropertyToken, variable), Tight(Colon, ":"));
    WrittenTight(PropertyToken, variable);
    WrittenTight(Colon, ":");
    var prefix := Render(source) + "/" + operator + "(";
    assert prefix + (variable + ":" + Render(condition)) == prefix + variable + ":" + Render(condition);
  }

  lemma {:induction false} RenderPieces(e: FilterExpression)
    requires WellFormed(e) && Printable(e)
    ensures Render(Pieces(e)) == AstToFilterString(e)
    decreases e, 0
  {
    hide Render, LambdaOpening, LambdaBinding, IsPath, IsName, IsFunctionName, PathPieces, Spelling;
    match e
    case Comparison(operator, left, right) =>
      RenderPieces(left);
      if operator == "in" {
        RenderList(right.items, true);
        RenderIn(Pieces(left), ListPieces(right.items, true));
      } else {
        RenderPieces(right);
        RenderBinary(Pieces(left), ComparisonOp, operator, Pieces(right));
      }
    case Logical(operator, left, right) =>
      RenderPieces(left);
      RenderPieces(right);
      RenderBinary(Pieces(left), LogicalOp, operator, Pieces(right));
    case Not(operand) =>
      RenderPieces(operand);
      RenderEnclosed(Piece(NotOp, "not", false, true), Pieces(operand));
      assert Written(Piece(NotOp, "not", false, true)) == "not " by { RenderNot(); }
    case Arithmetic(operator, left, right) =>
      RenderPieces(left);
      RenderPieces(right);
      RenderBinary(Pieces(left), ArithmeticOp, operator, Pieces(right));
    case FunctionCall(name, args) =>
      RenderList(args, false);
      RenderEnclosed(Tight(FunctionToken, name), ListPieces(args, false));
      WrittenTight(FunctionToken, name);
    case Lambda(operator, variable, source, condition) =>
      RenderPieces(source);
      if variable == "" {
        RenderEmptyLambda(Pieces(source), operator);
      } else {
        RenderPieces(condition);
        RenderLambdaCondition(Pieces(source), operator, variable, Pieces(condition));
      }
    case Literal(value, dataType) => RenderLiteral(value, dataType);
    case Property(name) => RenderPath(name);
  }

  lemma RenderNot()
    ensures Written(Piece(NotOp, "not", false, true)) == "not "
  {
  }

  lemma RenderEmptyLambda(source: seq<Piece>, operator: string)
    ensures Render(source + LambdaOpening(operator) + [Tight(RParen, ")")]) == Render(source) + "/" + operator + "()"
  {
    hide LambdaOpening;
    RenderLambda(source, operator, []);
    assert source + LambdaOpening(operator) + [] == source + LambdaOpening(operator);
    assert Render(source) + "/" + operator + "(" + "" + ")" == Render(source) + "/" + operator + "()";
  }

  lemma RenderLiteral(value: LiteralValue, dataType: LiteralDataType)
    requires WellFormedLiteral(value, dataType)
    ensures Render([Tight(LiteralKind(dataType), ValueText(value))]) == LiteralText(value, dataType)
  {
    hide Render, ValidLexeme, IsNumber;
    RenderOne(Tight(LiteralKind(dataType), ValueText(value)));
    var written := Written(Tight(LiteralKind(dataType), ValueText(value)));
    assert written == "" + Spelling(LiteralKind(dataType), ValueText(value)) + "";
    assert written == Spelling(LiteralKind(dataType), ValueText(value));
  }

  lemma {:induction false} RenderList(items: seq<FilterExpression>, spaced: bool)
    requires forall item <- items :: WellFormed(item) && Printable(item)
    ensures Render(ListPieces(items, spaced)) == Join(items, if spaced then ", " else ",")
    decreases items, 1
  {
    hide WellFormed, Printable, Render, AstToFilterString, Pieces;
    if |items| == 0 {
      RenderNone();
    } else if |items| == 1 {
      assert items[0] in items;
      RenderPieces(items[0]);
    } else {
      var last := items[|items| - 1];
      assert last in items && forall item <- items[..|items| - 1] :: item in items;
      RenderList(items[..|items| - 1], spaced);
      RenderPieces(last);
      RenderThree(ListPieces(items[..|items| - 1], spaced), [CommaPiece(spaced)], Pieces(last));
      RenderOne(CommaPiece(spaced));
    }
  }

  // The rendering flows

  function LastOf(last: Option<TokenType>, ps: seq<Piece>): Option<TokenType> {
    if ps == [] then last else Some(ps[|ps| - 1].kind)
  }

  lemma FitsOpening(last: Option<TokenType>, h: Piece, next: Option<char>)
    requires h.kind != PropertyToken && Fits(last, h, next, false)
    ensures Fits(last, h, next, true)
  {
    hide ValidLexeme, WordAllowed;
  }

  lemma {:induction false} FlowsConcat(last: Option<TokenType>, a: seq<Piece>, b: seq<Piece>, follow: Option<char>)
    requires Flows(last, a, FirstChar(b, follow)) && Flows(LastOf(last, a), b, follow)
    requires OpensParen(b) && a != [] ==> a[|a| - 1].kind != PropertyToken
    ensures Flows(last, a + b, follow)
    decreases |a|
  {
    hide FirstChar, Fits;
    if a == [] {
      assert a + b == b;
    } else {
      assert (a + b)[1..] == a[1..] + b;
      FlowsConcat(Some(a[0].kind), a[1..], b, follow);
      FirstCharConcat(a[1..], b, follow);
      if a[1..] == [] {
        assert a[1..] + b == b;
        if OpensParen(b) {
          FitsOpening(last, a[0], if a[0].after then Some(' ') else FirstChar(b, follow));
        }
        FirstCharNone(FirstChar(b, follow));
      }
    }
  }

  lemma FirstCharNone(follow: Option<char>)
    ensures FirstChar([], follow) == follow
  {
  }

  lemma FirstCharConcat(a: seq<Piece>, b: seq<Piece>, follow: Option<char>)
    ensures FirstChar(a + b, follow) == FirstChar(a, FirstChar(b, follow))
  {
    if a == [] {
      assert a + b == b;
    }
  }

  lemma {:induction false} SignsConcat(last: Option<TokenType>, a: seq<Piece>, b: seq<Piece>)
    ensures SignsAllowed(last, a + b) <==> SignsAllowed(last, a) && SignsAllowed(LastOf(last, a), b)
    decreases |a|
  {
    if a == [] {
      assert a + b == b;
    } else {
      assert (a + b)[1..] == a[1..] + b;
      SignsConcat(Some(a[0].kind), a[1..], b);
    }
  }

  /** An expression's tokens start with no parenthesis, and end with a token after which `in` is an operator. */
  predicate HasEdges(ps: seq<Piece>) {
    && ps != [] && EndsValue(ps[|ps| - 1].kind)
    && ps[0].kind != LParen && ps[0].kind != RParen && ps[0].kind != Comma && ps[0].kind != Slash && ps[0].kind != Colon
  }

  lemma EdgesJoin(left: seq<Piece>, middle: seq<Piece>, right: seq<Piece>)
    requires HasEdges(left) && HasEdges(right)
    ensures HasEdges(left + middle + right)
  {
  }

  lemma PiecesOfLogical(operator: string, left: FilterExpression, right: FilterExpression)
    ensures Pieces(Logical(operator, left, right)) == Pieces(left) + [Spaced(LogicalOp, operator)] + Pieces(right)
  {
  }

  lemma PiecesOfArithmetic(operator: string, left: FilterExpression, right: FilterExpression)
    ensures Pieces(Arithmetic(operator, left, right)) == Pieces(left) + [Spaced(ArithmeticOp, operator)] + Pieces(right)
  {
  }

  lemma EdgesName(name: string)
    ensures HasEdges(Pieces(Property(name)))
  {
    hide PathPieces;
    PathEdges(name);
  }

  /** A `not`, a function call and a literal start and end with tokens of their own. */
  lemma EdgesOwn(e: FilterExpression)
    requires e.Not? || e.FunctionCall? || e.Literal?
    ensures HasEdges(Pieces(e))
  {
    hide ListPieces;
  }

  lemma {:induction false} Edges(e: FilterExpression)
    requires WellFormed(e)
    ensures HasEdges(Pieces(e))
    decreases e, 1
  {
    hide IsName, IsPath, PathPieces, ListPieces, WellFormedLiteral, ValidLexeme, LambdaOpening, LambdaBinding, Pieces, HasEdges;
    match e
    case Comparison(operator, left, right) => EdgesComparison(operator, left, right);
    case Logical(operator, left, right) =>
      Edges(left);
      Edges(right);
      PiecesOfLogical(operator, left, right);
      EdgesJoin(Pieces(left), [Spaced(LogicalOp, operator)], Pieces(right));
    case Arithmetic(operator, left, right) =>
      Edges(left);
      Edges(right);
      PiecesOfArithmetic(operator, left, right);
      EdgesJoin(Pieces(left), [Spaced(ArithmeticOp, operator)], Pieces(right));
    case Lambda(operator, variable, source, condition) =>
      Edges(source);
      EdgesLambda(operator, variable, source, condition);
    case Property(name) => EdgesName(name);
    case _ => EdgesOwn(e);
  }

  lemma {:induction false} EdgesComparison(operator: string, left: FilterExpression, right: FilterExpression)
    requires WellFormed(Comparison(operator, left, right))
    ensures HasEdges(Pieces(Comparison(operator, left, right)))
    decreases Comparison(operator, left, right), 0
  {
    hide IsName, IsPath, PathPieces, ListPieces, WellFormedLiteral, ValidLexeme;
    Edges(left);
    if operator == "in" {
      EdgesEnclosed(Pieces(left), [Spaced(ComparisonOp, "in"), Tight(LParen, "(")], ListPieces(right.items, true));
    } else {
      Edges(right);
      EdgesJoin(Pieces(left), [Spaced(ComparisonOp, operator)], Pieces(right));
    }
  }

  lemma EdgesEnclosed(left: seq<Piece>, opening: seq<Piece>, inner: seq<Piece>)
    requires HasEdges(left)
    ensures HasEdges(left + opening + inner + [Tight(RParen, ")")])
  {
    var open := left + opening;
    assert open[0] == left[0];
    EdgesHead(open, inner, [Tight(RParen, ")")]);
  }

  lemma EdgesHead(open: seq<Piece>, inner: seq<Piece>, close: seq<Piece>)
    requires open != [] && close != []
    ensures var all := open + inner + close; all[0] == open[0] && all[|all| - 1] == close[|close| - 1]
  {
  }

  lemma EdgesThen(left: seq<Piece>, rest: seq<Piece>)
    requires HasEdges(left) && rest != [] && EndsValue(rest[|rest| - 1].kind)
    ensures HasEdges(left + rest)
  {
  }

  lemma EdgesLambda(operator: string, variable: string, source: FilterExpression, condition: FilterExpression)
    requires HasEdges(Pieces(source))
    ensures HasEdges(Pieces(Lambda(operator, variable, source, condition)))
  {
    hide LambdaOpening, LambdaBinding, Pieces, HasEdges;
    PiecesOfLambda(operator, variable, source, condition);
    var inner := if variable == "" then [] else LambdaBinding(variable) + Pieces(condition);
    EdgesThen(Pieces(source), LambdaOpening(operator) + inner + [Tight(RParen, ")")]);
  }

  lemma {:induction false} PathEdges(name: string)
    ensures PathPieces(name) != []
    ensures PathPieces(name)[0].kind == PropertyToken && PathPieces(name)[|PathPieces(name)| - 1].kind == PropertyToken
    decreases |name|
  {
    match LastSlash(name)
    case None =>
    case Some(at) => PathEdges(name[..at]);
  }

  lemma {:induction false} ListEdges(items: seq<FilterExpression>, spaced: bool)
    requires forall item <- items :: WellFormed(item)
    ensures items != [] ==> HasEdges(ListPieces(items, spaced))
    decreases items
  {
    hide HasEdges, Pieces, WellFormed;
    if |items| == 1 {
      Edges(items[0]);
    } else if |items| > 1 {
      var init, item := items[..|items| - 1], items[|items| - 1];
      ListEdges(init, spaced);
      Edges(item);
      EdgesJoin(ListPieces(init, spaced), [CommaPiece(spaced)], Pieces(item));
    }
  }

  /** Where an expression may start. */
  predicate StartsHere(last: Option<TokenType>) {
    last.None? || (!EndsValue(last.value) && last.value != Slash)
  }

  predicate IsOperator(kind: TokenType, operator: string) {
    || (kind == ComparisonOp && IsComparisonOp(operator) && operator != "in")
    || (kind == LogicalOp && IsLogicalOp(operator))
    || (kind == ArithmeticOp && IsArithmeticOp(operator))
  }

  lemma FlowsPrepend(last: Option<TokenType>, h: Piece, ps: seq<Piece>, follow: Option<char>)
    requires Fits(last, h, if h.after then Some(' ') else FirstChar(ps, follow), OpensParen(ps))
    requires Flows(Some(h.kind), ps, follow)
    ensures Flows(last, [h] + ps, follow)
  {
    hide Fits, FirstChar;
    assert ([h] + ps)[1..] == ps;
  }

  lemma FlowsBinary(last: Option<TokenType>, left: seq<Piece>, kind: TokenType, operator: string, right: seq<Piece>, follow: Option<char>)
    requires IsOperator(kind, operator)
    requires left != [] && Flows(last, left, Some(' ')) && Flows(Some(kind), right, follow)
    ensures Flows(last, left + [Spaced(kind, operator)] + right, follow)
  {
    hide Flows, Spelling, IsComparisonOp, IsLogicalOp, IsArithmeticOp;
    var op := Spaced(kind, operator);
    FlowsPrepend(LastOf(last, left), op, right, follow);
    SpacedStarts(kind, operator, right, follow);
    FlowsConcat(last, left, [op] + right, follow);
    assert left + ([op] + right) == left + [op] + right;
  }

  lemma SpacedStarts(kind: TokenType, operator: string, rest: seq<Piece>, follow: Option<char>)
    ensures FirstChar([Spaced(kind, operator)] + rest, follow) == Some(' ')
  {
  }

  /** Tokens between a piece followed by a parenthesis and a closing parenthesis. */
  lemma FlowsEnclosed(last: Option<TokenType>, opening: Piece, inner: seq<Piece>, follow: Option<char>)
    requires Fits(last, opening, if opening.after then Some(' ') else Some('('), true)
    requires Flows(Some(LParen), inner, Some(')'))
    ensures Flows(last, [opening, Tight(LParen, "(")] + inner + [Tight(RParen, ")")], follow)
  {
    hide Flows, Fits;
    var close := [Tight(RParen, ")")];
    FlowsClose(LastOf(Some(LParen), inner), follow);
    FlowsConcat(Some(LParen), inner, close, follow);
    FlowsOpen(Some(opening.kind), inner + close, follow);
    assert FirstChar([Tight(LParen, "(")] + (inner + close), follow) == Some('(');
    FlowsPrepend(last, opening, [Tight(LParen, "(")] + (inner + close), follow);
    assert [opening] + ([Tight(LParen, "(")] + (inner + close)) == [opening, Tight(LParen, "(")] + inner + close;
  }

  lemma FlowsClose(last: Option<TokenType>, follow: Option<char>)
    ensures Flows(last, [Tight(RParen, ")")], follow)
    ensures FirstChar([Tight(RParen, ")")], follow) == Some(')')
  {
    assert [Tight(RParen, ")")][1..] == [];
  }

  lemma FlowsOpen(last: Option<TokenType>, ps: seq<Piece>, follow: Option<char>)
    requires Flows(Some(LParen), ps, follow)
    ensures Flows(last, [Tight(LParen, "(")] + ps, follow)
  {
    hide Flows;
    FlowsPrepend(last, Tight(LParen, "("), ps, follow);
  }

  lemma FlowsIn(last: Option<TokenType>, left: seq<Piece>, items: seq<Piece>, follow: Option<char>)
    requires left != [] && EndsValue(left[|left| - 1].kind) && Flows(last, left, Some(' '))
    requires Flows(Some(LParen), items, Some(')'))
    ensures Flows(last, left + [Spaced(ComparisonOp, "in"), Tight(LParen, "(")] + items + [Tight(RParen, ")")], follow)
  {
    hide Flows, Spelling;
    var op, close := Spaced(ComparisonOp, "in"), [Tight(RParen, ")")];
    FlowsEnclosed(LastOf(last, left), op, items, follow);
    var enclosed := [op, Tight(LParen, "(")] + items + close;
    assert enclosed == [op] + ([Tight(LParen, "(")] + items + close);
    SpacedStarts(ComparisonOp, "in", [Tight(LParen, "(")] + items + close, follow);
    FlowsConcat(last, left, enclosed, follow);
    assert left + enclosed == left + [op, Tight(LParen, "(")] + items + close;
  }

  lemma FlowsLambda(last: Option<TokenType>, source: seq<Piece>, operator: string, inner: seq<Piece>, follow: Option<char>)
    requires IsLambdaOp(operator) && source != [] && Flows(last, source, Some('/'))
    requires Flows(Some(LParen), inner, Some(')'))
    ensures Flows(last, source + LambdaOpening(operator) + inner + [Tight(RParen, ")")], follow)
  {
    hide Flows;
    var slash, op, close := Tight(Slash, "/"), Tight(LambdaOp, operator), [Tight(RParen, ")")];
    FlowsEnclosed(Some(Slash), op, inner, follow);
    var enclosed := [op, Tight(LParen, "(")] + inner + close;
    FlowsPrepend(LastOf(last, source), slash, enclosed, follow);
    assert FirstChar([slash] + enclosed, follow) == Some('/');
    FlowsConcat(last, source, [slash] + enclosed, follow);
    LambdaRegroups(source, operator, inner, close);
  }

  lemma LambdaRegroups(source: seq<Piece>, operator: string, inner: seq<Piece>, close: seq<Piece>)
    ensures source + ([Tight(Slash, "/")] + ([Tight(LambdaOp, operator), Tight(LParen, "(")] + inner + close))
         == source + LambdaOpening(operator) + inner + close
  {
  }

  lemma FlowsName(last: Option<TokenType>, name: string, ps: seq<Piece>, follow: Option<char>)
    requires IsName(name) && WordAllowed(last, PropertyToken, name)
    requires EndsWord(FirstChar(ps, follow)) && !OpensParen(ps) && Flows(Some(PropertyToken), ps, follow)
    ensures Flows(last, [Tight(PropertyToken, name)] + ps, follow)
  {
    hide Flows, IsName, WordAllowed, FirstChar, OpensParen;
    FlowsPrepend(last, Tight(PropertyToken, name), ps, follow);
  }

  /** A colon or a slash before more tokens. */
  lemma FlowsMark(last: Option<TokenType>, kind: TokenType, value: string, ps: seq<Piece>, follow: Option<char>)
    requires (kind == Colon && value == ":") || (kind == Slash && value == "/")
    requires Flows(Some(kind), ps, follow)
    ensures Flows(last, [Tight(kind, value)] + ps, follow)
    ensures FirstChar([Tight(kind, value)] + ps, follow) == Some(value[0])
  {
    hide Flows;
    FlowsPrepend(last, Tight(kind, value), ps, follow);
  }

  lemma FlowsBinding(variable: string, condition: seq<Piece>)
    requires IsName(variable) && Flows(Some(Colon), condition, Some(')'))
    ensures Flows(Some(LParen), LambdaBinding(variable) + condition, Some(')'))
  {
    hide Flows, IsName, FirstChar;
    var colon, name := Tight(Colon, ":"), Tight(PropertyToken, variable);
    FlowsMark(Some(PropertyToken), Colon, ":", condition, Some(')'));
    FlowsName(Some(LParen), variable, [colon] + condition, Some(')'));
    assert [name] + ([colon] + condition) == LambdaBinding(variable) + condition;
  }

  lemma FlowsLastName(last: Option<TokenType>, name: string, follow: Option<char>)
    requires IsName(name) && WordAllowed(last, PropertyToken, name) && EndsWord(follow)
    ensures Flows(last, [Tight(PropertyToken, name)], follow)
  {
    hide IsName, WordAllowed;
    FlowsName(last, name, [], follow);
    assert [Tight(PropertyToken, name)] + [] == [Tight(PropertyToken, name)];
  }

  lemma NameStarts(last: Option<TokenType>, name: string)
    requires StartsHere(last)
    ensures WordAllowed(last, PropertyToken, name) && WordAllowed(last, FunctionToken, name)
  {
  }

  lemma FlowsPathStep(last: Option<TokenType>, prefix: seq<Piece>, part: string, follow: Option<char>)
    requires IsName(part) && !IsLambdaOp(Lower(part)) && EndsWord(follow) && Flows(last, prefix, Some('/'))
    ensures Flows(last, prefix + [Tight(Slash, "/"), Tight(PropertyToken, part)], follow)
  {
    hide Flows, IsName, FirstChar;
    var slash, name := Tight(Slash, "/"), Tight(PropertyToken, part);
    FlowsLastName(Some(Slash), part, follow);
    FlowsMark(LastOf(last, prefix), Slash, "/", [name], follow);
    assert [slash] + [name] == [slash, name];
    FlowsConcat(last, prefix, [slash, name], follow);
  }

  lemma {:induction false} FlowsPath(name: string, last: Option<TokenType>, follow: Option<char>)
    requires IsPath(name) && StartsHere(last) && EndsWord(follow)
    ensures Flows(last, PathPieces(name), follow)
    decreases |name|
  {
    hide Flows, IsName, WordAllowed, IsLambdaOp;
    match LastSlash(name)
    case None =>
      NameStarts(last, name);
      FlowsLastName(last, name, follow);
    case Some(at) =>
      FlowsPath(name[..at], last, Some('/'));
      FlowsPathStep(last, PathPieces(name[..at]), name[at + 1..], follow);
  }

  /** What may follow an expression: the end of a literal, or the slash of a lambda over it. */
  predicate FollowsExpression(e: FilterExpression, follow: Option<char>) {
    EndsLiteral(follow) || (follow == Some('/') && (e.Property? || e.Lambda?))
  }

  lemma LiteralFits(value: LiteralValue, dataType: LiteralDataType, last: Option<TokenType>, next: Option<char>)
    requires WellFormedLiteral(value, dataType) && EndsLiteral(next)
    ensures Fits(last, Tight(LiteralKind(dataType), ValueText(value)), next, false)
  {
    hide IsGuid, IsDateTimeOffset, DateAt, TimeOfDayAt, IsEnum, IsNumber, AllIn, IsLambdaOp, Lower;
    if dataType == NullType {
      LowerFixed("null");
    }
  }

  lemma FlowsLiteral(value: LiteralValue, dataType: LiteralDataType, last: Option<TokenType>, follow: Option<char>)
    requires WellFormedLiteral(value, dataType) && EndsLiteral(follow)
    ensures Flows(last, [Tight(LiteralKind(dataType), ValueText(value))], follow)
  {
    LiteralFits(value, dataType, last, follow);
    hide WellFormedLiteral, Fits, LiteralKind, ValueText, EndsLiteral;
    var h := Tight(LiteralKind(dataType), ValueText(value));
    assert [h][1..] == [];
  }

  lemma FlowsEmptyLambda(last: Option<TokenType>, source: seq<Piece>, operator: string, follow: Option<char>)
    requires IsLambdaOp(operator) && source != [] && Flows(last, source, Some('/'))
    ensures Flows(last, source + LambdaOpening(operator) + [Tight(RParen, ")")], follow)
  {
    hide Flows;
    FlowsNone(Some(LParen), Some(')'));
    FlowsLambda(last, source, operator, [], follow);
    assert source + LambdaOpening(operator) + [] == source + LambdaOpening(operator);
  }

  lemma FlowsLambdaCondition(last: Option<TokenType>, source: seq<Piece>, operator: string, variable: string,
                             condition: seq<Piece>, follow: Option<char>)
    requires IsLambdaOp(operator) && source != [] && Flows(last, source, Some('/'))
    requires IsName(variable) && Flows(Some(Colon), condition, Some(')'))
    ensures Flows(last, source + LambdaOpening(operator) + LambdaBinding(variable) + condition + [Tight(RParen, ")")], follow)
  {
    hide Flows, IsName;
    FlowsBinding(variable, condition);
    FlowsLambda(last, source, operator, LambdaBinding(variable) + condition, follow);
    assert source + LambdaOpening(operator) + (LambdaBinding(variable) + condition)
        == source + LambdaOpening(operator) + LambdaBinding(variable) + condition;
  }

  lemma FlowsNot(last: Option<TokenType>, operand: seq<Piece>, follow: Option<char>)
    requires Flows(Some(LParen), operand, Some(')'))
    ensures Flows(last, [Piece(NotOp, "not", false, true), Tight(LParen, "(")] + operand + [Tight(RParen, ")")], follow)
  {
    hide Flows;
    FlowsEnclosed(last, Piece(NotOp, "not", false, true), operand, follow);
  }

  lemma FlowsFunction(last: Option<TokenType>, name: string, args: seq<Piece>, follow: Option<char>)
    requires ValidLexeme(FunctionToken, name) && StartsHere(last) && Flows(Some(LParen), args, Some(')'))
    ensures Flows(last, [Tight(FunctionToken, name), Tight(LParen, "(")] + args + [Tight(RParen, ")")], follow)
  {
    hide Flows, ValidLexeme, WordAllowed;
    NameStarts(last, name);
    FlowsEnclosed(last, Tight(FunctionToken, name), args, follow);
  }

  /** Well-formed expressions are printed so that each token can be told apart. */
  lemma {:induction false} FlowsComparison(e: FilterExpression, last: Option<TokenType>, follow: Option<char>)
    requires e.Comparison? && WellFormed(e) && StartsHere(last) && FollowsExpression(e, follow)
    ensures Flows(last, Pieces(e), follow)
    decreases e, 0, 0
  {
    hide Flows, IsPath, IsName, PathPieces, LambdaOpening, LambdaBinding, WellFormedLiteral, ValidLexeme, ListPieces, Fits, FirstChar,
      IsFunctionName, IsComparisonOp, IsLogicalOp, IsArithmeticOp, IsLambdaOp;
    FlowsPieces(e.left, last, Some(' '));
    Edges(e.left);
    if e.operator == "in" {
      FlowsItems(e.right.items, true, Some(')'));
      FlowsIn(last, Pieces(e.left), ListPieces(e.right.items, true), follow);
    } else {
      FlowsPieces(e.right, Some(ComparisonOp), follow);
      FlowsBinary(last, Pieces(e.left), ComparisonOp, e.operator, Pieces(e.right), follow);
    }
  }

  lemma {:induction false} FlowsLambdaPieces(e: FilterExpression, last: Option<TokenType>, follow: Option<char>)
    requires e.Lambda? && WellFormed(e) && StartsHere(last) && FollowsExpression(e, follow)
    ensures Flows(last, Pieces(e), follow)
    decreases e, 0, 0
  {
    hide Flows, IsPath, IsName, PathPieces, LambdaOpening, LambdaBinding, WellFormedLiteral, ValidLexeme, ListPieces, Fits, FirstChar,
      IsFunctionName, IsComparisonOp, IsLogicalOp, IsArithmeticOp, IsLambdaOp;
    FlowsPieces(e.source, last, Some('/'));
    Edges(e.source);
    if e.variable == "" {
      FlowsEmptyLambda(last, Pieces(e.source), e.operator, follow);
    } else {
      FlowsPieces(e.condition, Some(Colon), Some(')'));
      FlowsLambdaCondition(last, Pieces(e.source), e.operator, e.variable, Pieces(e.condition), follow);
    }
  }

  lemma {:induction false} FlowsPieces(e: FilterExpression, last: Option<TokenType>, follow: Option<char>)
    requires WellFormed(e) && StartsHere(last) && FollowsExpression(e, follow)
    ensures Flows(last, Pieces(e), follow)
    decreases e, 0
  {
    hide Flows, IsPath, IsName, PathPieces, LambdaOpening, LambdaBinding, WellFormedLiteral, ValidLexeme, ListPieces, Fits, FirstChar, IsFunctionName,
      IsComparisonOp, IsLogicalOp, IsArithmeticOp, IsLambdaOp;
    match e
    case Comparison(_, _, _) => FlowsComparison(e, last, follow);
    case Logical(operator, left, right) =>
      FlowsPieces(left, last, Some(' '));
      Edges(left);
      FlowsPieces(right, Some(LogicalOp), follow);
      FlowsBinary(last, Pieces(left), LogicalOp, operator, Pieces(right), follow);
    case Not(operand) =>
      FlowsPieces(operand, Some(LParen), Some(')'));
      FlowsNot(last, Pieces(operand), follow);
    case Arithmetic(operator, left, right) =>
      FlowsPieces(left, last, Some(' '));
      Edges(left);
      FlowsPieces(right, Some(ArithmeticOp), follow);
      FlowsBinary(last, Pieces(left), ArithmeticOp, operator, Pieces(right), follow);
    case FunctionCall(name, args) =>
      FlowsItems(args, false, Some(')'));
      FlowsFunction(last, name, ListPieces(args, false), follow);
    case Lambda(_, _, _, _) => FlowsLambdaPieces(e, last, follow);
    case Literal(value, dataType) => FlowsLiteral(value, dataType, last, follow);
    case Property(name) => FlowsPath(name, last, follow);
  }

  lemma FlowsNone(last: Option<TokenType>, follow: Option<char>)
    ensures Flows(last, [], follow)
  {
  }

  lemma {:induction false} FlowsItems(items: seq<FilterExpression>, spaced: bool, follow: Option<char>)
    requires (forall item <- items :: WellFormed(item)) && (follow == Some(')') || follow == Some(','))
    ensures Flows(Some(LParen), ListPieces(items, spaced), follow)
    decreases items, 1
  {
    hide Flows;
    if |items| == 0 {
      FlowsNone(Some(LParen), follow);
    } else if |items| == 1 {
      FlowsPieces(items[0], Some(LParen), follow);
    } else {
      var init, item := items[..|items| - 1], items[|items| - 1];
      FlowsItems(init, spaced, Some(','));
      ListEdges(init, spaced);
      FlowsPieces(item, Some(Comma), follow);
      Edges(item);
      FlowsComma(LastOf(Some(LParen), ListPieces(init, spaced)), spaced, Pieces(item), follow);
      FlowsConcat(Some(LParen), ListPieces(init, spaced), [CommaPiece(spaced)] + Pieces(item), follow);
      assert ListPieces(init, spaced) + ([CommaPiece(spaced)] + Pieces(item))
          == ListPieces(init, spaced) + [CommaPiece(spaced)] + Pieces(item);
    }
  }

  lemma FlowsComma(last: Option<TokenType>, spaced: bool, item: seq<Piece>, follow: Option<char>)
    requires Flows(Some(Comma), item, follow)
    ensures Flows(last, [CommaPiece(spaced)] + item, follow)
    ensures FirstChar([CommaPiece(spaced)] + item, follow) == Some(',')
  {
    hide Flows;
    FlowsPrepend(last, CommaPiece(spaced), item, follow);
  }

  // Where minus signs stand

  lemma {:induction false} SignsComparison(operator: string, left: FilterExpression, right: FilterExpression, last: Option<TokenType>)
    requires WellFormed(Comparison(operator, left, right))
    ensures SignsAllowed(last, Pieces(Comparison(operator, left, right)))
       <==> SignsKept(Comparison(operator, left, right)) && (StartsNegative(left) ==> AllowsNegative(last))
    decreases Comparison(operator, left, right), 0
  {
    hide IsPath, IsName, PathPieces, SignsAllowed;
    Edges(left);
    SignsPieces(left, last);
    if operator == "in" {
      SignsItems(right.items, true);
      SignsEnclosed(LastOf(last, Pieces(left)), Spaced(ComparisonOp, "in"), ListPieces(right.items, true));
      SignsAssoc(last, Pieces(left), [Spaced(ComparisonOp, "in"), Tight(LParen, "(")], ListPieces(right.items, true));
    } else {
      SignsPieces(right, Some(ComparisonOp));
      SignsBinary(last, Pieces(left), Spaced(ComparisonOp, operator), Pieces(right));
    }
  }

  lemma PiecesOfLambda(operator: string, variable: string, source: FilterExpression, condition: FilterExpression)
    ensures var inner := if variable == "" then [] else LambdaBinding(variable) + Pieces(condition);
            Pieces(Lambda(operator, variable, source, condition))
            == Pieces(source) + (LambdaOpening(operator) + inner + [Tight(RParen, ")")])
  {
    hide LambdaOpening, LambdaBinding;
  }

  lemma {:induction false} SignsLambdaPieces(operator: string, variable: string, source: FilterExpression, condition: FilterExpression, last: Option<TokenType>)
    requires WellFormed(Lambda(operator, variable, source, condition))
    ensures SignsAllowed(last, Pieces(Lambda(operator, variable, source, condition)))
       <==> SignsKept(Lambda(operator, variable, source, condition))
    decreases Lambda(operator, variable, source, condition), 0
  {
    assert !StartsNegative(source);
    var inner := if variable == "" then [] else LambdaBinding(variable) + Pieces(condition);
    PiecesOfLambda(operator, variable, source, condition);
    hide IsPath, IsName, SignsAllowed, LambdaOpening, LambdaBinding, Pieces, StartsNegative;
    SignsPieces(source, last);
    if variable != "" {
      SignsPieces(condition, Some(Colon));
      SignsBinding(variable, Pieces(condition));
    } else {
      SignsNone(Some(LParen));
    }
    SignsLambda(last, Pieces(source), operator, inner);
  }

  /** The signs of an expression are kept exactly when no lambda condition starts with one, nor the whole where none may. */
  lemma {:induction false} SignsPieces(e: FilterExpression, last: Option<TokenType>)
    requires WellFormed(e)
    ensures SignsAllowed(last, Pieces(e)) <==> SignsKept(e) && (StartsNegative(e) ==> AllowsNegative(last))
    decreases e, 1
  {
    hide IsPath, IsName, PathPieces, SignsAllowed;
    match e
    case Comparison(operator, left, right) => SignsComparison(operator, left, right, last);
    case Logical(operator, left, right) =>
      Edges(left);
      SignsPieces(left, last);
      SignsPieces(right, Some(LogicalOp));
      SignsBinary(last, Pieces(left), Spaced(LogicalOp, operator), Pieces(right));
    case Not(operand) =>
      SignsPieces(operand, Some(LParen));
      SignsEnclosed(last, Piece(NotOp, "not", false, true), Pieces(operand));
    case Arithmetic(operator, left, right) =>
      Edges(left);
      SignsPieces(left, last);
      SignsPieces(right, Some(ArithmeticOp));
      SignsBinary(last, Pieces(left), Spaced(ArithmeticOp, operator), Pieces(right));
    case FunctionCall(name, args) =>
      SignsItems(args, false);
      SignsEnclosed(last, Tight(FunctionToken, name), ListPieces(args, false));
    case Lambda(operator, variable, source, condition) => SignsLambdaPieces(operator, variable, source, condition, last);
    case Literal(value, dataType) => SignsOne(last, Tight(LiteralKind(dataType), ValueText(value)));
    case Property(name) => SignsPath(last, name);
  }

  lemma SignsNone(last: Option<TokenType>)
    ensures SignsAllowed(last, [])
  {
  }

  lemma SignsOne(last: Option<TokenType>, h: Piece)
    ensures SignsAllowed(last, [h]) <==> SignAllowed(last, h.kind, h.value)
  {
    assert [h][1..] == [];
  }

  lemma SignsBinary(last: Option<TokenType>, left: seq<Piece>, op: Piece, right: seq<Piece>)
    requires op.kind != NumberToken
    ensures SignsAllowed(last, left + [op] + right) <==> SignsAllowed(last, left) && SignsAllowed(Some(op.kind), right)
  {
    SignsConcat(last, left + [op], right);
    SignsConcat(last, left, [op]);
    SignsOne(LastOf(last, left), op);
  }

  lemma SignsEnclosed(last: Option<TokenType>, opening: Piece, inner: seq<Piece>)
    requires opening.kind != NumberToken
    ensures SignsAllowed(last, [opening, Tight(LParen, "(")] + inner + [Tight(RParen, ")")]) <==> SignsAllowed(Some(LParen), inner)
  {
    var open, close := Tight(LParen, "("), Tight(RParen, ")");
    SignsConcat(last, [opening, open] + inner, [close]);
    SignsOne(LastOf(last, [opening, open] + inner), close);
    SignsConcat(last, [opening, open], inner);
    assert [opening, open] == [opening] + [open];
    SignsConcat(last, [opening], [open]);
    SignsOne(last, opening);
    SignsOne(Some(opening.kind), open);
  }

  lemma SignsAssoc(last: Option<TokenType>, left: seq<Piece>, opening: seq<Piece>, inner: seq<Piece>)
    ensures SignsAllowed(last, left + opening + inner + [Tight(RParen, ")")])
       <==> SignsAllowed(last, left) && SignsAllowed(LastOf(last, left), opening + inner + [Tight(RParen, ")")])
  {
    var close := [Tight(RParen, ")")];
    assert left + opening + inner + close == left + (opening + inner + close);
    SignsConcat(last, left, opening + inner + close);
  }

  lemma SignsLambda(last: Option<TokenType>, source: seq<Piece>, operator: string, inner: seq<Piece>)
    ensures SignsAllowed(last, source + (LambdaOpening(operator) + inner + [Tight(RParen, ")")]))
       <==> SignsAllowed(last, source) && SignsAllowed(Some(LParen), inner)
  {
    var slash, op, close := Tight(Slash, "/"), Tight(LambdaOp, operator), [Tight(RParen, ")")];
    var enclosed := [op, Tight(LParen, "(")] + inner + close;
    assert LambdaOpening(operator) + inner + close == [slash] + enclosed;
    SignsConcat(last, source, [slash] + enclosed);
    SignsConcat(LastOf(last, source), [slash], enclosed);
    SignsOne(LastOf(last, source), slash);
    SignsEnclosed(Some(Slash), op, inner);
  }

  lemma SignsBinding(variable: string, condition: seq<Piece>)
    ensures SignsAllowed(Some(LParen), LambdaBinding(variable) + condition) <==> SignsAllowed(Some(Colon), condition)
  {
    var name, colon := Tight(PropertyToken, variable), Tight(Colon, ":");
    SignsConcat(Some(LParen), [name] + [colon], condition);
    SignsConcat(Some(LParen), [name], [colon]);
    SignsOne(Some(LParen), name);
    SignsOne(Some(PropertyToken), colon);
    assert [name] + [colon] == LambdaBinding(variable);
  }

  lemma {:induction false} SignsPath(last: Option<TokenType>, name: string)
    ensures SignsAllowed(last, PathPieces(name))
    decreases |name|
  {
    match LastSlash(name)
    case None => SignsOne(last, Tight(PropertyToken, name));
    case Some(at) =>
      var prefix, slash, part := PathPieces(name[..at]), Tight(Slash, "/"), Tight(PropertyToken, name[at + 1..]);
      SignsPath(last, name[..at]);
      assert prefix + [slash] + [part] == prefix + [slash, part];
      SignsBinary(last, prefix, slash, [part]);
      SignsOne(Some(Slash), part);
  }

  lemma {:induction false} SignsItems(items: seq<FilterExpression>, spaced: bool)
    requires forall item <- items :: WellFormed(item)
    ensures SignsAllowed(Some(LParen), ListPieces(items, spaced)) <==> forall item <- items :: SignsKept(item)
    decreases items, 1
  {
    hide WellFormed, SignsKept, StartsNegative;
    if |items| == 0 {
    } else if |items| == 1 {
      assert items[0] in items && forall item <- items :: item == items[0];
      SignsPieces(items[0], Some(LParen));
      hide SignsAllowed;
    } else {
      hide SignsAllowed;
      var init, item := items[..|items| - 1], items[|items| - 1];
      assert forall x :: x in items <==> x in init || x == item;
      assert item in items;
      SignsItems(init, spaced);
      SignsPieces(item, Some(Comma));
      SignsBinary(Some(LParen), ListPieces(init, spaced), CommaPiece(spaced), Pieces(item));
    }
  }

  // Together

  /**
   * The printed string of a well-formed expression is tokenized into its printed tokens, unless a lambda condition
   * starts with a negative number, and then it is refused.
   */
  lemma LexPrinted(e: FilterExpression) returns (tokens: seq<Token>)
    requires WellFormed(e) && Printable(e)
    ensures SignsKept(e) ==> Lex(AstToFilterString(e)) == Success(tokens) && SameTokens(tokens, Pieces(e))
    ensures !SignsKept(e) ==> Lex(AstToFilterString(e)).Failure?
  {
    var s := AstToFilterString(e);
    RenderPieces(e);
    FlowsPieces(e, None, None);
    SignsPieces(e, None);
    assert s[0..] == s;
    tokens := LexRendered(s, 0, [], Pieces(e));
    assert [] + tokens == tokens;
  }
}
