/** The `$filter` parser as functions of the tokens and a position: one function for each grammar rule and each loop. */
module FilterParser {
  import opened Strings
  import opened FilterTypes
  import opened FilterLexer
  import opened FilterNumerals

  datatype ParseMessage =
    | UnexpectedEnd
    | Expected(kind: TokenType, got: string)
    | ExpectedVariable(got: string)
    | ExpectedPathPart
    | ExpectedProperty
    | UnexpectedToken(got: string)
    | EmptyFilter
    | TrailingToken(got: string)

  datatype FilterError = LexError(error: LexerError) | ParseError(message: ParseMessage, position: nat)

  /** What a rule found, and the position after it. */
  datatype Parsed<+T> = Parsed(value: T, next: nat)

  type ParseResult<+T> = Result<Parsed<T>, FilterError>

  function KindAt(ts: seq<Token>, p: nat): Option<TokenType> {
    if p < |ts| then Some(ts[p].kind) else None
  }

  predicate IsLogicalAt(ts: seq<Token>, p: nat, operator: string) {
    KindAt(ts, p) == Some(LogicalOp) && ts[p].value == operator
  }

  function Advance(ts: seq<Token>, p: nat): (r: Result<Token, FilterError>)
    ensures r.Success? <==> p < |ts|
    ensures r.Success? ==> r.value == ts[p]
  {
    if p < |ts| then Success(ts[p])
    else Failure(ParseError(UnexpectedEnd, if |ts| > 0 then ts[|ts| - 1].position else 0))
  }

  function Expect(ts: seq<Token>, p: nat, kind: TokenType): (r: Result<Token, FilterError>)
    ensures r.Success? <==> KindAt(ts, p) == Some(kind)
    ensures r.Success? ==> r.value == ts[p]
  {
    var token :- Advance(ts, p);
    if token.kind != kind then Failure(ParseError(Expected(kind, token.value), token.position)) else Success(token)
  }

  function ParseOr(ts: seq<Token>, p: nat): (r: ParseResult<FilterExpression>)
    requires p <= |ts|
    ensures r.Success? ==> p < r.value.next <= |ts|
    decreases |ts| - p, 8
  {
    var left :- ParseAnd(ts, p);
    OrLoop(ts, left.next, left.value)
  }

  function OrLoop(ts: seq<Token>, p: nat, left: FilterExpression): (r: ParseResult<FilterExpression>)
    requires p <= |ts|
    ensures r.Success? ==> p <= r.value.next <= |ts|
    decreases |ts| - p, 0
  {
    if IsLogicalAt(ts, p, "or") then
      var right :- ParseAnd(ts, p + 1);
      OrLoop(ts, right.next, Logical("or", left, right.value))
    else Success(Parsed(left, p))
  }

  function ParseAnd(ts: seq<Token>, p: nat): (r: ParseResult<FilterExpression>)
    requires p <= |ts|
    ensures r.Success? ==> p < r.value.next <= |ts|
    decreases |ts| - p, 7
  {
    var left :- ParseNot(ts, p);
    AndLoop(ts, left.next, left.value)
  }

  function AndLoop(ts: seq<Token>, p: nat, left: FilterExpression): (r: ParseResult<FilterExpression>)
    requires p <= |ts|
    ensures r.Success? ==> p <= r.value.next <= |ts|
    decreases |ts| - p, 0
  {
    if IsLogicalAt(ts, p, "and") then
      var right :- ParseNot(ts, p + 1);
      AndLoop(ts, right.next, Logical("and", left, right.value))
    else Success(Parsed(left, p))
  }

  function ParseNot(ts: seq<Token>, p: nat): (r: ParseResult<FilterExpression>)
    requires p <= |ts|
    ensures r.Success? ==> p < r.value.next <= |ts|
    decreases |ts| - p, 6
  {
    if KindAt(ts, p) == Some(NotOp) then
      var operand :- ParseNot(ts, p + 1);
      Success(Parsed(Not(operand.value), operand.next))
    else ParseComparison(ts, p)
  }

  function ParseComparison(ts: seq<Token>, p: nat): (r: ParseResult<FilterExpression>)
    requires p <= |ts|
    ensures r.Success? ==> p < r.value.next <= |ts|
    decreases |ts| - p, 5
  {
    var left :- ParseArithmetic(ts, p);
    if KindAt(ts, left.next) == Some(ComparisonOp) then
      ParseComparand(ts, left.next, left.value)
    else Success(left)
  }

  /** The comparison operator at `p` and what stands to its right: after `in`, a list in parentheses. */
  function ParseComparand(ts: seq<Token>, p: nat, left: FilterExpression): (r: ParseResult<FilterExpression>)
    requires p < |ts|
    ensures r.Success? ==> p < r.value.next <= |ts|
    decreases |ts| - p, 0
  {
    var operator := ts[p].value;
    if operator == "in" then
      var _ :- Expect(ts, p + 1, LParen);
      var items :- ParseList(ts, p + 2);
      var _ :- Expect(ts, items.next, RParen);
      Success(Parsed(Comparison("in", left, Collection(items.value)), items.next + 1))
    else
      var right :- ParseArithmetic(ts, p + 1);
      Success(Parsed(Comparison(operator, left, right.value), right.next))
  }

  /** Expressions with commas between, or none at all before a closing parenthesis. */
  function ParseList(ts: seq<Token>, p: nat): (r: ParseResult<seq<FilterExpression>>)
    requires p <= |ts|
    ensures r.Success? ==> p <= r.value.next <= |ts|
    decreases |ts| - p, 9
  {
    if KindAt(ts, p) == Some(RParen) then Success(Parsed([], p))
    else
      var first :- ParseOr(ts, p);
      ListLoop(ts, first.next, [first.value])
  }

  function ListLoop(ts: seq<Token>, p: nat, items: seq<FilterExpression>): (r: ParseResult<seq<FilterExpression>>)
    requires p <= |ts|
    ensures r.Success? ==> p <= r.value.next <= |ts|
    decreases |ts| - p, 0
  {
    if KindAt(ts, p) == Some(Comma) then
      var item :- ParseOr(ts, p + 1);
      ListLoop(ts, item.next, items + [item.value])
    else Success(Parsed(items, p))
  }

  function ParseArithmetic(ts: seq<Token>, p: nat): (r: ParseResult<FilterExpression>)
    requires p <= |ts|
    ensures r.Success? ==> p < r.value.next <= |ts|
    decreases |ts| - p, 4
  {
    var left :- ParsePrimary(ts, p);
    ArithmeticLoop(ts, left.next, left.value)
  }

  function ArithmeticLoop(ts: seq<Token>, p: nat, left: FilterExpression): (r: ParseResult<FilterExpression>)
    requires p <= |ts|
    ensures r.Success? ==> p <= r.value.next <= |ts|
    decreases |ts| - p, 0
  {
    if KindAt(ts, p) == Some(ArithmeticOp) then
      var right :- ParsePrimary(ts, p + 1);
      ArithmeticLoop(ts, right.next, Arithmetic(ts[p].value, left, right.value))
    else Success(Parsed(left, p))
  }

  /** The literal a token stands for, if it stands for one. */
  function LiteralOf(token: Token): Option<FilterExpression> {
    match token.kind
    case StringToken => Some(Literal(Text(token.value), StringType))
    case NumberToken => Some(Literal(Number(NumeralOf(token.value)), NumberType))
    case BooleanToken => Some(Literal(Boolean(token.value == "true"), BooleanType))
    case NullToken => Some(Literal(Null, NullType))
    case DateToken => Some(Literal(Text(token.value), DateType))
    case DateTimeOffsetToken => Some(Literal(Text(token.value), DateTimeOffsetType))
    case TimeOfDayToken => Some(Literal(Text(token.value), TimeOfDayType))
    case DurationToken => Some(Literal(Text(token.value), DurationType))
    case GuidToken => Some(Literal(Text(token.value), GuidType))
    case EnumToken => Some(Literal(Text(token.value), EnumType))
    case _ => None
  }

  function ParsePrimary(ts: seq<Token>, p: nat): (r: ParseResult<FilterExpression>)
    requires p <= |ts|
    ensures r.Success? ==> p < r.value.next <= |ts|
    decreases |ts| - p, 3
  {
    if p == |ts| then Failure(ParseError(UnexpectedEnd, 0))
    else
      var token := ts[p];
      if token.kind == FunctionToken then ParseFunctionCall(ts, p)
      else if token.kind == LParen then ParseGrouping(ts, p)
      else if LiteralOf(token).Some? then Success(Parsed(LiteralOf(token).value, p + 1))
      else if token.kind == PropertyToken then PathLoop(ts, p + 1, Property(token.value))
      else Failure(ParseError(UnexpectedToken(token.value), token.position))
  }

  /** The parts of a path after its first: names, and lambda operators. */
  function PathLoop(ts: seq<Token>, p: nat, expr: FilterExpression): (r: ParseResult<FilterExpression>)
    requires p <= |ts|
    ensures r.Success? ==> p <= r.value.next <= |ts|
    decreases |ts| - p, 0
  {
    if KindAt(ts, p) != Some(Slash) then Success(Parsed(expr, p))
    else if KindAt(ts, p + 1) == Some(LambdaOp) then
      var lambda :- ParseLambda(ts, p + 1, expr);
      PathLoop(ts, lambda.next, lambda.value)
    else if KindAt(ts, p + 1) == Some(PropertyToken) then
      if expr.Property? then PathLoop(ts, p + 2, Property(expr.name + "/" + ts[p + 1].value))
      else Failure(ParseError(ExpectedProperty, 0))
    else Failure(ParseError(ExpectedPathPart, if p + 1 < |ts| then ts[p + 1].position else 0))
  }

  function ParseLambda(ts: seq<Token>, p: nat, source: FilterExpression): (r: ParseResult<FilterExpression>)
    requires p < |ts|
    ensures r.Success? ==> p < r.value.next <= |ts|
    decreases |ts| - p, 0
  {
    var operator := ts[p].value;
    var _ :- Expect(ts, p + 1, LParen);
    if KindAt(ts, p + 2) == Some(RParen) then
      Success(Parsed(Lambda(operator, "", source, Literal(Boolean(true), BooleanType)), p + 3))
    else
      var variable :- Advance(ts, p + 2);
      if variable.kind != PropertyToken then Failure(ParseError(ExpectedVariable(variable.value), variable.position))
      else
        var _ :- Expect(ts, p + 3, Colon);
        var condition :- ParseOr(ts, p + 4);
        var _ :- Expect(ts, condition.next, RParen);
        Success(Parsed(Lambda(operator, variable.value, source, condition.value), condition.next + 1))
  }

  function ParseFunctionCall(ts: seq<Token>, p: nat): (r: ParseResult<FilterExpression>)
    requires p < |ts|
    ensures r.Success? ==> p < r.value.next <= |ts|
    decreases |ts| - p, 2
  {
    var _ :- Expect(ts, p + 1, LParen);
    var args :- ParseList(ts, p + 2);
    var _ :- Expect(ts, args.next, RParen);
    Success(Parsed(FunctionCall(ts[p].value, args.value), args.next + 1))
  }

  function ParseGrouping(ts: seq<Token>, p: nat): (r: ParseResult<FilterExpression>)
    requires p < |ts|
    ensures r.Success? ==> p < r.value.next <= |ts|
    decreases |ts| - p, 2
  {
    var inner :- ParseOr(ts, p + 1);
    var _ :- Expect(ts, inner.next, RParen);
    Success(Parsed(inner.value, inner.next + 1))
  }

  /** The whole token list as one expression. */
  function ParseTokens(ts: seq<Token>): Result<FilterExpression, FilterError> {
    if |ts| == 0 then Failure(ParseError(EmptyFilter, 0))
    else
      var parsed :- ParseOr(ts, 0);
      if parsed.next < |ts| then
        Failure(ParseError(TrailingToken(ts[parsed.next].value), ts[parsed.next].position))
      else Success(parsed.value)
  }

  function ParseFilter(filter: string): Result<FilterExpression, FilterError> {
    match Lex(filter)
    case Failure(error) => Failure(LexError(error))
    case Success(tokens) => ParseTokens(tokens)
  }
}
