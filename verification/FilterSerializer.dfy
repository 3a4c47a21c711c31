/** `astToFilterString`, and the row of tokens it writes. */
module FilterSerializer {
  import opened Strings
  import opened FilterTypes
  import opened FilterLexemes

  // The printed string

  /** The right side of every `in` that is printed is a collection; the printer reads its items unchecked. */
  predicate Printable(e: FilterExpression) {
    match e
    case Comparison(operator, left, right) =>
      && Printable(left)
      && (if operator == "in" then right.Collection? && forall item <- right.items :: Printable(item) else Printable(right))
    case Logical(_, left, right) => Printable(left) && Printable(right)
    case Not(operand) => Printable(operand)
    case Arithmetic(_, left, right) => Printable(left) && Printable(right)
    case FunctionCall(_, args) => forall arg <- args :: Printable(arg)
    case Lambda(_, variable, source, condition) => Printable(source) && (variable != "" ==> Printable(condition))
    case Literal(_, _) => true
    case Collection(items) => forall item <- items :: Printable(item)
    case Property(_) => true
  }

  /** `String(value)` */
  function ValueText(value: LiteralValue): string {
    match value
    case Text(text) => text
    case Number(numeral) => numeral
    case Boolean(boolean) => if boolean then "true" else "false"
    case Null => "null"
  }

  function LiteralText(value: LiteralValue, dataType: LiteralDataType): string {
    if value.Null? then "null"
    else if dataType == StringType then "'" + Escape(ValueText(value)) + "'"
    else if dataType == DurationType then "duration'" + ValueText(value) + "'"
    else ValueText(value)
  }

  function AstToFilterString(e: FilterExpression): string
    requires Printable(e)
    decreases e, 0
  {
    match e
    case Comparison(operator, left, right) =>
      if operator == "in" then AstToFilterString(left) + " in (" + Join(right.items, ", ") + ")"
      else AstToFilterString(left) + " " + operator + " " + AstToFilterString(right)
    case Logical(operator, left, right) => AstToFilterString(left) + " " + operator + " " + AstToFilterString(right)
    case Not(operand) => "not (" + AstToFilterString(operand) + ")"
    case Arithmetic(operator, left, right) => AstToFilterString(left) + " " + operator + " " + AstToFilterString(right)
    case FunctionCall(name, args) => name + "(" + Join(args, ",") + ")"
    case Lambda(operator, variable, source, condition) =>
      if variable == "" then AstToFilterString(source) + "/" + operator + "()"
      else AstToFilterString(source) + "/" + operator + "(" + variable + ":" + AstToFilterString(condition) + ")"
    case Literal(value, dataType) => LiteralText(value, dataType)
    case Collection(items) => Join(items, ", ")
    case Property(name) => name
  }

  /** The items printed, with the separator between them. */
  function Join(items: seq<FilterExpression>, separator: string): string
    requires forall item <- items :: Printable(item)
    decreases items, 1
  {
    if |items| == 0 then ""
    else if |items| == 1 then AstToFilterString(items[0])
    else Join(items[..|items| - 1], separator) + separator + AstToFilterString(items[|items| - 1])
  }

  // The printed tokens

  function Tight(kind: TokenType, value: string): Piece {
    Piece(kind, value, false, false)
  }

  function Spaced(kind: TokenType, value: string): Piece {
    Piece(kind, value, true, true)
  }

  function LiteralKind(dataType: LiteralDataType): TokenType {
    match dataType
    case StringType => StringToken
    case NumberType => NumberToken
    case BooleanType => BooleanToken
    case NullType => NullToken
    case DateType => DateToken
    case DateTimeOffsetType => DateTimeOffsetToken
    case TimeOfDayType => TimeOfDayToken
    case DurationType => DurationToken
    case GuidType => GuidToken
    case EnumType => EnumToken
  }

  function LastSlash(name: string): (at: Option<nat>)
    ensures at.Some? ==> at.value < |name| && name[at.value] == '/' && '/' !in name[at.value + 1..]
    ensures at.None? ==> '/' !in name
  {
    if name == "" then None
    else if name[|name| - 1] == '/' then Some(|name| - 1)
    else LastSlash(name[..|name| - 1])
  }

  function PathPieces(name: string): seq<Piece>
    decreases |name|
  {
    match LastSlash(name)
    case None => [Tight(PropertyToken, name)]
    case Some(at) => PathPieces(name[..at]) + [Tight(Slash, "/"), Tight(PropertyToken, name[at + 1..])]
  }

  function Pieces(e: FilterExpression): seq<Piece>
    decreases e, 0
  {
    match e
    case Comparison(operator, left, right) =>
      if operator == "in" then
        Pieces(left) + [Spaced(ComparisonOp, operator), Tight(LParen, "(")]
        + (if right.Collection? then ListPieces(right.items, true) else []) + [Tight(RParen, ")")]
      else Pieces(left) + [Spaced(ComparisonOp, operator)] + Pieces(right)
    case Logical(operator, left, right) => Pieces(left) + [Spaced(LogicalOp, operator)] + Pieces(right)
    case Not(operand) => [Piece(NotOp, "not", false, true), Tight(LParen, "(")] + Pieces(operand) + [Tight(RParen, ")")]
    case Arithmetic(operator, left, right) => Pieces(left) + [Spaced(ArithmeticOp, operator)] + Pieces(right)
    case FunctionCall(name, args) =>
      [Tight(FunctionToken, name), Tight(LParen, "(")] + ListPieces(args, false) + [Tight(RParen, ")")]
    case Lambda(operator, variable, source, condition) =>
      if variable == "" then Pieces(source) + LambdaOpening(operator) + [Tight(RParen, ")")]
      else Pieces(source) + LambdaOpening(operator) + LambdaBinding(variable) + Pieces(condition) + [Tight(RParen, ")")]
    case Literal(value, dataType) => [Tight(LiteralKind(dataType), ValueText(value))]
    case Collection(items) => ListPieces(items, true)
    case Property(name) => PathPieces(name)
  }

  function LambdaOpening(operator: string): seq<Piece> {
    [Tight(Slash, "/"), Tight(LambdaOp, operator), Tight(LParen, "(")]
  }

  function LambdaBinding(variable: string): seq<Piece> {
    [Tight(PropertyToken, variable), Tight(Colon, ":")]
  }

  function CommaPiece(spaced: bool): Piece {
    Piece(Comma, ",", false, spaced)
  }

  function ListPieces(items: seq<FilterExpression>, spaced: bool): seq<Piece>
    decreases items, 1
  {
    if |items| == 0 then []
    else if |items| == 1 then Pieces(items[0])
    else ListPieces(items[..|items| - 1], spaced) + [CommaPiece(spaced)] + Pieces(items[|items| - 1])
  }
}
