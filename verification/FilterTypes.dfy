/** The `$filter` expression tree, its tokens, and the words the language reserves. */
module FilterTypes {

  datatype LiteralDataType =
    | StringType | NumberType | BooleanType | NullType | DateType
    | DateTimeOffsetType | TimeOfDayType | DurationType | GuidType | EnumType

  /** A number is its plain decimal numeral. */
  datatype LiteralValue = Text(text: string) | Number(numeral: string) | Boolean(boolean: bool) | Null

  datatype FilterExpression =
    | Comparison(operator: string, left: FilterExpression, right: FilterExpression)
    | Logical(operator: string, left: FilterExpression, right: FilterExpression)
    | Not(operand: FilterExpression)
    | Arithmetic(operator: string, left: FilterExpression, right: FilterExpression)
    | FunctionCall(name: string, args: seq<FilterExpression>)
    | Lambda(operator: string, variable: string, source: FilterExpression, condition: FilterExpression)
    | Literal(value: LiteralValue, dataType: LiteralDataType)
    | Collection(items: seq<FilterExpression>)
    | Property(name: string)

  datatype TokenType =
    | PropertyToken | StringToken | NumberToken | BooleanToken | NullToken | DateToken
    | DateTimeOffsetToken | TimeOfDayToken | DurationToken | GuidToken | EnumToken
    | ComparisonOp | LogicalOp | NotOp | ArithmeticOp | FunctionToken | LambdaOp
    | LParen | RParen | Comma | Colon | Slash

  datatype Token = Token(kind: TokenType, value: string, position: nat)

  predicate IsComparisonOp(word: string) {
    word == "eq" || word == "ne" || word == "gt" || word == "ge" || word == "lt" || word == "le" || word == "has" || word == "in"
  }

  predicate IsLogicalOp(word: string) {
    word == "and" || word == "or"
  }

  predicate IsArithmeticOp(word: string) {
    word == "add" || word == "sub" || word == "mul" || word == "div" || word == "mod" || word == "divby"
  }

  predicate IsLambdaOp(word: string) {
    word == "any" || word == "all"
  }

  predicate IsBoolean(word: string) {
    word == "true" || word == "false"
  }

  predicate IsFunctionName(word: string) {
    || word == "contains" || word == "startswith" || word == "endswith" || word == "length" || word == "indexof"
    || word == "substring" || word == "tolower" || word == "toupper" || word == "trim" || word == "concat"
    || word == "matchesPattern" || word == "year" || word == "month" || word == "day" || word == "hour"
    || word == "minute" || word == "second" || word == "fractionalseconds" || word == "totalseconds"
    || word == "date" || word == "time" || word == "totaloffsetminutes" || word == "now" || word == "maxdatetime"
    || word == "mindatetime" || word == "round" || word == "floor" || word == "ceiling" || word == "cast"
    || word == "isof"
  }
}
