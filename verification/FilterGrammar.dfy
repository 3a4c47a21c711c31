/** The expressions the parser can build, and among them those the printer writes so that they parse back. */
module FilterGrammar {
  import opened Strings
  import opened FilterTypes
  import opened FilterLexemes
  import opened FilterNumerals
  import opened FilterSerializer

  predicate WellFormedLiteral(value: LiteralValue, dataType: LiteralDataType) {
    match dataType
    case NumberType => value.Number? && IsNumber(value.numeral) && NumeralOf(value.numeral) == value.numeral
    case BooleanType => value.Boolean?
    case NullType => value.Null?
    case _ => value.Text? && ValidLexeme(LiteralKind(dataType), value.text)
  }

  /** Names with slashes between; a part after the first is no lambda operator. */
  predicate IsPath(name: string)
    decreases |name|
  {
    match LastSlash(name)
    case None => IsName(name)
    case Some(at) =>
      var part := name[at + 1..];
      IsPath(name[..at]) && IsName(part) && !IsLambdaOp(Lower(part))
  }

  /** What a lambda with no variable holds as its condition. */
  const EMPTY_CONDITION := Literal(Boolean(true), BooleanType)

  /** The expressions the parser can build. */
  predicate WellFormed(e: FilterExpression) {
    match e
    case Comparison(operator, left, right) =>
      && IsComparisonOp(operator) && WellFormed(left)
      && (if operator == "in" then right.Collection? && forall item <- right.items :: WellFormed(item) else WellFormed(right))
    case Logical(operator, left, right) => IsLogicalOp(operator) && WellFormed(left) && WellFormed(right)
    case Not(operand) => WellFormed(operand)
    case Arithmetic(operator, left, right) => IsArithmeticOp(operator) && WellFormed(left) && WellFormed(right)
    case FunctionCall(name, args) => ValidLexeme(FunctionToken, name) && forall arg <- args :: WellFormed(arg)
    case Lambda(operator, variable, source, condition) =>
      && IsLambdaOp(operator) && (source.Property? || source.Lambda?) && WellFormed(source)
      && (if variable == "" then condition == EMPTY_CONDITION else IsName(variable) && WellFormed(condition))
    case Literal(value, dataType) => WellFormedLiteral(value, dataType)
    case Collection(_) => false
    case Property(name) => IsPath(name)
  }

  // The grammar's levels, from the loosest to the tightest

  datatype Level = OrLevel | AndLevel | NotLevel | ComparisonLevel | ArithmeticLevel | PrimaryLevel

  function Rank(level: Level): nat {
    match level
    case OrLevel => 0
    case AndLevel => 1
    case NotLevel => 2
    case ComparisonLevel => 3
    case ArithmeticLevel => 4
    case PrimaryLevel => 5
  }

  function LevelOf(e: FilterExpression): Level {
    match e
    case Logical(operator, _, _) => if operator == "or" then OrLevel else AndLevel
    case Not(_) => NotLevel
    case Comparison(_, _, _) => ComparisonLevel
    case Arithmetic(_, _, _) => ArithmeticLevel
    case _ => PrimaryLevel
  }

  /** The expression, printed with no parentheses, is grouped as it stands by a rule of this level. */
  predicate Grouped(e: FilterExpression, level: Level)
    decreases e
  {
    && Rank(level) <= Rank(LevelOf(e))
    && match e
       case Comparison(operator, left, right) =>
         && Grouped(left, ArithmeticLevel)
         && (if operator == "in" then right.Collection? && forall item <- right.items :: Grouped(item, OrLevel)
             else Grouped(right, ArithmeticLevel))
       case Logical(operator, left, right) =>
         if operator == "or" then Grouped(left, OrLevel) && Grouped(right, AndLevel)
         else Grouped(left, AndLevel) && Grouped(right, NotLevel)
       case Not(operand) => Grouped(operand, OrLevel)
       case Arithmetic(_, left, right) => Grouped(left, ArithmeticLevel) && Grouped(right, PrimaryLevel)
       case FunctionCall(_, args) => forall arg <- args :: Grouped(arg, OrLevel)
       case Lambda(_, variable, source, condition) => Grouped(source, PrimaryLevel) && (variable != "" ==> Grouped(condition, OrLevel))
       case _ => true
  }

  /** The leftmost operand is a negative number. */
  predicate StartsNegative(e: FilterExpression) {
    match e
    case Comparison(_, left, _) => StartsNegative(left)
    case Logical(_, left, _) => StartsNegative(left)
    case Arithmetic(_, left, _) => StartsNegative(left)
    case Literal(value, dataType) => dataType == NumberType && CharAt(ValueText(value), 0, '-')
    case _ => false
  }

  /** No lambda condition starts with a negative number: the lexer takes no minus sign after a colon. */
  predicate SignsKept(e: FilterExpression) {
    match e
    case Comparison(operator, left, right) =>
      && SignsKept(left)
      && (if operator == "in" && right.Collection? then forall item <- right.items :: SignsKept(item) else SignsKept(right))
    case Logical(_, left, right) => SignsKept(left) && SignsKept(right)
    case Not(operand) => SignsKept(operand)
    case Arithmetic(_, left, right) => SignsKept(left) && SignsKept(right)
    case FunctionCall(_, args) => forall arg <- args :: SignsKept(arg)
    case Lambda(_, variable, source, condition) =>
      SignsKept(source) && (variable != "" ==> SignsKept(condition) && !StartsNegative(condition))
    case Collection(items) => forall item <- items :: SignsKept(item)
    case _ => true
  }

  /** The expressions that `astToFilterString` writes so that `parseFilter` reads them back. */
  predicate Canonical(e: FilterExpression) {
    WellFormed(e) && Grouped(e, OrLevel) && SignsKept(e)
  }
}
