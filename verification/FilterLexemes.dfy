/** What a token may hold, how it is spelled, and how a list of tokens is written out with spaces. */
module FilterLexemes {
  import opened Strings
  import opened FilterTypes
  import opened FilterLexer

  /** A token to write: its kind and value, and whether a space stands before and after it. */
  datatype Piece = Piece(kind: TokenType, value: string, before: bool, after: bool)

  function Spelling(kind: TokenType, value: string): string {
    match kind
    case StringToken => "'" + Escape(value) + "'"
    case DurationToken => "duration'" + value + "'"
    case _ => value
  }

  // The values each kind of token can hold

  predicate IsNumber(value: string) {
    && NumberEnd(value, 0) == |value|
    && (if CharAt(value, 0, '-') then AllIn(value, 1, 2, Digit) else AllIn(value, 0, 1, Digit))
  }

  predicate IsGuid(value: string) {
    |value| == 36 && GuidAt(value, 0) && IsDigit(value[0])
  }

  predicate IsDateTimeOffset(value: string) {
    DateTimeOffsetEnd(value, 0) == Some(|value|)
  }

  /** A namespace-qualified type, then a quoted member. */
  predicate IsEnum(value: string) {
    var end := SpanEnd(value, 0, WordChar);
    && IsWord(value[..end]) && '.' in value[..end]
    && CharAt(value, end, '\'') && SpanEnd(value, end + 1, NotQuote) == |value| - 1
  }

  /** A word that no rule makes anything but a name. */
  predicate IsName(value: string) {
    IsWord(value) && FixedWord(Lower(value)).None?
  }

  predicate ValidLexeme(kind: TokenType, value: string) {
    match kind
    case PropertyToken => IsName(value)
    case StringToken => true
    case NumberToken => IsNumber(value)
    case BooleanToken => IsBoolean(value)
    case NullToken => Lower(value) == "null"
    case DateToken => |value| == 10 && DateAt(value, 0)
    case DateTimeOffsetToken => IsDateTimeOffset(value)
    case TimeOfDayToken => |value| == 8 && TimeOfDayAt(value, 0)
    case DurationToken => AllIn(value, 0, |value|, NotQuote)
    case GuidToken => IsGuid(value)
    case EnumToken => IsEnum(value)
    case ComparisonOp => IsComparisonOp(value)
    case LogicalOp => IsLogicalOp(value)
    case NotOp => value == "not"
    case ArithmeticOp => IsArithmeticOp(value)
    case FunctionToken =>
      IsName(value) && !IsLambdaOp(Lower(value)) && (IsFunctionName(Lower(value)) ==> IsFunctionName(value))
    case LambdaOp => IsLambdaOp(value)
    case LParen => value == "("
    case RParen => value == ")"
    case Comma => value == ","
    case Colon => value == ":"
    case Slash => value == "/"
  }

  /** A minus sign starts a number only where the lexer allows one. */
  predicate SignAllowed(last: Option<TokenType>, kind: TokenType, value: string) {
    kind == NumberToken && CharAt(value, 0, '-') ==> AllowsNegative(last)
  }

  /** What the token before makes of a word. */
  predicate WordAllowed(last: Option<TokenType>, kind: TokenType, value: string) {
    && (kind == PropertyToken || kind == FunctionToken ==>
          && (last == Some(Slash) ==> !IsLambdaOp(Lower(value)))
          && (last.Some? && EndsValue(last.value) ==> Lower(value) != "in"))
    && (kind == ComparisonOp && value == "in" ==> last.Some? && EndsValue(last.value))
  }

  predicate ValidAfter(last: Option<TokenType>, kind: TokenType, value: string) {
    SignAllowed(last, kind, value) && WordAllowed(last, kind, value)
  }

  function TokenKind(tokens: seq<Token>, i: int): Option<TokenType>
    requires i < |tokens|
  {
    if i < 0 then None else Some(tokens[i].kind)
  }

  /** Every token holds what its kind can hold, where it stands. */
  predicate Lexed(tokens: seq<Token>) {
    forall i | 0 <= i < |tokens| ::
      ValidLexeme(tokens[i].kind, tokens[i].value) && ValidAfter(TokenKind(tokens, i - 1), tokens[i].kind, tokens[i].value)
  }
}
