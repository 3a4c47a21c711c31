/** The `$filter` lexer as functions of the input, a position, and the kind of the token before. */
module FilterLexer {
  import opened Strings
  import opened FilterTypes

  datatype LexMessage = UnterminatedString | UnterminatedEnum | UnexpectedCharacter(c: char)

  datatype LexerError = LexerError(message: LexMessage, position: nat)

  /** A token, and where reading goes on. */
  datatype Reading = Reading(token: Token, next: nat)

  type ReadResult = Result<Reading, LexerError>

  // Literal patterns

  /** `/^\d{4}-\d{2}-\d{2}/` at `p` */
  predicate DateAt(s: string, p: nat) {
    && AllIn(s, p, p + 4, Digit) && CharAt(s, p + 4, '-')
    && AllIn(s, p + 5, p + 7, Digit) && CharAt(s, p + 7, '-') && AllIn(s, p + 8, p + 10, Digit)
  }

  /** `/^\d{2}:\d{2}:\d{2}/` at `p` */
  predicate TimeOfDayAt(s: string, p: nat) {
    && AllIn(s, p, p + 2, Digit) && CharAt(s, p + 2, ':')
    && AllIn(s, p + 3, p + 5, Digit) && CharAt(s, p + 5, ':') && AllIn(s, p + 6, p + 8, Digit)
  }

  /** The end of `(Z|[+-]\d{2}:\d{2})` at `p` */
  function ZoneEnd(s: string, p: nat): Option<nat> {
    if CharAt(s, p, 'Z') then Some(p + 1)
    else if (CharAt(s, p, '+') || CharAt(s, p, '-')) && AllIn(s, p + 1, p + 3, Digit) && CharAt(s, p + 3, ':')
            && AllIn(s, p + 4, p + 6, Digit) then Some(p + 6)
    else None
  }

  /** The end of a date, `T`, a time, an optional fraction and a zone at `p` */
  function DateTimeOffsetEnd(s: string, p: nat): Option<nat> {
    if DateAt(s, p) && CharAt(s, p + 10, 'T') && TimeOfDayAt(s, p + 11) then
      ZoneEnd(s, FractionEnd(s, p + 19))
    else
      None
  }

  /** The end of `(\.\d+)?` at `p` */
  function FractionEnd(s: string, p: nat): (end: nat)
    requires p <= |s|
    ensures p <= end <= |s|
  {
    if CharAt(s, p, '.') && SpanEnd(s, p + 1, Digit) > p + 1 then SpanEnd(s, p + 1, Digit) else p
  }

  /** Eight, four, four, four and twelve hexadecimal digits with hyphens between, at `p` */
  predicate GuidAt(s: string, p: nat) {
    && AllIn(s, p, p + 8, HexDigit) && CharAt(s, p + 8, '-')
    && AllIn(s, p + 9, p + 13, HexDigit) && CharAt(s, p + 13, '-')
    && AllIn(s, p + 14, p + 18, HexDigit) && CharAt(s, p + 18, '-')
    && AllIn(s, p + 19, p + 23, HexDigit) && CharAt(s, p + 23, '-') && AllIn(s, p + 24, p + 36, HexDigit)
  }

  /** Nothing alphanumeric follows a match that ends at `end`. */
  predicate EndsCleanly(s: string, end: nat) {
    end >= |s| || !IsAlphanumeric(s[end])
  }

  function NumberEnd(s: string, p: nat): (end: nat)
    requires p <= |s|
    ensures p <= end <= |s|
  {
    var whole := SpanEnd(s, if CharAt(s, p, '-') then p + 1 else p, Digit);
    if CharAt(s, whole, '.') then SpanEnd(s, whole + 1, Digit) else whole
  }

  // One token

  /** The rest of a string literal: its value, and the position after the closing quote. */
  function StringBody(s: string, p: nat, value: string): (r: Option<(string, nat)>)
    requires p <= |s|
    ensures r.Some? ==> p < r.value.1 <= |s|
    decreases |s| - p
  {
    if p == |s| then None
    else if s[p] == '\'' then
      if CharAt(s, p + 1, '\'') then StringBody(s, p + 2, value + ['\'']) else Some((value, p + 1))
    else StringBody(s, p + 1, value + [s[p]])
  }

  function ReadString(s: string, p: nat): (r: ReadResult)
    requires p < |s|
    ensures r.Success? ==> p < r.value.next <= |s|
  {
    match StringBody(s, p + 1, "")
    case None => Failure(LexerError(UnterminatedString, p))
    case Some((value, next)) => Success(Reading(Token(StringToken, value, p), next))
  }

  function ReadNumber(s: string, p: nat): (r: Reading)
    requires p < |s| && (IsDigit(s[p]) || s[p] == '-')
    ensures p < r.next <= |s|
  {
    var end := NumberEnd(s, p);
    Reading(Token(NumberToken, s[p..end], p), end)
  }

  function ReadDigits(s: string, p: nat): (r: Reading)
    requires p < |s| && IsDigit(s[p])
    ensures p < r.next <= |s|
  {
    if GuidAt(s, p) && EndsCleanly(s, p + 36) then Reading(Token(GuidToken, s[p..p + 36], p), p + 36)
    else if DateTimeOffsetEnd(s, p).Some? then
      var end := DateTimeOffsetEnd(s, p).value;
      Reading(Token(DateTimeOffsetToken, s[p..end], p), end)
    else if DateAt(s, p) && EndsCleanly(s, p + 10) then Reading(Token(DateToken, s[p..p + 10], p), p + 10)
    else if TimeOfDayAt(s, p) && EndsCleanly(s, p + 8) then Reading(Token(TimeOfDayToken, s[p..p + 8], p), p + 8)
    else ReadNumber(s, p)
  }

  /** The kinds after which `in` is an operator. */
  predicate EndsValue(kind: TokenType) {
    || kind == PropertyToken || kind == StringToken || kind == NumberToken || kind == BooleanToken
    || kind == NullToken || kind == DateToken || kind == DateTimeOffsetToken || kind == TimeOfDayToken
    || kind == DurationToken || kind == GuidToken || kind == EnumToken || kind == RParen
  }

  /** Where a minus sign starts a number: at the start, and after these kinds. A colon is not among them. */
  predicate AllowsNegative(last: Option<TokenType>) {
    || last.None? || last.value == ComparisonOp || last.value == LogicalOp || last.value == ArithmeticOp
    || last.value == NotOp || last.value == LParen || last.value == Comma
  }

  /** The words that mean the same wherever they stand. */
  function FixedWord(lower: string): Option<TokenType> {
    if lower == "null" then Some(NullToken)
    else if IsBoolean(lower) then Some(BooleanToken)
    else if lower == "not" then Some(NotOp)
    else if lower != "in" && IsComparisonOp(lower) then Some(ComparisonOp)
    else if IsLogicalOp(lower) then Some(LogicalOp)
    else if IsArithmeticOp(lower) then Some(ArithmeticOp)
    else None
  }

  /** The words the token before makes operators. */
  function ContextWord(lower: string, last: Option<TokenType>): Option<TokenType> {
    if lower == "in" && last.Some? && EndsValue(last.value) then Some(ComparisonOp)
    else if IsLambdaOp(lower) && last == Some(Slash) then Some(LambdaOp)
    else None
  }

  /** What any other word is. */
  function NameWord(word: string, beforeParen: bool): (TokenType, string) {
    var lower := Lower(word);
    if !beforeParen then (PropertyToken, word)
    else if lower == "in" then (FunctionToken, word)
    else if IsFunctionName(word) then (FunctionToken, word)
    else if IsFunctionName(lower) then (FunctionToken, lower)
    else if IsLambdaOp(lower) then (LambdaOp, lower)
    else (FunctionToken, word)
  }

  /** A word that is not the start of a duration or an enumeration literal. */
  function ReadPlainWord(s: string, p: nat, end: nat, last: Option<TokenType>): (r: Reading)
    requires p < end <= |s|
    ensures end <= r.next <= |s|
  {
    var word := s[p..end];
    var lower := Lower(word);
    var kept := FixedWord(lower);
    if kept.Some? then Reading(Token(kept.value, if kept.value == NullToken then word else lower, p), end)
    else
      var context := ContextWord(lower, last);
      if context.Some? then Reading(Token(context.value, lower, p), end)
      else
        var after := SpanEnd(s, end, Space);
        var (kind, value) := NameWord(word, CharAt(s, after, '('));
        Reading(Token(kind, value, p), after)
  }

  function ReadWord(s: string, p: nat, last: Option<TokenType>): (r: ReadResult)
    requires p < |s| && InClass(s[p], WordChar)
    ensures r.Success? ==> p < r.value.next <= |s|
  {
    var end := SpanEnd(s, p, WordChar);
    var word := s[p..end];
    if CharAt(s, end, '\'') then
      var close := SpanEnd(s, end + 1, NotQuote);
      if word == "duration" && close < |s| then
        Success(Reading(Token(DurationToken, s[end + 1..close], p), close + 1))
      else if '.' in word then
        if close < |s| then Success(Reading(Token(EnumToken, s[p..close + 1], p), close + 1))
        else Failure(LexerError(UnterminatedEnum, p))
      else Success(ReadPlainWord(s, p, end, last))
    else Success(ReadPlainWord(s, p, end, last))
  }

  function Punctuation(c: char): Option<TokenType> {
    match c
    case '(' => Some(LParen)
    case ')' => Some(RParen)
    case ',' => Some(Comma)
    case ':' => Some(Colon)
    case '/' => Some(Slash)
    case _ => None
  }

  function ReadToken(s: string, p: nat, last: Option<TokenType>): (r: ReadResult)
    requires p < |s|
    ensures r.Success? ==> p < r.value.next <= |s|
  {
    var c := s[p];
    if IsDigit(c) then Success(ReadDigits(s, p))
    else if c == '\'' then ReadString(s, p)
    else if Punctuation(c).Some? then Success(Reading(Token(Punctuation(c).value, [c], p), p + 1))
    else if c == '-' && p + 1 < |s| && IsDigit(s[p + 1]) then
      if AllowsNegative(last) then Success(ReadNumber(s, p)) else Failure(LexerError(UnexpectedCharacter(c), p))
    else if IsLetter(c) || c == '_' then ReadWord(s, p, last)
    else Failure(LexerError(UnexpectedCharacter(c), p))
  }

  // All tokens

  function LastKind(tokens: seq<Token>): Option<TokenType> {
    if tokens == [] then None else Some(tokens[|tokens| - 1].kind)
  }

  /** The tokens read so far, and those of the rest of the input. */
  function LexFrom(s: string, p: nat, tokens: seq<Token>): Result<seq<Token>, LexerError>
    requires p <= |s|
    decreases |s| - p
  {
    var start := SpanEnd(s, p, Space);
    if start == |s| then Success(tokens)
    else
      match ReadToken(s, start, LastKind(tokens))
      case Failure(error) => Failure(error)
      case Success(reading) => LexFrom(s, reading.next, tokens + [reading.token])
  }

  function Lex(s: string): Result<seq<Token>, LexerError> {
    LexFrom(s, 0, [])
  }
}
