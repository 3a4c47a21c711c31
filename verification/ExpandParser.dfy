/** The `$expand` parser: clauses, their options, and the clauses nested in them. */
module ExpandParser {
  import opened Strings
  import opened ExpandSplit

  datatype Levels = MaxLevels | LevelCount(count: nat)

  datatype ExpandQueryOptions = ExpandQueryOptions(
    select: Option<string>, filter: Option<string>, orderby: Option<string>, top: Option<nat>, skip: Option<nat>,
    count: Option<bool>, expand: ExpandClauses, levels: Option<Levels>)

  /** The value of `$expand`, if it is given. */
  datatype ExpandClauses = NoClauses | Clauses(items: seq<ExpandExpression>)

  datatype ExpandExpression = ExpandExpression(property: string, options: ExpandQueryOptions)

  const NO_OPTIONS := ExpandQueryOptions(None, None, None, None, None, None, NoClauses, None)

  datatype ExpandMessage =
    | MissingEquals(segment: string)
    | InvalidTop(text: string)
    | InvalidSkip(text: string)
    | InvalidLevels(text: string)
    | UnknownOption(key: string)
    | EmptyProperty
    | UnmatchedParenthesis(clause: string)

  datatype ExpandParseError = ExpandParseError(message: ExpandMessage, position: nat)

  type ExpandResult<+T> = Result<T, ExpandParseError>

  // Numbers

  /** What a digit of any base up to sixteen stands for. */
  function DigitIn(c: char): nat {
    if IsDigit(c) then DigitValue(c)
    else if 'a' <= c <= 'f' then c as int - 'a' as int + 10
    else if 'A' <= c <= 'F' then c as int - 'A' as int + 10
    else 16
  }

  /** A whole number in a base, of at least one digit. */
  function InBase(s: string, base: nat): Option<nat> {
    if s == "" || DigitIn(s[|s| - 1]) >= base then None
    else if |s| == 1 then Some(DigitIn(s[0]))
    else
      var before := InBase(s[..|s| - 1], base);
      if before.None? then None else Some(before.value * base + DigitIn(s[|s| - 1]))
  }

  /** The base that a number written with `0x`, `0o` or `0b` is in. */
  function BaseOf(text: string): Option<nat> {
    if |text| < 2 || text[0] != '0' then None
    else if text[1] == 'x' || text[1] == 'X' then Some(16)
    else if text[1] == 'o' || text[1] == 'O' then Some(8)
    else if text[1] == 'b' || text[1] == 'B' then Some(2)
    else None
  }

  function Signed(text: string): (bool, string) {
    if text != "" && (text[0] == '-' || text[0] == '+') then (text[0] == '-', text[1..]) else (false, text)
  }

  function WithSign(negative: bool, n: int): int {
    if negative then -n else n
  }

  /** The exponent a decimal ends with: none written is zero. */
  function ExponentOf(text: string): Option<int> {
    if text == "" then Some(0)
    else if text[0] != 'e' && text[0] != 'E' then None
    else
      var (negative, digits) := Signed(text[1..]);
      var n := InBase(digits, 10);
      if n.None? then None else Some(WithSign(negative, n.value))
  }

  /** `m` times ten to the power `e`, where that is a whole number. */
  function Scaled(m: nat, e: int): Option<nat> {
    if e >= 0 then Some(m * Power(10, e))
    else if m % Power(10, -e) == 0 then Some(m / Power(10, -e))
    else None
  }

  /** A decimal without a sign: digits, a point among them or about them, and an exponent; where it is a whole number. */
  function DecimalOf(text: string): Option<nat> {
    var whole := SpanEnd(text, 0, Digit);
    var start := if CharAt(text, whole, '.') then whole + 1 else whole;
    var end := if CharAt(text, whole, '.') then SpanEnd(text, start, Digit) else whole;
    var digits, exponent := InBase(text[..whole] + text[start..end], 10), ExponentOf(text[end..]);
    if digits.None? || exponent.None? then None else Scaled(digits.value, exponent.value - (end - start))
  }

  /** `Number(text)` of a trimmed text, where that is a whole number. */
  function NumberOf(text: string): Option<int> {
    if AllIn(text, 0, |text|, Digit) then Some(NatValue(text))
    else if BaseOf(text).Some? then InBase(text[2..], BaseOf(text).value)
    else
      var (negative, body) := Signed(text);
      var n := DecimalOf(body);
      if n.None? then None else Some(WithSign(negative, n.value))
  }

  // The parser

  function IndexOf(s: string, c: char): (at: Option<nat>)
    ensures at.Some? ==> at.value < |s| && s[at.value] == c && c !in s[..at.value]
    ensures at.None? ==> c !in s
  {
    if s == "" then None
    else if s[0] == c then Some(0)
    else
      match IndexOf(s[1..], c)
      case None => None
      case Some(at) => assert s[..at + 1] == [s[0]] + s[1..][..at]; Some(at + 1)
  }

  /** From `i` on, `depth` deep, where the depth comes back to zero. */
  function CloseIndex(clause: string, i: nat, depth: int): (close: Option<nat>)
    requires i <= |clause|
    ensures close.Some? ==> i <= close.value < |clause|
    decreases |clause| - i
  {
    if i == |clause| then None
    else if clause[i] == ')' && depth == 1 then Some(i)
    else CloseIndex(clause, i + 1, depth + Delta(clause[i]))
  }

  function ParseCount(text: string, least: nat): Option<nat> {
    var n := NumberOf(text);
    if n.Some? && n.value >= least then Some(n.value) else None
  }

  function ParseOption(options: ExpandQueryOptions, segment: string, base: nat): ExpandResult<ExpandQueryOptions>
    decreases |segment|, 0
  {
    match IndexOf(segment, '=')
    case None => Failure(ExpandParseError(MissingEquals(segment), base))
    case Some(eq) =>
      var key, value := Trim(segment[..eq]), Trim(segment[eq + 1..]);
      if key == "$select" then Success(options.(select := Some(value)))
      else if key == "$filter" then Success(options.(filter := Some(value)))
      else if key == "$orderby" then Success(options.(orderby := Some(value)))
      else if key == "$top" then
        if ParseCount(value, 0).Some? then Success(options.(top := ParseCount(value, 0)))
        else Failure(ExpandParseError(InvalidTop(value), base))
      else if key == "$skip" then
        if ParseCount(value, 0).Some? then Success(options.(skip := ParseCount(value, 0)))
        else Failure(ExpandParseError(InvalidSkip(value), base))
      else if key == "$count" then Success(options.(count := Some(value == "true")))
      else if key == "$expand" then
        var clauses :- ParseClauses(value, base);
        Success(options.(expand := Clauses(clauses)))
      else if key == "$levels" then
        if value == "max" then Success(options.(levels := Some(MaxLevels)))
        else if ParseCount(value, 1).Some? then Success(options.(levels := Some(LevelCount(ParseCount(value, 1).value))))
        else Failure(ExpandParseError(InvalidLevels(value), base))
      else Failure(ExpandParseError(UnknownOption(key), base))
  }

  /** The segments in turn, each over the options read so far; none is longer than `bound`. */
  function ParseSegments(segments: seq<string>, options: ExpandQueryOptions, base: nat, ghost bound: nat): ExpandResult<ExpandQueryOptions>
    requires forall segment <- segments :: |segment| <= bound
    decreases bound, 1, |segments|
  {
    if segments == [] then Success(options)
    else
      var next :- ParseOption(options, segments[0], base);
      ParseSegments(segments[1..], next, base, bound)
  }

  function ParseOptions(text: string, base: nat): ExpandResult<ExpandQueryOptions>
    decreases |text|, 2
  {
    SplitLength(text, ';');
    ParseSegments(Split(text, ';'), NO_OPTIONS, base, |text|)
  }

  function ParseClause(clause: string, base: nat): ExpandResult<ExpandExpression>
    decreases |clause|, 0
  {
    match IndexOf(clause, '(')
    case None =>
      if Trim(clause) == "" then Failure(ExpandParseError(EmptyProperty, base))
      else Success(ExpandExpression(Trim(clause), NO_OPTIONS))
    case Some(open) =>
      var property := Trim(clause[..open]);
      if property == "" then Failure(ExpandParseError(EmptyProperty, base))
      else
        match CloseIndex(clause, open, 0)
        case None => Failure(ExpandParseError(UnmatchedParenthesis(clause), base + open))
        case Some(close) =>
          if close <= open + 1 then Success(ExpandExpression(property, NO_OPTIONS))
          else
            var options :- ParseOptions(clause[open + 1..close], base + open + 1);
            Success(ExpandExpression(property, options))
  }

  function ParseEach(clauses: seq<string>, base: nat, ghost bound: nat): ExpandResult<seq<ExpandExpression>>
    requires forall clause <- clauses :: |clause| <= bound
    decreases bound, 1, |clauses|
  {
    if clauses == [] then Success([])
    else
      var first :- ParseClause(clauses[0], base);
      var rest :- ParseEach(clauses[1..], base, bound);
      Success([first] + rest)
  }

  function ParseClauses(input: string, base: nat): ExpandResult<seq<ExpandExpression>>
    decreases |input|, 2
  {
    SplitLength(input, ',');
    ParseEach(Split(input, ','), base, |input|)
  }

  function ParseExpand(expand: string): ExpandResult<seq<ExpandExpression>> {
    var trimmed := Trim(expand);
    if trimmed == "" then Success([]) else ParseClauses(trimmed, 0)
  }

  // The loops

  method FindClose(clause: string, open: nat) returns (close: int)
    requires CharAt(clause, open, '(')
    ensures close == match CloseIndex(clause, open, 0) case None => -1 case Some(at) => at
  {
    var depth := 0;
    for i := open to |clause|
      invariant CloseIndex(clause, i, depth) == CloseIndex(clause, open, 0)
    {
      if clause[i] == '(' {
        depth := depth + 1;
      } else if clause[i] == ')' {
        depth := depth - 1;
        if depth == 0 {
          return i;
        }
      }
    }
    close := -1;
  }

  method ParseExpandOption(options: ExpandQueryOptions, segment: string, base: nat) returns (r: ExpandResult<ExpandQueryOptions>)
    ensures r == ParseOption(options, segment, base)
    decreases |segment|, 0
  {
    hide ParseClauses;
    var eq := IndexOf(segment, '=');
    if eq.None? {
      return Failure(ExpandParseError(MissingEquals(segment), base));
    }
    var key, value := Trim(segment[..eq.value]), Trim(segment[eq.value + 1..]);
    if key == "$expand" {
      var clauses :- ParseExpandClauses(value, base);
      return Success(options.(expand := Clauses(clauses)));
    }
    r := ParseOption(options, segment, base);
  }

  method ParseExpandOptions(text: string, base: nat) returns (r: ExpandResult<ExpandQueryOptions>)
    ensures r == ParseOptions(text, base)
    decreases |text|, 2
  {
    hide ParseOption, Split;
    var segments := SplitAtDepthZero(text, ';');
    SplitLength(text, ';');
    var options := NO_OPTIONS;
    assert segments[0..] == segments;
    for i := 0 to |segments|
      invariant ParseSegments(segments[i..], options, base, |text|) == ParseOptions(text, base)
    {
      assert segments[i..][0] == segments[i] && segments[i..][1..] == segments[i + 1..];
      assert segments[i] in segments;
      options :- ParseExpandOption(options, segments[i], base);
    }
    r := Success(options);
  }

  method ParseExpandClause(clause: string, base: nat) returns (r: ExpandResult<ExpandExpression>)
    ensures r == ParseClause(clause, base)
    decreases |clause|, 0
  {
    hide ParseOptions, Trim, CloseIndex;
    var open := IndexOf(clause, '(');
    if open.None? {
      var property := Trim(clause);
      if |property| == 0 {
        return Failure(ExpandParseError(EmptyProperty, base));
      }
      return Success(ExpandExpression(property, NO_OPTIONS));
    }
    var property := Trim(clause[..open.value]);
    if |property| == 0 {
      return Failure(ExpandParseError(EmptyProperty, base));
    }
    var close := FindClose(clause, open.value);
    if close < 0 {
      return Failure(ExpandParseError(UnmatchedParenthesis(clause), base + open.value));
    }
    var options := NO_OPTIONS;
    if close > open.value + 1 {
      options :- ParseExpandOptions(clause[open.value + 1..close], base + open.value + 1);
    }
    r := Success(ExpandExpression(property, options));
  }

  method ParseExpandClauses(input: string, base: nat) returns (r: ExpandResult<seq<ExpandExpression>>)
    ensures r == ParseClauses(input, base)
    decreases |input|, 2
  {
    hide ParseClause, Split;
    var parts := SplitAtDepthZero(input, ',');
    SplitLength(input, ',');
    var clauses := [];
    assert parts[0..] == parts;
    assert forall rest: seq<ExpandExpression> :: clauses + rest == rest;
    for i := 0 to |parts|
      invariant match ParseEach(parts[i..], base, |input|)
                case Failure(error) => ParseClauses(input, base) == Failure(error)
                case Success(rest) => ParseClauses(input, base) == Success(clauses + rest)
    {
      assert parts[i..][0] == parts[i] && parts[i..][1..] == parts[i + 1..];
      assert parts[i] in parts;
      var clause :- ParseExpandClause(parts[i], base);
      assert forall rest :: clauses + ([clause] + rest) == clauses + [clause] + rest;
      clauses := clauses + [clause];
    }
    assert clauses + [] == clauses;
    r := Success(clauses);
  }

  method ParseExpandString(expand: string) returns (r: ExpandResult<seq<ExpandExpression>>)
    ensures r == ParseExpand(expand)
  {
    hide ParseClauses, Trim;
    var trimmed := Trim(expand);
    if |trimmed| == 0 {
      return Success([]);
    }
    r := ParseExpandClauses(trimmed, 0);
  }
}
