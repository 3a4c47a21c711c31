/** The counts of `$expand` options, written out: exactly which texts `Number` reads as whole numbers, and as which. */
module ExpandNumbers {
  import opened Strings
  import opened ExpandParser
  import opened ExpandRoundTrip

  predicate AreDigits(s: string) {
    forall i | 0 <= i < |s| :: '0' <= s[i] <= '9'
  }

  lemma DigitsAre(s: string)
    ensures AreDigits(s) <==> AllIn(s, 0, |s|, Digit)
  {
  }

  /** An optional sign. */
  predicate IsSign(s: string) {
    s == "" || s == "+" || s == "-"
  }

  function Value(digits: string): nat {
    if AreDigits(digits) then DigitsAre(digits); NatValue(digits) else 0
  }

  /** Nothing, which is zero, or `e`, an optional sign and digits. */
  ghost predicate IsExponent(s: string, e: int) {
    || (s == "" && e == 0)
    || exists letter, sign, digits ::
         (letter == "e" || letter == "E") && IsSign(sign) && digits != "" && AreDigits(digits)
         && s == letter + sign + digits && e == WithSign(sign == "-", Value(digits))
  }

  /** `n` is `m` times ten to the power `k`. */
  predicate IsScaled(n: nat, m: nat, k: int) {
    if k >= 0 then n == m * Power(10, k) else m == n * Power(10, -k)
  }

  /** Digits, perhaps with a point among them or about them, and an exponent. */
  ghost predicate HasParts(s: string, whole: string, point: string, fraction: string, ending: string, e: int) {
    && AreDigits(whole) && AreDigits(fraction) && whole + fraction != ""
    && (point == "." || (point == "" && fraction == "")) && IsExponent(ending, e)
    && s == whole + point + fraction + ending
  }

  /** A decimal that comes to a whole number. */
  ghost predicate IsDecimal(s: string, n: nat) {
    exists whole, point, fraction, ending, e: int ::
      HasParts(s, whole, point, fraction, ending, e) && IsScaled(n, Value(whole + fraction), e - |fraction|)
  }

  lemma {:induction false} TenExactly(s: string)
    ensures InBase(s, 10).Some? <==> s != "" && AreDigits(s)
    ensures InBase(s, 10).Some? ==> InBase(s, 10).value == Value(s)
  {
    if s != "" {
      var init, last := s[..|s| - 1], s[|s| - 1];
      assert s == init + [last];
      TenExactly(init);
      DigitsAre(s);
      if AreDigits(s) {
        InBaseTen(s);
      }
    }
  }

  lemma SignSplits(text: string)
    ensures var (negative, body) := Signed(text);
            exists sign ::
              && IsSign(sign) && text == sign + body && negative == (sign == "-")
              && (sign == "" ==> text == "" || text[0] !in "+-")
  {
    var (negative, body) := Signed(text);
    var sign := if text != "" && (text[0] == '-' || text[0] == '+') then text[..1] else "";
    assert text == sign + body;
    assert IsSign(sign);
  }

  lemma SignedIs(sign: string, body: string)
    requires IsSign(sign) && (body != "" ==> body[0] != '+' && body[0] != '-')
    ensures Signed(sign + body) == (sign == "-", body)
  {
    var text := sign + body;
    assert sign != "" ==> text[0] == sign[0] && text[1..] == body;
    assert sign == "" ==> text == body;
  }

  lemma ExponentIsShaped(s: string, e: int)
    requires ExponentOf(s) == Some(e)
    ensures IsExponent(s, e)
  {
    hide InBase, Value, AreDigits;
    if s != "" {
      SignSplits(s[1..]);
      var (negative, digits) := Signed(s[1..]);
      var sign :| IsSign(sign) && s[1..] == sign + digits && negative == (sign == "-");
      TenExactly(digits);
      hide Signed, ExponentOf;
      assert s == s[..1] + sign + digits;
    }
  }

  lemma ShapedIsExponent(s: string, e: int)
    requires IsExponent(s, e)
    ensures ExponentOf(s) == Some(e)
  {
    hide InBase, Value, AreDigits;
    if s != "" {
      var letter, sign, digits :|
        (letter == "e" || letter == "E") && IsSign(sign) && digits != "" && AreDigits(digits)
        && s == letter + sign + digits && e == WithSign(sign == "-", Value(digits));
      assert s[0] == letter[0] && s[1..] == sign + digits;
      TenExactly(digits);
      FirstDigit(digits);
      SignedIs(sign, digits);
      hide IsExponent, Signed;
    }
  }

  lemma ExponentExactly(s: string, e: int)
    ensures ExponentOf(s) == Some(e) <==> IsExponent(s, e)
  {
    hide ExponentOf, IsExponent;
    if ExponentOf(s) == Some(e) {
      ExponentIsShaped(s, e);
    }
    if IsExponent(s, e) {
      ShapedIsExponent(s, e);
    }
  }

  lemma FirstDigit(digits: string)
    requires digits != "" && AreDigits(digits)
    ensures IsDigit(digits[0])
  {
  }

  lemma ScaledExactly(m: nat, k: int, n: nat)
    ensures Scaled(m, k) == Some(n) <==> IsScaled(n, m, k)
  {
    if k < 0 {
      var p := Power(10, -k);
      assert m == n * p ==> m % p == 0 && m / p == n by {
        if m == n * p {
          Divides(n, p);
        }
      }
      assert m % p == 0 ==> m == (m / p) * p;
    }
  }

  lemma Divides(n: nat, p: nat)
    requires p > 0
    ensures (n * p) % p == 0 && (n * p) / p == n
  {
    var q, r := (n * p) / p, (n * p) % p;
    assert n * p == q * p + r && 0 <= r < p;
    assert (n - q) * p == r;
    Multiples(n - q, p);
  }

  lemma Multiples(x: int, p: nat)
    ensures x >= 1 ==> x * p >= p
    ensures x <= -1 ==> x * p <= -(p as int)
  {
  }

  // Decimals

  /** Where a decimal's parts are, as they are read. */
  lemma DecimalSlices(text: string) returns (dot: nat, start: nat, end: nat)
    ensures dot <= start <= end <= |text| && AreDigits(text[..dot]) && AreDigits(text[start..end])
    ensures text[dot..start] == "." || (text[dot..start] == "" && text[start..end] == "")
    ensures var digits, exponent := InBase(text[..dot] + text[start..end], 10), ExponentOf(text[end..]);
            DecimalOf(text)
            == if digits.None? || exponent.None? then None else Scaled(digits.value, exponent.value - (end - start))
  {
    hide InBase, ExponentOf, Scaled, AreDigits;
    dot := SpanEnd(text, 0, Digit);
    start := if CharAt(text, dot, '.') then dot + 1 else dot;
    end := if CharAt(text, dot, '.') then SpanEnd(text, start, Digit) else dot;
    SliceDigits(text, 0, dot);
    SliceDigits(text, start, end);
    hide SpanEnd, AllIn;
    assert text[0..dot] == text[..dot];
  }

  lemma DecimalIsShaped(text: string, n: nat)
    requires DecimalOf(text) == Some(n)
    ensures IsDecimal(text, n)
  {
    var dot, start, end := DecimalSlices(text);
    var whole, point, fraction, ending := text[..dot], text[dot..start], text[start..end], text[end..];
    hide DecimalOf, InBase, ExponentOf, Scaled, AreDigits, IsExponent, Value, IsScaled, IsDecimal;
    FourParts(text, dot, start, end);
    TenExactly(whole + fraction);
    var e := ExponentOf(ending).value;
    ExponentExactly(ending, e);
    ScaledExactly(Value(whole + fraction), e - |fraction|, n);
    hide *;
    PartsHave(text, whole, point, fraction, ending, e);
    PartsMake(text, n, whole, point, fraction, ending, e);
  }

  lemma PartsHave(s: string, whole: string, point: string, fraction: string, ending: string, e: int)
    requires AreDigits(whole) && AreDigits(fraction) && whole + fraction != ""
    requires (point == "." || (point == "" && fraction == "")) && IsExponent(ending, e) && s == whole + point + fraction + ending
    ensures HasParts(s, whole, point, fraction, ending, e)
  {
    hide AreDigits, IsExponent;
  }

  lemma PartsMake(text: string, n: nat, whole: string, point: string, fraction: string, ending: string, e: int)
    requires HasParts(text, whole, point, fraction, ending, e) && IsScaled(n, Value(whole + fraction), e - |fraction|)
    ensures IsDecimal(text, n)
  {
    hide HasParts, IsScaled, Value;
  }

  lemma FourParts(text: string, a: nat, b: nat, c: nat)
    requires a <= b <= c <= |text|
    ensures text == text[..a] + text[a..b] + text[b..c] + text[c..] && text[0..a] == text[..a]
  {
  }

  lemma SliceDigits(s: string, p: nat, end: nat)
    requires AllIn(s, p, end, Digit)
    ensures AreDigits(s[p..end])
  {
    assert forall i | 0 <= i < end - p :: s[p..end][i] == s[p + i] && InClass(s[p + i], Digit);
  }

  lemma EndingStarts(ending: string, e: int)
    requires IsExponent(ending, e) && ending != ""
    ensures ending[0] == 'e' || ending[0] == 'E'
  {
    var letter, sign, digits :|
      (letter == "e" || letter == "E") && IsSign(sign) && digits != "" && AreDigits(digits)
      && ending == letter + sign + digits && e == WithSign(sign == "-", Value(digits));
    assert ending[0] == letter[0];
  }

  /** The parts of a decimal are found where they are. */
  lemma PartsAreFound(text: string, whole: string, point: string, fraction: string, ending: string)
    requires AreDigits(whole) && AreDigits(fraction) && (point == "." || (point == "" && fraction == ""))
    requires (ending != "" ==> !IsDigit(ending[0]) && ending[0] != '.') && text == whole + point + fraction + ending
    ensures var dot := |whole|;
            && SpanEnd(text, 0, Digit) == dot && (CharAt(text, dot, '.') <==> point == ".")
            && (point == "." ==> SpanEnd(text, dot + 1, Digit) == dot + 1 + |fraction|)
            && text[..dot] == whole
            && var start := dot + |point|; text[start..start + |fraction|] == fraction && text[start + |fraction|..] == ending
  {
    var dot, start := |whole|, |whole| + |point|;
    assert forall i | 0 <= i < dot :: text[i] == whole[i];
    assert forall i | start <= i < start + |fraction| :: text[i] == fraction[i - start];
    assert point == "." ==> text[dot] == '.';
    assert ending != "" ==> text[start + |fraction|] == ending[0];
    DigitsAre(whole);
    DigitsAre(fraction);
    SpanEndUnique(text, 0, dot, Digit);
    if point == "." {
      SpanEndUnique(text, start, start + |fraction|, Digit);
    }
  }

  lemma ShapedIsDecimal(text: string, n: nat)
    requires IsDecimal(text, n)
    ensures DecimalOf(text) == Some(n)
  {
    hide AreDigits, IsExponent, Value, IsScaled, InBase, ExponentOf, Scaled, SpanEnd, CharAt;
    var whole, point, fraction, ending, e: int :|
      HasParts(text, whole, point, fraction, ending, e) && IsScaled(n, Value(whole + fraction), e - |fraction|);
    if ending != "" {
      EndingStarts(ending, e);
    }
    PartsAreFound(text, whole, point, fraction, ending);
    BothDigits(whole, fraction);
    TenExactly(whole + fraction);
    ExponentExactly(ending, e);
    ScaledExactly(Value(whole + fraction), e - |fraction|, n);
  }

  lemma BothDigits(a: string, b: string)
    requires AreDigits(a) && AreDigits(b)
    ensures AreDigits(a + b)
  {
  }

  // Bases

  /** The base a text is written in, from how it starts. */
  ghost predicate Opens(prefix: string, base: nat) {
    || (base == 16 && (prefix == "0x" || prefix == "0X"))
    || (base == 8 && (prefix == "0o" || prefix == "0O"))
    || (base == 2 && (prefix == "0b" || prefix == "0B"))
  }

  lemma BaseExactly(text: string, base: nat)
    ensures BaseOf(text) == Some(base) <==> |text| >= 2 && Opens(text[..2], base)
  {
    if |text| >= 2 {
      assert text[..2] == [text[0], text[1]];
    }
  }

  const BASE_DIGITS := "0123456789abcdef"

  /** A number written in a base. */
  function TextIn(n: nat, base: nat): string
    requires 2 <= base <= 16
  {
    if n < base then [BASE_DIGITS[n]] else TextIn(n / base, base) + [BASE_DIGITS[n % base]]
  }

  lemma DigitIs(d: nat)
    requires d < 16
    ensures DigitIn(BASE_DIGITS[d]) == d && DigitIn("0123456789ABCDEF"[d]) == d
  {
  }

  /** The characters that are digits, in either case, and no others. */
  lemma DigitsExactly(c: char)
    ensures DigitIn(c) < 16 <==> c in BASE_DIGITS || c in "ABCDEF"
    ensures forall d: nat | d < 16 :: DigitIn(BASE_DIGITS[d]) == d && DigitIn("0123456789ABCDEF"[d]) == d
  {
    forall d: nat | d < 16 ensures DigitIn(BASE_DIGITS[d]) == d && DigitIn("0123456789ABCDEF"[d]) == d {
      DigitIs(d);
    }
  }

  /** A number written in a base reads as the number. */
  lemma {:induction false} BaseReadsBack(n: nat, base: nat)
    requires 2 <= base <= 16
    ensures TextIn(n, base) != "" && InBase(TextIn(n, base), base) == Some(n)
    decreases n
  {
    DivMod(n, base);
    var digit := BASE_DIGITS[n % base];
    DigitIs(n % base);
    hide DigitIn, InBase;
    if n < base {
      OneInBase(digit, base);
    } else {
      var init := TextIn(n / base, base);
      BaseReadsBack(n / base, base);
      OneMoreInBase(init, digit, base);
    }
  }

  lemma DivMod(n: nat, base: nat)
    requires base >= 2
    ensures n == n / base * base + n % base && n % base < base
    ensures n < base ==> n % base == n
    ensures n >= base ==> n / base < n
  {
  }

  lemma OneInBase(digit: char, base: nat)
    requires DigitIn(digit) < base
    ensures InBase([digit], base) == Some(DigitIn(digit))
  {
    hide DigitIn;
  }

  lemma OneMoreInBase(init: string, digit: char, base: nat)
    requires init != "" && DigitIn(digit) < base && InBase(init, base).Some?
    ensures InBase(init + [digit], base) == Some(InBase(init, base).value * base + DigitIn(digit))
  {
    hide DigitIn;
    assert (init + [digit])[..|init|] == init;
  }

  // Numbers

  /** A sign and a decimal, or a number in a base after its prefix; and nothing at all is zero. */
  ghost predicate IsWhole(text: string, n: int) {
    || (text == "" && n == 0)
    || (exists sign, body, m: nat :: IsSign(sign) && IsDecimal(body, m) && text == sign + body && n == WithSign(sign == "-", m))
    || exists prefix, digits, base: nat :: Opens(prefix, base) && text == prefix + digits && InBase(digits, base) == Some(n)
  }

  lemma DecimalStarts(body: string, m: nat)
    requires IsDecimal(body, m)
    ensures body != "" && (IsDigit(body[0]) || body[0] == '.')
    ensures |body| > 1 ==> IsDigit(body[1]) || body[1] in ".eE"
  {
    hide Value, IsScaled;
    var whole, point, fraction, ending, e: int :|
      HasParts(body, whole, point, fraction, ending, e) && IsScaled(m, Value(whole + fraction), e - |fraction|);
    if ending != "" {
      EndingStarts(ending, e);
    }
    hide IsExponent;
    var front := whole + point + fraction;
    assert forall i | 0 <= i < |front| :: IsDigit(front[i]) || front[i] == '.';
    assert front != "" && body == front + ending;
    assert forall i | 0 <= i < |front| :: body[i] == front[i];
    assert |front| == 1 && ending != "" ==> body[1] == ending[0];
  }

  /** A plain decimal is neither all digits nor nothing, or is; in either case it is read as what it is worth. */
  lemma PlainDigits(text: string)
    requires AllIn(text, 0, |text|, Digit) && text != ""
    ensures IsDecimal(text, NatValue(text))
  {
    DigitsAre(text);
    assert text + "" == text && text + "" + "" + "" == text;
    assert HasParts(text, text, "", "", "", 0);
    assert Value(text + "") == NatValue(text);
  }

  lemma NoBase(sign: string, body: string, m: nat)
    requires IsSign(sign) && IsDecimal(body, m)
    ensures BaseOf(sign + body).None? && Signed(sign + body) == (sign == "-", body)
  {
    DecimalStarts(body, m);
    SignedIs(sign, body);
    hide IsDecimal, Signed;
    var text := sign + body;
    assert sign == "" ==> text == body;
    assert sign != "" ==> text[0] == sign[0];
  }

  /** `Number` reads a text as a whole number exactly where it is one written out, and as that number. */
  lemma NumbersExactly(text: string, n: int)
    ensures NumberOf(text) == Some(n) <==> IsWhole(text, n)
  {
    hide NumberOf, IsWhole;
    if NumberOf(text) == Some(n) {
      ReadIsWhole(text, n);
    }
    if IsWhole(text, n) {
      WholeIsRead(text, n);
    }
  }

  lemma ReadIsWhole(text: string, n: int)
    requires NumberOf(text) == Some(n)
    ensures IsWhole(text, n)
  {
    hide IsDecimal, DecimalOf, AllIn, NatValue, InBase, BaseOf, Opens, Signed;
    if AllIn(text, 0, |text|, Digit) {
      if text == "" {
        EmptyIsZero();
      } else {
        PlainDigits(text);
        assert text == "" + text;
        assert IsSign("") && n == WithSign("" == "-", NatValue(text));
      }
    } else if BaseOf(text).Some? {
      var base := BaseOf(text).value;
      BaseExactly(text, base);
      ShortestBase(text);
      assert text == text[..2] + text[2..];
    } else {
      SignSplits(text);
      var (negative, body) := Signed(text);
      var m := DecimalOf(body).value;
      DecimalIsShaped(body, m);
    }
  }

  lemma EmptyIsZero()
    ensures AllIn("", 0, 0, Digit) && NatValue("") == 0
  {
  }

  lemma ShortestBase(text: string)
    requires BaseOf(text).Some?
    ensures |text| >= 2
  {
  }

  lemma WholeIsRead(text: string, n: int)
    requires IsWhole(text, n)
    ensures NumberOf(text) == Some(n)
  {
    hide IsDecimal, DecimalOf, AllIn, NatValue, InBase, BaseOf, Opens, Signed, NumberOf;
    if text == "" && n == 0 {
      NothingIsZero();
    } else if exists sign, body, m: nat :: IsSign(sign) && IsDecimal(body, m) && text == sign + body && n == WithSign(sign == "-", m) {
      var sign, body, m: nat :| IsSign(sign) && IsDecimal(body, m) && text == sign + body && n == WithSign(sign == "-", m);
      DecimalIsRead(sign, body, m);
    } else {
      var prefix, digits, base: nat :| Opens(prefix, base) && text == prefix + digits && InBase(digits, base) == Some(n);
      BaseIsRead(prefix, digits, base);
    }
  }

  lemma NothingIsZero()
    ensures NumberOf("") == Some(0)
  {
  }

  lemma DecimalIsRead(sign: string, body: string, m: nat)
    requires IsSign(sign) && IsDecimal(body, m)
    ensures NumberOf(sign + body) == Some(WithSign(sign == "-", m))
  {
    hide IsDecimal, DecimalOf, NatValue, InBase, BaseOf, Signed, AllIn;
    var text := sign + body;
    NoBase(sign, body, m);
    ShapedIsDecimal(body, m);
    DecimalStarts(body, m);
    if AllIn(text, 0, |text|, Digit) {
      AllDigitsUnsigned(sign, body);
      PlainDecimal(body);
    }
  }

  lemma AllDigitsUnsigned(sign: string, body: string)
    requires IsSign(sign) && body != "" && AllIn(sign + body, 0, |sign + body|, Digit)
    ensures sign == "" && sign + body == body
  {
    var text := sign + body;
    ConcatAt(sign, body);
    assert "" + body == body;
    assert InClass(text[0], Digit);
  }

  lemma PlainDecimal(body: string)
    requires body != "" && AllIn(body, 0, |body|, Digit)
    ensures DecimalOf(body) == Some(NatValue(body))
  {
    DecimalReads(body, "");
    assert body + "" == body;
    assert Power(10, 0) == 1 && Scaled(NatValue(body), 0) == Some(NatValue(body));
  }

  lemma BaseIsRead(prefix: string, digits: string, base: nat)
    requires Opens(prefix, base) && InBase(digits, base).Some?
    ensures var value := InBase(digits, base).value; NumberOf(prefix + digits) == Some(value)
  {
    hide NatValue, InBase;
    var text := prefix + digits;
    assert text[..2] == prefix && text[2..] == digits;
    BaseExactly(text, base);
    assert text[1] == prefix[1] && !InClass(text[1], Digit);
  }
}
