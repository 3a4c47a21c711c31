/** What numerals are worth: printing one again keeps its value, and writes it without a needless zero or sign. */
module FilterValues {
  import opened Strings
  import opened FilterLexemes
  import opened FilterNumerals

  function FractionValue(fraction: string): real
    requires AreDigits(fraction)
  {
    NatValue(fraction) as real / Power(10, |fraction|) as real
  }

  function PartsValue(negative: bool, whole: string, fraction: string): real
    requires AreDigits(whole) && AreDigits(fraction)
  {
    var magnitude := NatValue(whole) as real + FractionValue(fraction);
    if negative then -magnitude else magnitude
  }

  /** A number's sign, its digits before the point, and those after it. */
  ghost predicate HasParts(text: string, negative: bool, whole: string, fraction: string) {
    && whole != "" && AreDigits(whole) && AreDigits(fraction)
    && (text == Signed(negative, Digits(whole, fraction)) || (fraction == "" && text == Signed(negative, whole + ".")))
  }

  ghost predicate IsWorth(text: string, value: real) {
    exists negative, whole, fraction :: HasParts(text, negative, whole, fraction) && value == PartsValue(negative, whole, fraction)
  }

  /** No zero that carries no value, and no sign before zero. */
  predicate IsPlain(negative: bool, whole: string, fraction: string) {
    && (|whole| > 1 ==> whole[0] != '0') && (fraction != "" ==> fraction[|fraction| - 1] != '0')
    && (negative ==> whole != "0" || fraction != "")
  }

  lemma {:induction false} LeadingZero(digits: string)
    requires AreDigits("0" + digits) && AreDigits(digits)
    ensures NatValue("0" + digits) == NatValue(digits)
  {
    if digits != "" {
      var init := digits[..|digits| - 1];
      assert ("0" + digits)[..|digits|] == "0" + init;
      LeadingZero(init);
    }
  }

  lemma {:induction false} TrimLeadingValue(digits: string)
    requires AreDigits(digits)
    ensures AreDigits(TrimLeadingZeros(digits)) && NatValue(TrimLeadingZeros(digits)) == NatValue(digits)
    ensures |digits| > 0 ==> |TrimLeadingZeros(digits)| > 0
    ensures |TrimLeadingZeros(digits)| > 1 ==> TrimLeadingZeros(digits)[0] != '0'
  {
    if |digits| > 1 && digits[0] == '0' {
      assert digits == "0" + digits[1..];
      LeadingZero(digits[1..]);
      TrimLeadingValue(digits[1..]);
    }
  }

  lemma {:induction false} TrimTrailingValue(digits: string)
    requires AreDigits(digits)
    ensures AreDigits(TrimTrailingZeros(digits)) && FractionValue(TrimTrailingZeros(digits)) == FractionValue(digits)
    ensures TrimTrailingZeros(digits) != "" ==> TrimTrailingZeros(digits)[|TrimTrailingZeros(digits)| - 1] != '0'
  {
    if |digits| > 0 && digits[|digits| - 1] == '0' {
      var init := digits[..|digits| - 1];
      TrimTrailingValue(init);
      assert NatValue(digits) == NatValue(init) * 10;
      TenfoldFraction(NatValue(init), Power(10, |init|));
    }
  }

  lemma TenfoldFraction(n: nat, d: nat)
    requires d > 0
    ensures (n * 10) as real / (10 * d) as real == n as real / d as real
  {
    assert (n * 10) as real == n as real * 10.0 && (10 * d) as real == 10.0 * d as real;
  }

  lemma PointAtEnd(negative: bool, whole: string)
    requires whole != "" && AreDigits(whole)
    ensures NumeralOf(Signed(negative, whole + ".")) == Assemble(negative, whole, "")
  {
    hide Assemble;
    var digits := whole + ".";
    assert IsDigit(whole[0]) && digits[0] == whole[0];
    SpanEndUnique(digits, 0, |whole|, Digit);
    assert digits[..|whole|] == whole && digits[|whole| + 1..] == "";
    assert negative ==> ("-" + digits)[1..] == digits;
  }

  lemma ZeroIsPlain(whole: string, fraction: string)
    requires AreDigits(whole) && AreDigits(fraction) && whole != ""
    ensures Digits(whole, fraction) == "0" <==> whole == "0" && fraction == ""
    ensures PartsValue(true, "0", "") == PartsValue(false, "0", "")
  {
  }

  /** What a number denotes is worth what the number is, and is written plainly. */
  lemma NumeralKeepsValue(text: string, negative: bool, whole: string, fraction: string)
      returns (minus: bool, w: string, f: string)
    requires HasParts(text, negative, whole, fraction)
    ensures HasParts(NumeralOf(text), minus, w, f) && IsPlain(minus, w, f)
    ensures PartsValue(minus, w, f) == PartsValue(negative, whole, fraction)
  {
    hide NumeralOf;
    w, f := TrimLeadingZeros(whole), TrimTrailingZeros(fraction);
    minus := negative && Digits(w, f) != "0";
    if text == Signed(negative, Digits(whole, fraction)) {
      NumeralParts(negative, whole, fraction);
    } else {
      PointAtEnd(negative, whole);
      assert TrimTrailingZeros("") == "";
    }
    TrimLeadingValue(whole);
    TrimTrailingValue(fraction);
    ZeroIsPlain(w, f);
  }

  /** Every number has parts. */
  lemma NumbersHaveParts(text: string) returns (negative: bool, whole: string, fraction: string)
    requires IsNumber(text)
    ensures HasParts(text, negative, whole, fraction)
  {
    negative := CharAt(text, 0, '-');
    var sign := if negative then 1 else 0;
    var dot := SpanEnd(text, sign, Digit);
    whole, fraction := text[sign..dot], if dot < |text| then text[dot + 1..] else "";
    assert InClass(text[sign], Digit);
    SliceOfDigits(text, sign, dot);
    if dot < |text| {
      SliceOfDigits(text, dot + 1, |text|);
      assert text[dot + 1..] == text[dot + 1..|text|];
    }
    hide *;
    NumberIsParts(text, sign, dot);
  }

  lemma SliceOfDigits(text: string, p: nat, end: nat)
    requires AllIn(text, p, end, Digit)
    ensures AreDigits(text[p..end])
  {
    assert forall i | 0 <= i < end - p :: text[p..end][i] == text[p + i];
  }

  lemma NumberIsParts(text: string, sign: nat, dot: nat)
    requires sign <= 1 && sign < dot <= |text| && (sign == 1 ==> text[0] == '-') && (dot < |text| ==> text[dot] == '.')
    requires var fraction := if dot < |text| then text[dot + 1..] else ""; AreDigits(text[sign..dot]) && AreDigits(fraction)
    ensures HasParts(text, sign == 1, text[sign..dot], if dot < |text| then text[dot + 1..] else "")
  {
    hide AllIn;
    var whole, fraction := text[sign..dot], if dot < |text| then text[dot + 1..] else "";
    var digits := whole + if dot < |text| then "." + fraction else "";
    assert text == (if sign == 1 then "-" + digits else digits);
    assert "." + "" == ".";
  }

  /** A numeral as it is printed again has the value it had. */
  lemma PrintedValue(text: string)
    requires IsNumber(text)
    ensures exists value :: IsWorth(text, value) && IsWorth(NumeralOf(text), value)
  {
    hide NumeralOf, IsNumber, PartsValue;
    var negative, whole, fraction := NumbersHaveParts(text);
    var minus, w, f := NumeralKeepsValue(text, negative, whole, fraction);
    var value := PartsValue(negative, whole, fraction);
    assert IsWorth(text, value) && IsWorth(NumeralOf(text), value);
  }
}
