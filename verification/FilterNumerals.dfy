/** Plain decimal numerals: what a number token denotes, written the one way a number is printed. */
module FilterNumerals {
  import opened Strings
  import opened FilterLexer
  import opened FilterLexemes

  function TrimLeadingZeros(digits: string): string {
    if |digits| > 1 && digits[0] == '0' then TrimLeadingZeros(digits[1..]) else digits
  }

  function TrimTrailingZeros(digits: string): string {
    if |digits| > 0 && digits[|digits| - 1] == '0' then TrimTrailingZeros(digits[..|digits| - 1]) else digits
  }

  /** The digits, with no zero that carries no value, and no sign before zero. */
  function Assemble(negative: bool, whole: string, fraction: string): string {
    var magnitude := TrimLeadingZeros(whole) + if TrimTrailingZeros(fraction) == "" then "" else "." + TrimTrailingZeros(fraction);
    if negative && magnitude != "0" then "-" + magnitude else magnitude
  }

  /** The numeral a number token's text is printed as again. */
  function NumeralOf(text: string): string {
    var negative := CharAt(text, 0, '-');
    var digits := if negative then text[1..] else text;
    var dot := SpanEnd(digits, 0, Digit);
    Assemble(negative, digits[..dot], if dot < |digits| then digits[dot + 1..] else "")
  }

  lemma {:induction false} TrimLeadingSound(digits: string)
    requires |digits| > 0 && AllIn(digits, 0, |digits|, Digit)
    ensures var t := TrimLeadingZeros(digits);
            |t| > 0 && AllIn(t, 0, |t|, Digit) && TrimLeadingZeros(t) == t
  {
    if |digits| > 1 && digits[0] == '0' {
      TrimLeadingSound(digits[1..]);
    }
  }

  lemma {:induction false} TrimTrailingSound(digits: string)
    requires AllIn(digits, 0, |digits|, Digit)
    ensures var t := TrimTrailingZeros(digits); AllIn(t, 0, |t|, Digit) && TrimTrailingZeros(t) == t
  {
    if |digits| > 0 && digits[|digits| - 1] == '0' {
      TrimTrailingSound(digits[..|digits| - 1]);
    }
  }

  function Digits(whole: string, fraction: string): string {
    whole + if fraction == "" then "" else "." + fraction
  }

  function Signed(negative: bool, digits: string): string {
    if negative then "-" + digits else digits
  }

  predicate AreDigits(s: string) {
    AllIn(s, 0, |s|, Digit)
  }

  lemma DigitsParts(whole: string, fraction: string)
    requires whole != "" && AreDigits(whole) && AreDigits(fraction)
    ensures var digits := Digits(whole, fraction);
            && SpanEnd(digits, 0, Digit) == |whole| && digits[..|whole|] == whole
            && (if |whole| < |digits| then digits[|whole| + 1..] else "") == fraction
            && NumberEnd(digits, 0) == |digits| && IsDigit(digits[0])
  {
    var digits := Digits(whole, fraction);
    assert IsDigit(whole[0]) && digits[0] == whole[0];
    SpanEndUnique(digits, 0, |whole|, Digit);
    if fraction != "" {
      assert digits[|whole| + 1..] == fraction;
      SpanEndUnique(digits, |whole| + 1, |digits|, Digit);
    }
  }

  lemma SignedNumber(negative: bool, digits: string)
    requires NumberEnd(digits, 0) == |digits| > 0 && IsDigit(digits[0])
    ensures IsNumber(Signed(negative, digits))
  {
    var text := Signed(negative, digits);
    if negative {
      assert text[1..1 + |digits|] == digits;
      assert text[1] == digits[0];
      SpanEndInside(digits, text, 1, 0, Digit);
      var dot := SpanEnd(digits, 0, Digit);
      if dot < |digits| {
        assert text[1 + dot] == digits[dot];
        SpanEndInside(digits, text, 1, dot + 1, Digit);
      }
    }
  }

  /** The numeral with these parts is a number, and denotes what its parts denote. */
  lemma NumeralParts(negative: bool, whole: string, fraction: string)
    requires whole != "" && AreDigits(whole) && AreDigits(fraction)
    ensures var text := Signed(negative, Digits(whole, fraction));
            IsNumber(text) && NumeralOf(text) == Assemble(negative, whole, fraction)
  {
    hide SpanEnd, IsNumber, Assemble, NumberEnd;
    var digits := Digits(whole, fraction);
    DigitsParts(whole, fraction);
    SignedNumber(negative, digits);
    assert negative ==> ("-" + digits)[1..] == digits;
  }

  /** Every number has such parts. */
  lemma PartsOf(text: string) returns (negative: bool, whole: string, fraction: string)
    requires IsNumber(text)
    ensures whole != "" && AreDigits(whole) && AreDigits(fraction)
    ensures NumeralOf(text) == Assemble(negative, whole, fraction)
  {
    hide Assemble;
    negative := CharAt(text, 0, '-');
    var sign := if negative then 1 else 0;
    var digits := text[sign..];
    var dot := SpanEnd(digits, 0, Digit);
    SpanEndInside(digits, text, sign, 0, Digit);
    whole, fraction := digits[..dot], if dot < |digits| then digits[dot + 1..] else "";
    assert digits == (if negative then text[1..] else text);
    assert dot > 0 by {
      assert InClass(text[sign], Digit) && digits[0] == text[sign];
    }
    if dot < |digits| {
      assert text[sign + dot] == '.';
      assert forall i | 0 <= i < |fraction| :: fraction[i] == text[sign + dot + 1 + i];
    }
  }

  /** A printed numeral is a number token that denotes itself. */
  lemma NumeralSettled(text: string)
    requires IsNumber(text)
    ensures IsNumber(NumeralOf(text)) && NumeralOf(NumeralOf(text)) == NumeralOf(text)
  {
    hide NumeralOf, IsNumber;
    var negative, whole, fraction := PartsOf(text);
    var w, f := TrimLeadingZeros(whole), TrimTrailingZeros(fraction);
    TrimLeadingSound(whole);
    TrimTrailingSound(fraction);
    NumeralParts(negative && Digits(w, f) != "0", w, f);
  }
}
