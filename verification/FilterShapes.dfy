/** The literals of the `$filter` language, written out: what each kind may hold, part by part. */
module FilterShapes {
  import opened Strings
  import opened FilterTypes
  import opened FilterLexer
  import opened FilterLexemes
  import opened FilterSerializer
  import opened FilterGrammar
  import opened FilterParser
  import opened FilterWriting
  import opened FilterSpelling
  import opened FilterWords
  import FilterNumerals

  /** So many decimal digits. */
  predicate Digits(s: string, n: nat) {
    |s| == n && forall i | 0 <= i < n :: '0' <= s[i] <= '9'
  }

  predicate SomeDigits(s: string) {
    |s| > 0 && Digits(s, |s|)
  }

  predicate HexDigits(s: string, n: nat) {
    |s| == n && forall i | 0 <= i < n :: '0' <= s[i] <= '9' || 'a' <= s[i] <= 'f' || 'A' <= s[i] <= 'F'
  }

  ghost predicate IsDateText(s: string) {
    exists year, month, day :: Digits(year, 4) && Digits(month, 2) && Digits(day, 2) && s == year + "-" + month + "-" + day
  }

  ghost predicate IsTimeText(s: string) {
    exists hour, minute, second :: Digits(hour, 2) && Digits(minute, 2) && Digits(second, 2) && s == hour + ":" + minute + ":" + second
  }

  /** Nothing, or a point and digits. */
  predicate IsFractionText(s: string) {
    s == "" || (s[0] == '.' && SomeDigits(s[1..]))
  }

  /** `Z`, or a sign, hours and minutes. */
  ghost predicate IsZoneText(s: string) {
    || s == "Z"
    || exists sign, hour, minute :: (sign == "+" || sign == "-") && Digits(hour, 2) && Digits(minute, 2) && s == sign + hour + ":" + minute
  }

  ghost predicate IsInstantText(s: string) {
    exists date, time, fraction, zone ::
      IsDateText(date) && IsTimeText(time) && IsFractionText(fraction) && IsZoneText(zone) && s == date + "T" + time + fraction + zone
  }

  ghost predicate IsGuidText(s: string) {
    exists a, b, c, d, e ::
      && HexDigits(a, 8) && HexDigits(b, 4) && HexDigits(c, 4) && HexDigits(d, 4) && HexDigits(e, 12)
      && s == a + "-" + b + "-" + c + "-" + d + "-" + e && '0' <= s[0] <= '9'
  }

  /** An optional minus sign, digits, and an optional point with digits or none after it. */
  ghost predicate IsNumberText(s: string) {
    exists sign, whole, rest ::
      (sign == "" || sign == "-") && SomeDigits(whole) && (rest == "" || (rest[0] == '.' && Digits(rest[1..], |rest| - 1)))
      && s == sign + whole + rest
  }

  lemma DateShape(s: string)
    ensures ValidLexeme(DateToken, s) <==> IsDateText(s)
  {
    if ValidLexeme(DateToken, s) {
      var year, month, day := s[..4], s[5..7], s[8..];
      assert s == year + "-" + month + "-" + day;
      assert Digits(year, 4) && Digits(month, 2) && Digits(day, 2);
    }
    if IsDateText(s) {
      var year, month, day :| Digits(year, 4) && Digits(month, 2) && Digits(day, 2) && s == year + "-" + month + "-" + day;
      assert forall i | 0 <= i < 4 :: s[i] == year[i];
      assert forall i | 0 <= i < 2 :: s[5 + i] == month[i] && s[8 + i] == day[i];
      assert s[5] == month[0] && s[6] == month[1] && s[8] == day[0] && s[9] == day[1];
    }
  }

  lemma TimeShape(s: string)
    ensures ValidLexeme(TimeOfDayToken, s) <==> IsTimeText(s)
  {
    if ValidLexeme(TimeOfDayToken, s) {
      var hour, minute, second := s[..2], s[3..5], s[6..];
      assert s == hour + ":" + minute + ":" + second;
      assert Digits(hour, 2) && Digits(minute, 2) && Digits(second, 2);
    }
    if IsTimeText(s) {
      var hour, minute, second :| Digits(hour, 2) && Digits(minute, 2) && Digits(second, 2) && s == hour + ":" + minute + ":" + second;
      assert s[0] == hour[0] && s[1] == hour[1] && s[3] == minute[0] && s[4] == minute[1] && s[6] == second[0] && s[7] == second[1];
    }
  }

  lemma {:induction false} FractionShape(s: string, p: nat, end: nat)
    requires p <= end <= |s| && IsFractionText(s[p..end]) && (end < |s| ==> !IsDigit(s[end]) && s[end] != '.')
    ensures FractionEnd(s, p) == end
  {
    var fraction := s[p..end];
    if fraction == "" {
      assert end == p;
    } else {
      assert fraction[0] == s[p] && forall i | 0 <= i < |fraction[1..]| :: fraction[1..][i] == s[p + 1 + i];
      SpanEndUnique(s, p + 1, end, Digit);
    }
  }

  lemma FractionIsShaped(s: string, p: nat)
    requires p <= |s|
    ensures IsFractionText(s[p..FractionEnd(s, p)])
  {
    var end := FractionEnd(s, p);
    if end > p {
      assert s[p..end][1..] == s[p + 1..end];
    }
  }

  lemma ZoneShape(s: string, p: nat)
    requires p <= |s|
    ensures ZoneEnd(s, p) == Some(|s|) <==> IsZoneText(s[p..])
  {
    var zone := s[p..];
    if ZoneEnd(s, p) == Some(|s|) && zone != "Z" {
      var sign, hour, minute := s[p..p + 1], s[p + 1..p + 3], s[p + 4..p + 6];
      assert zone == sign + hour + ":" + minute;
      assert Digits(hour, 2) && Digits(minute, 2) && (sign == "+" || sign == "-");
    }
    if IsZoneText(zone) {
      if zone == "Z" {
        assert s[p] == 'Z';
      } else {
        var sign, hour, minute :| (sign == "+" || sign == "-") && Digits(hour, 2) && Digits(minute, 2) && zone == sign + hour + ":" + minute;
        assert zone[0] == sign[0] && zone[1] == hour[0] && zone[2] == hour[1] && zone[3] == ':';
        assert zone[4] == minute[0] && zone[5] == minute[1];
        assert s[p] == zone[0] && s[p + 1] == zone[1] && s[p + 2] == zone[2];
        assert s[p + 3] == zone[3] && s[p + 4] == zone[4] && s[p + 5] == zone[5];
      }
    }
  }

  lemma InstantIsShaped(s: string)
    requires ValidLexeme(DateTimeOffsetToken, s)
    ensures IsInstantText(s)
  {
    hide ZoneEnd, FractionEnd, IsZoneText, IsFractionText, IsDateText, IsTimeText;
    var end := FractionEnd(s, 19);
    var date, time, fraction, zone := s[..10], s[11..19], s[19..end], s[end..];
    DatePart(s);
    TimePart(s);
    FractionIsShaped(s, 19);
    ZoneShape(s, end);
    hide DateAt, TimeOfDayAt;
    assert s == date + "T" + time + fraction + zone;
  }

  lemma DatePart(s: string)
    requires DateAt(s, 0)
    ensures |s| >= 10 && IsDateText(s[..10])
  {
    assert forall i | 0 <= i < 10 :: s[..10][i] == s[i];
    DateShape(s[..10]);
  }

  lemma TimePart(s: string)
    requires TimeOfDayAt(s, 11)
    ensures |s| >= 19 && IsTimeText(s[11..19])
  {
    var time := s[11..19];
    assert forall i | 0 <= i < 8 :: time[i] == s[11 + i];
    TimeShape(time);
  }

  lemma DateMoves(date: string, s: string)
    requires IsDateText(date) && |s| >= 10 && s[..10] == date
    ensures |date| == 10 && DateAt(s, 0)
  {
    DateShape(date);
    assert forall i | 0 <= i < 10 :: date[i] == s[i];
  }

  lemma TimeMoves(time: string, s: string, p: nat)
    requires IsTimeText(time) && |s| >= p + 8 && s[p..p + 8] == time
    ensures |time| == 8 && TimeOfDayAt(s, p)
  {
    TimeShape(time);
    assert forall i | 0 <= i < 8 :: time[i] == s[p + i];
  }

  lemma Lengths(date: string, time: string)
    requires IsDateText(date) && IsTimeText(time)
    ensures |date| == 10 && |time| == 8
  {
    DateShape(date);
    TimeShape(time);
  }

  lemma ZoneStarts(zone: string)
    requires IsZoneText(zone)
    ensures zone != "" && !IsDigit(zone[0]) && zone[0] != '.'
  {
    if zone != "Z" {
      var sign, hour, minute :| (sign == "+" || sign == "-") && Digits(hour, 2) && Digits(minute, 2) && zone == sign + hour + ":" + minute;
      assert zone[0] == sign[0];
    }
  }

  lemma ShapedIsInstant(s: string)
    requires IsInstantText(s)
    ensures ValidLexeme(DateTimeOffsetToken, s)
  {
    hide IsZoneText, IsFractionText, IsDateText, IsTimeText, DateAt, TimeOfDayAt, ZoneEnd, FractionEnd;
    var date, time, fraction, zone :|
      IsDateText(date) && IsTimeText(time) && IsFractionText(fraction) && IsZoneText(zone) && s == date + "T" + time + fraction + zone;
    Lengths(date, time);
    ZoneStarts(zone);
    var end := 19 + |fraction|;
    InstantSlices(s, date, time, fraction, zone);
    DateMoves(date, s);
    TimeMoves(time, s, 11);
    FractionShape(s, 19, end);
    ZoneShape(s, end);
  }

  lemma InstantSlices(s: string, date: string, time: string, fraction: string, zone: string)
    requires |date| == 10 && |time| == 8 && zone != "" && s == date + "T" + time + fraction + zone
    ensures var end := 19 + |fraction|;
            && end < |s| && s[..10] == date && s[10] == 'T' && s[11..19] == time && s[19..end] == fraction && s[end..] == zone
            && s[end] == zone[0]
  {
  }

  lemma InstantShape(s: string)
    ensures ValidLexeme(DateTimeOffsetToken, s) <==> IsInstantText(s)
  {
    hide ValidLexeme, IsInstantText;
    if ValidLexeme(DateTimeOffsetToken, s) {
      InstantIsShaped(s);
    }
    if IsInstantText(s) {
      ShapedIsInstant(s);
    }
  }

  lemma GuidIsShaped(s: string)
    requires ValidLexeme(GuidToken, s)
    ensures IsGuidText(s)
  {
    var a, b, c, d, e := s[..8], s[9..13], s[14..18], s[19..23], s[24..];
    assert s == a + "-" + b + "-" + c + "-" + d + "-" + e;
    assert HexDigits(a, 8) && HexDigits(b, 4) && HexDigits(c, 4) && HexDigits(d, 4) && HexDigits(e, 12);
  }

  lemma ShapedIsGuid(s: string)
    requires IsGuidText(s)
    ensures ValidLexeme(GuidToken, s)
  {
    var a, b, c, d, e :|
      && HexDigits(a, 8) && HexDigits(b, 4) && HexDigits(c, 4) && HexDigits(d, 4) && HexDigits(e, 12)
      && s == a + "-" + b + "-" + c + "-" + d + "-" + e;
    assert forall i | 0 <= i < 8 :: s[i] == a[i];
    assert forall i | 9 <= i < 13 :: s[i] == b[i - 9];
    assert forall i | 14 <= i < 18 :: s[i] == c[i - 14];
    assert forall i | 19 <= i < 23 :: s[i] == d[i - 19];
    assert forall i | 24 <= i < 36 :: s[i] == e[i - 24];
  }

  lemma SpanDigits(s: string, p: nat, end: nat)
    requires AllIn(s, p, end, Digit)
    ensures Digits(s[p..end], end - p)
  {
    var span := s[p..end];
    forall i | 0 <= i < |span| ensures '0' <= span[i] <= '9' {
      assert span[i] == s[p + i] && InClass(s[p + i], Digit);
    }
  }

  lemma NumberIsShaped(s: string)
    requires ValidLexeme(NumberToken, s)
    ensures IsNumberText(s)
  {
    var start := if CharAt(s, 0, '-') then 1 else 0;
    var end := SpanEnd(s, start, Digit);
    var sign, whole, rest := s[..start], s[start..end], s[end..];
    assert s == sign + whole + rest;
    SpanDigits(s, start, end);
    assert SomeDigits(whole) && (sign == "" || sign == "-");
    if rest != "" {
      SpanDigits(s, end + 1, |s|);
      assert rest[0] == s[end] && rest[1..] == s[end + 1..|s|];
    }
  }

  lemma ShapedIsNumber(s: string)
    requires IsNumberText(s)
    ensures ValidLexeme(NumberToken, s)
  {
    var sign, whole, rest :|
      (sign == "" || sign == "-") && SomeDigits(whole) && (rest == "" || (rest[0] == '.' && Digits(rest[1..], |rest| - 1)))
      && s == sign + whole + rest;
    var start, end := |sign|, |sign| + |whole|;
    assert forall i | start <= i < end :: s[i] == whole[i - start];
    assert forall i | end <= i < |s| :: s[i] == rest[i - end];
    assert s[0] == (if start == 0 then whole[0] else '-');
    SpanEndUnique(s, start, end, Digit);
    if rest != "" {
      assert forall i | end + 1 <= i < |s| :: s[i] == rest[1..][i - end - 1];
      SpanEndUnique(s, end + 1, |s|, Digit);
    }
  }

  /** Letters, digits, underscores and points, the first no digit and no point. */
  predicate IsWordText(s: string) {
    && s != "" && !('0' <= s[0] <= '9') && s[0] != '.'
    && forall i | 0 <= i < |s| ::
         'a' <= s[i] <= 'z' || 'A' <= s[i] <= 'Z' || '0' <= s[i] <= '9' || s[i] == '_' || s[i] == '.'
  }

  /** A word with a point in it, and in quotation marks a member. */
  ghost predicate IsEnumText(s: string) {
    exists word, member :: IsWordText(word) && '.' in word && '\'' !in member && s == word + "'" + member + "'"
  }

  /** The words that are never names. */
  predicate IsReserved(lower: string) {
    || lower == "null" || lower == "true" || lower == "false" || lower == "not" || lower == "and" || lower == "or"
    || lower == "eq" || lower == "ne" || lower == "gt" || lower == "ge" || lower == "lt" || lower == "le" || lower == "has"
    || lower == "add" || lower == "sub" || lower == "mul" || lower == "div" || lower == "mod" || lower == "divby"
  }

  lemma WordShape(s: string)
    ensures IsWord(s) <==> IsWordText(s)
  {
  }

  lemma ReservedExactly(lower: string)
    ensures FixedWord(lower).Some? <==> IsReserved(lower)
  {
  }

  /** A name is a word that is not reserved, in any case. */
  lemma NameShape(s: string)
    ensures IsName(s) <==> IsWordText(s) && !IsReserved(Lower(s))
  {
    hide FixedWord, IsReserved, Lower, IsWord, IsWordText;
    WordShape(s);
    ReservedExactly(Lower(s));
  }

  lemma DurationShape(s: string)
    ensures ValidLexeme(DurationToken, s) <==> '\'' !in s
  {
    if '\'' !in s {
      forall i | 0 <= i < |s| ensures InClass(s[i], NotQuote) {
        assert s[i] in s;
      }
    }
  }

  lemma EnumIsShaped(s: string)
    requires ValidLexeme(EnumToken, s)
    ensures IsEnumText(s)
  {
    var end := SpanEnd(s, 0, WordChar);
    var word, member := s[..end], s[end + 1..|s| - 1];
    assert s == word + "'" + member + "'";
    DurationShape(member);
    assert forall i | 0 <= i < |member| :: member[i] == s[end + 1 + i];
    WordShape(word);
  }

  lemma ShapedIsEnum(s: string)
    requires IsEnumText(s)
    ensures ValidLexeme(EnumToken, s)
  {
    var word, member :| IsWordText(word) && '.' in word && '\'' !in member && s == word + "'" + member + "'";
    WordShape(word);
    DurationShape(member);
    hide IsWordText;
    EnumSlices(s, word, member);
    assert forall i | 0 <= i < |word| :: s[i] == word[i];
    SpanEndUnique(s, 0, |word|, WordChar);
    assert forall i | |word| + 1 <= i < |s| - 1 :: s[i] == member[i - |word| - 1];
    SpanEndUnique(s, |word| + 1, |s| - 1, NotQuote);
  }

  lemma EnumSlices(s: string, word: string, member: string)
    requires s == word + "'" + member + "'"
    ensures s[..|word|] == word && s[|word|] == '\'' && s[|s| - 1] == '\'' && |s| == |word| + |member| + 2
    ensures forall i | |word| + 1 <= i < |s| - 1 :: s[i] == member[i - |word| - 1]
  {
  }

  /** What each kind of literal may hold, exactly. */
  lemma ShapesExactly(s: string)
    ensures ValidLexeme(DateToken, s) <==> IsDateText(s)
    ensures ValidLexeme(TimeOfDayToken, s) <==> IsTimeText(s)
    ensures ValidLexeme(DateTimeOffsetToken, s) <==> IsInstantText(s)
    ensures ValidLexeme(GuidToken, s) <==> IsGuidText(s)
    ensures ValidLexeme(EnumToken, s) <==> IsEnumText(s)
    ensures ValidLexeme(NumberToken, s) <==> IsNumberText(s)
    ensures ValidLexeme(PropertyToken, s) <==> IsWordText(s) && !IsReserved(Lower(s))
  {
    DateShape(s);
    TimeShape(s);
    InstantShape(s);
    NameShape(s);
    hide ValidLexeme, IsDateText, IsTimeText, IsInstantText, IsGuidText, IsEnumText, IsNumberText, IsReserved, IsWordText;
    if ValidLexeme(GuidToken, s) {
      GuidIsShaped(s);
    }
    if IsGuidText(s) {
      ShapedIsGuid(s);
    }
    if ValidLexeme(EnumToken, s) {
      EnumIsShaped(s);
    }
    if IsEnumText(s) {
      ShapedIsEnum(s);
    }
    if ValidLexeme(NumberToken, s) {
      NumberIsShaped(s);
    }
    if IsNumberText(s) {
      ShapedIsNumber(s);
    }
    NamesAreTokens(s);
  }

  lemma NamesAreTokens(s: string)
    ensures ValidLexeme(PropertyToken, s) <==> IsName(s)
  {
  }

  /** White space, written out. */
  lemma SpacesExactly(gap: string)
    ensures IsSpaces(gap) <==> gap != "" && forall i | 0 <= i < |gap| ::
              gap[i] in " \t\n\r\U{b}\U{c}\U{a0}\U{1680}\U{2028}\U{2029}\U{202f}\U{205f}\U{3000}\U{feff}"
              || '\U{2000}' <= gap[i] <= '\U{200a}'
  {
    forall i | 0 <= i < |gap|
      ensures IsSpace(gap[i]) <==>
        gap[i] in " \t\n\r\U{b}\U{c}\U{a0}\U{1680}\U{2028}\U{2029}\U{202f}\U{205f}\U{3000}\U{feff}"
        || '\U{2000}' <= gap[i] <= '\U{200a}'
    {
    }
  }

  // Each literal alone is a filter

  lemma LiteralAlone(value: LiteralValue, dataType: LiteralDataType)
    requires WellFormedLiteral(value, dataType)
    ensures ParseFilter(LiteralText(value, dataType)) == Success(Literal(value, dataType))
  {
    hide WellFormedLiteral, ParseFilter, LiteralText, Neighbours, LiteralKind, ValueText, Denotes;
    var form := LiteralForm(value, dataType, "");
    AtTheStart();
    LiteralStands(None, value, dataType, "", None);
    TextDenotes(Token(form.kind, form.value, 0), value, dataType);
    OneParses(form, Literal(value, dataType));
  }

  lemma AtTheStart()
    ensures AllowsNegative(None) && AllIn("", 0, 0, Space)
  {
  }

  /** Dates, times, instants, guids, enumeration members, durations, strings and numbers, as they are written, parse to themselves. */
  lemma LiteralsParse(text: string)
    ensures IsDateText(text) ==> ParseFilter(text) == Success(Literal(Text(text), DateType))
    ensures IsTimeText(text) ==> ParseFilter(text) == Success(Literal(Text(text), TimeOfDayType))
    ensures IsInstantText(text) ==> ParseFilter(text) == Success(Literal(Text(text), DateTimeOffsetType))
    ensures IsGuidText(text) ==> ParseFilter(text) == Success(Literal(Text(text), GuidType))
    ensures IsEnumText(text) ==> ParseFilter(text) == Success(Literal(Text(text), EnumType))
    ensures '\'' !in text ==> ParseFilter("duration'" + text + "'") == Success(Literal(Text(text), DurationType))
    ensures ParseFilter("'" + Escape(text) + "'") == Success(Literal(Text(text), StringType))
  {
    hide ParseFilter, IsDateText, IsTimeText, IsInstantText, IsGuidText, IsEnumText, ValidLexeme;
    if IsDateText(text) {
      DateShape(text);
      LiteralAlone(Text(text), DateType);
    }
    if IsTimeText(text) {
      TimeShape(text);
      LiteralAlone(Text(text), TimeOfDayType);
    }
    if IsInstantText(text) {
      InstantShape(text);
      LiteralAlone(Text(text), DateTimeOffsetType);
    }
    if IsGuidText(text) {
      ShapedIsGuid(text);
      LiteralAlone(Text(text), GuidType);
    }
    if IsEnumText(text) {
      ShapedIsEnum(text);
      LiteralAlone(Text(text), EnumType);
    }
    if '\'' !in text {
      DurationShape(text);
      LiteralAlone(Text(text), DurationType);
    }
    StringShape(text);
    LiteralAlone(Text(text), StringType);
  }

  lemma StringShape(text: string)
    ensures ValidLexeme(StringToken, text)
  {
  }

  /** A number, as it is written, parses to the numeral it denotes. */
  lemma NumbersParse(text: string)
    requires IsNumberText(text)
    ensures ParseFilter(text) == Success(Literal(Number(FilterNumerals.NumeralOf(text)), NumberType))
  {
    hide ParseFilter, IsNumberText, Neighbours, Denotes;
    var form := Form(NumberToken, text, text, "");
    ShapedIsNumber(text);
    NumberAlone(text);
    NumberDenotes(text);
    OneParses(form, Literal(Number(FilterNumerals.NumeralOf(text)), NumberType));
  }

  lemma NumberAlone(text: string)
    requires ValidLexeme(NumberToken, text)
    ensures Neighbours(None, Form(NumberToken, text, text, ""), None)
  {
    AtTheStart();
    NumberIsText(text);
    hide IsNumber, AllIn;
  }

  lemma NumberIsText(text: string)
    requires ValidLexeme(NumberToken, text)
    ensures text != ""
  {
  }

  lemma NumberDenotes(text: string)
    ensures Denotes(Token(NumberToken, text, 0), Number(FilterNumerals.NumeralOf(text)), NumberType)
  {
  }
}
