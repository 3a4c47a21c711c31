/** `$expand` trees, written out, parse back. */
module ExpandRoundTrip {
  import opened Strings
  import opened ExpandSplit
  import opened ExpandParser

  // Writing a tree

  function LevelsText(levels: Levels): string {
    match levels
    case MaxLevels => "max"
    case LevelCount(count) => NatText(count)
  }

  // The options one by one, in the order of the type

  const OPTION_COUNT: nat := 8

  function Key(k: nat): string
    requires k < OPTION_COUNT
  {
    match k
    case 0 => "$select"
    case 1 => "$filter"
    case 2 => "$orderby"
    case 3 => "$top"
    case 4 => "$skip"
    case 5 => "$count"
    case 6 => "$expand"
    case _ => "$levels"
  }

  predicate Given(o: ExpandQueryOptions, k: nat)
    requires k < OPTION_COUNT
  {
    match k
    case 0 => o.select.Some?
    case 1 => o.filter.Some?
    case 2 => o.orderby.Some?
    case 3 => o.top.Some?
    case 4 => o.skip.Some?
    case 5 => o.count.Some?
    case 6 => o.expand.Clauses?
    case _ => o.levels.Some?
  }

  function ValueText(o: ExpandQueryOptions, k: nat): string
    requires k < OPTION_COUNT && Given(o, k)
    decreases o, 0
  {
    match k
    case 0 => o.select.value
    case 1 => o.filter.value
    case 2 => o.orderby.value
    case 3 => NatText(o.top.value)
    case 4 => NatText(o.skip.value)
    case 5 => if o.count.value then "true" else "false"
    case 6 => ClausesText(o.expand.items)
    case _ => LevelsText(o.levels.value)
  }

  /** The options that are there, from the `k`-th on. */
  function SegmentsFrom(o: ExpandQueryOptions, k: nat): seq<string>
    requires k <= OPTION_COUNT
    decreases o, 1, OPTION_COUNT - k
  {
    if k == OPTION_COUNT then []
    else (if Given(o, k) then [Key(k) + "=" + ValueText(o, k)] else []) + SegmentsFrom(o, k + 1)
  }

  function Segments(o: ExpandQueryOptions): seq<string>
    decreases o, 2
  {
    SegmentsFrom(o, 0)
  }

  function ClauseText(e: ExpandExpression): string
    decreases e, 3
  {
    if e.options == NO_OPTIONS then e.property
    else e.property + "(" + JoinWith(Segments(e.options), ';') + ")"
  }

  function ClauseTexts(es: seq<ExpandExpression>): (texts: seq<string>)
    ensures |texts| == |es|
    decreases es, 4
  {
    if es == [] then [] else [ClauseText(es[0])] + ClauseTexts(es[1..])
  }

  function ClausesText(es: seq<ExpandExpression>): string
    decreases es, 5
  {
    JoinWith(ClauseTexts(es), ',')
  }

  // The trees that can be written

  /** Parentheses are matched within the text. */
  ghost predicate Nested(s: string) {
    Depth(s) == 0 && forall i | 0 <= i <= |s| :: Depth(s[..i]) >= 0
  }

  predicate IsProperty(s: string) {
    s != "" && IsTrimmed(s) && forall c <- s :: c != '(' && c != ')' && c != ',' && c != ';'
  }

  ghost predicate IsOptionText(s: string) {
    IsTrimmed(s) && Nested(s) && Uncut(s, ';')
  }

  ghost predicate WellFormedOptions(o: ExpandQueryOptions)
    decreases o, 0
  {
    && (o.select.Some? ==> IsOptionText(o.select.value))
    && (o.filter.Some? ==> IsOptionText(o.filter.value))
    && (o.orderby.Some? ==> IsOptionText(o.orderby.value))
    && (o.expand.Clauses? ==> forall e <- o.expand.items :: WellFormedExpand(e))
    && (o.levels.Some? && o.levels.value.LevelCount? ==> o.levels.value.count >= 1)
  }

  ghost predicate WellFormedExpand(e: ExpandExpression)
    decreases e, 1
  {
    IsProperty(e.property) && WellFormedOptions(e.options)
  }

  // Numbers

  lemma {:induction false} InBaseTen(s: string)
    requires s != "" && AllIn(s, 0, |s|, Digit)
    ensures InBase(s, 10) == Some(NatValue(s))
  {
    var init := s[..|s| - 1];
    assert InClass(s[|s| - 1], Digit);
    if init != "" {
      InBaseTen(init);
    }
  }

  lemma DigitsEnd(digits: string, ending: string)
    requires AllIn(digits, 0, |digits|, Digit) && (ending == "" || (!IsDigit(ending[0]) && ending[0] != '.'))
    ensures var text := digits + ending;
            && SpanEnd(text, 0, Digit) == |digits| && !CharAt(text, |digits|, '.')
            && text[..|digits|] + text[|digits|..|digits|] == digits && text[|digits|..] == ending
  {
    var text := digits + ending;
    forall i | 0 <= i < |digits| ensures InClass(text[i], Digit) {
      assert text[i] == digits[i];
    }
    SpanEndUnique(text, 0, |digits|, Digit);
    hide SpanEnd, AllIn;
    assert text[..|digits|] == digits && text[|digits|..|digits|] == "" && digits + "" == digits;
  }

  /** Digits, and then nothing or an exponent, are read as that decimal. */
  lemma DecimalReads(digits: string, ending: string)
    requires digits != "" && AllIn(digits, 0, |digits|, Digit)
    requires ending == "" || (!IsDigit(ending[0]) && ending[0] != '.')
    ensures DecimalOf(digits + ending)
         == if ExponentOf(ending).None? then None else Scaled(NatValue(digits), ExponentOf(ending).value)
  {
    hide InBase, NatValue, ExponentOf, Scaled, SpanEnd, AllIn, CharAt;
    InBaseTen(digits);
    DigitsEnd(digits, ending);
  }

  lemma ExponentReads(digits: string)
    requires digits != "" && AllIn(digits, 0, |digits|, Digit)
    ensures ExponentOf("e" + digits) == Some(NatValue(digits))
  {
    InBaseTen(digits);
    assert ("e" + digits)[1..] == digits && InClass(digits[0], Digit);
    hide InBase, NatValue, AllIn;
  }

  /** Digits with an exponent are no whole number as they stand, nor one in another base. */
  lemma NotPlain(digits: string, ending: string)
    requires digits != "" && AllIn(digits, 0, |digits|, Digit) && ending != "" && (ending[0] == 'e' || ending[0] == 'E')
    ensures var text := digits + ending;
            !AllIn(text, 0, |text|, Digit) && BaseOf(text).None? && Signed(text) == (false, text)
  {
    var text := digits + ending;
    assert text[|digits|] == ending[0] && !InClass(text[|digits|], Digit);
    assert InClass(digits[0], Digit) && text[0] == digits[0];
    assert |digits| > 1 ==> text[1] == digits[1] && InClass(digits[1], Digit);
  }

  /** A count in any decimal form: with a sign, or with an exponent. */
  lemma NumbersReadBack(n: nat, k: nat)
    ensures NumberOf("-" + NatText(n)) == Some(-(n as int)) && NumberOf("+" + NatText(n)) == Some(n)
    ensures NumberOf(NatText(n) + "e" + NatText(k)) == Some(n * Power(10, k))
  {
    NatReadsBack(n);
    NatReadsBack(k);
    hide NatText, NatValue, InBase, Power, DecimalOf, AllIn, BaseOf, Signed, ExponentOf;
    SignedReads('-', NatText(n));
    SignedReads('+', NatText(n));
    ConcatAssociates(NatText(n), "e", NatText(k));
    ExponentReads(NatText(k));
    NotPlain(NatText(n), "e" + NatText(k));
    DecimalReads(NatText(n), "e" + NatText(k));
  }

  lemma SignedReads(sign: char, digits: string)
    requires (sign == '-' || sign == '+') && digits != "" && AllIn(digits, 0, |digits|, Digit)
    ensures NumberOf([sign] + digits) == Some(WithSign(sign == '-', NatValue(digits)))
  {
    var text := [sign] + digits;
    hide NatValue, DecimalOf;
    assert !InClass(text[0], Digit) && text[1..] == digits;
    DecimalReads(digits, "");
    assert digits + "" == digits;
    assert Scaled(NatValue(digits), 0) == Some(NatValue(digits));
  }

  lemma NatCounts(n: nat, least: nat)
    requires n >= least
    ensures ParseCount(NatText(n), least) == Some(n)
  {
    NatReadsBack(n);
  }

  // Nesting

  lemma NestedConcat(a: string, b: string)
    requires Nested(a) && Nested(b)
    ensures Nested(a + b)
  {
    DepthConcat(a, b);
    forall i | 0 <= i <= |a + b| ensures Depth((a + b)[..i]) >= 0 {
      if i <= |a| {
        assert (a + b)[..i] == a[..i];
      } else {
        assert (a + b)[..i] == a + b[..i - |a|];
        DepthConcat(a, b[..i - |a|]);
      }
    }
  }

  lemma UncutConcat(a: string, b: string, d: char)
    requires Depth(a) == 0 && Uncut(a, d) && Uncut(b, d)
    ensures Uncut(a + b, d)
  {
    forall i | 0 <= i < |a + b| && (a + b)[i] == d ensures Depth((a + b)[..i]) != 0 {
      if i < |a| {
        assert (a + b)[..i] == a[..i];
      } else {
        assert (a + b)[..i] == a + b[..i - |a|];
        DepthConcat(a, b[..i - |a|]);
      }
    }
  }

  lemma {:induction false} PlainNested(s: string)
    requires forall i | 0 <= i < |s| :: s[i] != '(' && s[i] != ')'
    ensures Nested(s)
  {
    if s != "" {
      PlainNested(s[..|s| - 1]);
      forall i | 0 <= i <= |s| ensures Depth(s[..i]) >= 0 {
        if i < |s| {
          assert s[..|s| - 1][..i] == s[..i];
        } else {
          assert s[..i] == s;
        }
      }
    }
  }

  lemma PlainUncut(s: string, d: char)
    requires forall i | 0 <= i < |s| :: s[i] != d
    ensures Uncut(s, d)
  {
  }

  /** In parentheses, nothing stands at depth zero but the parentheses. */
  lemma Enclosed(inner: string, d: char)
    requires Nested(inner) && IsDelimiter(d)
    ensures var s := "(" + inner + ")"; Nested(s) && Uncut(s, d)
    ensures forall i | 1 <= i <= |inner| + 1 :: Depth(("(" + inner + ")")[..i]) >= 1
  {
    var s := "(" + inner + ")";
    DepthOpen(inner);
    DepthMore("(" + inner, ')');
    assert s == "(" + inner + [')'];
    forall i | 1 <= i <= |inner| + 1 ensures Depth(s[..i]) >= 1 {
      assert s[..i] == "(" + inner[..i - 1];
      DepthOpen(inner[..i - 1]);
    }
    forall i | 0 <= i <= |s| ensures Depth(s[..i]) >= 0 {
      if i == 0 {
      } else if i == |s| {
        assert s[..i] == s;
      }
    }
    forall i | 0 <= i < |s| && s[i] == d ensures Depth(s[..i]) != 0 {
      assert i > 0;
      assert i < |s| - 1;
    }
  }

  lemma DepthOpen(inner: string)
    ensures Depth("(" + inner) == 1 + Depth(inner)
  {
    DepthConcat("(", inner);
    assert "("[..0] == "";
  }

  /** What a piece of a written tree is like: matched, and whole for both delimiters. */
  ghost predicate Whole(s: string) {
    s != "" && IsTrimmed(s) && Nested(s) && Uncut(s, ';')
  }

  ghost predicate AllWhole(parts: seq<string>) {
    forall i | 0 <= i < |parts| :: Whole(parts[i])
  }

  /** Matched texts joined by a mark are matched, and whole for any other mark. */
  lemma {:induction false} JoinWhole(parts: seq<string>, mark: char)
    requires IsDelimiter(mark) && AllWhole(parts)
    ensures Nested(JoinWith(parts, mark)) && IsTrimmed(JoinWith(parts, mark))
    ensures parts != [] ==> JoinWith(parts, mark) != ""
    ensures mark != ';' ==> Uncut(JoinWith(parts, mark), ';')
    decreases |parts|
  {
    if |parts| == 0 {
      PlainNested("");
    } else if |parts| > 1 {
      var rest := JoinWith(parts[1..], mark);
      assert AllWhole(parts[1..]);
      JoinWhole(parts[1..], mark);
      var head := parts[0] + [mark];
      PlainNested([mark]);
      NestedConcat(parts[0], [mark]);
      NestedConcat(head, rest);
      if mark != ';' {
        PlainUncut([mark], ';');
        UncutConcat(parts[0], [mark], ';');
        UncutConcat(head, rest, ';');
      }
    }
  }

  // The shape of what is written

  lemma SegmentWhole(key: string, text: string)
    requires key != "" && !IsSpace(key[0]) && IsOptionText(text)
    requires forall c <- key :: c != '(' && c != ')' && c != ';' && c != '='
    ensures Whole(key + "=" + text)
  {
    var head := key + "=";
    assert forall i | 0 <= i < |key| :: key[i] in key;
    PlainNested(head);
    PlainUncut(head, ';');
    NestedConcat(head, text);
    UncutConcat(head, text, ';');
  }

  lemma PlainText(text: string)
    requires forall i | 0 <= i < |text| :: text[i] != '(' && text[i] != ')' && text[i] != ';' && !IsSpace(text[i])
    ensures IsOptionText(text)
  {
    PlainNested(text);
    PlainUncut(text, ';');
  }

  lemma NatPlain(n: nat)
    ensures IsOptionText(NatText(n))
  {
    NatReadsBack(n);
    assert forall i | 0 <= i < |NatText(n)| :: InClass(NatText(n)[i], Digit);
    PlainText(NatText(n));
  }

  lemma KeyPlain(k: nat)
    requires k < OPTION_COUNT
    ensures Key(k) != "" && !IsSpace(Key(k)[0]) && IsTrimmed(Key(k))
    ensures forall c <- Key(k) :: c != '(' && c != ')' && c != ';' && c != '='
  {
  }

  lemma {:induction false} ValueWhole(o: ExpandQueryOptions, k: nat)
    requires WellFormedOptions(o) && k < OPTION_COUNT && Given(o, k)
    ensures IsOptionText(ValueText(o, k))
    decreases o, 0
  {
    hide NatText, IsOptionText, ClausesText;
    match k
    case 3 => NatPlain(o.top.value);
    case 4 => NatPlain(o.skip.value);
    case 5 =>
      PlainText("true");
      PlainText("false");
    case 6 => ClausesWhole(o.expand.items);
    case 7 => LevelsPlain(o.levels.value);
    case _ =>
  }

  lemma {:induction false} SegmentsWhole(o: ExpandQueryOptions, k: nat)
    requires WellFormedOptions(o) && k <= OPTION_COUNT
    ensures AllWhole(SegmentsFrom(o, k))
    decreases o, 1, OPTION_COUNT - k
  {
    hide Whole, IsOptionText, Key, Given, ValueText, WellFormedOptions;
    if k < OPTION_COUNT {
      SegmentsWhole(o, k + 1);
      if Given(o, k) {
        KeyPlain(k);
        ValueWhole(o, k);
        SegmentWhole(Key(k), ValueText(o, k));
      }
    }
  }

  lemma LevelsPlain(levels: Levels)
    ensures IsOptionText(LevelsText(levels))
  {
    match levels
    case MaxLevels => PlainText("max");
    case LevelCount(count) => NatPlain(count);
  }

  lemma {:induction false} ClausesWhole(es: seq<ExpandExpression>)
    requires forall e <- es :: WellFormedExpand(e)
    ensures IsOptionText(ClausesText(es))
    ensures AllWhole(ClauseTexts(es)) && forall i | 0 <= i < |es| :: Uncut(ClauseTexts(es)[i], ',')
    decreases es, 4
  {
    hide Whole, Uncut, WellFormedExpand, ClauseText;
    EachClauseWhole(es);
    JoinWhole(ClauseTexts(es), ',');
  }

  lemma {:induction false} EachClauseWhole(es: seq<ExpandExpression>)
    requires forall e <- es :: WellFormedExpand(e)
    ensures AllWhole(ClauseTexts(es)) && forall i | 0 <= i < |es| :: Uncut(ClauseTexts(es)[i], ',')
    decreases es, 3
  {
    hide Whole, Uncut, WellFormedExpand, ClauseText;
    if es != [] {
      ClauseWhole(es[0]);
      EachClauseWhole(es[1..]);
    }
  }

  lemma {:induction false} ClauseWhole(e: ExpandExpression)
    requires WellFormedExpand(e)
    ensures Whole(ClauseText(e)) && Uncut(ClauseText(e), ',')
    decreases e, 2
  {
    var property := e.property;
    assert forall i | 0 <= i < |property| :: property[i] in property;
    PlainNested(property);
    PlainUncut(property, ';');
    PlainUncut(property, ',');
    if e.options != NO_OPTIONS {
      SegmentsWhole(e.options, 0);
      JoinWhole(Segments(e.options), ';');
      EnclosedWhole(property, JoinWith(Segments(e.options), ';'));
    }
  }

  lemma EnclosedWhole(property: string, options: string)
    requires Whole(property) && Uncut(property, ',') && Nested(options)
    ensures Whole(property + "(" + options + ")") && Uncut(property + "(" + options + ")", ',')
  {
    var enclosed := "(" + options + ")";
    Enclosed(options, ';');
    Enclosed(options, ',');
    NestedConcat(property, enclosed);
    UncutConcat(property, enclosed, ';');
    UncutConcat(property, enclosed, ',');
    assert property + "(" + options + ")" == property + enclosed;
  }

  // Reading it back

  lemma IndexOfAt(s: string, c: char, at: nat)
    requires at < |s| && s[at] == c && forall i | 0 <= i < at :: s[i] != c
    ensures IndexOf(s, c) == Some(at)
  {
  }

  /** A segment's key and value come apart at its first equals sign. */
  lemma SegmentSplits(key: string, text: string)
    requires IsTrimmed(key) && IsTrimmed(text) && forall i | 0 <= i < |key| :: key[i] != '='
    ensures var s := key + "=" + text;
            IndexOf(s, '=') == Some(|key|) && Trim(s[..|key|]) == key && Trim(s[|key| + 1..]) == text
  {
    var s := key + "=" + text;
    IndexOfAt(s, '=', |key|);
    assert s[..|key|] == key && s[|key| + 1..] == text;
  }

  lemma SegmentsStep(first: string, rest: seq<string>, options: ExpandQueryOptions, base: nat, bound: nat)
    requires |first| <= bound && forall segment <- rest :: |segment| <= bound
    requires ParseOption(options, first, base).Success?
    ensures forall segment <- [first] + rest :: |segment| <= bound
    ensures ParseSegments([first] + rest, options, base, bound)
         == ParseSegments(rest, ParseOption(options, first, base).value, base, bound)
  {
    hide ParseOption;
    assert ([first] + rest)[1..] == rest;
  }

  ghost predicate Bounded(segments: seq<string>, bound: nat) {
    forall segment <- segments :: |segment| <= bound
  }

  lemma TextOptionReads(options: ExpandQueryOptions, text: string, base: nat)
    requires IsTrimmed(text)
    ensures ParseOption(options, "$select" + "=" + text, base) == Success(options.(select := Some(text)))
    ensures ParseOption(options, "$filter" + "=" + text, base) == Success(options.(filter := Some(text)))
    ensures ParseOption(options, "$orderby" + "=" + text, base) == Success(options.(orderby := Some(text)))
  {
    hide ParseClauses, Trim;
    SegmentSplits("$select", text);
    SegmentSplits("$filter", text);
    SegmentSplits("$orderby", text);
  }

  lemma CountOptionReads(options: ExpandQueryOptions, n: nat, base: nat)
    ensures ParseOption(options, "$top" + "=" + NatText(n), base) == Success(options.(top := Some(n)))
    ensures ParseOption(options, "$skip" + "=" + NatText(n), base) == Success(options.(skip := Some(n)))
  {
    hide ParseClauses, Trim, ParseCount, NatText;
    NatPlain(n);
    NatCounts(n, 0);
    SegmentSplits("$top", NatText(n));
    SegmentSplits("$skip", NatText(n));
  }

  lemma FlagOptionReads(options: ExpandQueryOptions, flag: bool, base: nat)
    ensures ParseOption(options, "$count" + "=" + (if flag then "true" else "false"), base) == Success(options.(count := Some(flag)))
  {
    hide ParseClauses, Trim, ParseCount;
    var text := if flag then "true" else "false";
    PlainText(text);
    SegmentSplits("$count", text);
  }

  lemma LevelsOptionReads(options: ExpandQueryOptions, levels: Levels, base: nat)
    requires levels.LevelCount? ==> levels.count >= 1
    ensures ParseOption(options, "$levels" + "=" + LevelsText(levels), base) == Success(options.(levels := Some(levels)))
  {
    hide ParseClauses, Trim, ParseCount, NatText;
    LevelsPlain(levels);
    SegmentSplits("$levels", LevelsText(levels));
    if levels.LevelCount? {
      NatCounts(levels.count, 1);
      NatReadsBack(levels.count);
      assert InClass(NatText(levels.count)[0], Digit);
    }
  }

  lemma ExpandOptionReads(options: ExpandQueryOptions, text: string, es: seq<ExpandExpression>, base: nat)
    requires IsTrimmed(text) && ParseClauses(text, base) == Success(es)
    ensures ParseOption(options, "$expand" + "=" + text, base) == Success(options.(expand := Clauses(es)))
  {
    hide ParseClauses, Trim, ParseCount;
    SegmentSplits("$expand", text);
  }

  /** The options before the `k`-th, and no more. */
  function UpTo(o: ExpandQueryOptions, k: nat): ExpandQueryOptions {
    ExpandQueryOptions(
      if k > 0 then o.select else None, if k > 1 then o.filter else None, if k > 2 then o.orderby else None,
      if k > 3 then o.top else None, if k > 4 then o.skip else None, if k > 5 then o.count else None,
      if k > 6 then o.expand else NoClauses, if k > 7 then o.levels else None)
  }

  lemma {:induction false} OptionReads(o: ExpandQueryOptions, k: nat, base: nat)
    requires WellFormedOptions(o) && k < OPTION_COUNT && Given(o, k)
    ensures ParseOption(UpTo(o, k), Key(k) + "=" + ValueText(o, k), base) == Success(UpTo(o, k + 1))
    decreases o, 0
  {
    hide ParseOption, NatText, ClausesText, LevelsText;
    match k
    case 0 => TextOptionReads(UpTo(o, k), o.select.value, base);
    case 1 => TextOptionReads(UpTo(o, k), o.filter.value, base);
    case 2 => TextOptionReads(UpTo(o, k), o.orderby.value, base);
    case 3 => CountOptionReads(UpTo(o, k), o.top.value, base);
    case 4 => CountOptionReads(UpTo(o, k), o.skip.value, base);
    case 5 => FlagOptionReads(UpTo(o, k), o.count.value, base);
    case 6 =>
      ClausesRead(o.expand.items, base);
      ClausesTrimmed(o.expand.items);
      ExpandOptionReads(UpTo(o, k), ClausesText(o.expand.items), o.expand.items, base);
    case _ => LevelsOptionReads(UpTo(o, k), o.levels.value, base);
  }

  lemma UpToSkips(o: ExpandQueryOptions, k: nat)
    requires k < OPTION_COUNT && !Given(o, k)
    ensures UpTo(o, k + 1) == UpTo(o, k)
  {
  }

  lemma UpToEnds(o: ExpandQueryOptions)
    ensures UpTo(o, 0) == NO_OPTIONS && UpTo(o, OPTION_COUNT) == o
  {
  }

  /** The written options, read one after another from none, come to the options. */
  lemma {:induction false} SegmentsRead(o: ExpandQueryOptions, k: nat, base: nat, bound: nat)
    requires WellFormedOptions(o) && k <= OPTION_COUNT && Bounded(SegmentsFrom(o, k), bound)
    ensures ParseSegments(SegmentsFrom(o, k), UpTo(o, k), base, bound) == Success(o)
    decreases o, 1, OPTION_COUNT - k
  {
    hide ParseOption, Key, Given, ValueText, UpTo, WellFormedOptions;
    if k == OPTION_COUNT {
      UpToEnds(o);
    } else {
      var rest := SegmentsFrom(o, k + 1);
      assert forall s <- rest :: s in SegmentsFrom(o, k);
      SegmentsRead(o, k + 1, base, bound);
      if Given(o, k) {
        var first := Key(k) + "=" + ValueText(o, k);
        OptionReads(o, k, base);
        assert first in SegmentsFrom(o, k);
        SegmentsStep(first, rest, UpTo(o, k), base, bound);
      } else {
        UpToSkips(o, k);
        assert SegmentsFrom(o, k) == rest;
      }
    }
  }

  lemma ClausesTrimmed(es: seq<ExpandExpression>)
    requires forall e <- es :: WellFormedExpand(e)
    ensures IsTrimmed(ClausesText(es))
  {
    hide ClausesText;
    ClausesWhole(es);
  }

  lemma WholeSplits(parts: seq<string>, d: char)
    requires IsDelimiter(d) && AllWhole(parts) && forall i | 0 <= i < |parts| :: Uncut(parts[i], d)
    ensures Split(JoinWith(parts, d), d) == parts
  {
    hide Split, Uncut;
    SplitInvertsJoin(parts, d);
  }

  lemma {:induction false} OptionsRead(o: ExpandQueryOptions, base: nat)
    requires WellFormedOptions(o)
    ensures ParseOptions(JoinWith(Segments(o), ';'), base) == Success(o)
    decreases o, 2
  {
    hide SegmentsFrom, Split, WellFormedOptions, ParseSegments, UpTo;
    var text := JoinWith(Segments(o), ';');
    SegmentsWhole(o, 0);
    WholeSplits(Segments(o), ';');
    SplitLength(text, ';');
    SegmentsRead(o, 0, base, |text|);
    UpToEnds(o);
  }

  /** The parenthesis that closes a clause is the one it was written with. */
  lemma {:induction false} CloseFound(clause: string, open: nat, i: nat)
    requires open < i < |clause|
    requires forall k | open < k < |clause| :: Depth(clause[open..k]) >= 1
    requires Depth(clause[open..]) == 0 && clause[|clause| - 1] == ')'
    ensures CloseIndex(clause, i, Depth(clause[open..i])) == Some(|clause| - 1)
    decreases |clause| - i
  {
    var upTo := clause[open..i];
    DepthMore(upTo, clause[i]);
    assert upTo + [clause[i]] == clause[open..i + 1];
    if i == |clause| - 1 {
      assert clause[open..i + 1] == clause[open..];
    } else {
      CloseFound(clause, open, i + 1);
    }
  }

  lemma ClauseOpens(property: string, options: string)
    requires IsProperty(property)
    ensures var clause := property + "(" + options + ")";
            && IndexOf(clause, '(') == Some(|property|) && clause[..|property|] == property
            && clause[|property|] == '(' && clause[|property|..] == "(" + options + ")"
            && clause[|property| + 1..|clause| - 1] == options
  {
    var clause := property + "(" + options + ")";
    assert forall i | 0 <= i < |property| :: clause[i] == property[i] && property[i] in property;
    IndexOfAt(clause, '(', |property|);
  }

  lemma DepthWithin(clause: string, open: nat, options: string)
    requires open < |clause| && clause[open..] == "(" + options + ")" && Nested(options)
    ensures Depth(clause[open..]) == 0 && Depth(clause[open..open + 1]) == 1
    ensures forall k | open < k < |clause| :: Depth(clause[open..k]) >= 1
  {
    Enclosed(options, ';');
    hide Depth, Nested;
    forall k | open < k < |clause| ensures Depth(clause[open..k]) >= 1 {
      assert clause[open..k] == clause[open..][..k - open];
    }
    DepthOpen("");
    assert clause[open..open + 1] == "(" + "";
    assert Depth("") == 0 by {
      NoDepth();
    }
  }

  lemma NoDepth()
    ensures Depth("") == 0
  {
  }

  lemma ClauseCloses(property: string, options: string)
    requires IsProperty(property) && Nested(options)
    ensures var clause := property + "(" + options + ")";
            && IndexOf(clause, '(') == Some(|property|) && clause[..|property|] == property
            && CloseIndex(clause, |property|, 0) == Some(|clause| - 1)
            && clause[|property| + 1..|clause| - 1] == options
  {
    var clause := property + "(" + options + ")";
    var open := |property|;
    ClauseOpens(property, options);
    hide IndexOf, IsProperty;
    DepthWithin(clause, open, options);
    hide Depth, Nested;
    CloseFound(clause, open, open + 1);
    assert CloseIndex(clause, open, 0) == CloseIndex(clause, open + 1, 1);
  }

  lemma {:induction false} ClauseReads(e: ExpandExpression, base: nat)
    requires WellFormedExpand(e)
    ensures ParseClause(ClauseText(e), base) == Success(e)
    decreases e, 3
  {
    hide ParseOptions, SegmentsFrom, CloseIndex, WellFormedOptions;
    var property := e.property;
    if e.options == NO_OPTIONS {
      assert '(' !in property;
    } else {
      var options := JoinWith(Segments(e.options), ';');
      SegmentsWhole(e.options, 0);
      JoinWhole(Segments(e.options), ';');
      ClauseCloses(property, options);
      OptionsRead(e.options, base + |property| + 1);
      SegmentsGiven(e.options);
    }
  }

  lemma SegmentsGiven(o: ExpandQueryOptions)
    requires o != NO_OPTIONS
    ensures Segments(o) != []
  {
    hide ValueText;
    var k: nat :| k < OPTION_COUNT && Given(o, k) by {
      assert Given(o, 0) || Given(o, 1) || Given(o, 2) || Given(o, 3) || Given(o, 4) || Given(o, 5) || Given(o, 6) || Given(o, 7);
    }
    SegmentsHold(o, 0, k);
  }

  lemma {:induction false} SegmentsHold(o: ExpandQueryOptions, from: nat, k: nat)
    requires from <= k < OPTION_COUNT && Given(o, k)
    ensures SegmentsFrom(o, from) != []
    decreases k - from
  {
    hide ValueText;
    if from < k {
      SegmentsHold(o, from + 1, k);
    }
  }

  lemma {:induction false} EachReads(es: seq<ExpandExpression>, base: nat, bound: nat)
    requires (forall e <- es :: WellFormedExpand(e)) && Bounded(ClauseTexts(es), bound)
    ensures ParseEach(ClauseTexts(es), base, bound) == Success(es)
    decreases es, 4
  {
    hide ClauseText, ParseClause, WellFormedExpand;
    if es != [] {
      var texts := ClauseTexts(es);
      ClauseReads(es[0], base);
      assert texts[1..] == ClauseTexts(es[1..]) && forall t <- texts[1..] :: t in texts;
      EachReads(es[1..], base, bound);
      assert [es[0]] + es[1..] == es;
    }
  }

  lemma {:induction false} ClausesRead(es: seq<ExpandExpression>, base: nat)
    requires forall e <- es :: WellFormedExpand(e)
    ensures ParseClauses(ClausesText(es), base) == Success(es)
    decreases es, 5
  {
    hide Split, WellFormedExpand, ParseEach, ClauseTexts, Whole, Uncut;
    ClausesWhole(es);
    WholeSplits(ClauseTexts(es), ',');
    SplitLength(ClausesText(es), ',');
    EachReads(es, base, |ClausesText(es)|);
  }

  /** Every well-formed list of clauses, nested to any depth, parses back from its written form. */
  lemma ExpandRoundTrips(es: seq<ExpandExpression>)
    requires forall e <- es :: WellFormedExpand(e)
    ensures ParseExpand(ClausesText(es)) == Success(es)
  {
    hide WellFormedExpand, ParseClauses, ClauseTexts, Whole, Uncut;
    ClausesTrimmed(es);
    ClausesRead(es, 0);
    if es != [] {
      ClausesWhole(es);
      JoinWhole(ClauseTexts(es), ',');
    }
  }
}
