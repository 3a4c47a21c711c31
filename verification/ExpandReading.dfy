/** What an `$expand` text means, said of its clauses and segments: when it is read at all, and what each option is given. */
module ExpandReading {
  import opened Strings
  import opened ExpandSplit
  import opened ExpandParser
  import opened ExpandExact

  // Segments

  /** A key and a value, and the first `=` between them. */
  predicate IsSetting(segment: string) {
    '=' in segment
  }

  function KeyOf(segment: string): string
    requires IsSetting(segment)
  {
    Trim(segment[..IndexOf(segment, '=').value])
  }

  function ValueOf(segment: string): (value: string)
    requires IsSetting(segment)
    ensures |value| < |segment|
  {
    Trim(segment[IndexOf(segment, '=').value + 1..])
  }

  predicate Sets(segment: string, key: string) {
    IsSetting(segment) && KeyOf(segment) == key
  }

  /** What the last segment with the key gives it. */
  function LastValue(segments: seq<string>, key: string): (value: Option<string>)
    ensures value.Some? <==> exists segment <- segments :: Sets(segment, key)
    ensures value.Some? ==> exists segment <- segments :: Sets(segment, key) && value.value == ValueOf(segment)
  {
    if segments == [] then None
    else
      var last := segments[|segments| - 1];
      if Sets(last, key) then Some(ValueOf(last)) else LastValue(segments[..|segments| - 1], key)
  }

  predicate IsCount(value: string, least: nat) {
    NumberOf(value).Some? && NumberOf(value).value >= least
  }

  // What is read

  ghost predicate ClausesRead(text: string)
    decreases |text|, 2
  {
    SplitLength(text, ',');
    forall clause <- Split(text, ',') :: ClauseReads(clause)
  }

  /** Where the parenthesis at `open` is closed: the first place the depth is back to what it was. */
  predicate Closes(clause: string, open: nat, close: nat) {
    && open < close < |clause| && clause[open] == '(' && clause[close] == ')'
    && Depth(clause[open..close]) == 1 && forall k | open < k <= close :: Depth(clause[open..k]) >= 1
  }

  /** A name, and after it nothing or a parenthesis that is closed, around options that are read. */
  ghost predicate ClauseReads(clause: string)
    decreases |clause|, 0
  {
    if '(' !in clause then Trim(clause) != ""
    else
      var open := IndexOf(clause, '(').value;
      Trim(clause[..open]) != "" && exists close: nat :: Closes(clause, open, close) && OptionsRead(clause[open + 1..close])
  }

  ghost predicate OptionsRead(text: string)
    decreases |text|, 2
  {
    SplitLength(text, ';');
    forall segment <- Split(text, ';') :: SegmentReads(segment)
  }

  /** A key of the eight, and a value that it takes. */
  ghost predicate SegmentReads(segment: string)
    decreases |segment|, 0
  {
    IsSetting(segment) &&
    var key, value := KeyOf(segment), ValueOf(segment);
    || key == "$select" || key == "$filter" || key == "$orderby" || key == "$count"
    || ((key == "$top" || key == "$skip") && IsCount(value, 0))
    || (key == "$levels" && (value == "max" || IsCount(value, 1)))
    || (key == "$expand" && ClausesRead(value))
  }

  // What is meant

  ghost predicate ClausesMean(text: string, es: seq<ExpandExpression>)
    decreases |text|, 2
  {
    SplitLength(text, ',');
    var clauses := Split(text, ',');
    |es| == |clauses| && forall i | 0 <= i < |es| :: assert clauses[i] in clauses; ClauseMeans(clauses[i], es[i])
  }

  ghost predicate ClauseMeans(clause: string, e: ExpandExpression)
    decreases |clause|, 0
  {
    if '(' !in clause then e == ExpandExpression(Trim(clause), NO_OPTIONS)
    else
      var open := IndexOf(clause, '(').value;
      && e.property == Trim(clause[..open])
      && exists close: nat :: Closes(clause, open, close) && OptionsMean(clause[open + 1..close], e.options)
  }

  /** What the last segments with the eight keys give them. */
  datatype Settings = Settings(
    select: Option<string>, filter: Option<string>, orderby: Option<string>, top: Option<string>, skip: Option<string>,
    count: Option<string>, expand: Option<string>, levels: Option<string>)

  const NO_SETTINGS := Settings(None, None, None, None, None, None, None, None)

  function SettingsOf(segments: seq<string>): Settings {
    Settings(LastValue(segments, "$select"), LastValue(segments, "$filter"), LastValue(segments, "$orderby"),
      LastValue(segments, "$top"), LastValue(segments, "$skip"), LastValue(segments, "$count"),
      LastValue(segments, "$expand"), LastValue(segments, "$levels"))
  }

  /** Every option has what the last segment with its key gives it, and is left out where there is none. */
  ghost predicate OptionsMean(text: string, o: ExpandQueryOptions)
    decreases |text|, 2
  {
    SplitLength(text, ';');
    Given(SettingsOf(Split(text, ';')), o, NO_OPTIONS, |text|)
  }

  predicate Short(settings: Settings, bound: nat) {
    settings.expand.Some? ==> |settings.expand.value| < bound
  }

  /** What is set is given, and what is not is as it was before. */
  ghost predicate Given(settings: Settings, o: ExpandQueryOptions, before: ExpandQueryOptions, bound: nat)
    requires Short(settings, bound)
    decreases bound, 1
  {
    && IsText(settings.select, o.select, before.select)
    && IsText(settings.filter, o.filter, before.filter)
    && IsText(settings.orderby, o.orderby, before.orderby)
    && IsNumber(settings.top, o.top, before.top)
    && IsNumber(settings.skip, o.skip, before.skip)
    && IsFlag(settings.count, o.count, before.count)
    && (match settings.expand
        case None => o.expand == before.expand
        case Some(value) => o.expand.Clauses? && ClausesMean(value, o.expand.items))
    && AreLevels(settings.levels, o.levels, before.levels)
  }

  predicate IsText(value: Option<string>, text: Option<string>, before: Option<string>) {
    text == if value.Some? then value else before
  }

  predicate IsNumber(value: Option<string>, n: Option<nat>, before: Option<nat>) {
    match value
    case None => n == before
    case Some(text) => n.Some? && NumberOf(text) == Some(n.value)
  }

  predicate IsFlag(value: Option<string>, flag: Option<bool>, before: Option<bool>) {
    flag == if value.Some? then Some(value.value == "true") else before
  }

  predicate AreLevels(value: Option<string>, levels: Option<Levels>, before: Option<Levels>) {
    match value
    case None => levels == before
    case Some(text) =>
      levels.Some? && if text == "max" then levels.value.MaxLevels?
                      else levels.value.LevelCount? && NumberOf(text) == Some(levels.value.count)
  }

  // Options

  lemma LastStep(init: seq<string>, last: string, key: string)
    ensures LastValue(init + [last], key) == if Sets(last, key) then Some(ValueOf(last)) else LastValue(init, key)
  {
    hide Sets, ValueOf;
    assert (init + [last])[..|init|] == init;
  }

  lemma {:induction false} FirstSetting(segment: string, rest: seq<string>, key: string)
    ensures LastValue([segment] + rest, key) == OrElse(LastValue(rest, key), LastValue([segment], key))
    decreases |rest|
  {
    hide Sets, ValueOf;
    if rest == [] {
      assert [segment] + rest == [segment];
    } else {
      var init, last := rest[..|rest| - 1], rest[|rest| - 1];
      FirstSetting(segment, init, key);
      LastStep(init, last, key);
      LastStep([segment] + init, last, key);
      hide LastValue;
      assert init + [last] == rest;
      ConcatAssociates([segment], init, [last]);
    }
  }

  lemma OneSetting(segment: string, key: string)
    ensures LastValue([segment], key) == if Sets(segment, key) then Some(ValueOf(segment)) else None
  {
  }

  function Over(later: Settings, earlier: Settings): Settings {
    Settings(OrElse(later.select, earlier.select), OrElse(later.filter, earlier.filter), OrElse(later.orderby, earlier.orderby),
      OrElse(later.top, earlier.top), OrElse(later.skip, earlier.skip), OrElse(later.count, earlier.count),
      OrElse(later.expand, earlier.expand), OrElse(later.levels, earlier.levels))
  }

  lemma SettingsJoin(segment: string, rest: seq<string>)
    ensures SettingsOf([segment] + rest) == Over(SettingsOf(rest), SettingsOf([segment]))
  {
    hide LastValue;
    FirstSetting(segment, rest, "$select");
    FirstSetting(segment, rest, "$filter");
    FirstSetting(segment, rest, "$orderby");
    FirstSetting(segment, rest, "$top");
    FirstSetting(segment, rest, "$skip");
    FirstSetting(segment, rest, "$count");
    FirstSetting(segment, rest, "$expand");
    FirstSetting(segment, rest, "$levels");
  }

  lemma SettingsAreShort(segments: seq<string>, bound: nat)
    requires forall segment <- segments :: |segment| <= bound
    ensures Short(SettingsOf(segments), bound)
  {
    hide LastValue, Sets, ValueOf;
  }

  /** What earlier settings give and later ones give after them is what all give. */
  lemma GivenJoins(earlier: Settings, later: Settings, o: ExpandQueryOptions, mid: ExpandQueryOptions, before: ExpandQueryOptions,
                   bound: nat, more: nat)
    requires bound <= more && Short(earlier, bound) && Short(later, more)
    requires Given(earlier, mid, before, bound) && Given(later, o, mid, more)
    ensures Given(Over(later, earlier), o, before, more)
  {
    hide ClausesMean, NumberOf;
  }

  lemma NothingGiven(options: ExpandQueryOptions, bound: nat)
    ensures SettingsOf([]) == NO_SETTINGS && Given(NO_SETTINGS, options, options, bound)
  {
  }

  lemma KeysDiffer()
    ensures "$select" != "$filter" && "$select" != "$orderby" && "$select" != "$top" && "$select" != "$skip" && "$select" != "$count"
    ensures "$select" != "$expand" && "$select" != "$levels" && "$filter" != "$orderby" && "$filter" != "$top" && "$filter" != "$skip"
    ensures "$filter" != "$count" && "$filter" != "$expand" && "$filter" != "$levels" && "$orderby" != "$top" && "$orderby" != "$skip"
    ensures "$orderby" != "$count" && "$orderby" != "$expand" && "$orderby" != "$levels" && "$top" != "$skip" && "$top" != "$count"
    ensures "$top" != "$expand" && "$top" != "$levels" && "$skip" != "$count" && "$skip" != "$expand" && "$skip" != "$levels"
    ensures "$count" != "$expand" && "$count" != "$levels" && "$expand" != "$levels"
  {
  }

  function SettingOf(key: string, value: string): Settings {
    var it := Some(value);
    if key == "$select" then NO_SETTINGS.(select := it)
    else if key == "$filter" then NO_SETTINGS.(filter := it)
    else if key == "$orderby" then NO_SETTINGS.(orderby := it)
    else if key == "$top" then NO_SETTINGS.(top := it)
    else if key == "$skip" then NO_SETTINGS.(skip := it)
    else if key == "$count" then NO_SETTINGS.(count := it)
    else if key == "$expand" then NO_SETTINGS.(expand := it)
    else if key == "$levels" then NO_SETTINGS.(levels := it)
    else NO_SETTINGS
  }

  lemma SettingsOfOne(segment: string)
    requires IsSetting(segment)
    ensures SettingsOf([segment]) == SettingOf(KeyOf(segment), ValueOf(segment))
  {
    KeysDiffer();
    OneSetting(segment, "$select");
    OneSetting(segment, "$filter");
    OneSetting(segment, "$orderby");
    OneSetting(segment, "$top");
    OneSetting(segment, "$skip");
    OneSetting(segment, "$count");
    OneSetting(segment, "$expand");
    OneSetting(segment, "$levels");
    hide LastValue, KeyOf, ValueOf;
  }

  /** What reading a segment over some options comes to: nothing read, or its setting given. */
  ghost predicate ReadAs(options: ExpandQueryOptions, segment: string, r: ExpandResult<ExpandQueryOptions>)
    requires IsSetting(segment)
  {
    var setting := SettingOf(KeyOf(segment), ValueOf(segment));
    && (r.Success? <==> SegmentReads(segment))
    && (r.Success? ==> Short(setting, |segment|) && Given(setting, r.value, options, |segment|))
  }

  lemma TextReads(options: ExpandQueryOptions, segment: string, base: nat)
    requires IsSetting(segment)
    requires KeyOf(segment) == "$select" || KeyOf(segment) == "$filter" || KeyOf(segment) == "$orderby" || KeyOf(segment) == "$count"
    ensures ReadAs(options, segment, ParseOption(options, segment, base))
  {
    hide NumberOf, ParseClauses, ClausesRead, ClausesMean, Trim, IndexOf;
    KeysDiffer();
  }

  lemma CountReads(options: ExpandQueryOptions, segment: string, base: nat)
    requires IsSetting(segment) && (KeyOf(segment) == "$top" || KeyOf(segment) == "$skip")
    ensures ReadAs(options, segment, ParseOption(options, segment, base))
  {
    hide NumberOf, ParseClauses, ClausesRead, ClausesMean, Trim, IndexOf;
    KeysDiffer();
  }

  lemma LevelsRead(options: ExpandQueryOptions, segment: string, base: nat)
    requires IsSetting(segment) && KeyOf(segment) == "$levels"
    ensures ReadAs(options, segment, ParseOption(options, segment, base))
  {
    hide NumberOf, ParseClauses, ClausesRead, ClausesMean, Trim, IndexOf;
    KeysDiffer();
  }

  lemma ClausesOptionReads(options: ExpandQueryOptions, segment: string, base: nat)
    requires IsSetting(segment) && KeyOf(segment) == "$expand"
    requires var r, value := ParseClauses(ValueOf(segment), base), ValueOf(segment);
             (r.Success? <==> ClausesRead(value)) && (r.Success? ==> ClausesMean(value, r.value))
    ensures ReadAs(options, segment, ParseOption(options, segment, base))
  {
    hide NumberOf, ParseClauses, ClausesRead, ClausesMean, Trim, IndexOf;
    KeysDiffer();
  }

  /** One segment is read exactly where it has a key of the eight and a value that it takes, and it gives that option alone. */
  lemma {:induction false} OptionExactly(options: ExpandQueryOptions, segment: string, base: nat)
    ensures ParseOption(options, segment, base).Success? <==> SegmentReads(segment)
    ensures ParseOption(options, segment, base).Success? ==>
              && Short(SettingsOf([segment]), |segment|)
              && Given(SettingsOf([segment]), ParseOption(options, segment, base).value, options, |segment|)
    decreases |segment|, 0
  {
    if !IsSetting(segment) {
      NoSetting(options, segment, base);
    } else {
      SettingsOfOne(segment);
      hide ParseOption, SegmentReads, KeyOf, ValueOf, SettingOf, SettingsOf, Given, Short, ParseClauses, ClausesRead, ClausesMean;
      var key := KeyOf(segment);
      if key == "$select" || key == "$filter" || key == "$orderby" || key == "$count" {
        TextReads(options, segment, base);
      } else if key == "$top" || key == "$skip" {
        CountReads(options, segment, base);
      } else if key == "$levels" {
        LevelsRead(options, segment, base);
      } else if key == "$expand" {
        ClausesExactly(ValueOf(segment), base);
        ClausesOptionReads(options, segment, base);
      } else {
        UnknownKey(options, segment, base);
      }
    }
  }

  lemma NoSetting(options: ExpandQueryOptions, segment: string, base: nat)
    requires !IsSetting(segment)
    ensures ParseOption(options, segment, base).Failure? && !SegmentReads(segment)
  {
    hide ParseClauses, ClausesRead, NumberOf;
  }

  lemma UnknownKey(options: ExpandQueryOptions, segment: string, base: nat)
    requires IsSetting(segment)
    requires var key := KeyOf(segment);
             && key != "$select" && key != "$filter" && key != "$orderby" && key != "$count"
             && key != "$top" && key != "$skip" && key != "$levels" && key != "$expand"
    ensures ParseOption(options, segment, base).Failure? && !SegmentReads(segment)
  {
    hide ParseClauses, ClausesRead, NumberOf, Trim, IndexOf;
  }

  lemma {:induction false} SegmentsExactly(segments: seq<string>, options: ExpandQueryOptions, base: nat, bound: nat)
    requires forall segment <- segments :: |segment| <= bound
    ensures var r := ParseSegments(segments, options, base, bound);
            && (r.Success? <==> forall segment <- segments :: SegmentReads(segment))
            && (r.Success? ==> Short(SettingsOf(segments), bound) && Given(SettingsOf(segments), r.value, options, bound))
    decreases bound, 1, |segments|
  {
    hide ParseOption, SegmentReads, Given, SettingsOf, Short;
    SettingsAreShort(segments, bound);
    if segments == [] {
      NothingGiven(options, bound);
    } else {
      var first, rest := segments[0], segments[1..];
      assert first in segments && segments == [first] + rest;
      OptionExactly(options, first, base);
      if ParseOption(options, first, base).Success? {
        var mid := ParseOption(options, first, base).value;
        SegmentsExactly(rest, mid, base, bound);
        if ParseSegments(rest, mid, base, bound).Success? {
          SettingsJoin(first, rest);
          GivenJoins(SettingsOf([first]), SettingsOf(rest), ParseSegments(rest, mid, base, bound).value, mid, options, |first|, bound);
        }
      }
    }
  }

  lemma {:induction false} OptionsExactly(text: string, base: nat)
    ensures ParseOptions(text, base).Success? <==> OptionsRead(text)
    ensures ParseOptions(text, base).Success? ==> OptionsMean(text, ParseOptions(text, base).value)
    decreases |text|, 2
  {
    hide ParseSegments, Split, SegmentReads, Given, SettingsOf;
    SplitLength(text, ';');
    SegmentsExactly(Split(text, ';'), NO_OPTIONS, base, |text|);
  }

  // Clauses

  lemma {:induction false} CloseFound(clause: string, open: nat, close: nat, i: nat)
    requires Closes(clause, open, close) && open < i <= close
    ensures CloseIndex(clause, i, Depth(clause[open..i])) == Some(close)
    decreases close - i
  {
    assert clause[open..i + 1] == clause[open..i] + [clause[i]];
    assert clause[open..i + 1][..i - open] == clause[open..i];
    if i < close {
      assert Depth(clause[open..i + 1]) >= 1;
      CloseFound(clause, open, close, i + 1);
    }
  }

  /** The parenthesis that closes one is found exactly where it stands. */
  lemma CloseExactly(clause: string, open: nat)
    requires open < |clause| && clause[open] == '('
    ensures forall close: nat :: CloseIndex(clause, open, 0) == Some(close) <==> Closes(clause, open, close)
  {
    hide Depth, CloseIndex;
    Opens(clause, open);
    if CloseIndex(clause, open, 0).Some? {
      CloseStays(clause, open, open + 1);
      var close := CloseIndex(clause, open, 0).value;
      assert Closes(clause, open, close);
    }
    forall close: nat | Closes(clause, open, close) ensures CloseIndex(clause, open, 0) == Some(close) {
      CloseFound(clause, open, close, open + 1);
    }
  }

  lemma {:induction false} ClauseExactly(clause: string, base: nat)
    ensures ParseClause(clause, base).Success? <==> ClauseReads(clause)
    ensures ParseClause(clause, base).Success? ==> ClauseMeans(clause, ParseClause(clause, base).value)
    decreases |clause|, 0
  {
    hide CloseIndex, ParseOptions, OptionsRead, OptionsMean, Trim, Closes;
    if '(' in clause {
      var open := IndexOf(clause, '(').value;
      hide IndexOf;
      CloseExactly(clause, open);
      if CloseIndex(clause, open, 0).Some? {
        var close := CloseIndex(clause, open, 0).value;
        CloseIsAfter(clause, open, close);
        OptionsExactly(clause[open + 1..close], base + open + 1);
        NoOptions();
      }
    }
  }

  lemma CloseIsAfter(clause: string, open: nat, close: nat)
    requires Closes(clause, open, close)
    ensures open < close < |clause|
  {
  }

  lemma NoOptions()
    ensures OptionsRead("") && OptionsMean("", NO_OPTIONS)
  {
    assert Split("", ';') == [];
  }

  lemma {:induction false} EachExactly(clauses: seq<string>, base: nat, bound: nat)
    requires forall clause <- clauses :: |clause| <= bound
    ensures var r := ParseEach(clauses, base, bound);
            && (r.Success? <==> forall clause <- clauses :: ClauseReads(clause))
            && (r.Success? ==> |r.value| == |clauses| && forall i | 0 <= i < |clauses| :: ClauseMeans(clauses[i], r.value[i]))
    decreases bound, 1, |clauses|
  {
    hide ParseClause, ClauseReads, ClauseMeans;
    if clauses != [] {
      var first, rest := clauses[0], clauses[1..];
      assert first in clauses && clauses == [first] + rest;
      ClauseExactly(first, base);
      EachExactly(rest, base, bound);
    }
  }

  lemma {:induction false} ClausesExactly(text: string, base: nat)
    ensures ParseClauses(text, base).Success? <==> ClausesRead(text)
    ensures ParseClauses(text, base).Success? ==> ClausesMean(text, ParseClauses(text, base).value)
    decreases |text|, 2
  {
    hide ParseEach, Split, ClauseReads, ClauseMeans;
    SplitLength(text, ',');
    EachExactly(Split(text, ','), base, |text|);
  }

  // The theorems

  ghost predicate ExpandReads(expand: string) {
    Trim(expand) == "" || ClausesRead(Trim(expand))
  }

  ghost predicate ExpandMeans(expand: string, es: seq<ExpandExpression>) {
    if Trim(expand) == "" then es == [] else ClausesMean(Trim(expand), es)
  }

  /**
   * An `$expand` is read exactly where each of its clauses has a name and, if a parenthesis, one that is closed, and each
   * segment between them a key of the eight and a value that the key takes; what it is read as is what those give.
   */
  lemma ExpandReadsExactly(expand: string)
    ensures ParseExpand(expand).Success? <==> ExpandReads(expand)
    ensures ParseExpand(expand).Success? ==> ExpandMeans(expand, ParseExpand(expand).value)
  {
    hide ParseClauses, ClausesRead, ClausesMean, Trim;
    ClausesExactly(Trim(expand), 0);
  }

  // One meaning

  lemma {:induction false} ClausesMeanOne(text: string, es: seq<ExpandExpression>, fs: seq<ExpandExpression>)
    requires ClausesMean(text, es) && ClausesMean(text, fs)
    ensures es == fs
    decreases |text|, 2
  {
    hide Split, ClauseMeans;
    SplitLength(text, ',');
    var clauses := Split(text, ',');
    forall i | 0 <= i < |es| ensures es[i] == fs[i] {
      assert clauses[i] in clauses;
      ClauseMeansOne(clauses[i], es[i], fs[i]);
    }
  }

  lemma {:induction false} ClauseMeansOne(clause: string, e: ExpandExpression, f: ExpandExpression)
    requires ClauseMeans(clause, e) && ClauseMeans(clause, f)
    ensures e == f
    decreases |clause|, 0
  {
    hide OptionsMean, Closes, Trim;
    if '(' in clause {
      var open := IndexOf(clause, '(').value;
      hide IndexOf;
      CloseExactly(clause, open);
      var close: nat :| Closes(clause, open, close) && OptionsMean(clause[open + 1..close], e.options);
      CloseIsAfter(clause, open, close);
      OptionsMeanOne(clause[open + 1..close], e.options, f.options);
    }
  }

  lemma {:induction false} OptionsMeanOne(text: string, o: ExpandQueryOptions, p: ExpandQueryOptions)
    requires OptionsMean(text, o) && OptionsMean(text, p)
    ensures o == p
    decreases |text|, 2
  {
    hide Split, SettingsOf, NumberOf, ClausesMean;
    SplitLength(text, ';');
    SettingsAreShort(Split(text, ';'), |text|);
    var settings := SettingsOf(Split(text, ';'));
    if settings.expand.Some? {
      ClausesMeanOne(settings.expand.value, o.expand.items, p.expand.items);
    }
  }

  /** A text parses to a list of clauses exactly where it is read and the list is what it means. */
  lemma ExpandParsesExactly(expand: string, es: seq<ExpandExpression>)
    ensures ParseExpand(expand) == Success(es) <==> ExpandReads(expand) && ExpandMeans(expand, es)
  {
    hide ParseExpand, ExpandReads, ClausesMean, Trim;
    ExpandReadsExactly(expand);
    if ParseExpand(expand).Success? && ExpandMeans(expand, es) && Trim(expand) != "" {
      ClausesMeanOne(Trim(expand), es, ParseExpand(expand).value);
    }
  }

  /** An option of a clause is given exactly where some segment of it has the option's key. */
  lemma GivenExactly(text: string, o: ExpandQueryOptions)
    requires OptionsMean(text, o)
    ensures var segments := Split(text, ';');
            && (o.select.Some? <==> exists segment <- segments :: Sets(segment, "$select"))
            && (o.filter.Some? <==> exists segment <- segments :: Sets(segment, "$filter"))
            && (o.orderby.Some? <==> exists segment <- segments :: Sets(segment, "$orderby"))
            && (o.top.Some? <==> exists segment <- segments :: Sets(segment, "$top"))
            && (o.skip.Some? <==> exists segment <- segments :: Sets(segment, "$skip"))
            && (o.count.Some? <==> exists segment <- segments :: Sets(segment, "$count"))
            && (o.expand.Clauses? <==> exists segment <- segments :: Sets(segment, "$expand"))
            && (o.levels.Some? <==> exists segment <- segments :: Sets(segment, "$levels"))
  {
    hide Split, NumberOf, ClausesMean, Sets, LastValue;
  }
}
