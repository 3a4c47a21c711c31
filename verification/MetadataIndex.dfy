/** The index of a metadata report by resource and field, against the report's lists. */
module MetadataIndex {
  import opened Strings

  datatype Annotation = Annotation(term: string, value: string)

  datatype Lookup = Lookup(lookupName: string, lookupValue: string, ofType: string, annotations: seq<Annotation>)

  datatype Field = Field(
    resourceName: string, fieldName: string, ofType: string, typeName: string, nullable: bool, isCollection: bool,
    isExpansion: bool, isComplexType: bool, isEnumeration: bool, annotations: seq<Annotation>)

  datatype Report = Report(fields: seq<Field>, lookups: seq<Lookup>)

  const STANDARD_NAME := "RESO.OData.Metadata.StandardName"
  const DD_WIKI_URL := "RESO.DDWikiUrl"

  /** A lookup as the index keeps it: a string enumeration's value is its own, another's is its annotation. */
  datatype KeptLookup = KeptLookup(
    lookupValue: Option<string>, standardLookupValue: Option<string>, legacyODataValue: Option<string>,
    ddWikiUrl: Option<string>, isStringEnumeration: bool)

  /** A value in the index. */
  datatype IndexedValue = IndexedValue(ofType: string, lookupName: string, kept: KeptLookup)

  datatype Entry = Entry(
    field: Field, isLookupField: bool, isComplexType: bool, ddWikiUrl: Option<string>,
    lookupValues: map<string, IndexedValue>, legacyODataValues: map<string, IndexedValue>)

  datatype Stats = Stats(numResources: nat, numFields: nat, numLookups: nat, numExpansions: nat, numComplexTypes: nat)

  /** The last annotation of a term. */
  function Annotated(annotations: seq<Annotation>, term: string): Option<string> {
    if annotations == [] then None
    else
      var last := annotations[|annotations| - 1];
      if last.term == term then Some(last.value) else Annotated(annotations[..|annotations| - 1], term)
  }

  predicate StartsWith(s: string, start: string) {
    |start| <= |s| && s[..|start|] == start
  }

  predicate EndsWith(s: string, end: string) {
    |end| <= |s| && s[|s| - |end|..] == end
  }

  predicate Includes(s: string, part: string) {
    exists i :: 0 <= i <= |s| && StartsWith(s[i..], part)
  }

  predicate IsSampleValue(value: string) {
    StartsWith(value, "Sample") && EndsWith(value, "EnumValue")
  }

  predicate IsSample(lookup: Lookup) {
    var standard := Annotated(lookup.annotations, STANDARD_NAME);
    IsSampleValue(lookup.lookupValue) || (standard.Some? && IsSampleValue(standard.value))
  }

  function KeptAs(lookup: Lookup): KeptLookup {
    var standard, url := Annotated(lookup.annotations, STANDARD_NAME), Annotated(lookup.annotations, DD_WIKI_URL);
    if Includes(lookup.ofType, "Edm.String") then KeptLookup(Some(lookup.lookupValue), standard, None, url, true)
    else KeptLookup(standard, None, Some(lookup.lookupValue), url, false)
  }

  /** The lookups of a name that are no samples, in order. */
  function KeptOf(lookups: seq<Lookup>, name: string): seq<KeptLookup> {
    if lookups == [] then []
    else
      var last := lookups[|lookups| - 1];
      KeptOf(lookups[..|lookups| - 1], name) + if last.lookupName == name && !IsSample(last) then [KeptAs(last)] else []
  }

  predicate NamesLookup(lookups: seq<Lookup>, name: string) {
    exists i :: 0 <= i < |lookups| && lookups[i].lookupName == name
  }

  function CountLookups(lookups: seq<Lookup>): nat {
    if lookups == [] then 0
    else CountLookups(lookups[..|lookups| - 1]) + if IsSample(lookups[|lookups| - 1]) then 0 else 1
  }

  /** The part of a name after its last period. */
  function ShortName(name: string): string {
    if name == "" || name[|name| - 1] == '.' then "" else ShortName(name[..|name| - 1]) + [name[|name| - 1]]
  }

  function NonEmpty(value: Option<string>): Option<string> {
    if value == Some("") then None else value
  }

  function ValueKey(kept: KeptLookup): Option<string> {
    NonEmpty(kept.lookupValue)
  }

  function LegacyKey(kept: KeptLookup): Option<string> {
    if kept.isStringEnumeration then None else NonEmpty(kept.legacyODataValue)
  }

  function KeyOf(kept: KeptLookup, legacy: bool): Option<string> {
    if legacy then LegacyKey(kept) else ValueKey(kept)
  }

  /** The last of some lookups with a key. */
  function LastWith(kept: seq<KeptLookup>, legacy: bool, value: string): Option<KeptLookup> {
    if kept == [] then None
    else if KeyOf(kept[|kept| - 1], legacy) == Some(value) then Some(kept[|kept| - 1])
    else LastWith(kept[..|kept| - 1], legacy, value)
  }

  lemma {:induction false} LastWithExactly(kept: seq<KeptLookup>, legacy: bool, value: string, found: KeptLookup)
    ensures LastWith(kept, legacy, value) == Some(found)
       <==> exists i :: 0 <= i < |kept| && kept[i] == found && KeyOf(kept[i], legacy) == Some(value)
                        && forall j | i < j < |kept| :: KeyOf(kept[j], legacy) != Some(value)
  {
    if kept != [] {
      var init, last := kept[..|kept| - 1], kept[|kept| - 1];
      LastWithExactly(init, legacy, value, found);
      if KeyOf(last, legacy) != Some(value) {
        forall i | 0 <= i < |kept| && kept[i] == found && KeyOf(kept[i], legacy) == Some(value)
                   && forall j | i < j < |kept| :: KeyOf(kept[j], legacy) != Some(value)
          ensures LastWith(init, legacy, value) == Some(found)
        {
          assert init[i] == found && forall j | i < j < |init| :: KeyOf(init[j], legacy) != Some(value);
        }
      }
    }
  }

  function IndexedAs(ofType: string, kept: KeptLookup): IndexedValue {
    IndexedValue(ofType, ShortName(ofType), kept.(standardLookupValue := NonEmpty(kept.standardLookupValue)))
  }

  /** Every key that the lookups have and no other, each with the last of them that has it. */
  ghost predicate Indexes(index: map<string, IndexedValue>, ofType: string, kept: seq<KeptLookup>, legacy: bool) {
    && (forall value :: value in index <==> LastWith(kept, legacy, value).Some?)
    && (forall value | value in index :: index[value] == IndexedAs(ofType, LastWith(kept, legacy, value).value))
  }

  function LastField(fields: seq<Field>, resource: string, name: string): Option<Field> {
    if fields == [] then None
    else
      var last := fields[|fields| - 1];
      if last.resourceName == resource && last.fieldName == name then Some(last)
      else LastField(fields[..|fields| - 1], resource, name)
  }

  predicate IsComplex(field: Field, lookups: seq<Lookup>) {
    field.isComplexType
    || (!field.isExpansion && !StartsWith(field.ofType, "Edm.") && !NamesLookup(lookups, field.ofType))
  }

  /** The entry of a field, as the report has it. */
  ghost predicate Describes(entry: Entry, field: Field, lookups: seq<Lookup>) {
    && entry.field == field
    && entry.isLookupField == NamesLookup(lookups, field.ofType)
    && entry.isComplexType == IsComplex(field, lookups)
    && entry.ddWikiUrl == Annotated(field.annotations, DD_WIKI_URL)
    && Indexes(entry.lookupValues, field.ofType, KeptOf(lookups, field.ofType), false)
    && Indexes(entry.legacyODataValues, field.ofType, KeptOf(lookups, field.ofType), true)
  }

  type Index = map<string, map<string, Entry>>

  predicate InIndex(index: Index, resource: string, name: string) {
    resource in index && name in index[resource]
  }

  /** An entry for each field of the report and no other, each for the last of that resource and name. */
  ghost predicate Agrees(index: Index, fields: seq<Field>, lookups: seq<Lookup>) {
    && index.Keys == Resources(fields)
    && (forall resource, name :: InIndex(index, resource, name) <==> LastField(fields, resource, name).Some?)
    && (forall resource, name | InIndex(index, resource, name) ::
          Describes(index[resource][name], LastField(fields, resource, name).value, lookups))
  }

  function Resources(fields: seq<Field>): set<string> {
    set i | 0 <= i < |fields| :: fields[i].resourceName
  }

  function CountFields(fields: seq<Field>, expansions: bool): nat {
    if fields == [] then 0
    else
      var last := fields[|fields| - 1];
      CountFields(fields[..|fields| - 1], expansions) + if (if expansions then last.isExpansion else last.isComplexType) then 1 else 0
  }

  // What the parts of a name and of an annotation are

  /** A sample is a name between `Sample` and `EnumValue`. */
  lemma SamplesExactly(value: string)
    ensures IsSampleValue(value) <==> exists name: string :: value == "Sample" + name + "EnumValue"
  {
    if IsSampleValue(value) {
      Overlap(value);
      assert value == "Sample" + value[6..|value| - 9] + "EnumValue";
    }
    forall name: string | value == "Sample" + name + "EnumValue" ensures IsSampleValue(value) {
      assert value[..6] == "Sample" && value[|value| - 9..] == "EnumValue";
    }
  }

  /** The two words do not overlap. */
  lemma Overlap(value: string)
    requires IsSampleValue(value)
    ensures |value| >= 15
  {
    forall k | 0 <= k < 6 ensures value[k] != 'E' {
      assert value[k] == value[..6][k];
    }
    assert value[|value| - 9] == value[|value| - 9..][0];
  }

  /** An annotation's value is that of the last with its term. */
  lemma {:induction false} LastAnnotated(annotations: seq<Annotation>, term: string, i: nat)
    requires i < |annotations|
    ensures annotations[i].term == term && (forall j | i < j < |annotations| :: annotations[j].term != term) ==>
              Annotated(annotations, term) == Some(annotations[i].value)
    ensures (forall j | 0 <= j < |annotations| :: annotations[j].term != term) ==> Annotated(annotations, term) == None
  {
    var init := annotations[..|annotations| - 1];
    if i < |init| {
      LastAnnotated(init, term, i);
    } else if init != [] {
      LastAnnotated(init, term, 0);
    }
  }

  /** A short name is what stands after the last period. */
  lemma {:induction false} ShortNameIs(before: string, tail: string)
    requires '.' !in tail
    ensures ShortName(before + "." + tail) == tail && ShortName(tail) == tail
  {
    if tail == "" {
      assert before + "." + "" == before + ".";
    } else {
      var init, last := tail[..|tail| - 1], tail[|tail| - 1];
      assert last in tail && tail == init + [last];
      var name := before + "." + tail;
      assert name[..|name| - 1] == before + "." + init && name[|name| - 1] == last;
      ShortNameIs(before, init);
    }
  }

  /** A lookup is kept as a string enumeration's, under its own value, exactly where its type holds `Edm.String`. */
  lemma KeptExactly(lookup: Lookup)
    ensures KeptAs(lookup).isStringEnumeration <==> exists a: string, b: string :: lookup.ofType == a + "Edm.String" + b
    ensures KeptAs(lookup).isStringEnumeration ==>
              ValueKey(KeptAs(lookup)) == NonEmpty(Some(lookup.lookupValue)) && LegacyKey(KeptAs(lookup)) == None
    ensures !KeptAs(lookup).isStringEnumeration ==>
              && ValueKey(KeptAs(lookup)) == NonEmpty(Annotated(lookup.annotations, "RESO.OData.Metadata.StandardName"))
              && LegacyKey(KeptAs(lookup)) == NonEmpty(Some(lookup.lookupValue))
    ensures KeptAs(lookup).ddWikiUrl == Annotated(lookup.annotations, "RESO.DDWikiUrl")
  {
    hide Annotated;
    IncludesExactly(lookup.ofType, "Edm.String");
  }

  /** A field is complex that says so, or whose type is no simple one and no lookup's; an expansion only where it says so. */
  lemma ComplexExactly(field: Field, lookups: seq<Lookup>)
    ensures IsComplex(field, lookups) <==>
              || field.isComplexType
              || (&& !field.isExpansion && (forall rest: string :: field.ofType != "Edm." + rest)
                  && forall lookup <- lookups :: lookup.lookupName != field.ofType)
  {
    if StartsWith(field.ofType, "Edm.") {
      assert field.ofType == "Edm." + field.ofType[4..];
    }
    forall rest: string | field.ofType == "Edm." + rest ensures StartsWith(field.ofType, "Edm.") {
      assert field.ofType[..4] == "Edm.";
    }
    if NamesLookup(lookups, field.ofType) {
      var i :| 0 <= i < |lookups| && lookups[i].lookupName == field.ofType;
      assert lookups[i] in lookups;
    }
  }

  /** What is kept of a lookup under a value: the field's type and its short name beside the lookup's own. */
  lemma IndexedExactly(ofType: string, kept: KeptLookup)
    ensures var value := IndexedAs(ofType, kept);
            && value.ofType == ofType && value.lookupName == ShortName(ofType)
            && value.kept.lookupValue == kept.lookupValue && value.kept.legacyODataValue == kept.legacyODataValue
            && value.kept.ddWikiUrl == kept.ddWikiUrl && value.kept.isStringEnumeration == kept.isStringEnumeration
            && value.kept.standardLookupValue == (if kept.standardLookupValue == Some("") then None else kept.standardLookupValue)
  {
  }

  lemma IncludesExactly(s: string, part: string)
    ensures Includes(s, part) <==> exists a: string, b: string :: s == a + part + b
  {
    if Includes(s, part) {
      var i :| 0 <= i <= |s| && StartsWith(s[i..], part);
      assert s == s[..i] + part + s[i + |part|..];
    }
    forall a: string, b: string | s == a + part + b ensures Includes(s, part) {
      assert s[|a|..][..|part|] == part && StartsWith(s[|a|..], part);
    }
  }

  /** The lookups counted are those that are no samples, and the fields those of the kind asked for. */
  lemma {:induction false} LookupsCounted(lookups: seq<Lookup>)
    ensures CountLookups(lookups) == |set i | 0 <= i < |lookups| && !IsSample(lookups[i])|
  {
    hide IsSample;
    var all := set i | 0 <= i < |lookups| && !IsSample(lookups[i]);
    if lookups == [] {
      assert all == {};
    } else {
      var n := |lookups| - 1;
      var init := set i | 0 <= i < n && !IsSample(lookups[..n][i]);
      LookupsCounted(lookups[..n]);
      OneAdded(init, n);
      assert all == if IsSample(lookups[n]) then init else init + {n};
    }
  }

  lemma OneAdded(s: set<int>, n: int)
    ensures n !in s ==> |s + {n}| == |s| + 1
  {
  }

  predicate IsKind(field: Field, expansions: bool) {
    if expansions then field.isExpansion else field.isComplexType
  }

  lemma {:induction false} FieldsCounted(fields: seq<Field>, expansions: bool)
    ensures CountFields(fields, expansions) == |set i | 0 <= i < |fields| && IsKind(fields[i], expansions)|
  {
    var all := set i | 0 <= i < |fields| && IsKind(fields[i], expansions);
    if fields == [] {
      assert all == {};
    } else {
      var n := |fields| - 1;
      var init := set i | 0 <= i < n && IsKind(fields[..n][i], expansions);
      FieldsCounted(fields[..n], expansions);
      OneAdded(init, n);
      hide IsKind;
      assert all == if IsKind(fields[n], expansions) then init + {n} else init;
    }
  }

  // The reduces

  method MapLookups(lookups: seq<Lookup>) returns (lookupMap: map<string, seq<KeptLookup>>, numLookups: nat)
    ensures forall name :: name in lookupMap <==> NamesLookup(lookups, name)
    ensures forall name | name in lookupMap :: lookupMap[name] == KeptOf(lookups, name)
    ensures numLookups == CountLookups(lookups)
  {
    lookupMap, numLookups := map[], 0;
    NothingNamed();
    hide NamesLookup, KeptOf, IsSample, KeptAs, CountLookups;
    for i := 0 to |lookups|
      invariant forall name :: name in lookupMap <==> NamesLookup(lookups[..i], name)
      invariant forall name :: KeptOf(lookups[..i], name) == if name in lookupMap then lookupMap[name] else []
      invariant numLookups == CountLookups(lookups[..i])
    {
      var lookup := lookups[i];
      KeptMore(lookups, i);
      NamesMore(lookups, i);
      if lookup.lookupName !in lookupMap {
        lookupMap := lookupMap[lookup.lookupName := []];
      }
      if !IsSample(lookup) {
        lookupMap := lookupMap[lookup.lookupName := lookupMap[lookup.lookupName] + [KeptAs(lookup)]];
        numLookups := numLookups + 1;
      }
    }
    assert lookups[..|lookups|] == lookups;
  }

  lemma NothingNamed()
    ensures forall name :: !NamesLookup([], name) && KeptOf([], name) == []
    ensures CountLookups([]) == 0
  {
  }

  lemma KeptMore(lookups: seq<Lookup>, i: nat)
    requires i < |lookups|
    ensures forall name :: KeptOf(lookups[..i + 1], name) == (
              KeptOf(lookups[..i], name) + if lookups[i].lookupName == name && !IsSample(lookups[i]) then [KeptAs(lookups[i])] else [])
    ensures CountLookups(lookups[..i + 1]) == CountLookups(lookups[..i]) + if IsSample(lookups[i]) then 0 else 1
  {
    hide IsSample, KeptAs;
    assert lookups[..i + 1][..i] == lookups[..i];
  }

  lemma NamesMore(lookups: seq<Lookup>, i: nat)
    requires i < |lookups|
    ensures forall name :: NamesLookup(lookups[..i + 1], name) <==> NamesLookup(lookups[..i], name) || lookups[i].lookupName == name
  {
    forall name
      ensures NamesLookup(lookups[..i + 1], name) <==> NamesLookup(lookups[..i], name) || lookups[i].lookupName == name
    {
      assert lookups[..i + 1] == lookups[..i] + [lookups[i]];
      assert lookups[..i + 1][i].lookupName == lookups[i].lookupName;
      if NamesLookup(lookups[..i], name) {
        var k :| 0 <= k < i && lookups[..i][k].lookupName == name;
        assert lookups[..i + 1][k].lookupName == name;
      }
    }
  }

  method IndexValues(ofType: string, kept: seq<KeptLookup>)
    returns (lookupValues: map<string, IndexedValue>, legacyODataValues: map<string, IndexedValue>)
    ensures Indexes(lookupValues, ofType, kept, false) && Indexes(legacyODataValues, ofType, kept, true)
  {
    lookupValues, legacyODataValues := map[], map[];
    for i := 0 to |kept|
      invariant Indexes(lookupValues, ofType, kept[..i], false) && Indexes(legacyODataValues, ofType, kept[..i], true)
    {
      assert kept[..i + 1][..i] == kept[..i];
      var legacy, value := LegacyKey(kept[i]), ValueKey(kept[i]);
      if legacy.Some? {
        legacyODataValues := legacyODataValues[legacy.value := IndexedAs(ofType, kept[i])];
      }
      if value.Some? {
        lookupValues := lookupValues[value.value := IndexedAs(ofType, kept[i])];
      }
    }
    assert kept[..|kept|] == kept;
  }

  method DescribeField(field: Field, lookupMap: map<string, seq<KeptLookup>>, ghost lookups: seq<Lookup>) returns (entry: Entry)
    requires forall name :: name in lookupMap <==> NamesLookup(lookups, name)
    requires forall name | name in lookupMap :: lookupMap[name] == KeptOf(lookups, name)
    ensures Describes(entry, field, lookups)
  {
    var isLookupField := field.ofType in lookupMap;
    var values, legacy := map[], map[];
    if isLookupField {
      values, legacy := IndexValues(field.ofType, lookupMap[field.ofType]);
    } else {
      NoneKept(lookups, field.ofType);
    }
    var isComplexType := field.isComplexType || (!field.isExpansion && !StartsWith(field.ofType, "Edm.") && !isLookupField);
    entry := Entry(field, isLookupField, isComplexType, Annotated(field.annotations, DD_WIKI_URL), values, legacy);
  }

  /** One field more in the index. */
  method AddField(index: Index, lookupMap: map<string, seq<KeptLookup>>, field: Field, ghost fields: seq<Field>, ghost lookups: seq<Lookup>)
    returns (after: Index)
    requires forall name :: name in lookupMap <==> NamesLookup(lookups, name)
    requires forall name | name in lookupMap :: lookupMap[name] == KeptOf(lookups, name)
    requires Agrees(index, fields, lookups)
    ensures Agrees(after, fields + [field], lookups) && after.Keys == index.Keys + {field.resourceName}
  {
    var entry := DescribeField(field, lookupMap, lookups);
    var entries := if field.resourceName in index then index[field.resourceName] else map[];
    after := index[field.resourceName := entries[field.fieldName := entry]];
    OneMore(index, after, fields, field, entry, lookups);
  }

  method BuildMetadataMap(report: Report) returns (index: Index, stats: Stats)
    ensures Agrees(index, report.fields, report.lookups)
    ensures stats == Stats(|Resources(report.fields)|, |report.fields|, CountLookups(report.lookups),
                           CountFields(report.fields, true), CountFields(report.fields, false))
  {
    var fields, lookups := report.fields, report.lookups;
    hide *;
    var lookupMap, numLookups := MapLookups(lookups);
    index := map[];
    var numResources, numExpansions, numComplexTypes := 0, 0, 0;
    NothingIndexed(fields, lookups);
    for i := 0 to |fields|
      invariant Agrees(index, fields[..i], lookups) && index.Keys == Resources(fields[..i])
      invariant numResources == |Resources(fields[..i])|
      invariant numExpansions == CountFields(fields[..i], true) && numComplexTypes == CountFields(fields[..i], false)
    {
      var field := fields[i];
      FieldsMore(fields, i);
      ResourcesMore(fields, i);
      numResources := numResources + if field.resourceName in index then 0 else 1;
      index := AddField(index, lookupMap, field, fields[..i], lookups);
      numExpansions := numExpansions + if field.isExpansion then 1 else 0;
      numComplexTypes := numComplexTypes + if field.isComplexType then 1 else 0;
    }
    assert fields[..|fields|] == fields;
    stats := Stats(numResources, |fields|, numLookups, numExpansions, numComplexTypes);
  }

  lemma NothingIndexed(fields: seq<Field>, lookups: seq<Lookup>)
    ensures Agrees(map[], fields[..0], lookups) && Resources(fields[..0]) == {}
    ensures CountFields(fields[..0], true) == CountFields(fields[..0], false) == 0
  {
  }

  lemma FieldsMore(fields: seq<Field>, i: nat)
    requires i < |fields|
    ensures fields[..i + 1] == fields[..i] + [fields[i]]
    ensures CountFields(fields[..i + 1], true) == CountFields(fields[..i], true) + if fields[i].isExpansion then 1 else 0
    ensures CountFields(fields[..i + 1], false) == CountFields(fields[..i], false) + if fields[i].isComplexType then 1 else 0
  {
    assert fields[..i + 1][..i] == fields[..i];
  }

  lemma ResourcesMore(fields: seq<Field>, i: nat)
    requires i < |fields|
    ensures Resources(fields[..i + 1]) == Resources(fields[..i]) + {fields[i].resourceName}
    ensures |Resources(fields[..i + 1])|
         == |Resources(fields[..i])| + if fields[i].resourceName in Resources(fields[..i]) then 0 else 1
  {
    assert forall k | 0 <= k < i :: fields[..i + 1][k] == fields[..i][k];
    assert fields[..i + 1][i] == fields[i];
    forall resource | resource in Resources(fields[..i])
      ensures resource in Resources(fields[..i + 1])
    {
      var k :| 0 <= k < i && fields[..i][k].resourceName == resource;
      assert fields[..i + 1][k].resourceName == resource;
    }
    assert Resources(fields[..i + 1]) == Resources(fields[..i]) + {fields[i].resourceName};
  }

  lemma {:induction false} NoneKept(lookups: seq<Lookup>, name: string)
    requires !NamesLookup(lookups, name)
    ensures KeptOf(lookups, name) == []
  {
    if lookups != [] {
      assert lookups[..|lookups| - 1] + [lookups[|lookups| - 1]] == lookups;
      NamesMore(lookups, |lookups| - 1);
      assert lookups[..|lookups|] == lookups;
      NoneKept(lookups[..|lookups| - 1], name);
    }
  }

  lemma EntryAdded(before: Index, resource: string, name: string, entry: Entry, r: string, n: string)
    ensures var after := before[resource := (if resource in before then before[resource] else map[])[name := entry]];
            && (InIndex(after, r, n) <==> InIndex(before, r, n) || (r == resource && n == name))
            && (InIndex(after, r, n) ==> after[r][n] == if r == resource && n == name then entry else before[r][n])
  {
  }

  lemma LastFieldMore(fields: seq<Field>, field: Field, resource: string, name: string)
    ensures LastField(fields + [field], resource, name)
         == if resource == field.resourceName && name == field.fieldName then Some(field) else LastField(fields, resource, name)
  {
    assert (fields + [field])[..|fields|] == fields;
  }

  /** A field more, and its entry in its place, keep the index agreeing. */
  lemma OneMore(before: Index, after: Index, fields: seq<Field>, field: Field, entry: Entry, lookups: seq<Lookup>)
    requires Agrees(before, fields, lookups) && Describes(entry, field, lookups)
    requires after == before[field.resourceName :=
      (if field.resourceName in before then before[field.resourceName] else map[])[field.fieldName := entry]]
    ensures Agrees(after, fields + [field], lookups)
  {
    var all := fields + [field];
    ResourcesOfMore(fields, field);
    hide Describes, LastField, Resources, StartsWith;
    forall resource, name
      ensures InIndex(after, resource, name) <==> LastField(all, resource, name).Some?
      ensures InIndex(after, resource, name) ==>
                Describes(after[resource][name], LastField(all, resource, name).value, lookups)
    {
      LastFieldMore(fields, field, resource, name);
      EntryAdded(before, field.resourceName, field.fieldName, entry, resource, name);
      hide InIndex;
    }
    hide InIndex;
  }

  lemma ResourcesOfMore(fields: seq<Field>, field: Field)
    ensures Resources(fields + [field]) == Resources(fields) + {field.resourceName}
  {
    var all := fields + [field];
    assert all[..|fields|] == fields && all[..|all|] == all && all[|fields|] == field;
    ResourcesMore(all, |fields|);
  }

  // What an entry holds

  /** The value under which a field shows a lookup: a string enumeration's own, another's standard name. */
  predicate ShownAs(lookup: Lookup, value: string) {
    if Includes(lookup.ofType, "Edm.String") then lookup.lookupValue == value
    else Annotated(lookup.annotations, STANDARD_NAME) == Some(value)
  }

  /** Some lookup of a name that is no sample is shown as a value, or, with `legacy`, has it for its legacy value. */
  predicate HasLookup(lookups: seq<Lookup>, name: string, value: string, legacy: bool) {
    exists i ::
      && 0 <= i < |lookups| && lookups[i].lookupName == name && !IsSample(lookups[i])
      && if legacy then !Includes(lookups[i].ofType, "Edm.String") && lookups[i].lookupValue == value
         else ShownAs(lookups[i], value)
  }

  lemma KeyOfKept(lookup: Lookup, value: string, legacy: bool)
    requires value != ""
    ensures KeyOf(KeptAs(lookup), legacy) == Some(value)
       <==> if legacy then !Includes(lookup.ofType, "Edm.String") && lookup.lookupValue == value else ShownAs(lookup, value)
  {
    hide Includes, Annotated;
  }

  lemma {:induction false} LastWithLookup(lookups: seq<Lookup>, name: string, value: string, legacy: bool)
    requires value != ""
    ensures LastWith(KeptOf(lookups, name), legacy, value).Some? <==> HasLookup(lookups, name, value, legacy)
  {
    if lookups != [] {
      var init, last := lookups[..|lookups| - 1], lookups[|lookups| - 1];
      LastWithLookup(init, name, value, legacy);
      KeyOfKept(last, value, legacy);
      HasLookupMore(lookups, name, value, legacy);
      hide IsSample, KeptAs, KeyOf, Includes, ShownAs, HasLookup;
      var kept := KeptOf(init, name);
      assert (kept + [KeptAs(last)])[..|kept|] == kept;
      assert kept + [] == kept;
    }
  }

  lemma HasLookupMore(lookups: seq<Lookup>, name: string, value: string, legacy: bool)
    requires lookups != []
    ensures var init, last := lookups[..|lookups| - 1], lookups[|lookups| - 1];
            HasLookup(lookups, name, value, legacy)
            <==> || HasLookup(init, name, value, legacy)
                 || (&& last.lookupName == name && !IsSample(last)
                     && if legacy then !Includes(last.ofType, "Edm.String") && last.lookupValue == value else ShownAs(last, value))
  {
    hide IsSample, Includes, ShownAs;
    var init := lookups[..|lookups| - 1];
    assert forall i | 0 <= i < |init| :: init[i] == lookups[i];
    if HasLookup(init, name, value, legacy) {
      var i :| 0 <= i < |init| && init[i].lookupName == name && !IsSample(init[i])
            && if legacy then !Includes(init[i].ofType, "Edm.String") && init[i].lookupValue == value else ShownAs(init[i], value);
      assert lookups[i] == init[i];
    }
  }

  /**
   * A field's values in the index are exactly those of the lookups of its type that are no samples: string enumerations
   * under their own value, others under their standard name, and under their own among the legacy values.
   */
  lemma ValuesExactly(index: Index, report: Report, resource: string, name: string, value: string)
    requires Agrees(index, report.fields, report.lookups) && InIndex(index, resource, name)
    ensures var entry := index[resource][name];
            && (value in entry.lookupValues <==> value != "" && HasLookup(report.lookups, entry.field.ofType, value, false))
            && (value in entry.legacyODataValues <==> value != "" && HasLookup(report.lookups, entry.field.ofType, value, true))
  {
    var entry := index[resource][name];
    var kept := KeptOf(report.lookups, entry.field.ofType);
    assert Describes(entry, LastField(report.fields, resource, name).value, report.lookups);
    hide KeptOf, HasLookup, LastField, Agrees;
    if value == "" {
      NoEmptyKey(kept, false);
      NoEmptyKey(kept, true);
    } else {
      LastWithLookup(report.lookups, entry.field.ofType, value, false);
      LastWithLookup(report.lookups, entry.field.ofType, value, true);
    }
  }

  lemma {:induction false} NoEmptyKey(kept: seq<KeptLookup>, legacy: bool)
    ensures LastWith(kept, legacy, "").None?
  {
    if kept != [] {
      NoEmptyKey(kept[..|kept| - 1], legacy);
    }
  }
}
