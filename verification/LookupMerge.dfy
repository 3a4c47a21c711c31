/** A report's lookups as the records a Lookup resource would serve, and such records merged into a report. */
module LookupMerge {
  import opened Strings
  import opened MetadataIndex

  const LOOKUP_NAME := "RESO.OData.Metadata.LookupName"
  const LEGACY_ODATA_VALUE := "RESO.OData.Metadata.LegacyODataValue"

  datatype RawLookup = RawLookup(lookupName: string, lookupValue: string, standardLookupValue: Option<string>, legacyODataValue: Option<string>)

  /** The first annotation of a term. */
  function FirstAnnotated(annotations: seq<Annotation>, term: string): Option<string> {
    if annotations == [] then None
    else if annotations[0].term == term then Some(annotations[0].value)
    else FirstAnnotated(annotations[1..], term)
  }

  predicate HasText(value: Option<string>) {
    value.Some? && Trim(value.value) != ""
  }

  function TransformLookupRecord(record: RawLookup): Lookup {
    Lookup(record.lookupName, record.lookupValue, "Edm.String",
      (if HasText(record.legacyODataValue) then [Annotation(LEGACY_ODATA_VALUE, record.legacyODataValue.value)] else [])
      + (if HasText(record.standardLookupValue) then [Annotation(STANDARD_NAME, record.standardLookupValue.value)] else []))
  }

  /** A field that names a lookup has that for its type. */
  function TransformField(field: Field): Field {
    var name := FirstAnnotated(field.annotations, LOOKUP_NAME);
    if name.Some? then field.(ofType := name.value) else field
  }

  /** A merged field is of the first lookup it names, where it names one, and is otherwise as it was. */
  lemma FieldExactly(field: Field)
    ensures TransformField(field) == field.(ofType := TransformField(field).ofType)
    ensures (forall i | 0 <= i < |field.annotations| :: field.annotations[i].term != LOOKUP_NAME) ==> TransformField(field) == field
    ensures forall i | 0 <= i < |field.annotations| ::
              field.annotations[i].term == LOOKUP_NAME && (forall j | 0 <= j < i :: field.annotations[j].term != LOOKUP_NAME) ==>
                TransformField(field).ofType == field.annotations[i].value
  {
    FirstExactly(field.annotations, LOOKUP_NAME);
  }

  lemma {:induction false} FirstExactly(annotations: seq<Annotation>, term: string)
    ensures (forall i | 0 <= i < |annotations| :: annotations[i].term != term) ==> FirstAnnotated(annotations, term) == None
    ensures forall i | 0 <= i < |annotations| ::
              annotations[i].term == term && (forall j | 0 <= j < i :: annotations[j].term != term) ==>
                FirstAnnotated(annotations, term) == Some(annotations[i].value)
  {
    if annotations != [] {
      var rest := annotations[1..];
      FirstExactly(rest, term);
      assert forall i | 0 <= i < |rest| :: rest[i] == annotations[i + 1];
    }
  }

  function Transformed(records: seq<RawLookup>): (lookups: seq<Lookup>)
    ensures |lookups| == |records| && forall i | 0 <= i < |records| :: lookups[i] == TransformLookupRecord(records[i])
  {
    seq(|records|, i requires 0 <= i < |records| => TransformLookupRecord(records[i]))
  }

  function MergeWithLookupResource(report: Report, records: seq<RawLookup>): (merged: Report)
    ensures |merged.fields| == |report.fields|
    ensures forall i | 0 <= i < |report.fields| :: merged.fields[i] == TransformField(report.fields[i])
  {
    Report(seq(|report.fields|, i requires 0 <= i < |report.fields| => TransformField(report.fields[i])),
           report.lookups + Transformed(records))
  }

  function UnwrapCollection(name: string): string {
    if StartsWith(name, "Collection(") && EndsWith(name, ")") then
      assert name[..11][10] == '(' && name[|name| - 1..][0] == ')';
      name[11..|name| - 1]
    else name
  }

  /** A collection's type is that of its items. */
  lemma CollectionUnwrapped(name: string)
    ensures forall inner: string | name == "Collection(" + inner + ")" :: UnwrapCollection(name) == inner
    ensures (forall inner: string :: name != "Collection(" + inner + ")") ==> UnwrapCollection(name) == name
  {
    forall inner: string | name == "Collection(" + inner + ")" ensures UnwrapCollection(name) == inner {
      assert name[..11] == "Collection(" && name[|name| - 1..] == ")" && name[11..|name| - 1] == inner;
    }
    if forall inner: string :: name != "Collection(" + inner + ")" {
      NoCollection(name);
    }
  }

  lemma NoCollection(name: string)
    requires forall inner: string :: name != "Collection(" + inner + ")"
    ensures UnwrapCollection(name) == name
  {
    if StartsWith(name, "Collection(") && EndsWith(name, ")") {
      CollectionHolds(name);
    }
  }

  lemma CollectionHolds(name: string)
    requires StartsWith(name, "Collection(") && EndsWith(name, ")")
    ensures exists inner: string :: name == "Collection(" + inner + ")"
  {
    assert name[..11][10] == '(' && name[|name| - 1..][0] == ')';
    assert name == "Collection(" + name[11..|name| - 1] + ")";
  }

  function SampleEnumValue(name: string): string {
    "Sample" + name + "EnumValue"
  }

  /** The enumeration a field is of: the lookup it names, else the short name of its type. */
  function EnumReferenceName(field: Field): string {
    var name := FirstAnnotated(field.annotations, LOOKUP_NAME);
    if name.Some? then name.value else ShortName(UnwrapCollection(field.ofType))
  }

  predicate RefersToEnum(field: Field) {
    field.isEnumeration && !field.isExpansion
  }

  /**
   * A field refers to an enumeration where it is one and no expansion: to the first lookup it names, and else to its type,
   * or that of its items, by its short name; and the sample that stands for an enumeration is one.
   */
  lemma ReferenceExactly(field: Field)
    ensures RefersToEnum(field) <==> field.isEnumeration && !field.isExpansion
    ensures FirstAnnotated(field.annotations, "RESO.OData.Metadata.LookupName") == None ==>
              EnumReferenceName(field) == ShortName(UnwrapCollection(field.ofType))
    ensures forall name | FirstAnnotated(field.annotations, "RESO.OData.Metadata.LookupName") == Some(name) ::
              EnumReferenceName(field) == name
    ensures forall name :: IsSampleValue(SampleEnumValue(name))
    ensures forall value | IsSampleValue(value) :: exists name :: value == SampleEnumValue(name)
  {
    forall name ensures IsSampleValue(SampleEnumValue(name)) {
      SamplesExactly(SampleEnumValue(name));
      assert SampleEnumValue(name) == "Sample" + name + "EnumValue";
    }
    forall value | IsSampleValue(value) ensures exists name :: value == SampleEnumValue(name) {
      SamplesExactly(value);
      var name: string :| value == "Sample" + name + "EnumValue";
      assert value == SampleEnumValue(name);
    }
  }

  function StandardRecord(lookup: Lookup): RawLookup {
    RawLookup(ShortName(lookup.lookupName), lookup.lookupValue,
      NonEmpty(FirstAnnotated(lookup.annotations, STANDARD_NAME)), NonEmpty(FirstAnnotated(lookup.annotations, LEGACY_ODATA_VALUE)))
  }

  function StandardRecords(lookups: seq<Lookup>): (records: seq<RawLookup>)
    ensures |records| == |lookups| && forall i | 0 <= i < |lookups| :: records[i] == StandardRecord(lookups[i])
  {
    seq(|lookups|, i requires 0 <= i < |lookups| => StandardRecord(lookups[i]))
  }

  predicate Standard(lookups: seq<Lookup>, name: string) {
    exists i :: 0 <= i < |lookups| && ShortName(lookups[i].lookupName) == name
  }

  /** The enumerations that fields refer to and no lookup stands for, each once, in the order of first reference. */
  function OpenEnums(fields: seq<Field>, lookups: seq<Lookup>): seq<string> {
    if fields == [] then []
    else
      var before, last := OpenEnums(fields[..|fields| - 1], lookups), fields[|fields| - 1];
      var name := EnumReferenceName(last);
      if RefersToEnum(last) && !Standard(lookups, name) && name !in before then before + [name] else before
  }

  function SampleRecords(names: seq<string>): (records: seq<RawLookup>)
    ensures |records| == |names|
    ensures forall i | 0 <= i < |names| :: records[i] == RawLookup(names[i], SampleEnumValue(names[i]), None, None)
  {
    seq(|names|, i requires 0 <= i < |names| => RawLookup(names[i], SampleEnumValue(names[i]), None, None))
  }

  function Synthesize(report: Report): seq<RawLookup> {
    StandardRecords(report.lookups) + SampleRecords(OpenEnums(report.fields, report.lookups))
  }

  /** A report with the records it makes for itself. */
  function SelfMerged(report: Report): Report {
    MergeWithLookupResource(report, Synthesize(report))
  }

  // Referential integrity

  predicate Refers(fields: seq<Field>, name: string) {
    exists i :: 0 <= i < |fields| && RefersToEnum(fields[i]) && EnumReferenceName(fields[i]) == name
  }

  lemma {:induction false} OpenEnumsAre(fields: seq<Field>, lookups: seq<Lookup>)
    ensures forall name :: name in OpenEnums(fields, lookups) <==> Refers(fields, name) && !Standard(lookups, name)
    ensures Distinct(OpenEnums(fields, lookups))
  {
    if fields != [] {
      var init, last := fields[..|fields| - 1], fields[|fields| - 1];
      OpenEnumsAre(init, lookups);
      forall name
        ensures Refers(fields, name) <==> Refers(init, name) || (RefersToEnum(last) && EnumReferenceName(last) == name)
      {
        assert fields[|fields| - 1] == last;
        if Refers(init, name) {
          var i :| 0 <= i < |init| && RefersToEnum(init[i]) && EnumReferenceName(init[i]) == name;
          assert RefersToEnum(fields[i]) && EnumReferenceName(fields[i]) == name;
        }
      }
    }
  }

  /** A self-merged report's lookups: its own, then each as it is served, then a sample for each open enumeration. */
  lemma SelfMergedParts(report: Report)
    ensures var lookups, open, n := SelfMerged(report).lookups, OpenEnums(report.fields, report.lookups), |report.lookups|;
            && |lookups| == n + n + |open|
            && (forall i | 0 <= i < n :: lookups[i] == report.lookups[i])
            && (forall i | 0 <= i < n :: lookups[n + i] == TransformLookupRecord(StandardRecord(report.lookups[i])))
            && (forall i | 0 <= i < |open| ::
                  lookups[n + n + i] == TransformLookupRecord(RawLookup(open[i], SampleEnumValue(open[i]), None, None)))
  {
    var own, open := report.lookups, OpenEnums(report.fields, report.lookups);
    var served, samples := Transformed(StandardRecords(own)), Transformed(SampleRecords(open));
    SelfMergedIs(report);
    hide *;
    ConcatAt(served, samples);
    ConcatAt(own, served + samples);
    var lookups := SelfMerged(report).lookups;
    forall i | 0 <= i < |own| ensures lookups[|own| + i] == TransformLookupRecord(StandardRecord(own[i])) {
      assert (served + samples)[i] == served[i];
    }
    forall i | 0 <= i < |open|
      ensures lookups[|own| + |own| + i] == TransformLookupRecord(RawLookup(open[i], SampleEnumValue(open[i]), None, None))
    {
      assert lookups[|own| + (|own| + i)] == (served + samples)[|own| + i];
      assert (served + samples)[|own| + i] == samples[i];
    }
  }

  lemma SelfMergedIs(report: Report)
    ensures SelfMerged(report).lookups
         == report.lookups
          + (Transformed(StandardRecords(report.lookups)) + Transformed(SampleRecords(OpenEnums(report.fields, report.lookups))))
  {
    hide TransformLookupRecord, StandardRecord, OpenEnums, SampleEnumValue, TransformField, Transformed, StandardRecords,
      SampleRecords;
    TransformedConcat(StandardRecords(report.lookups), SampleRecords(OpenEnums(report.fields, report.lookups)));
  }

  lemma TransformedConcat(a: seq<RawLookup>, b: seq<RawLookup>)
    ensures Transformed(a + b) == Transformed(a) + Transformed(b)
  {
    hide TransformLookupRecord;
  }

  /** The names a self-merged report's lookups have: those it had, those shortened, and every enumeration referred to. */
  lemma SelfMergedNames(report: Report, name: string)
    ensures NamesLookup(SelfMerged(report).lookups, name)
       <==> NamesLookup(report.lookups, name) || Standard(report.lookups, name) || Refers(report.fields, name)
  {
    SelfMergedParts(report);
    OpenEnumsAre(report.fields, report.lookups);
    hide SelfMerged, OpenEnums;
    NamesInParts(report, SelfMerged(report).lookups, OpenEnums(report.fields, report.lookups), name);
  }

  lemma NamesInParts(report: Report, lookups: seq<Lookup>, open: seq<string>, name: string)
    requires var n := |report.lookups|;
             && |lookups| == n + n + |open|
             && (forall i | 0 <= i < n :: lookups[i] == report.lookups[i])
             && (forall i | 0 <= i < n :: lookups[n + i].lookupName == ShortName(report.lookups[i].lookupName))
             && (forall i | 0 <= i < |open| :: lookups[n + n + i].lookupName == open[i])
    requires forall x :: x in open <==> Refers(report.fields, x) && !Standard(report.lookups, x)
    ensures NamesLookup(lookups, name)
       <==> NamesLookup(report.lookups, name) || Standard(report.lookups, name) || Refers(report.fields, name)
  {
    hide Refers;
    var n := |report.lookups|;
    if NamesLookup(report.lookups, name) {
      var i :| 0 <= i < n && report.lookups[i].lookupName == name;
      assert lookups[i].lookupName == name;
    }
    if Standard(report.lookups, name) {
      var i :| 0 <= i < n && ShortName(report.lookups[i].lookupName) == name;
      assert lookups[n + i].lookupName == name;
    }
    if name in open {
      var i :| 0 <= i < |open| && open[i] == name;
      assert lookups[n + n + i].lookupName == name;
    }
    if NamesLookup(lookups, name) {
      var i :| 0 <= i < |lookups| && lookups[i].lookupName == name;
      if n <= i < n + n {
        assert lookups[n + (i - n)].lookupName == ShortName(report.lookups[i - n].lookupName);
      } else if n + n <= i {
        assert lookups[n + n + (i - n - n)].lookupName == open[i - n - n];
      }
    }
  }

  /**
   * Every enumeration field that names its lookup is, once a report is merged with its own records, of a type that names a
   * lookup of the merged report; and the index of that report marks it a lookup field.
   */
  lemma EnumerationsResolve(report: Report, i: nat, index: Index)
    requires i < |report.fields| && RefersToEnum(report.fields[i])
    requires FirstAnnotated(report.fields[i].annotations, LOOKUP_NAME).Some?
    requires Agrees(index, SelfMerged(report).fields, SelfMerged(report).lookups)
    ensures NamesLookup(SelfMerged(report).lookups, SelfMerged(report).fields[i].ofType)
    ensures var field := SelfMerged(report).fields[i];
            LastField(SelfMerged(report).fields, field.resourceName, field.fieldName) == Some(field) ==>
              InIndex(index, field.resourceName, field.fieldName) && index[field.resourceName][field.fieldName].isLookupField
  {
    var field := SelfMerged(report).fields[i];
    SelfMergedNames(report, field.ofType);
    assert Refers(report.fields, field.ofType);
  }

  // Samples

  lemma SamplesAreSamples(name: string)
    ensures IsSampleValue(SampleEnumValue(name))
  {
  }

  lemma {:induction false} KeptAreNoSamples(lookups: seq<Lookup>, name: string, legacy: bool)
    ensures forall i | 0 <= i < |KeptOf(lookups, name)| ::
              var value := KeyOf(KeptOf(lookups, name)[i], legacy); value.Some? ==> !IsSampleValue(value.value)
  {
    if lookups != [] {
      KeptAreNoSamples(lookups[..|lookups| - 1], name, legacy);
    }
  }

  /** No sample value is among the values, or the legacy values, that any report's index gives a field. */
  lemma NoSampleIsIndexed(index: Index, report: Report, resource: string, name: string)
    requires Agrees(index, report.fields, report.lookups) && InIndex(index, resource, name)
    ensures forall value | value in index[resource][name].lookupValues :: !IsSampleValue(value)
    ensures forall value | value in index[resource][name].legacyODataValues :: !IsSampleValue(value)
  {
    var entry := index[resource][name];
    var kept := KeptOf(report.lookups, entry.field.ofType);
    assert Describes(entry, LastField(report.fields, resource, name).value, report.lookups);
    KeptAreNoSamples(report.lookups, entry.field.ofType, false);
    KeptAreNoSamples(report.lookups, entry.field.ofType, true);
    hide KeptOf, IsSampleValue, LastField;
    forall value | value in entry.lookupValues
      ensures !IsSampleValue(value)
    {
      LastWithExactly(kept, false, value, LastWith(kept, false, value).value);
    }
    forall value | value in entry.legacyODataValues
      ensures !IsSampleValue(value)
    {
      LastWithExactly(kept, true, value, LastWith(kept, true, value).value);
    }
  }

  lemma {:induction false} NothingKept(lookups: seq<Lookup>, name: string)
    requires forall i | 0 <= i < |lookups| && lookups[i].lookupName == name :: IsSample(lookups[i])
    ensures KeptOf(lookups, name) == []
  {
    if lookups != [] {
      NothingKept(lookups[..|lookups| - 1], name);
    }
  }

  /** An enumeration that is referred to and has no lookups resolves, and to no value at all. */
  lemma OpenEnumerationsAreEmpty(report: Report, name: string)
    requires Refers(report.fields, name) && !Standard(report.lookups, name) && !NamesLookup(report.lookups, name)
    ensures NamesLookup(SelfMerged(report).lookups, name) && KeptOf(SelfMerged(report).lookups, name) == []
  {
    SelfMergedNames(report, name);
    SelfMergedParts(report);
    var lookups, open := SelfMerged(report).lookups, OpenEnums(report.fields, report.lookups);
    var n := |report.lookups|;
    hide SelfMerged, OpenEnums, KeptOf, Refers, ShortName, IsSampleValue, SampleEnumValue, Annotated;
    forall i | 0 <= i < |lookups|
      ensures lookups[i].lookupName == name ==> IsSample(lookups[i])
    {
      if n <= i < n + n {
        assert lookups[n + (i - n)].lookupName == ShortName(report.lookups[i - n].lookupName);
      } else if n + n <= i {
        assert lookups[n + n + (i - n - n)].lookupValue == SampleEnumValue(open[i - n - n]);
        SamplesAreSamples(open[i - n - n]);
      }
    }
    NothingKept(lookups, name);
  }

  // One is the other's inverse

  lemma FirstOfTransformed(record: RawLookup)
    ensures var annotations := TransformLookupRecord(record).annotations;
            && FirstAnnotated(annotations, STANDARD_NAME) == (if HasText(record.standardLookupValue) then record.standardLookupValue else None)
            && FirstAnnotated(annotations, LEGACY_ODATA_VALUE) == (if HasText(record.legacyODataValue) then record.legacyODataValue else None)
  {
    var annotations := TransformLookupRecord(record).annotations;
    assert STANDARD_NAME[|STANDARD_NAME| - 1] != LEGACY_ODATA_VALUE[|STANDARD_NAME| - 1];
    if |annotations| == 2 {
      assert annotations[1..] == [annotations[1]];
      assert FirstAnnotated(annotations[1..], STANDARD_NAME) == Some(annotations[1].value);
    } else if |annotations| == 1 {
      assert annotations[1..] == [];
    }
  }

  /** A record reads back from the lookup it is merged as, exactly where its name is short and what it gives has text. */
  lemma RecordsReadBackExactly(record: RawLookup)
    ensures StandardRecord(TransformLookupRecord(record)) == record
       <==> && '.' !in record.lookupName
            && (record.standardLookupValue.Some? ==> HasText(record.standardLookupValue))
            && (record.legacyODataValue.Some? ==> HasText(record.legacyODataValue))
  {
    FirstOfTransformed(record);
    ShortNameExactly(record.lookupName);
    assert Trim("") == "";
  }

  lemma {:induction false} ShortNameExactly(name: string)
    ensures ShortName(name) == name <==> '.' !in name
    ensures '.' !in ShortName(name) && |ShortName(name)| <= |name|
  {
    if name != "" {
      var init, last := name[..|name| - 1], name[|name| - 1];
      ShortNameExactly(init);
      assert name == init + [last];
    }
  }

  /** A lookup's record, merged, is the lookup again: under its short name, as a string, with its two annotations' texts. */
  lemma LookupsComeBack(report: Report, i: nat)
    requires i < |report.lookups|
    ensures var was := report.lookups[i];
            var now := SelfMerged(report).lookups[|report.lookups| + i];
            && now.lookupName == ShortName(was.lookupName) && now.lookupValue == was.lookupValue && now.ofType == "Edm.String"
            && forall term | term == STANDARD_NAME || term == LEGACY_ODATA_VALUE ::
                 FirstAnnotated(now.annotations, term)
                 == if HasText(FirstAnnotated(was.annotations, term)) then FirstAnnotated(was.annotations, term) else None
  {
    var now := SelfMerged(report).lookups[|report.lookups| + i];
    assert now == TransformLookupRecord(StandardRecord(report.lookups[i]));
    FirstOfTransformed(StandardRecord(report.lookups[i]));
    assert Trim("") == "";
  }
}
