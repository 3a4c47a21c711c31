/** Reading a payload file as a stream of events, against reading it whole. */
module RcfInput {
  import opened Strings
  import opened JsonValues

  /** A file's top-level object: its members in the order they stand, a key possibly more than once. */
  type Members = seq<(string, Json)>

  datatype JsonEvent = Member(key: string, value: Json) | Record(value: Json)

  const RESO_CONTEXT := "@reso.context"
  const ODATA_CONTEXT := "@odata.context"
  const VALUE := "value"
  const INVALID_CONTEXT_RESOURCE := "_INVALID_"

  predicate IsPayloadKey(key: string) {
    key == VALUE || key == RESO_CONTEXT || key == ODATA_CONTEXT
  }

  // What a payload's context says it is

  datatype Resolved = Resolved(version: Option<string>, resource: string)

  /** How a context string resolves, and how any other value is written: the two patterns and the writer the code calls. */
  datatype Reader = Reader(resolve: string -> Option<Resolved>, stringify: Json -> string)

  datatype Header = Header(source: string, resource: string, version: Option<string>, context: Option<string>, invalidContext: bool)

  datatype Payload = Payload(header: Header, records: seq<Json>)

  function ParseContext(reader: Reader, context: Option<Json>): Option<Resolved> {
    if context.Some? && context.value.JString? then reader.resolve(context.value.s) else None
  }

  function Lookup(root: map<string, Json>, key: string): Option<Json> {
    if key in root then Some(root[key]) else None
  }

  /** `??` of values that may be null. */
  function UnlessNull(first: Option<Json>, second: Option<Json>): Option<Json> {
    if first.None? || first.value.JNull? then second else first
  }

  function HeaderOf(reader: Reader, root: map<string, Json>, source: string): Option<Header> {
    var raw := Lookup(root, RESO_CONTEXT);
    var resolved := ParseContext(reader, UnlessNull(raw, Lookup(root, ODATA_CONTEXT)));
    var text := if raw.Some? && raw.value.JString? then Some(raw.value.s) else None;
    if resolved.None? then
      if raw.None? then None
      else Some(Header(source, INVALID_CONTEXT_RESOURCE, None, if text.Some? then text else Some(reader.stringify(raw.value)), true))
    else Some(Header(source, resolved.value.resource, resolved.value.version, if text == Some("") then None else text, false))
  }

  /**
   * What a payload's context makes of it, case by case: a text that resolves says the resource and version and is kept,
   * unless it stands in for a context that is null or not there; a context that does not resolve makes the payload invalid.
   */
  lemma HeaderExactly(reader: Reader, root: map<string, Json>, source: string)
    ensures var reso, odata := Lookup(root, "@reso.context"), Lookup(root, "@odata.context");
            var header := HeaderOf(reader, root, source);
            if reso.Some? && reso.value.JString? then
              var said := reader.resolve(reso.value.s);
              if said.Some? then
                header == Some(Header(source, said.value.resource, said.value.version,
                                      if |reso.value.s| == 0 then None else Some(reso.value.s), false))
              else header == Some(Header(source, "_INVALID_", None, Some(reso.value.s), true))
            else if (reso.None? || reso.value.JNull?) && odata.Some? && odata.value.JString? && reader.resolve(odata.value.s).Some? then
              var said := reader.resolve(odata.value.s).value;
              header == Some(Header(source, said.resource, said.version, None, false))
            else if reso.Some? then header == Some(Header(source, "_INVALID_", None, Some(reader.stringify(reso.value)), true))
            else header == None
  {
  }

  // The whole file at once

  /** `JSON.parse`, `Object.fromEntries`: the last of a repeated key counts. */
  function FromEntries(members: Members): map<string, Json> {
    if members == [] then map[] else FromEntries(members[..|members| - 1])[members[|members| - 1].0 := members[|members| - 1].1]
  }

  function ToPayload(reader: Reader, root: map<string, Json>, source: string): Option<Payload> {
    var value := Lookup(root, VALUE);
    var records := if value.Some? && value.value.JArray? then value.value.items else [JObject(root)];
    if |records| == 0 then None
    else
      match HeaderOf(reader, root, source)
      case None => None
      case Some(header) => Some(Payload(header, records))
  }

  /** A file is one payload of its `value` array's records, or of itself where there is no array; none where that is empty. */
  lemma ToPayloadExactly(reader: Reader, root: map<string, Json>, source: string)
    ensures var header := HeaderOf(reader, root, source);
            if "value" in root && root["value"].JArray? then
              ToPayload(reader, root, source)
              == if root["value"].items == [] || header.None? then None else Some(Payload(header.value, root["value"].items))
            else ToPayload(reader, root, source) == if header.None? then None else Some(Payload(header.value, [JObject(root)]))
  {
    hide HeaderOf;
  }

  /** Of a key given more than once, the last value counts. */
  lemma {:induction false} LastMemberCounts(members: Members, key: string, i: nat)
    requires i < |members| && members[i].0 == key && forall j | i < j < |members| :: members[j].0 != key
    ensures key in FromEntries(members) && FromEntries(members)[key] == members[i].1
    decreases |members|
  {
    if i < |members| - 1 {
      LastMemberCounts(members[..|members| - 1], key, i);
    }
  }

  // The file as events

  function RecordEvents(items: seq<Json>): (events: seq<JsonEvent>)
    ensures |events| == |items| && forall i | 0 <= i < |items| :: events[i] == Record(items[i])
  {
    seq(|items|, i requires 0 <= i < |items| => Record(items[i]))
  }

  /** One member: of a `value` array, each element and then the member, its elements let go of; of any other, the member. */
  function MemberEvents(member: (string, Json)): seq<JsonEvent> {
    if member.0 == VALUE && member.1.JArray? then RecordEvents(member.1.items) + [Member(VALUE, JArray([]))]
    else [Member(member.0, member.1)]
  }

  function EventsOf(members: Members): seq<JsonEvent> {
    if members == [] then [] else MemberEvents(members[0]) + EventsOf(members[1..])
  }

  function MembersOf(events: seq<JsonEvent>): Members {
    if events == [] then []
    else (if events[0].Member? then [(events[0].key, events[0].value)] else []) + MembersOf(events[1..])
  }

  function RecordsOf(events: seq<JsonEvent>): seq<Json> {
    if events == [] then []
    else (if events[0].Record? then [events[0].value] else []) + RecordsOf(events[1..])
  }

  /** The position of the first record, or the end. */
  function FirstRecord(events: seq<JsonEvent>): (at: nat)
    ensures at <= |events|
  {
    if events == [] || events[0].Record? then 0 else 1 + FirstRecord(events[1..])
  }

  predicate HasKey(members: Members, key: string) {
    exists i :: 0 <= i < |members| && members[i].0 == key
  }

  /** A payload key is given more than once. */
  predicate Repeats(members: Members) {
    exists i, j :: 0 <= i < j < |members| && members[i].0 == members[j].0 && IsPayloadKey(members[j].0)
  }

  /** What a consumer that reads a payload's records to the end comes to, and how often the file is read for it. */
  datatype Outcome = Nothing | Yielded(payload: Payload, readings: nat) | Refused

  function Streamed(reader: Reader, events: seq<JsonEvent>, source: string): Outcome {
    var all, first := MembersOf(events), FirstRecord(events);
    var before := MembersOf(events[..first]);
    if Repeats(all) then Refused
    else if first == |events| then
      match ToPayload(reader, FromEntries(all), source)
      case None => Nothing
      case Some(payload) => Yielded(payload, 1)
    else
      var early := HasKey(before, RESO_CONTEXT);
      match HeaderOf(reader, FromEntries(if early then before else all), source)
      case None => Nothing
      case Some(header) => Yielded(Payload(header, RecordsOf(events)), if early then 1 else 2)
  }

  // The generator

  /** What the reading has taken so far: the members, and their keys. */
  class MemberTaker {
    var members: Members
    var seen: set<string>
    var refused: bool

    ghost predicate Valid()
      reads this
    {
      && (forall key :: key in seen <==> HasKey(members, key))
      && (refused <==> Repeats(members))
    }

    constructor ()
      ensures Valid() && members == [] && !refused
    {
      members, seen, refused := [], {}, false;
    }

    /** Take a member; a payload key that was seen before is refused. */
    method Take(key: string, value: Json)
      requires Valid()
      modifies this
      ensures Valid() && members == old(members) + [(key, value)]
    {
      if IsPayloadKey(key) && key in seen {
        refused := true;
      }
      seen := seen + {key};
      RepeatsMore(members, key, value);
      HasKeyMore(members, key, value);
      members := members + [(key, value)];
    }
  }

  lemma HasKeyMore(members: Members, key: string, value: Json)
    ensures forall k :: HasKey(members + [(key, value)], k) <==> HasKey(members, k) || k == key
  {
    var all := members + [(key, value)];
    assert all[|members|].0 == key;
    forall k ensures HasKey(all, k) <==> HasKey(members, k) || k == key {
      if HasKey(members, k) {
        var i :| 0 <= i < |members| && members[i].0 == k;
        assert all[i].0 == k;
      }
    }
  }

  lemma RepeatsMore(members: Members, key: string, value: Json)
    ensures Repeats(members + [(key, value)]) <==> Repeats(members) || (IsPayloadKey(key) && HasKey(members, key))
  {
    var all := members + [(key, value)];
    if Repeats(members) {
      var i, j :| 0 <= i < j < |members| && members[i].0 == members[j].0 && IsPayloadKey(members[j].0);
      assert all[i].0 == all[j].0;
    }
    if IsPayloadKey(key) && HasKey(members, key) {
      var i :| 0 <= i < |members| && members[i].0 == key;
      assert all[i].0 == all[|members|].0;
    }
  }

  lemma MembersMore(events: seq<JsonEvent>, i: nat)
    requires i < |events|
    ensures MembersOf(events[..i + 1]) == MembersOf(events[..i]) + if events[i].Member? then [(events[i].key, events[i].value)] else []
    ensures RecordsOf(events[..i + 1]) == RecordsOf(events[..i]) + if events[i].Record? then [events[i].value] else []
  {
    assert events[..i + 1] == events[..i] + [events[i]];
    MembersConcat(events[..i], [events[i]]);
    assert [events[i]][1..] == [];
  }

  lemma MembersConcat(a: seq<JsonEvent>, b: seq<JsonEvent>)
    ensures MembersOf(a + b) == MembersOf(a) + MembersOf(b)
    ensures RecordsOf(a + b) == RecordsOf(a) + RecordsOf(b)
  {
    MembersJoin(a, b);
    RecordsJoin(a, b);
  }

  lemma {:induction false} MembersJoin(a: seq<JsonEvent>, b: seq<JsonEvent>)
    ensures MembersOf(a + b) == MembersOf(a) + MembersOf(b)
  {
    if a == [] {
      assert a + b == b;
    } else {
      assert (a + b)[1..] == a[1..] + b;
      MembersJoin(a[1..], b);
    }
  }

  lemma {:induction false} RecordsJoin(a: seq<JsonEvent>, b: seq<JsonEvent>)
    ensures RecordsOf(a + b) == RecordsOf(a) + RecordsOf(b)
  {
    if a == [] {
      assert a + b == b;
    } else {
      assert (a + b)[1..] == a[1..] + b && (a + b)[0] == a[0];
      RecordsJoin(a[1..], b);
      ConcatAssociates(if a[0].Record? then [a[0].value] else [], RecordsOf(a[1..]), RecordsOf(b));
    }
  }

  lemma {:induction false} FirstRecordAt(events: seq<JsonEvent>, at: nat)
    requires at <= |events| && (forall i | 0 <= i < at :: events[i].Member?) && (at < |events| ==> events[at].Record?)
    ensures FirstRecord(events) == at
  {
    if at > 0 {
      FirstRecordAt(events[1..], at - 1);
    }
  }

  /** The records the events from `from` on hold, while each member among them is taken. */
  method TakeRest(events: seq<JsonEvent>, from: nat, taker: MemberTaker) returns (records: seq<Json>)
    requires from <= |events| && taker.Valid() && taker.members == MembersOf(events[..from])
    modifies taker
    ensures taker.Valid() && taker.members == MembersOf(events)
    ensures RecordsOf(events) == RecordsOf(events[..from]) + records
  {
    records := [];
    for i := from to |events|
      invariant taker.Valid() && taker.members == MembersOf(events[..i])
      invariant RecordsOf(events[..i]) == RecordsOf(events[..from]) + records
    {
      MembersMore(events, i);
      if events[i].Record? {
        records := records + [events[i].value];
      } else {
        taker.Take(events[i].key, events[i].value);
      }
    }
    assert events[..|events|] == events;
  }

  /**
   * Everything up to the first record; then, with the context known, the records as the same reading reaches them, and
   * otherwise the rest for its context, and the records in a second reading.
   */
  method StreamedPayload(reader: Reader, events: seq<JsonEvent>, source: string) returns (r: Outcome)
    ensures r == Streamed(reader, events, source)
  {
    var taker := new MemberTaker();
    var at := 0;
    while at < |events| && events[at].Member?
      invariant at <= |events| && taker.Valid() && taker.members == MembersOf(events[..at])
      invariant fresh(taker)
      invariant forall i | 0 <= i < at :: events[i].Member?
    {
      MembersMore(events, at);
      taker.Take(events[at].key, events[at].value);
      at := at + 1;
    }
    FirstRecordAt(events, at);
    NoRecordsBefore(events, at);
    if at == |events| {
      assert events[..at] == events;
      if taker.refused {
        return Refused;
      }
      var whole := ToPayload(reader, FromEntries(taker.members), source);
      return if whole.None? then Nothing else Yielded(whole.value, 1);
    }
    var before := taker.members;
    var early := RESO_CONTEXT in taker.seen;
    var records := TakeRest(events, at, taker);
    if taker.refused {
      return Refused;
    }
    var header := HeaderOf(reader, FromEntries(if early then before else taker.members), source);
    if header.None? {
      return Nothing;
    }
    if early {
      return Yielded(Payload(header.value, records), 1);
    }
    var again := [];
    for i := 0 to |events|
      invariant again == RecordsOf(events[..i])
    {
      MembersMore(events, i);
      if events[i].Record? {
        again := again + [events[i].value];
      }
    }
    assert events[..|events|] == events;
    r := Yielded(Payload(header.value, again), 2);
  }

  lemma {:induction false} NoRecordsBefore(events: seq<JsonEvent>, at: nat)
    requires at <= |events| && forall i | 0 <= i < at :: events[i].Member?
    ensures RecordsOf(events[..at]) == []
  {
    if at > 0 {
      NoRecordsBefore(events, at - 1);
      MembersMore(events, at - 1);
    }
  }

  // Against the whole file

  /** A member as the stream gives it: a `value` array has let go of its elements. */
  function Emptied(member: (string, Json)): (string, Json) {
    if member.0 == VALUE && member.1.JArray? then (VALUE, JArray([])) else member
  }

  function AllEmptied(members: Members): (emptied: Members)
    ensures |emptied| == |members| && forall i | 0 <= i < |members| :: emptied[i] == Emptied(members[i])
  {
    seq(|members|, i requires 0 <= i < |members| => Emptied(members[i]))
  }

  lemma {:induction false} RecordEventsAre(items: seq<Json>)
    ensures MembersOf(RecordEvents(items)) == [] && RecordsOf(RecordEvents(items)) == items
  {
    if items != [] {
      assert RecordEvents(items)[1..] == RecordEvents(items[1..]);
      RecordEventsAre(items[1..]);
    }
  }

  lemma MemberEventsAre(member: (string, Json))
    ensures MembersOf(MemberEvents(member)) == [Emptied(member)]
    ensures RecordsOf(MemberEvents(member)) == if member.0 == VALUE && member.1.JArray? then member.1.items else []
  {
    var last := Member(Emptied(member).0, Emptied(member).1);
    assert [last][1..] == [];
    if member.0 == VALUE && member.1.JArray? {
      RecordEventsAre(member.1.items);
      MembersConcat(RecordEvents(member.1.items), [last]);
    }
  }

  lemma {:induction false} EventsHoldMembers(members: Members)
    ensures MembersOf(EventsOf(members)) == AllEmptied(members)
  {
    if members != [] {
      MemberEventsAre(members[0]);
      EventsHoldMembers(members[1..]);
      MembersConcat(MemberEvents(members[0]), EventsOf(members[1..]));
    }
  }

  /** The first member whose events hold a record: a `value` that is an array with something in it. */
  predicate HoldsRecords(member: (string, Json)) {
    member.0 == VALUE && member.1.JArray? && member.1.items != []
  }

  lemma {:induction false} NoRecordMembers(members: Members)
    requires forall i | 0 <= i < |members| :: !HoldsRecords(members[i])
    ensures FirstRecord(EventsOf(members)) == |EventsOf(members)| && RecordsOf(EventsOf(members)) == []
    ensures |EventsOf(members)| == |members| && forall i | 0 <= i < |members| :: EventsOf(members)[i].Member?
  {
    if members != [] {
      NoRecordMembers(members[1..]);
      MemberEventsAre(members[0]);
      assert |MemberEvents(members[0])| == 1 && MemberEvents(members[0])[0].Member?;
      MembersConcat(MemberEvents(members[0]), EventsOf(members[1..]));
      FirstRecordAt(EventsOf(members), |members|);
    }
  }

  /** The events of a file whose records are in its `at`-th member, and in no other. */
  lemma {:induction false} RecordsInOneMember(members: Members, at: nat)
    requires at < |members| && HoldsRecords(members[at])
    requires forall i | 0 <= i < |members| && i != at :: !HoldsRecords(members[i])
    ensures FirstRecord(EventsOf(members)) == at < |EventsOf(members)|
    ensures RecordsOf(EventsOf(members)) == members[at].1.items
    ensures MembersOf(EventsOf(members)[..at]) == members[..at]
  {
    hide MembersOf, RecordsOf, MemberEvents;
    var head, rest := MemberEvents(members[0]), members[1..];
    MemberEventsAre(members[0]);
    MembersConcat(head, EventsOf(rest));
    if at == 0 {
      NoRecordMembers(rest);
      FirstIsRecord(members[0]);
      NothingBefore(EventsOf(members));
      assert members[0].1.items + [] == members[0].1.items;
    } else {
      RecordsInOneMember(rest, at - 1);
      OneEvent(members[0]);
      assert EventsOf(members)[1..] == EventsOf(rest);
      assert EventsOf(members)[..at] == head + EventsOf(rest)[..at - 1];
      MembersConcat(head, EventsOf(rest)[..at - 1]);
      assert members[..at] == [members[0]] + rest[..at - 1];
      assert [] + members[at].1.items == members[at].1.items;
    }
  }

  lemma NothingBefore(events: seq<JsonEvent>)
    ensures MembersOf(events[..0]) == []
  {
  }

  lemma FirstIsRecord(member: (string, Json))
    requires HoldsRecords(member)
    ensures MemberEvents(member) != [] && MemberEvents(member)[0].Record?
  {
  }

  lemma OneEvent(member: (string, Json))
    requires !HoldsRecords(member)
    ensures MemberEvents(member) == [Member(member.0, member.1)] && Emptied(member) == member
  {
  }

  lemma {:induction false} FromEntriesKeys(members: Members, key: string)
    ensures key in FromEntries(members) <==> HasKey(members, key)
  {
    if members != [] {
      var init, last := members[..|members| - 1], members[|members| - 1];
      FromEntriesKeys(init, key);
      assert members == init + [last];
      HasKeyMore(init, last.0, last.1);
    }
  }

  /** A payload key that is not repeated has the value it was given. */
  lemma {:induction false} FromEntriesAt(members: Members, i: nat)
    requires i < |members| && IsPayloadKey(members[i].0) && !Repeats(members)
    ensures members[i].0 in FromEntries(members) && FromEntries(members)[members[i].0] == members[i].1
  {
    var init, last := members[..|members| - 1], members[|members| - 1];
    assert members == init + [last];
    if i < |init| {
      RepeatsMore(init, last.0, last.1);
      assert HasKey(init, members[i].0) by { assert init[i].0 == members[i].0; }
      FromEntriesAt(init, i);
    }
  }

  /** The two contexts, which are all a header is made of. */
  lemma HeaderOfContexts(reader: Reader, a: map<string, Json>, b: map<string, Json>, source: string)
    requires Lookup(a, RESO_CONTEXT) == Lookup(b, RESO_CONTEXT)
    requires Lookup(a, ODATA_CONTEXT) == Lookup(b, ODATA_CONTEXT)
          || (Lookup(a, RESO_CONTEXT).Some? && !Lookup(a, RESO_CONTEXT).value.JNull?)
    ensures HeaderOf(reader, a, source) == HeaderOf(reader, b, source)
  {
  }

  lemma EmptiedRepeats(members: Members)
    ensures Repeats(AllEmptied(members)) <==> Repeats(members)
    ensures forall key :: HasKey(AllEmptied(members), key) <==> HasKey(members, key)
  {
    assert forall i | 0 <= i < |members| :: AllEmptied(members)[i].0 == members[i].0;
    forall key ensures HasKey(AllEmptied(members), key) <==> HasKey(members, key) {
      if HasKey(members, key) {
        var i :| 0 <= i < |members| && members[i].0 == key;
        assert AllEmptied(members)[i].0 == key;
      }
    }
    if Repeats(members) {
      var i, j :| 0 <= i < j < |members| && members[i].0 == members[j].0 && IsPayloadKey(members[j].0);
      assert AllEmptied(members)[i].0 == AllEmptied(members)[j].0;
    }
  }

  lemma LookupOf(members: Members, key: string)
    requires IsPayloadKey(key) && !Repeats(members)
    ensures Lookup(FromEntries(members), key).Some? <==> HasKey(members, key)
    ensures forall i | 0 <= i < |members| && members[i].0 == key :: Lookup(FromEntries(members), key) == Some(members[i].1)
  {
    FromEntriesKeys(members, key);
    forall i | 0 <= i < |members| && members[i].0 == key
      ensures Lookup(FromEntries(members), key) == Some(members[i].1)
    {
      FromEntriesAt(members, i);
    }
  }

  /** The stream's members name the contexts the file names. */
  lemma EmptiedLookup(members: Members, key: string)
    requires (key == RESO_CONTEXT || key == ODATA_CONTEXT) && !Repeats(members)
    ensures Lookup(FromEntries(AllEmptied(members)), key) == Lookup(FromEntries(members), key)
  {
    EmptiedRepeats(members);
    LookupOf(members, key);
    LookupOf(AllEmptied(members), key);
    if HasKey(members, key) {
      var i :| 0 <= i < |members| && members[i].0 == key;
      assert AllEmptied(members)[i] == members[i];
    }
  }

  /** A null `@reso.context` stands before the records, and an `@odata.context` that resolves only after them. */
  ghost predicate ContextComesLate(reader: Reader, members: Members) {
    exists r, v, o ::
      && 0 <= r < v < o < |members|
      && members[r] == (RESO_CONTEXT, JNull) && HoldsRecords(members[v]) && members[o].0 == ODATA_CONTEXT
      && ParseContext(reader, Some(members[o].1)).Some?
  }

  function Whole(reader: Reader, members: Members, source: string): Option<Payload> {
    ToPayload(reader, FromEntries(members), source)
  }

  function PayloadOf(outcome: Outcome): Option<Payload> {
    if outcome.Yielded? then Some(outcome.payload) else None
  }

  lemma NoRecordsAgree(reader: Reader, members: Members, source: string)
    requires !Repeats(members) && forall i | 0 <= i < |members| :: !HoldsRecords(members[i])
    ensures PayloadOf(Streamed(reader, EventsOf(members), source)) == Whole(reader, members, source)
    ensures Streamed(reader, EventsOf(members), source).Yielded? ==> Streamed(reader, EventsOf(members), source).readings == 1
  {
    hide HeaderOf, ToPayload, FromEntries, MembersOf, RecordsOf, EventsOf, FirstRecord, Repeats;
    NoRecordMembers(members);
    EventsHoldMembers(members);
    assert AllEmptied(members) == members;
    assert EventsOf(members)[..|EventsOf(members)|] == EventsOf(members);
  }

  /** The records stand in one member, when no payload key is repeated. */
  lemma OneRecordMember(members: Members, at: nat)
    requires !Repeats(members) && at < |members| && HoldsRecords(members[at])
    ensures forall i | 0 <= i < |members| && i != at :: !HoldsRecords(members[i])
    ensures Lookup(FromEntries(members), VALUE) == Some(members[at].1)
  {
    LookupOf(members, VALUE);
  }

  lemma BeforeLookup(members: Members, at: nat, key: string)
    requires at <= |members| && !Repeats(members) && IsPayloadKey(key)
    ensures !Repeats(members[..at])
    ensures Lookup(FromEntries(members[..at]), key).Some? ==> Lookup(FromEntries(members[..at]), key) == Lookup(FromEntries(members), key)
    ensures Lookup(FromEntries(members[..at]), key).Some? <==> HasKey(members[..at], key)
  {
    var before := members[..at];
    assert forall i | 0 <= i < at :: before[i] == members[i];
    LookupOf(members, key);
    LookupOf(before, key);
    if HasKey(before, key) {
      var i :| 0 <= i < |before| && before[i].0 == key;
      assert members[i].0 == key;
    }
  }

  lemma RecordsHeader(reader: Reader, members: Members, source: string, at: nat)
    requires !Repeats(members) && at < |members| && HoldsRecords(members[at])
    ensures var outcome := Streamed(reader, EventsOf(members), source);
            var early := HasKey(members[..at], RESO_CONTEXT);
            match HeaderOf(reader, FromEntries(if early then members[..at] else AllEmptied(members)), source)
            case None => outcome == Nothing
            case Some(header) => outcome == Yielded(Payload(header, members[at].1.items), if early then 1 else 2)
  {
    hide HeaderOf, FromEntries, MembersOf, RecordsOf, EventsOf, FirstRecord, Repeats, HasKey;
    OneRecordMember(members, at);
    RecordsInOneMember(members, at);
    EventsHoldMembers(members);
    EmptiedRepeats(members);
  }

  lemma WholeHeader(reader: Reader, members: Members, source: string, at: nat)
    requires !Repeats(members) && at < |members| && HoldsRecords(members[at])
    ensures match HeaderOf(reader, FromEntries(members), source)
            case None => Whole(reader, members, source) == None
            case Some(header) => Whole(reader, members, source) == Some(Payload(header, members[at].1.items))
  {
    hide HeaderOf, FromEntries, Repeats;
    OneRecordMember(members, at);
  }

  lemma LateHeader(reader: Reader, members: Members, source: string, at: nat)
    requires !Repeats(members) && at < |members| && HoldsRecords(members[at]) && HasKey(members[..at], RESO_CONTEXT)
    ensures HeaderOf(reader, FromEntries(members[..at]), source) == HeaderOf(reader, FromEntries(members), source)
       <==> !ContextComesLate(reader, members)
  {
    hide FromEntries, Repeats;
    var before := members[..at];
    BeforeLookup(members, at, RESO_CONTEXT);
    BeforeLookup(members, at, ODATA_CONTEXT);
    LookupOf(members, RESO_CONTEXT);
    LookupOf(members, ODATA_CONTEXT);
    OneRecordMember(members, at);
    var r: nat :| r < |before| && before[r].0 == RESO_CONTEXT;
    assert members[r] == before[r];
    if HasKey(members, ODATA_CONTEXT) {
      var o: nat :| o < |members| && members[o].0 == ODATA_CONTEXT;
      if o < at {
        assert before[o].0 == ODATA_CONTEXT;
      }
      OnlyOne(members, r);
      OnlyOne(members, o);
    } else {
      assert forall o | 0 <= o < |members| :: members[o].0 != ODATA_CONTEXT;
    }
  }

  lemma OnlyOne(members: Members, at: nat)
    requires !Repeats(members) && at < |members| && IsPayloadKey(members[at].0)
    ensures forall i | 0 <= i < |members| && members[i].0 == members[at].0 :: i == at
  {
  }

  /**
   * Streaming a file reads what reading it whole reads: the same header, the same records in the same order, or nothing; for
   * every order of its members, and for every file that repeats no payload key. The one exception, exactly: a null
   * `@reso.context` before the records, with an `@odata.context` that resolves after them.
   */
  lemma StreamingReadsTheFile(reader: Reader, members: Members, source: string)
    requires !Repeats(members)
    ensures PayloadOf(Streamed(reader, EventsOf(members), source)) == Whole(reader, members, source)
       <==> !ContextComesLate(reader, members)
  {
    hide HeaderOf, FromEntries, Repeats, Streamed, Whole, EventsOf, HasKey;
    if at: nat :| at < |members| && HoldsRecords(members[at]) {
      RecordsHeader(reader, members, source, at);
      WholeHeader(reader, members, source, at);
      EmptiedLookup(members, RESO_CONTEXT);
      EmptiedLookup(members, ODATA_CONTEXT);
      HeaderOfContexts(reader, FromEntries(AllEmptied(members)), FromEntries(members), source);
      if HasKey(members[..at], RESO_CONTEXT) {
        LateHeader(reader, members, source, at);
      } else {
        NoContextBefore(reader, members, at);
      }
    } else {
      NoRecordsAgree(reader, members, source);
    }
  }

  lemma NoContextBefore(reader: Reader, members: Members, at: nat)
    requires !Repeats(members) && at < |members| && HoldsRecords(members[at]) && !HasKey(members[..at], RESO_CONTEXT)
    ensures !ContextComesLate(reader, members)
  {
    OneRecordMember(members, at);
    assert forall i | 0 <= i < at :: members[..at][i] == members[i];
  }

  /** The file is read once where `@reso.context` stands before the records, or there are none, and twice otherwise. */
  lemma ReadOnceOrTwice(reader: Reader, members: Members, source: string)
    requires !Repeats(members) && Streamed(reader, EventsOf(members), source).Yielded?
    ensures var once := forall v | 0 <= v < |members| && HoldsRecords(members[v]) :: HasKey(members[..v], RESO_CONTEXT);
            Streamed(reader, EventsOf(members), source).readings == if once then 1 else 2
  {
    hide HeaderOf, FromEntries, Repeats, Streamed, EventsOf, HasKey;
    if at: nat :| at < |members| && HoldsRecords(members[at]) {
      RecordsHeader(reader, members, source, at);
      OneRecordMember(members, at);
    } else {
      NoRecordsAgree(reader, members, source);
    }
  }

  /** A file that repeats a payload key is refused, rather than read either way. */
  lemma RepeatedKeyIsRefused(reader: Reader, members: Members, source: string)
    ensures Streamed(reader, EventsOf(members), source) == Refused <==> Repeats(members)
  {
    hide HeaderOf, FromEntries, Repeats, ToPayload;
    EventsHoldMembers(members);
    EmptiedRepeats(members);
  }
}
