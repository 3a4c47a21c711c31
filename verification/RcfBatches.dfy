/** Draining a payload stream: validation in batches, per-field availability, and what the counts come to. */
module RcfBatches {
  import opened Strings
  import opened JsonValues
  import opened RcfInput

  const VALIDATION_BATCH_SIZE := 1000

  /** One call of a schema validator, beside the errors found so far. */
  datatype Call = Call(
    context: Option<string>, records: seq<Json>, resource: string, version: Option<string>, contextChecked: bool)

  datatype Validator<!E> = Validator(validate: (Call, E) -> E, totalErrors: E -> nat)

  datatype Options<!E> = Options(
    validator: Option<Validator<E>>, strict: bool, version: Option<string>, canonicalResource: string -> string, noErrors: E)

  datatype Availability = Availability(recordCount: nat, fields: map<string, nat>)

  datatype Summary<E> =
    | Drained(availability: map<string, Availability>, totalRecords: nat, invalidContextFiles: nat,
              invalidContextRecords: nat, version: Option<string>, errors: E)
    | SchemaFailure(source: string)

  // Batches

  /** A payload's records as they are validated: an empty payload once, and no other batch empty. */
  function Batches(records: seq<Json>): seq<seq<Json>> {
    if |records| <= VALIDATION_BATCH_SIZE then [records]
    else [records[..VALIDATION_BATCH_SIZE]] + Batches(records[VALIDATION_BATCH_SIZE..])
  }

  /** The batches are the records, in order; each is full but the last, and empty only where the payload is. */
  lemma {:induction false} BatchesHoldTheRecords(records: seq<Json>)
    ensures Concat(Batches(records)) == records
    ensures forall i | 0 <= i < |Batches(records)| :: |Batches(records)[i]| <= VALIDATION_BATCH_SIZE
    ensures forall i | 0 <= i < |Batches(records)| - 1 :: |Batches(records)[i]| == VALIDATION_BATCH_SIZE
    ensures forall i | 0 <= i < |Batches(records)| :: Batches(records)[i] == [] ==> records == []
    ensures |Batches(records)| == if records == [] then 1 else (|records| + VALIDATION_BATCH_SIZE - 1) / VALIDATION_BATCH_SIZE
  {
    ConcatFirst(Batches(records));
    if |records| > VALIDATION_BATCH_SIZE {
      BatchesHoldTheRecords(records[VALIDATION_BATCH_SIZE..]);
    }
  }

  /** The errors once each batch is validated in turn: the first as `checked` says, and every later one as checked. */
  function Validated<E>(validator: Validator<E>, call: Call, batches: seq<seq<Json>>, errors: E): E
    decreases |batches|
  {
    if batches == [] then errors
    else
      var last := |batches| - 1;
      var before := Validated(validator, call, batches[..last], errors);
      validator.validate(call.(records := batches[last], contextChecked := call.contextChecked || last > 0), before)
  }

  /** A validator that checks each record on its own, and the context once: validating more records only adds to it. */
  ghost predicate ChecksRecordByRecord<E(!new)>(validator: Validator<E>) {
    forall call: Call, a, b, errors: E ::
      validator.validate(call.(records := a + b), errors)
      == validator.validate(call.(records := b, contextChecked := true), validator.validate(call.(records := a), errors))
  }

  /** The errors of each record in turn, onto those before it. */
  function OverRecords<E>(onRecord: (Call, Json, E) -> E, call: Call, records: seq<Json>, errors: E): E
    decreases |records|
  {
    if records == [] then errors
    else
      var last := |records| - 1;
      onRecord(call.(records := [], contextChecked := true), records[last], OverRecords(onRecord, call, records[..last], errors))
  }

  /** A validator that checks the context, unless it has been checked, and then each record on its own. */
  function FoldingValidator<E(!new)>(onContext: (Call, E) -> E, onRecord: (Call, Json, E) -> E, totalErrors: E -> nat): Validator<E> {
    Validator(
      (call: Call, errors: E) =>
        OverRecords(onRecord, call, call.records,
          if call.contextChecked then errors else onContext(call.(records := []), errors)),
      totalErrors)
  }

  lemma {:induction false} OverMoreRecords<E>(onRecord: (Call, Json, E) -> E, a: Call, b: Call, x: seq<Json>, y: seq<Json>, errors: E)
    requires a.(records := [], contextChecked := true) == b.(records := [], contextChecked := true)
    ensures OverRecords(onRecord, a, x + y, errors) == OverRecords(onRecord, b, y, OverRecords(onRecord, a, x, errors))
    decreases |y|
  {
    if y == [] {
      assert x + y == x;
    } else {
      var last := |y| - 1;
      assert (x + y)[..|x + y| - 1] == x + y[..last];
      OverMoreRecords(onRecord, a, b, x, y[..last], errors);
    }
  }

  /** Every validator of that kind checks record by record: the law is met by what it is meant for. */
  lemma FoldingChecksRecordByRecord<E(!new)>(onContext: (Call, E) -> E, onRecord: (Call, Json, E) -> E, totalErrors: E -> nat)
    ensures ChecksRecordByRecord(FoldingValidator(onContext, onRecord, totalErrors))
  {
    var validator := FoldingValidator(onContext, onRecord, totalErrors);
    forall call: Call, a, b, errors: E
      ensures validator.validate(call.(records := a + b), errors)
           == validator.validate(call.(records := b, contextChecked := true), validator.validate(call.(records := a), errors))
    {
      var whole, first, second := call.(records := a + b), call.(records := a), call.(records := b, contextChecked := true);
      var start := if call.contextChecked then errors else onContext(call.(records := []), errors);
      assert whole.(records := []) == first.(records := []) == call.(records := []);
      OverMoreRecords(onRecord, whole, second, a, b, start);
      OverMoreRecords(onRecord, whole, first, [], a, start);
      assert [] + a == a;
    }
  }

  lemma {:induction false} ValidatedFromTheFront<E>(validator: Validator<E>, call: Call, batches: seq<seq<Json>>, errors: E)
    requires batches != []
    ensures Validated(validator, call, batches, errors)
         == Validated(validator, call.(contextChecked := true), batches[1..], validator.validate(call.(records := batches[0]), errors))
  {
    var last := |batches| - 1;
    var first := validator.validate(call.(records := batches[0]), errors);
    if last == 0 {
      assert batches[..0] == [];
      assert call.contextChecked == (call.contextChecked || last > 0);
    } else {
      ValidatedFromTheFront(validator, call, batches[..last], errors);
      assert batches[..last][1..] == batches[1..][..last - 1];
      assert call.(contextChecked := true).(records := batches[last], contextChecked := true || last - 1 > 0)
          == call.(records := batches[last], contextChecked := call.contextChecked || last > 0);
    }
  }

  /** Validating in batches finds what one call over all the records finds. */
  lemma {:induction false} BatchingChangesNothing<E(!new)>(validator: Validator<E>, call: Call, errors: E)
    requires ChecksRecordByRecord(validator)
    ensures Validated(validator, call, Batches(call.records), errors) == validator.validate(call, errors)
    decreases |call.records|
  {
    var records := call.records;
    ValidatedFromTheFront(validator, call, Batches(records), errors);
    if |records| > VALIDATION_BATCH_SIZE {
      var head, tail := records[..VALIDATION_BATCH_SIZE], records[VALIDATION_BATCH_SIZE..];
      var first := validator.validate(call.(records := head), errors);
      BatchingChangesNothing(validator, call.(records := tail, contextChecked := true), first);
      assert Batches(records)[1..] == Batches(tail);
      SameForAnyRecords(validator, call.(contextChecked := true), tail, Batches(tail), first);
      assert head + tail == records && call.(records := head + tail) == call;
    } else {
      assert call.(records := records) == call;
    }
  }

  lemma {:induction false} SameForAnyRecords<E>(
      validator: Validator<E>, call: Call, records: seq<Json>, batches: seq<seq<Json>>, errors: E)
    ensures Validated(validator, call.(records := records), batches, errors) == Validated(validator, call, batches, errors)
    decreases |batches|
  {
    if batches != [] {
      SameForAnyRecords(validator, call, records, batches[..|batches| - 1], errors);
    }
  }

  // Counting

  /** Whether a record gives a field a value: annotations, nulls and empty texts are none. */
  predicate Carries(record: Json, field: string) {
    record.JObject? && field in record.fields && HasValue(field, record.fields[field])
  }

  predicate HasValue(field: string, value: Json) {
    !(|field| > 0 && field[0] == '@') && !value.JNull? && value != JString("")
  }

  /** A field counts unless its name starts with `@`, or its value is null or the empty text. */
  lemma HasValueExactly(field: string, value: Json)
    ensures HasValue(field, value) <==> !(exists rest: string :: field == "@" + rest) && value != JNull && (value.JString? ==> |value.s| > 0)
  {
    if |field| > 0 && field[0] == '@' {
      assert field == "@" + field[1..];
    }
  }

  function CountOf(counted: seq<(string, Json)>, resource: string): (n: nat)
    ensures n <= |counted|
  {
    if counted == [] then 0
    else CountOf(counted[..|counted| - 1], resource) + if counted[|counted| - 1].0 == resource then 1 else 0
  }

  function CarriedBy(counted: seq<(string, Json)>, resource: string, field: string): (n: nat)
    ensures n <= CountOf(counted, resource)
  {
    if counted == [] then 0
    else
      var last := counted[|counted| - 1];
      CarriedBy(counted[..|counted| - 1], resource, field) + if last.0 == resource && Carries(last.1, field) then 1 else 0
  }

  function FieldCount(fields: map<string, nat>, field: string): nat {
    if field in fields then fields[field] else 0
  }

  /** What the stream's payloads count: the records of those whose context could be read, under their resource. */
  function Counted<E>(options: Options<E>, payloads: seq<Payload>): seq<(string, Json)> {
    if payloads == [] then []
    else Counted(options, payloads[..|payloads| - 1]) + CountedOf(options, payloads[|payloads| - 1])
  }

  function CountedOf<E>(options: Options<E>, payload: Payload): seq<(string, Json)> {
    if payload.header.invalidContext then []
    else
      var records := payload.records;
      seq(|records|, i requires 0 <= i < |records| => (options.canonicalResource(payload.header.resource), records[i]))
  }

  /** The resources the stream names, those of empty payloads among them. */
  function Named<E>(options: Options<E>, payloads: seq<Payload>): set<string> {
    set payload | payload in payloads && !payload.header.invalidContext :: options.canonicalResource(payload.header.resource)
  }

  /** Per resource, its records and, for each field, how many of them carry it; no field without one, no resource unnamed. */
  ghost predicate Counts(availability: map<string, Availability>, named: set<string>, counted: seq<(string, Json)>) {
    && availability.Keys == named
    && forall resource | resource in availability :: CountsOf(availability[resource], resource, counted)
  }

  ghost predicate CountsOf(av: Availability, resource: string, counted: seq<(string, Json)>) {
    && av.recordCount == CountOf(counted, resource)
    && (forall field :: FieldCount(av.fields, field) == CarriedBy(counted, resource, field))
    && forall field | field in av.fields :: av.fields[field] > 0
  }

  function InvalidRecords(payloads: seq<Payload>): nat {
    if payloads == [] then 0
    else
      var last := payloads[|payloads| - 1];
      InvalidRecords(payloads[..|payloads| - 1]) + if last.header.invalidContext then |last.records| else 0
  }

  function InvalidFiles(payloads: seq<Payload>): nat {
    if payloads == [] then 0
    else InvalidFiles(payloads[..|payloads| - 1]) + if payloads[|payloads| - 1].header.invalidContext then 1 else 0
  }

  function FirstVersion(payloads: seq<Payload>): Option<string> {
    if payloads == [] then None else OrElse(FirstVersion(payloads[..|payloads| - 1]), payloads[|payloads| - 1].header.version)
  }

  function CallOf<E>(options: Options<E>, payload: Payload): Call {
    Call(payload.header.context, payload.records, options.canonicalResource(payload.header.resource),
         OrElse(options.version, payload.header.version), false)
  }

  /** The errors of a stream: each payload's batches, onto those of the payloads before it. */
  function Errors<E>(options: Options<E>, validator: Validator<E>, payloads: seq<Payload>): E {
    if payloads == [] then options.noErrors
    else
      var last := payloads[|payloads| - 1];
      Validated(validator, CallOf(options, last), Batches(last.records), Errors(options, validator, payloads[..|payloads| - 1]))
  }

  /** The errors of a stream whose payloads are each validated whole. */
  function ErrorsWhole<E>(options: Options<E>, validator: Validator<E>, payloads: seq<Payload>): E {
    if payloads == [] then options.noErrors
    else
      validator.validate(
        CallOf(options, payloads[|payloads| - 1]), ErrorsWhole(options, validator, payloads[..|payloads| - 1]))
  }

  /** A stream in batches ends with the errors it ends with whole. */
  lemma {:induction false} StreamingChangesNothing<E(!new)>(options: Options<E>, validator: Validator<E>, payloads: seq<Payload>)
    requires ChecksRecordByRecord(validator)
    ensures Errors(options, validator, payloads) == ErrorsWhole(options, validator, payloads)
  {
    if payloads != [] {
      var before := payloads[..|payloads| - 1];
      StreamingChangesNothing(options, validator, before);
      BatchingChangesNothing(validator, CallOf(options, payloads[|payloads| - 1]), Errors(options, validator, before));
    }
  }

  /** The version of a run is the one that validates: what the payloads say theirs is changes nothing. */
  lemma {:induction false} TheRunsVersionIsUsed<E>(
      options: Options<E>, validator: Validator<E>, payloads: seq<Payload>, others: seq<Payload>)
    requires options.version.Some? && |payloads| == |others|
    requires forall i | 0 <= i < |payloads| ::
               others[i] == payloads[i].(header := payloads[i].header.(version := others[i].header.version))
    ensures Errors(options, validator, payloads) == Errors(options, validator, others)
  {
    if payloads != [] {
      var n := |payloads| - 1;
      TheRunsVersionIsUsed(options, validator, payloads[..n], others[..n]);
    }
  }

  /** A resource is known by the name the caller resolves it to, to the errors and to the counts. */
  lemma {:induction false} TheCanonicalNameIsUsed<E>(
      options: Options<E>, validator: Validator<E>, payloads: seq<Payload>, others: seq<Payload>)
    requires |payloads| == |others|
    requires forall i | 0 <= i < |payloads| ::
               && others[i] == payloads[i].(header := payloads[i].header.(resource := others[i].header.resource))
               && options.canonicalResource(payloads[i].header.resource) == options.canonicalResource(others[i].header.resource)
    ensures Errors(options, validator, payloads) == Errors(options, validator, others)
    ensures Counted(options, payloads) == Counted(options, others)
  {
    if payloads != [] {
      var n := |payloads| - 1;
      TheCanonicalNameIsUsed(options, validator, payloads[..n], others[..n]);
    }
  }

  /** What the validator is given of a payload: its raw context, its records, and the resource and version resolved. */
  lemma CallExactly<E>(options: Options<E>, payload: Payload)
    ensures var call := CallOf(options, payload);
            && call.context == payload.header.context && call.records == payload.records && !call.contextChecked
            && call.resource == options.canonicalResource(payload.header.resource)
            && (options.version.Some? ==> call.version == options.version)
            && (options.version.None? ==> call.version == payload.header.version)
  {
  }

  /** Where the run has no version, the payload's stands in. */
  lemma {:induction false} ThePayloadsVersionStandsIn<E>(
      options: Options<E>, validator: Validator<E>, payloads: seq<Payload>, version: Option<string>)
    requires options.version.None? && forall payload <- payloads :: payload.header.version == version
    ensures Errors(options, validator, payloads) == Errors(options.(version := version), validator, payloads)
  {
    if payloads != [] {
      ThePayloadsVersionStandsIn(options, validator, payloads[..|payloads| - 1], version);
    }
  }

  /** The version a stream is found to have is its first payload's that has one. */
  lemma {:induction false} FirstVersionExactly(payloads: seq<Payload>, i: nat)
    requires i < |payloads| && forall j | 0 <= j < i :: payloads[j].header.version == None
    ensures payloads[i].header.version.Some? ==> FirstVersion(payloads) == payloads[i].header.version
    ensures (forall payload <- payloads :: payload.header.version == None) ==> FirstVersion(payloads) == None
    decreases |payloads|
  {
    var init := payloads[..|payloads| - 1];
    if i < |init| {
      FirstVersionExactly(init, i);
    } else if init != [] {
      FirstVersionExactly(init, 0);
      assert forall payload <- init :: payload.header.version == None;
    }
  }

  function RecordsOf(payloads: seq<Payload>): nat {
    if payloads == [] then 0 else RecordsOf(payloads[..|payloads| - 1]) + |payloads[|payloads| - 1].records|
  }

  /** Every record is counted under its resource or is a record of an invalid payload: none is lost, and none is both. */
  lemma {:induction false} EveryRecordIsCounted<E>(options: Options<E>, payloads: seq<Payload>)
    ensures |Counted(options, payloads)| + InvalidRecords(payloads) == RecordsOf(payloads)
  {
    if payloads != [] {
      EveryRecordIsCounted(options, payloads[..|payloads| - 1]);
    }
  }

  /** The invalid files are those whose context is invalid, and their records are all the records of those. */
  lemma {:induction false} InvalidExactly(payloads: seq<Payload>, more: Payload)
    ensures InvalidFiles(payloads + [more]) == InvalidFiles(payloads) + if more.header.invalidContext then 1 else 0
    ensures InvalidRecords(payloads + [more]) == InvalidRecords(payloads) + if more.header.invalidContext then |more.records| else 0
    ensures InvalidFiles([]) == 0 && InvalidRecords([]) == 0
  {
    assert (payloads + [more])[..|payloads|] == payloads;
  }

  ghost function AnyOf(resources: set<string>): (resource: string)
    requires resources != {}
    ensures resource in resources
  {
    var resource :| resource in resources;
    resource
  }

  /** The records of some resources, added up. */
  ghost function Total(counted: seq<(string, Json)>, resources: set<string>): nat {
    if resources == {} then 0
    else CountOf(counted, AnyOf(resources)) + Total(counted, resources - {AnyOf(resources)})
  }

  lemma {:induction false} TotalAfter(counted: seq<(string, Json)>, resources: set<string>)
    requires counted != []
    ensures Total(counted, resources)
         == Total(counted[..|counted| - 1], resources) + if counted[|counted| - 1].0 in resources then 1 else 0
    decreases resources
  {
    if resources != {} {
      TotalAfter(counted, resources - {AnyOf(resources)});
    }
  }

  lemma {:induction false} NothingTotalled(resources: set<string>)
    ensures Total([], resources) == 0
    decreases resources
  {
    if resources != {} {
      NothingTotalled(resources - {AnyOf(resources)});
    }
  }

  /** The records counted are the sum of each resource's. */
  lemma {:induction false} CountsAddUp(counted: seq<(string, Json)>, resources: set<string>)
    requires forall i | 0 <= i < |counted| :: counted[i].0 in resources
    ensures Total(counted, resources) == |counted|
  {
    if counted == [] {
      NothingTotalled(resources);
    } else {
      TotalAfter(counted, resources);
      CountsAddUp(counted[..|counted| - 1], resources);
    }
  }

  lemma {:induction false} CountedAreNamed<E>(options: Options<E>, payloads: seq<Payload>)
    ensures forall i | 0 <= i < |Counted(options, payloads)| :: Counted(options, payloads)[i].0 in Named(options, payloads)
  {
    if payloads != [] {
      CountedAreNamed(options, payloads[..|payloads| - 1]);
      assert payloads[|payloads| - 1] in payloads;
    }
  }

  /** The total is the sum of the resources' record counts. */
  lemma TotalIsTheSum<E>(options: Options<E>, payloads: seq<Payload>)
    ensures Total(Counted(options, payloads), Named(options, payloads)) == |Counted(options, payloads)|
  {
    CountedAreNamed(options, payloads);
    CountsAddUp(Counted(options, payloads), Named(options, payloads));
  }

  // The loop

  /** A record's fields onto a resource's counts. */
  method CountFields(fields: map<string, nat>, record: Json) returns (after: map<string, nat>)
    requires forall field | field in fields :: fields[field] > 0
    ensures forall field :: FieldCount(after, field) == FieldCount(fields, field) + if Carries(record, field) then 1 else 0
    ensures forall field | field in after :: after[field] > 0
  {
    after := fields;
    if record.JObject? {
      var remaining := record.fields.Keys;
      while remaining != {}
        invariant remaining <= record.fields.Keys
        invariant forall field ::
          FieldCount(after, field) == FieldCount(fields, field) + (if Carries(record, field) && field !in remaining then 1 else 0)
        invariant forall field | field in after :: after[field] > 0
      {
        var field :| field in remaining;
        remaining := remaining - {field};
        if HasValue(field, record.fields[field]) {
          after := after[field := FieldCount(after, field) + 1];
        }
      }
    }
  }

  /** What the drain keeps between records. */
  class Drain<E> {
    const options: Options<E>
    var availability: map<string, Availability>
    var totalRecords: nat
    var errors: E
    var batch: seq<Json>
    var batchesValidated: nat
    /** The records counted so far. */
    ghost var counted: seq<(string, Json)>

    ghost predicate Tallied(named: set<string>)
      reads this
    {
      Counts(availability, named, counted) && totalRecords == |counted|
    }

    constructor (options: Options<E>)
      ensures this.options == options && Tallied({}) && counted == [] && errors == options.noErrors
    {
      this.options := options;
      availability, totalRecords, errors, batch, batchesValidated, counted := map[], 0, options.noErrors, [], 0, [];
    }

    /** A resource that the stream names, counted from nothing when it is new. */
    method Open(resource: string, ghost named: set<string>)
      requires Tallied(named) && forall i | 0 <= i < |counted| :: counted[i].0 in named
      modifies this`availability
      ensures Tallied(named + {resource})
    {
      if resource !in availability {
        Unseen(counted, resource);
        availability := availability[resource := Availability(0, map[])];
      }
    }

    method Count(resource: string, record: Json, ghost named: set<string>)
      requires Tallied(named) && resource in named
      modifies this`availability, this`totalRecords, this`counted
      ensures Tallied(named) && counted == old(counted) + [(resource, record)]
    {
      var av := availability[resource];
      var fields := CountFields(av.fields, record);
      counted := counted + [(resource, record)];
      assert counted[..|counted| - 1] == old(counted);
      availability := availability[resource := Availability(av.recordCount + 1, fields)];
      totalRecords := totalRecords + 1;
    }

    method ValidateBatch(validator: Validator<E>, call: Call, ghost start: E, ghost done: seq<seq<Json>>)
      requires !call.contextChecked && batchesValidated == |done| && errors == Validated(validator, call, done, start)
      modifies this`errors, this`batch, this`batchesValidated
      ensures batch == [] && batchesValidated == |done| + 1
      ensures errors == Validated(validator, call, done + [old(batch)], start)
    {
      assert (done + [batch])[..|done|] == done;
      errors := validator.validate(call.(records := batch, contextChecked := batchesValidated > 0), errors);
      batchesValidated := batchesValidated + 1;
      batch := [];
    }

    /** The batches validated hold the records read but for those of the open batch, which is not full. */
    ghost predicate Filling(validator: Validator<E>, call: Call, start: E, done: seq<seq<Json>>, read: seq<Json>)
      reads this`errors, this`batch, this`batchesValidated
    {
      && Concat(done) + batch == read && |batch| < VALIDATION_BATCH_SIZE
      && (forall i | 0 <= i < |done| :: |done[i]| == VALIDATION_BATCH_SIZE)
      && batchesValidated == |done| && errors == Validated(validator, call, done, start)
    }

    method Push(validator: Validator<E>, call: Call, record: Json, ghost start: E, ghost done: seq<seq<Json>>, ghost read: seq<Json>)
      returns (ghost doneNow: seq<seq<Json>>)
      requires !call.contextChecked && Filling(validator, call, start, done, read)
      modifies this`errors, this`batch, this`batchesValidated
      ensures Filling(validator, call, start, doneNow, read + [record])
    {
      doneNow := done;
      batch := batch + [record];
      assert Concat(done) + batch == read + [record];
      if |batch| == VALIDATION_BATCH_SIZE {
        doneNow := done + [batch];
        ConcatMore(done, batch);
        ValidateBatch(validator, call, start, done);
      }
    }

    method Finish(validator: Validator<E>, call: Call, ghost start: E, ghost done: seq<seq<Json>>)
      requires !call.contextChecked && Filling(validator, call, start, done, call.records)
      modifies this`errors, this`batch, this`batchesValidated
      ensures errors == Validated(validator, call, Batches(call.records), start)
    {
      BatchesAreFilled(done, batch);
      assert done + [] == done;
      if |batch| > 0 || batchesValidated == 0 {
        ValidateBatch(validator, call, start, done);
      }
    }

    /** The state is what the payloads read so far make it. */
    ghost predicate HasRead(payloads: seq<Payload>)
      reads this
    {
      && Tallied(Named(options, payloads)) && counted == Counted(options, payloads)
      && errors == if options.validator.Some? then Errors(options, options.validator.value, payloads) else options.noErrors
    }

    method Read(payload: Payload, ghost before: set<string>)
      requires Tallied(before) && forall i | 0 <= i < |counted| :: counted[i].0 in before
      modifies this
      ensures Tallied(before + NamedBy(options, payload))
      ensures counted == old(counted) + CountedOf(options, payload)
      ensures errors == if options.validator.None? then old(errors)
        else Validated(options.validator.value, CallOf(options, payload), Batches(payload.records), old(errors))
    {
      hide Counts, Batches, Validated, Concat;
      var header, validator := payload.header, options.validator;
      var resource := options.canonicalResource(header.resource);
      var call := Call(header.context, payload.records, resource, OrElse(options.version, header.version), false);
      batch, batchesValidated := [], 0;
      if !header.invalidContext {
        Open(resource, before);
      }
      ghost var start, done, named := errors, [], before + NamedBy(options, payload);
      assert header.invalidContext ==> named == before;
      assert validator.Some? ==> Filling(validator.value, call, start, done, []) by {
        NothingValidated(validator, call, start);
      }
      for i := 0 to |payload.records|
        invariant Tallied(named)
        invariant counted == old(counted) + CountedOf(options, payload)[..if header.invalidContext then 0 else i]
        invariant if validator.Some? then Filling(validator.value, call, start, done, payload.records[..i]) else errors == start
      {
        var record := payload.records[i];
        assert payload.records[..i] + [record] == payload.records[..i + 1];
        if validator.Some? {
          done := Push(validator.value, call, record, start, done, payload.records[..i]);
        }
        if !header.invalidContext {
          Count(resource, record, named);
        }
      }
      assert payload.records[..|payload.records|] == payload.records;
      if validator.Some? {
        Finish(validator.value, call, start, done);
      }
    }

    /** `Read`, for the payload after those read before. */
    method ReadNext(payload: Payload, ghost before: seq<Payload>)
      requires HasRead(before)
      modifies this
      ensures HasRead(before + [payload])
    {
      hide Counts, Batches, Validated, Tallied;
      CountedAreNamed(options, before);
      NamedMore(options, before, payload);
      assert (before + [payload])[..|before|] == before;
      Read(payload, Named(options, before));
    }
  }

  lemma NothingValidated<E>(validator: Option<Validator<E>>, call: Call, start: E)
    ensures Concat<Json>([]) == []
    ensures validator.Some? ==> Validated(validator.value, call, [], start) == start
  {
  }

  /** The resource a payload names, unless its context could not be read. */
  function NamedBy<E>(options: Options<E>, payload: Payload): set<string> {
    if payload.header.invalidContext then {} else {options.canonicalResource(payload.header.resource)}
  }

  lemma NamedMore<E>(options: Options<E>, before: seq<Payload>, payload: Payload)
    ensures Named(options, before + [payload])
         == Named(options, before) + NamedBy(options, payload)
  {
    var all := before + [payload];
    assert forall p :: p in all <==> p in before || p == payload;
  }

  /** A strict run stops at the first payload after which there are errors. */
  ghost predicate StopsAt<E>(options: Options<E>, payloads: seq<Payload>, i: nat)
    requires i < |payloads|
  {
    && options.strict && options.validator.Some?
    && options.validator.value.totalErrors(Errors(options, options.validator.value, payloads[..i + 1])) > 0
  }

  lemma NothingRead<E>(options: Options<E>)
    ensures Named(options, []) == {} && Counted(options, []) == [] && Counts(map[], {}, [])
    ensures options.validator.Some? ==> Errors(options, options.validator.value, []) == options.noErrors
    ensures InvalidFiles([]) == InvalidRecords([]) == 0 && FirstVersion([]) == None
  {
  }

  ghost predicate FirstStop<E>(options: Options<E>, payloads: seq<Payload>, i: nat) {
    i < |payloads| && StopsAt(options, payloads, i) && forall j | 0 <= j < i :: !StopsAt(options, payloads, j)
  }

  method ProcessRcfStream<E>(options: Options<E>, payloads: seq<Payload>) returns (r: Summary<E>)
    ensures r.SchemaFailure? <==> exists i :: 0 <= i < |payloads| && StopsAt(options, payloads, i)
    ensures r.SchemaFailure? ==> exists i: nat :: FirstStop(options, payloads, i) && payloads[i].header.source == r.source
    ensures r.Drained? ==>
      && Counts(r.availability, Named(options, payloads), Counted(options, payloads))
      && r.totalRecords == |Counted(options, payloads)|
      && r.invalidContextFiles == InvalidFiles(payloads) && r.invalidContextRecords == InvalidRecords(payloads)
      && r.version == OrElse(options.version, FirstVersion(payloads))
      && r.errors == if options.validator.Some? then Errors(options, options.validator.value, payloads) else options.noErrors
  {
    hide Counts, Batches, Validated, Counted, Named, Errors, InvalidFiles, InvalidRecords, FirstVersion;
    var drain := new Drain(options);
    NothingRead(options);
    var files, records, version := 0, 0, None;
    for at := 0 to |payloads|
      invariant fresh(drain) && drain.options == options && drain.HasRead(payloads[..at])
      invariant files == InvalidFiles(payloads[..at]) && records == InvalidRecords(payloads[..at])
      invariant version == FirstVersion(payloads[..at])
      invariant forall j | 0 <= j < at :: !StopsAt(options, payloads, j)
    {
      var payload := payloads[at];
      PayloadsMore(payloads, at);
      version := OrElse(version, payload.header.version);
      drain.ReadNext(payload, payloads[..at]);
      if options.validator.Some? && options.strict && options.validator.value.totalErrors(drain.errors) > 0 {
        assert FirstStop(options, payloads, at);
        return SchemaFailure(payload.header.source);
      }
      files := files + if payload.header.invalidContext then 1 else 0;
      records := records + if payload.header.invalidContext then |payload.records| else 0;
    }
    assert payloads[..|payloads|] == payloads;
    r := Drained(drain.availability, drain.totalRecords, files, records, OrElse(options.version, version), drain.errors);
  }

  lemma PayloadsMore(payloads: seq<Payload>, at: nat)
    requires at < |payloads|
    ensures payloads[..at + 1] == payloads[..at] + [payloads[at]]
    ensures InvalidFiles(payloads[..at + 1]) == InvalidFiles(payloads[..at]) + if payloads[at].header.invalidContext then 1 else 0
    ensures InvalidRecords(payloads[..at + 1])
         == InvalidRecords(payloads[..at]) + if payloads[at].header.invalidContext then |payloads[at].records| else 0
    ensures FirstVersion(payloads[..at + 1]) == OrElse(FirstVersion(payloads[..at]), payloads[at].header.version)
  {
    assert payloads[..at + 1][..at] == payloads[..at];
  }

  lemma {:induction false} Unseen(counted: seq<(string, Json)>, resource: string)
    requires forall i | 0 <= i < |counted| :: counted[i].0 != resource
    ensures CountOf(counted, resource) == 0
    ensures forall field :: CarriedBy(counted, resource, field) == 0
  {
    if counted != [] {
      Unseen(counted[..|counted| - 1], resource);
    }
  }

  /** Full batches, and what is left over, are the batches of the records they hold. */
  lemma {:induction false} BatchesAreFilled(done: seq<seq<Json>>, rest: seq<Json>)
    requires |rest| < VALIDATION_BATCH_SIZE && forall i | 0 <= i < |done| :: |done[i]| == VALIDATION_BATCH_SIZE
    ensures Batches(Concat(done) + rest) == done + if rest != [] || done == [] then [rest] else []
  {
    if done == [] {
      assert Concat(done) + rest == rest;
    } else {
      ConcatFirst(done);
      var tail := Concat(done[1..]) + rest;
      BatchesAreFilled(done[1..], rest);
      assert Concat(done) + rest == done[0] + tail;
      assert (done[0] + tail)[..VALIDATION_BATCH_SIZE] == done[0];
      assert (done[0] + tail)[VALIDATION_BATCH_SIZE..] == tail;
      if tail == [] {
        EmptyConcat(done[1..]);
      }
    }
  }

  lemma EmptyConcat(done: seq<seq<Json>>)
    requires Concat(done) == [] && forall i | 0 <= i < |done| :: |done[i]| == VALIDATION_BATCH_SIZE
    ensures done == []
  {
  }

  lemma ConcatMore(done: seq<seq<Json>>, batch: seq<Json>)
    ensures Concat(done + [batch]) == Concat(done) + batch
  {
    assert (done + [batch])[..|done|] == done;
  }
}
