/** What a run creates, it accounts for; what it writes to, it names; what it deletes, it created. */
module AddEditAccount {
  import opened Strings
  import opened JsonValues
  import opened AddEditPlan
  import opened EntityKeys
  import opened AddEditRun

  // Every record accounted for

  /** The keys of the records a server's answers say were made, in order. */
  function Made(config: Config, sent: seq<Exchange>): seq<string> {
    if sent == [] then []
    else
      var last := sent[|sent| - 1];
      Made(config, sent[..|sent| - 1])
      + if last.request.verb == POST && last.answer.Answered? then Keys(config.keyIn(last.answer.response)) else []
  }

  lemma {:induction false} MadeConcat(config: Config, a: seq<Exchange>, b: seq<Exchange>)
    ensures Made(config, a + b) == Made(config, a) + Made(config, b)
  {
    if b == [] {
      assert a + b == a;
    } else {
      assert (a + b)[..|a + b| - 1] == a + b[..|b| - 1];
      MadeConcat(config, a, b[..|b| - 1]);
    }
  }

  lemma MadeFirst(config: Config, sent: seq<Exchange>)
    requires 1 <= |sent| <= 2 && (|sent| == 2 ==> sent[1].request.verb != POST)
    ensures Made(config, sent)
         == if sent[0].request.verb == POST && sent[0].answer.Answered? then Keys(config.keyIn(sent[0].answer.response)) else []
  {
    assert Made(config, []) == [];
    assert sent[..1][..0] == [];
    assert |sent| == 1 ==> sent[..1] == sent;
  }

  /** The key, if any, of the record made by a scenario that sent these. */
  function MadeBy(config: Config, scenario: Scenario, sent: seq<Exchange>): Option<string> {
    if ActionOf(scenario) == Create && sent != [] && sent[0].answer.Answered? then config.keyIn(sent[0].answer.response) else None
  }

  /** A scenario makes one record at most, and ends with its key unless it stops. */
  lemma ScenarioAccounts(config: Config, scenario: Scenario, created: seq<string>, log: seq<Exchange>)
    ensures var run := RunScenario(config, scenario, created, log);
            && Made(config, run.sent) == Keys(MadeBy(config, scenario, run.sent))
            && (run.end.Done? ==> run.end.createdKey == MadeBy(config, scenario, run.sent))
            && (run.end.Done? && run.end.removedKey.Some? ==>
                  scenario == DeleteSucceeds && created != [] && run.end.removedKey.value == created[|created| - 1])
  {
    hide DeleteTarget, KeyOf, StopsFirst;
    var sent := RunScenario(config, scenario, created, log).sent;
    if sent != [] {
      MadeFirst(config, sent);
    }
  }

  /** The run was stopped by a create whose POST had been answered, and the answer names a record. */
  predicate StoppedAfterMaking(config: Config, run: PlanRun) {
    run.stopped.Some? && MadeBy(config, run.stopped.value, run.partial).Some?
  }

  /** All that was made was handed on as created, but for what the scenario that stopped the run had made. */
  lemma {:induction false} RunAccounts(config: Config, scenarios: seq<Scenario>)
    ensures var run := After(config, scenarios);
            && Made(config, run.sent) == run.created + Made(config, run.partial)
            && Made(config, run.partial) == (if StoppedAfterMaking(config, run) then Keys(MadeBy(config, run.stopped.value, run.partial)) else [])
            && (forall key | key in run.removed :: key in run.created)
  {
    hide RunScenario, MadeBy;
    if scenarios != [] {
      var before, last := After(config, scenarios[..|scenarios| - 1]), scenarios[|scenarios| - 1];
      RunAccounts(config, scenarios[..|scenarios| - 1]);
      if before.stopped.None? {
        var run := RunScenario(config, last, before.created, before.sent);
        ScenarioAccounts(config, last, before.created, before.sent);
        MadeConcat(config, before.sent, run.sent);
      }
    }
  }

  /** Every record made is handed on as created if and only if no create stopped the run once its record was made. */
  lemma LostExactly(config: Config, scenarios: seq<Scenario>)
    ensures var run := After(config, scenarios);
            Made(config, run.sent) == run.created <==> !StoppedAfterMaking(config, run)
  {
    hide After, Made;
    RunAccounts(config, scenarios);
    var run := After(config, scenarios);
    assert Made(config, run.sent) == run.created ==> |Made(config, run.partial)| == 0;
  }

  /** What a cleanup accounts for. */
  function Accounted(cleanup: Cleanup): multiset<string> {
    multiset(cleanup.removed) + multiset(Firsts(cleanup.notRemoved)) + multiset(cleanup.left)
  }

  lemma {:induction false} AnsweredPartition(keys: seq<string>, answers: seq<Exchange>)
    requires |keys| == |answers| && AllAnswered(answers)
    ensures multiset(Firsts(KeysAnswered(keys, answers, true))) + multiset(Firsts(KeysAnswered(keys, answers, false))) == multiset(keys)
  {
    if keys != [] {
      var last := |keys| - 1;
      AnsweredPartition(keys[..last], answers[..last]);
      assert keys == keys[..last] + [keys[last]];
      var gone := Gone(answers[last].answer.response.status);
      var a, b := KeysAnswered(keys[..last], answers[..last], gone), KeysAnswered(keys, answers, gone);
      assert Firsts(b) == Firsts(a) + [keys[last]];
      assert KeysAnswered(keys, answers, !gone) == KeysAnswered(keys[..last], answers[..last], !gone);
    }
  }

  lemma {:induction false} RemainingCounts(created: seq<string>, removed: seq<string>)
    ensures forall key :: multiset(Remaining(created, removed))[key] == if key in removed then 0 else multiset(created)[key]
  {
    if created != [] {
      RemainingCounts(created[1..], removed);
      assert created == [created[0]] + created[1..];
      assert Remaining(created, removed) == (if created[0] !in removed then [created[0]] else []) + Remaining(created[1..], removed);
    }
  }

  /** A cleanup accounts for what was removed before it, and for all that remained. */
  lemma CleanupAccounts(config: Config, deletes: bool, created: seq<string>, removed: seq<string>, log: seq<Exchange>)
    requires CleanedUp(config, deletes, created, removed, log).Some?
    ensures Accounted(CleanedUp(config, deletes, created, removed, log).value)
         == multiset(removed) + multiset(Remaining(created, removed))
  {
    hide Remaining, DeleteEach, KeysAnswered;
    var cleanup := CleanedUp(config, deletes, created, removed, log).value;
    if deletes {
      var remaining := Remaining(created, removed);
      var answers := DeleteEach(config, remaining, log);
      DeletesAnswered(config, remaining, log);
      AnsweredPartition(remaining, answers);
      var gone := Firsts(KeysAnswered(remaining, answers, true));
      assert multiset(removed + gone) == multiset(removed) + multiset(gone);
      assert multiset(cleanup.left) == multiset{};
    } else {
      assert Firsts([]) == [];
      assert multiset(Firsts(cleanup.notRemoved)) == multiset{};
    }
  }

  /**
   * A finished cleanup parts what was created into removed, not removed and left exactly when each record the delete test
   * removed was created once.
   */
  lemma CleanupPartsExactly(config: Config, deletes: bool, created: seq<string>, removed: seq<string>, log: seq<Exchange>)
    requires CleanedUp(config, deletes, created, removed, log).Some? && forall key | key in removed :: key in created
    ensures Accounted(CleanedUp(config, deletes, created, removed, log).value) == multiset(created)
       <==> forall key | key in removed :: multiset(removed)[key] == multiset(created)[key]
  {
    hide CleanedUp, Remaining;
    CleanupAccounts(config, deletes, created, removed, log);
    RemainingCounts(created, removed);
    var parts := multiset(removed) + multiset(Remaining(created, removed));
    forall key | key in removed
      ensures parts[key] == multiset(removed)[key]
    {
    }
    if forall key | key in removed :: multiset(removed)[key] == multiset(created)[key] {
      assert forall key :: parts[key] == multiset(created)[key];
      assert parts == multiset(created);
    }
  }

  /** A run of scenarios in the planned order removes at most one record: it tests one delete. */
  lemma {:induction false} OneRemovedAtMost(config: Config, scenarios: seq<Scenario>)
    requires Increasing(scenarios)
    ensures |After(config, scenarios).removed| <= 1
    ensures DeleteSucceeds !in scenarios ==> After(config, scenarios).removed == []
  {
    if scenarios != [] {
      var init, last := scenarios[..|scenarios| - 1], scenarios[|scenarios| - 1];
      var before := After(config, init);
      OneRemovedAtMost(config, init);
      assert forall scenario | scenario in init :: scenario in scenarios;
      ScenarioAccounts(config, last, before.created, before.sent);
      assert last in scenarios;
      assert forall i | 0 <= i < |init| :: Rank(init[i]) < Rank(last);
      hide RunScenario, Made;
    }
  }

  /**
   * Whatever the server, whatever throws, and wherever the run stops: a planned run's finished cleanup accounts for every
   * record that the server says it made if and only if no create stopped the run once its record was made; and then for
   * every other. No two records are given one key.
   */
  lemma EveryRecordIsAccountedFor(config: Config, options: Options)
    requires PlanAddEditTests(options).Success?
    ensures var plan := PlanAddEditTests(options).value;
            var run := After(config, plan.scenarios);
            var cleanup := CleanedUp(config, Delete in plan.actions, run.created, run.removed, run.sent);
            cleanup.Some? && (forall key :: multiset(Made(config, run.sent))[key] <= 1) ==>
              && Accounted(cleanup.value) + multiset(Made(config, run.partial)) == multiset(Made(config, run.sent))
              && (Accounted(cleanup.value) == multiset(Made(config, run.sent)) <==> !StoppedAfterMaking(config, run))
  {
    var plan := PlanAddEditTests(options).value;
    var run := After(config, plan.scenarios);
    PlannedScenarios(options);
    hide *;
    RunAccounts(config, plan.scenarios);
    OneRemovedAtMost(config, plan.scenarios);
    var made, lost := Made(config, run.sent), Made(config, run.partial);
    var deletes := Delete in plan.actions;
    if CleanedUp(config, deletes, run.created, run.removed, run.sent).Some? && forall key :: multiset(made)[key] <= 1 {
      RemovedOnce(run.created, run.removed, lost);
      CleanupPartsExactly(config, deletes, run.created, run.removed, run.sent);
      assert multiset(made) == multiset(run.created) + multiset(lost);
      SomeLost(config, run);
      NoneAdded(multiset(run.created), lost);
    }
  }

  lemma SomeLost(config: Config, run: PlanRun)
    requires Made(config, run.partial)
          == (if StoppedAfterMaking(config, run) then Keys(MadeBy(config, run.stopped.value, run.partial)) else [])
    ensures Made(config, run.partial) == [] <==> !StoppedAfterMaking(config, run)
  {
    hide MadeBy, Made;
  }

  lemma NoneAdded(created: multiset<string>, lost: seq<string>)
    ensures created == created + multiset(lost) <==> lost == []
  {
    if lost != [] {
      assert lost[0] in multiset(lost);
      assert (created + multiset(lost))[lost[0]] == created[lost[0]] + multiset(lost)[lost[0]];
    }
  }

  lemma RemovedOnce(created: seq<string>, removed: seq<string>, lost: seq<string>)
    requires |removed| <= 1 && forall key | key in removed :: key in created
    requires forall key :: multiset(created + lost)[key] <= 1
    ensures forall key | key in removed :: multiset(removed)[key] == multiset(created)[key]
  {
    if removed != [] {
      var key := removed[0];
      assert removed == [key] && key in removed;
      assert multiset(created + lost)[key] == multiset(created)[key] + multiset(lost)[key];
      assert key in multiset(created);
    }
  }

  /** A create that has made a record stops: its read or a check of it throws. */
  lemma LostByOneCreate(config: Config, scenario: Scenario)
    requires ActionOf(scenario) == Create && !StopsFirst(config, scenario)
    requires var run := RunScenario(config, scenario, [], []); run.end == Stopped && MadeBy(config, scenario, run.sent) == Some("1")
    ensures var run := After(config, [scenario]);
            Made(config, run.sent) == ["1"] && run.created == [] && run.stopped == Some(scenario) && run.sent == run.partial
  {
    assert [scenario][..0] == [];
    var run := RunScenario(config, scenario, [], []);
    ScenarioAccounts(config, scenario, [], []);
    hide RunScenario, Made;
    assert [] + run.sent == run.sent;
  }

  /** A server that makes a record and then hangs up: the record is on the server, and nothing accounts for it. */
  lemma ARecordCanBeLost(config: Config, decode: string -> Option<string>)
    requires CreateSucceedsPayload in config.payloads && config.server == MakesThenHangsUp
    requires forall response :: config.keyIn(response) == CreatedKeyOf(response, Some("ListingKey"), decode)
    requires forall sent :: !config.throws(CreateSucceeds(Minimal), sent)
    ensures var run := After(config, [CreateSucceeds(Minimal)]);
            Made(config, run.sent) == ["1"] && run.created == [] && run.stopped == Some(CreateSucceeds(Minimal))
  {
    var run := RunScenario(config, CreateSucceeds(Minimal), [], []);
    hide KeyFromHeader;
    assert run.sent[0] == Ask(config, [], Request(POST, Collection));
    LostByOneCreate(config, CreateSucceeds(Minimal));
  }

  function MakesThenHangsUp(log: seq<Exchange>, request: Request): Answer {
    if request.verb == POST then
      Answered(Response(201, JObject(map["ListingKey" := JString("1")]), None, None, Some("Property('1')")))
    else Threw
  }

  /**
   * `validateODataError` throws: a detail is null, or is an object whose `target` cannot be written. Of any other body, or
   * any other error in it, it only reports.
   */
  predicate ErrorCheckThrows(body: Json) {
    && body.JObject? && "error" in body.fields
    && var error := body.fields["error"];
       && error.JObject? && "details" in error.fields && error.fields["details"].JArray?
       && exists i :: 0 <= i < |error.fields["details"].items| && DetailThrows(error.fields["details"].items[i])
  }

  predicate DetailThrows(detail: Json) {
    detail.JNull? || (detail.JObject? && "target" in detail.fields && TextOf(detail.fields["target"]).None?)
  }

  const NULL_DETAIL: Json := JObject(map[
    "ListingKey" := JString("1"),
    "error" := JObject(map["code" := JString("c"), "message" := JString("m"), "details" := JArray([JNull])])])

  lemma NullDetailThrows()
    ensures ErrorCheckThrows(NULL_DETAIL)
  {
    assert DetailThrows(NULL_DETAIL.fields["error"].fields["details"].items[0]);
  }

  function MakesWithNullDetail(log: seq<Exchange>, request: Request): Answer {
    Answered(Response(201, NULL_DETAIL, None, None, None))
  }

  /**
   * A create that should fail is answered 201, with the record made and an error that has a null detail: every request is
   * answered, the check of the error throws, and the record is lost.
   */
  lemma ACheckCanLoseARecord(config: Config, decode: string -> Option<string>)
    requires CreateFailsPayload in config.payloads && config.server == MakesWithNullDetail
    requires forall response :: config.keyIn(response) == CreatedKeyOf(response, Some("ListingKey"), decode)
    requires !config.throws(CreateFails, [])
    requires forall write: Exchange | write.answer.Answered? ::
               config.throws(CreateFails, [write]) == ErrorCheckThrows(write.answer.response.body)
    ensures var run := After(config, [CreateFails]);
            && Made(config, run.sent) == ["1"] && run.created == [] && run.stopped == Some(CreateFails)
            && AllAnswered(run.sent)
  {
    var run := RunScenario(config, CreateFails, [], []);
    hide KeyFromHeader;
    var write := Ask(config, [], Request(POST, Collection));
    NullDetailThrows();
    hide ErrorCheckThrows;
    assert config.throws(CreateFails, [write]);
    assert run.sent == [write];
    LostByOneCreate(config, CreateFails);
  }

  // Which record

  /** A payload that names no record stands for one a create made: the first for an update, the last for a delete. */
  lemma UnnamedRecords(config: Config, update: Scenario, payload: Payload, created: seq<string>, log: seq<Exchange>)
    requires created != [] && "" !in created && OrElse(config.keyProperty, Some("")) != Some("")
    ensures KeyOf(FieldOf(payload, config.keyProperty.value)).None? ==>
              var sent := RunUpdate(config, update, payload, created, log).sent;
              sent != [] && sent[0].request == Request(PATCH, Record(created[0]))
    ensures KeyOf(FieldOf(payload, "url")).None? && KeyOf(FieldOf(payload, "id")).None? ==>
              var run, last := RunDeleteSucceeds(config, payload, created, log), created[|created| - 1];
              && run.sent != [] && run.sent[0].request == Request(DELETE, Record(last))
              && (run.end.Done? ==>
                    && |run.sent| == 2 && run.sent[1].answer.Answered?
                    && run.end.removedKey == if run.sent[1].answer.response.status == 404 then Some(last) else None)
  {
    hide KeyOf;
    assert created[0] in created && created[|created| - 1] in created;
  }

  /** With no record named and none created, an update or a delete sends nothing. */
  lemma NothingWithoutARecord(config: Config, update: Scenario, payload: Payload, log: seq<Exchange>)
    ensures config.keyProperty.None? || KeyOf(FieldOf(payload, config.keyProperty.value)).None? ==>
              RunUpdate(config, update, payload, [], log).sent == []
    ensures KeyOf(FieldOf(payload, "url")).None? && KeyOf(FieldOf(payload, "id")).None? ==>
              RunDeleteSucceeds(config, payload, [], log).sent == [] && RunDeleteFails(config, payload, log).sent == []
  {
  }

  // What is deleted

  predicate DeletesNothing(sent: seq<Exchange>) {
    forall i | 0 <= i < |sent| :: sent[i].request.verb != DELETE
  }

  lemma ScenarioDeletesNothing(config: Config, scenario: Scenario, created: seq<string>, log: seq<Exchange>)
    requires ActionOf(scenario) != Delete
    ensures DeletesNothing(RunScenario(config, scenario, created, log).sent)
  {
    hide KeyOf;
  }

  /** A delete is sent only where a delete is chosen. */
  lemma {:induction false} NoDeleteUnlessChosen(config: Config, scenarios: seq<Scenario>)
    requires forall i | 0 <= i < |scenarios| :: ActionOf(scenarios[i]) != Delete
    ensures DeletesNothing(After(config, scenarios).sent)
  {
    if scenarios != [] {
      var before, last := After(config, scenarios[..|scenarios| - 1]), scenarios[|scenarios| - 1];
      NoDeleteUnlessChosen(config, scenarios[..|scenarios| - 1]);
      ScenarioDeletesNothing(config, last, before.created, before.sent);
      hide RunScenario;
    }
  }

  /** Nothing a plan without delete sends, cleanup included, deletes. */
  lemma PlanWithoutDelete(config: Config, options: Options)
    requires PlanAddEditTests(options).Success? && !ActionChosen(options, Delete)
    ensures DeletesNothing(AllSent(config, PlanAddEditTests(options).value))
  {
    var plan := PlanAddEditTests(options).value;
    PlannedScenarios(options);
    PayloadsOfActions(options.actions.values);
    KeptAre(ADD_EDIT_ACTIONS, action => ActionName(action) in options.actions.values);
    assert Delete !in plan.actions;
    forall i | 0 <= i < |plan.scenarios|
      ensures ActionOf(plan.scenarios[i]) != Delete
    {
      assert plan.scenarios[i] in plan.scenarios;
    }
    hide PlanAddEditTests, After;
    NoDeleteUnlessChosen(config, plan.scenarios);
  }

  /** The request deletes a record that was created and not removed. */
  predicate DeletesOwn(request: Request, created: seq<string>, removed: seq<string>) {
    exists key :: key in created && key !in removed && request == Request(DELETE, TargetOf(key))
  }

  /** A cleanup deletes only records that the run created and its delete test did not remove, each by its own key. */
  lemma CleanupDeletesItsOwn(config: Config, created: seq<string>, removed: seq<string>, log: seq<Exchange>)
    ensures forall i | 0 <= i < |DeleteEach(config, Remaining(created, removed), log)| ::
              DeletesOwn(DeleteEach(config, Remaining(created, removed), log)[i].request, created, removed)
  {
    var remaining := Remaining(created, removed);
    DeletesAnswered(config, remaining, log);
    KeptAre(created, key => key !in removed);
    var sent := DeleteEach(config, remaining, log);
    forall i | 0 <= i < |sent| ensures DeletesOwn(sent[i].request, created, removed) {
      assert remaining[i] in remaining;
    }
  }

  // What is written to

  predicate NamesARecord(target: Target) {
    match target
    case Record(key) => key != ""
    case Under(path) => path != ""
    case _ => false
  }

  /** An update or a delete, where it goes out, names a record. */
  predicate WritesToARecord(exchange: Exchange) {
    exchange.request.verb == PATCH || exchange.request.verb == DELETE ==> NamesARecord(exchange.request.target)
  }

  ghost predicate AllWriteToARecord(sent: seq<Exchange>) {
    forall i | 0 <= i < |sent| :: WritesToARecord(sent[i])
  }

  /** Whether an id, as a payload gives it, names a record to the condition that reads it. */
  predicate Names(field: Field) {
    Truthy(field) && Written(field) != ""
  }

  /**
   * The payloads that get past the check that they name a record and then name none: a url of 0 or false beside an id that
   * names nothing, or, for the delete that should fail, the same the other way round, or a url that is an array which writes
   * nothing beside an id with a key.
   */
  predicate NamesNothing(scenario: Scenario, payload: Payload) {
    var url, id := FieldOf(payload, "url"), FieldOf(payload, "id");
    match scenario
    case DeleteSucceeds => (url == Number(0) || url == Bool(false)) && !Names(id)
    case DeleteFails =>
      || ((url == Number(0) || url == Bool(false)) && !Names(id))
      || ((id == Number(0) || id == Bool(false)) && !Names(url))
      || (KeyOf(id).Some? && url == Composite(""))
    case _ => false
  }

  lemma CreatesWrite(config: Config, scenario: Scenario, log: seq<Exchange>)
    ensures AllWriteToARecord(RunCreate(config, scenario, log).sent)
  {
  }

  lemma UpdatesWrite(config: Config, scenario: Scenario, payload: Payload, created: seq<string>, log: seq<Exchange>)
    requires "" !in created
    ensures AllWriteToARecord(RunUpdate(config, scenario, payload, created, log).sent)
  {
  }

  lemma DeleteTargets(url: Field, id: Field)
    requires !url.Unwritable?
    ensures NamesARecord(DeleteTarget(url, id)) <==> Names(url) || (Names(id) && url != Composite(""))
  {
  }

  lemma DeleteSucceedsWrites(config: Config, payload: Payload, created: seq<string>, log: seq<Exchange>)
    requires "" !in created && !Unreadable(config, DeleteSucceeds, payload)
    ensures AllWriteToARecord(RunDeleteSucceeds(config, payload, created, log).sent) <==> !NamesNothing(DeleteSucceeds, payload)
  {
    var url, id := FieldOf(payload, "url"), FieldOf(payload, "id");
    var sent := RunDeleteSucceeds(config, payload, created, log).sent;
    DeleteTargets(url, id);
    DeleteTargets(Field.Missing, Text(if KeyOf(id).Some? then KeyOf(id).value else if created != [] then created[|created| - 1] else ""));
    KeyIsTruthExactly(url);
    hide DeleteTarget, NamesARecord;
    assert created != [] ==> created[|created| - 1] in created;
    if sent != [] {
      assert AllWriteToARecord(sent) <==> WritesToARecord(sent[0]);
    }
  }

  lemma DeleteFailsWrites(config: Config, payload: Payload, log: seq<Exchange>)
    requires !Unreadable(config, DeleteFails, payload)
    ensures AllWriteToARecord(RunDeleteFails(config, payload, log).sent) <==> !NamesNothing(DeleteFails, payload)
  {
    var url, id := FieldOf(payload, "url"), FieldOf(payload, "id");
    var sent := RunDeleteFails(config, payload, log).sent;
    DeleteTargets(url, id);
    KeyIsTruthExactly(url);
    KeyIsTruthExactly(id);
    hide DeleteTarget, NamesARecord;
    if sent != [] {
      assert AllWriteToARecord(sent) <==> WritesToARecord(sent[0]);
    }
  }

  /** One scenario's updates and deletes all name a record, unless its payload is one of those. */
  lemma ScenarioWrites(config: Config, scenario: Scenario, created: seq<string>, log: seq<Exchange>)
    requires !StopsFirst(config, scenario) && "" !in created
    ensures AllWriteToARecord(RunScenario(config, scenario, created, log).sent)
       <==> !NamesNothing(scenario, config.payloads[PayloadOf(scenario)])
  {
    var payload := config.payloads[PayloadOf(scenario)];
    CreatesWrite(config, scenario, log);
    UpdatesWrite(config, scenario, payload, created, log);
    if scenario == DeleteSucceeds {
      DeleteSucceedsWrites(config, payload, created, log);
    } else if scenario == DeleteFails {
      DeleteFailsWrites(config, payload, log);
    }
    hide RunCreate, RunUpdate, RunDeleteSucceeds, RunDeleteFails, AllWriteToARecord;
  }

  /** No create's key is empty. */
  ghost predicate NamesKeys(config: Config) {
    forall response :: config.keyIn(response) != Some("")
  }

  /** Keys read as `CreatedKeyOf` reads them are never empty. */
  lemma CreatedKeysAreNamed(config: Config, decode: string -> Option<string>)
    requires Decodes(decode) && forall response :: config.keyIn(response) == CreatedKeyOf(response, config.keyProperty, decode)
    ensures NamesKeys(config)
  {
    forall response ensures config.keyIn(response) != Some("") {
      CreatedKeysAreNotEmpty(response, config.keyProperty, decode);
    }
  }

  /** Created keys are never empty. */
  lemma {:induction false} CreatedAreKeys(config: Config, scenarios: seq<Scenario>)
    requires NamesKeys(config)
    ensures "" !in After(config, scenarios).created
  {
    if scenarios != [] {
      var before, last := After(config, scenarios[..|scenarios| - 1]), scenarios[|scenarios| - 1];
      CreatedAreKeys(config, scenarios[..|scenarios| - 1]);
      CreatedKeyIsKey(config, last, before.created, before.sent);
      hide RunScenario;
    }
  }

  lemma CreatedKeyIsKey(config: Config, scenario: Scenario, created: seq<string>, log: seq<Exchange>)
    requires NamesKeys(config)
    ensures var run := RunScenario(config, scenario, created, log);
            run.end.Done? ==> run.end.createdKey != Some("")
  {
  }

  /** The scenarios a run came to: those it finished, and the one that stopped it. */
  function Reached(run: PlanRun): seq<Scenario> {
    run.finished + if run.stopped.Some? then [run.stopped.value] else []
  }

  /** A scenario that goes on to send, and whose payload gets past its check and names nothing. */
  predicate Strays(config: Config, scenario: Scenario) {
    !StopsFirst(config, scenario) && NamesNothing(scenario, config.payloads[PayloadOf(scenario)])
  }

  /** Every update and delete a run sends names a record, exactly when none of the scenarios it came to strays. */
  lemma {:induction false} RunWritesToRecordsExactly(config: Config, scenarios: seq<Scenario>)
    requires NamesKeys(config)
    ensures AllWriteToARecord(After(config, scenarios).sent)
       <==> forall scenario | scenario in Reached(After(config, scenarios)) :: !Strays(config, scenario)
  {
    if scenarios != [] {
      var init, last := scenarios[..|scenarios| - 1], scenarios[|scenarios| - 1];
      var before := After(config, init);
      RunWritesToRecordsExactly(config, init);
      CreatedAreKeys(config, init);
      if before.stopped.None? {
        var run, after := RunScenario(config, last, before.created, before.sent), After(config, scenarios);
        if !StopsFirst(config, last) {
          ScenarioWrites(config, last, before.created, before.sent);
        }
        assert AllWriteToARecord(run.sent) <==> !Strays(config, last);
        AllWriteConcat(before.sent, run.sent);
        hide AllWriteToARecord, Strays;
        assert forall scenario :: scenario in Reached(after) <==> scenario in Reached(before) || scenario == last;
      }
    }
  }

  lemma AllWriteConcat(a: seq<Exchange>, b: seq<Exchange>)
    ensures AllWriteToARecord(a + b) <==> AllWriteToARecord(a) && AllWriteToARecord(b)
  {
    hide WritesToARecord;
    if AllWriteToARecord(a + b) {
      assert forall i | 0 <= i < |a| :: a[i] == (a + b)[i];
      forall i | 0 <= i < |b| ensures WritesToARecord(b[i]) {
        assert b[i] == (a + b)[|a| + i];
      }
    }
  }

  /** A text, or no url or id at all, as the delete payload's type promises. */
  predicate AsTyped(field: Field) {
    field.Text? || field.Missing?
  }

  /** The cleanup's deletes name records, so that a whole run's requests do exactly where its scenarios' do. */
  lemma AllSentWritesExactly(config: Config, plan: Plan)
    requires NamesKeys(config)
    ensures AllWriteToARecord(AllSent(config, plan)) <==> AllWriteToARecord(After(config, plan.scenarios).sent)
  {
    var run := After(config, plan.scenarios);
    CreatedAreKeys(config, plan.scenarios);
    CleanupWritesToRecords(config, run.created, run.removed, run.sent);
    hide DeleteEach, After, AllWriteToARecord;
    AllWriteConcat(run.sent, DeleteEach(config, Remaining(run.created, run.removed), run.sent));
    assert run.sent + [] == run.sent;
  }

  /**
   * With the keys of creates read as the program reads them, every update and delete of a run and of its cleanup names a
   * record, exactly when none of the scenarios it came to strays.
   */
  lemma AllWritesToRecordsExactly(config: Config, plan: Plan, decode: string -> Option<string>)
    requires Decodes(decode) && forall response :: config.keyIn(response) == CreatedKeyOf(response, config.keyProperty, decode)
    ensures AllWriteToARecord(AllSent(config, plan))
       <==> forall scenario | scenario in Reached(After(config, plan.scenarios)) :: !Strays(config, scenario)
  {
    CreatedKeysAreNamed(config, decode);
    RunWritesToRecordsExactly(config, plan.scenarios);
    AllSentWritesExactly(config, plan);
  }

  /** Payloads as they are typed keep every update and delete, the cleanup's included, off the collection. */
  lemma TypedPayloadsWriteToRecords(config: Config, plan: Plan)
    requires NamesKeys(config)
    requires forall name | name in config.payloads ::
               AsTyped(FieldOf(config.payloads[name], "url")) && AsTyped(FieldOf(config.payloads[name], "id"))
    ensures AllWriteToARecord(AllSent(config, plan))
  {
    RunWritesToRecordsExactly(config, plan.scenarios);
    AllSentWritesExactly(config, plan);
  }

  lemma CleanupWritesToRecords(config: Config, created: seq<string>, removed: seq<string>, log: seq<Exchange>)
    requires "" !in created
    ensures AllWriteToARecord(DeleteEach(config, Remaining(created, removed), log))
  {
    CleanupDeletesItsOwn(config, created, removed, log);
    var sent := DeleteEach(config, Remaining(created, removed), log);
    forall i | 0 <= i < |sent| ensures WritesToARecord(sent[i]) {
      assert DeletesOwn(sent[i].request, created, removed);
      var key :| key in created && key !in removed && sent[i].request == Request(DELETE, TargetOf(key));
      assert key != "";
    }
  }
}
