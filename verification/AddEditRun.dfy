/** Running an Add/Edit plan against a server, and cleaning up after it. */
module AddEditRun {
  import opened Strings
  import opened AddEditPlan
  import opened EntityKeys

  // What is sent, and what answers

  datatype Verb = GET | POST | PATCH | DELETE

  /** The whole collection's URL, a record's by its key, a path under the server's, or a URL the server gave. */
  datatype Target = Collection | Record(key: string) | Under(path: string) | Elsewhere(url: string)

  /** `buildResourceUrl`: an empty key gives the collection's URL. */
  function TargetOf(key: string): Target {
    if key == "" then Collection else Record(key)
  }

  datatype Request = Request(verb: Verb, target: Target)

  /** A request may also throw: no connection, no answer in time. */
  datatype Answer = Answered(response: Response) | Threw

  datatype Exchange = Exchange(request: Request, answer: Answer)

  /** Any server: what it answers may depend on all that it was sent before. */
  type Server = (seq<Exchange>, Request) -> Answer

  type Payload = map<string, Field>

  /**
   * `keyIn` is what `EntityKeys.CreatedKeyOf` makes of a create's answer. `throws` says whether a scenario's own code, its
   * checks above all, throws once these are the exchanges it has made: none yet, its write, or its write and read.
   */
  datatype Config = Config(
    server: Server, keyProperty: Option<string>, payloads: map<PayloadName, Payload>, keyIn: Response -> Option<string>,
    throws: (Scenario, seq<Exchange>) -> bool)

  datatype ScenarioEnd = Done(createdKey: Option<string>, removedKey: Option<string>) | Stopped

  /** What a scenario sends, in order, and how it ends. */
  datatype ScenarioRun = ScenarioRun(sent: seq<Exchange>, end: ScenarioEnd)

  /** A write and what is read after it, and whether all of it was answered and no check threw. */
  datatype Tried = Tried(sent: seq<Exchange>, ok: bool)

  function Ask(config: Config, log: seq<Exchange>, request: Request): Exchange {
    Exchange(request, config.server(log, request))
  }

  function FieldOf(payload: Payload, key: string): Field {
    if key in payload then payload[key] else Field.Missing
  }

  predicate AllAnswered(sent: seq<Exchange>) {
    forall i | 0 <= i < |sent| :: sent[i].answer.Answered?
  }

  function Located(answer: Answer): Option<string> {
    if answer.Answered? && answer.response.location != Some("") then answer.response.location else None
  }

  /** One write, its checks, and, where `read` says what to read of its answer, that read and its checks. */
  function WriteThenRead(config: Config, scenario: Scenario, log: seq<Exchange>, request: Request, read: Answer -> Option<Request>)
    : (tried: Tried)
    ensures 1 <= |tried.sent| <= 2 && tried.sent[0] == Ask(config, log, request)
    ensures tried.ok ==> AllAnswered(tried.sent)
  {
    var write := Ask(config, log, request);
    if write.answer.Threw? || config.throws(scenario, [write]) then Tried([write], false)
    else if read(write.answer).None? then Tried([write], true)
    else
      var back := Ask(config, log + [write], read(write.answer).value);
      Tried([write, back], back.answer.Answered? && !config.throws(scenario, [write, back]))
  }

  function ReadLocation(answer: Answer): Option<Request> {
    if Located(answer).Some? then Some(Request(GET, Elsewhere(Located(answer).value))) else None
  }

  function ReadNothing(answer: Answer): Option<Request> {
    None
  }

  /** The scenarios that read back what they wrote, where the answer gives its location. */
  function ReadAfter(scenario: Scenario): Answer -> Option<Request> {
    if scenario.CreateSucceeds? || scenario.UpdateSucceeds? then ReadLocation else ReadNothing
  }

  function RunCreate(config: Config, scenario: Scenario, log: seq<Exchange>): ScenarioRun {
    var tried := WriteThenRead(config, scenario, log, Request(POST, Collection), ReadAfter(scenario));
    ScenarioRun(tried.sent, if tried.ok then Done(config.keyIn(tried.sent[0].answer.response), None) else Stopped)
  }

  /** An update names its record by the resource's key, or takes the first record a create made; else nothing is sent. */
  function RunUpdate(config: Config, scenario: Scenario, payload: Payload, created: seq<string>, log: seq<Exchange>): ScenarioRun {
    var key := if config.keyProperty.None? || config.keyProperty.value == "" then None
               else OrElse(KeyOf(FieldOf(payload, config.keyProperty.value)), if created != [] then Some(created[0]) else None);
    if key.None? then ScenarioRun([], Done(None, None))
    else
      var tried := WriteThenRead(config, scenario, log, Request(PATCH, TargetOf(key.value)), ReadAfter(scenario));
      ScenarioRun(tried.sent, if tried.ok then Done(None, None) else Stopped)
  }

  /** The target of a delete: a URL that a condition takes for true, else the id, where a condition takes it for one. */
  function DeleteTarget(url: Field, id: Field): Target {
    if Truthy(url) then Under(Written(url)) else if Truthy(id) then Record(Written(id)) else Collection
  }

  /** A delete names its record by url or id, or takes the last record a create made; then the record is read back. */
  function RunDeleteSucceeds(config: Config, payload: Payload, created: seq<string>, log: seq<Exchange>): ScenarioRun {
    var url, own := FieldOf(payload, "url"), KeyOf(FieldOf(payload, "id"));
    var id := OrElse(own, if created != [] then Some(created[|created| - 1]) else None);
    if KeyOf(url).None? && id.None? then ScenarioRun([], Done(None, None))
    else
      var target := if KeyOf(url).Some? then DeleteTarget(url, FieldOf(payload, "id")) else DeleteTarget(Field.Missing, Text(id.value));
      var tried := WriteThenRead(config, DeleteSucceeds, log, Request(DELETE, target), _ => Some(Request(GET, target)));
      ScenarioRun(tried.sent,
        if !tried.ok then Stopped
        else Done(None, if KeyOf(url).None? && own.None? && IsGone(tried.sent) then id else None))
  }

  /** The last of the exchanges, a read, found nothing. */
  predicate IsGone(sent: seq<Exchange>) {
    sent != [] && sent[|sent| - 1].answer.Answered? && sent[|sent| - 1].answer.response.status == 404
  }

  /** A delete that should fail names a record that does not exist, never a created one. */
  function RunDeleteFails(config: Config, payload: Payload, log: seq<Exchange>): ScenarioRun {
    var url, id := FieldOf(payload, "url"), FieldOf(payload, "id");
    if KeyOf(url).None? && KeyOf(id).None? then ScenarioRun([], Done(None, None))
    else
      var tried := WriteThenRead(config, DeleteFails, log, Request(DELETE, DeleteTarget(url, id)), ReadNothing);
      ScenarioRun(tried.sent, if tried.ok then Done(None, None) else Stopped)
  }

  /** A field that names the record cannot be written: reading the payload throws. */
  predicate Unreadable(config: Config, scenario: Scenario, payload: Payload) {
    var url, id := FieldOf(payload, "url"), FieldOf(payload, "id");
    match ActionOf(scenario)
    case Create => false
    case Update => config.keyProperty.Some? && FieldOf(payload, config.keyProperty.value).Unwritable?
    case Delete => url.Unwritable? || (id.Unwritable? && (scenario == DeleteSucceeds || KeyOf(url).None? || !Truthy(url)))
  }

  /** A scenario stops before it sends anything: its payload was not loaded or does not read, or its first checks throw. */
  predicate StopsFirst(config: Config, scenario: Scenario) {
    || PayloadOf(scenario) !in config.payloads
    || Unreadable(config, scenario, config.payloads[PayloadOf(scenario)])
    || config.throws(scenario, [])
  }

  function RunScenario(config: Config, scenario: Scenario, created: seq<string>, log: seq<Exchange>): ScenarioRun {
    if StopsFirst(config, scenario) then ScenarioRun([], Stopped)
    else
      var payload := config.payloads[PayloadOf(scenario)];
      match scenario
      case DeleteSucceeds => RunDeleteSucceeds(config, payload, created, log)
      case DeleteFails => RunDeleteFails(config, payload, log)
      case _ =>
        if ActionOf(scenario) == Create then RunCreate(config, scenario, log)
        else RunUpdate(config, scenario, payload, created, log)
  }

  /**
   * What running a plan came to: all it sent, the scenarios that finished, the one that stopped it, and, the last of what
   * it sent, what that one had sent.
   */
  datatype PlanRun = PlanRun(
    sent: seq<Exchange>, finished: seq<Scenario>, created: seq<string>, removed: seq<string>, stopped: Option<Scenario>,
    partial: seq<Exchange>)

  function Keys(key: Option<string>): seq<string> {
    if key.Some? then [key.value] else []
  }

  /** A run, scenario by scenario, each handed what the ones before it created. */
  function After(config: Config, scenarios: seq<Scenario>): PlanRun {
    if scenarios == [] then PlanRun([], [], [], [], None, [])
    else
      var before, last := After(config, scenarios[..|scenarios| - 1]), scenarios[|scenarios| - 1];
      if before.stopped.Some? then before
      else
        var run := RunScenario(config, last, before.created, before.sent);
        match run.end
        case Stopped => before.(sent := before.sent + run.sent, stopped := Some(last), partial := run.sent)
        case Done(createdKey, removedKey) =>
          PlanRun(before.sent + run.sent, before.finished + [last],
                  before.created + Keys(createdKey), before.removed + Keys(removedKey), None, [])
  }

  // Cleaning up

  datatype Cleanup = Cleanup(removed: seq<string>, notRemoved: seq<(string, int)>, left: seq<string>)

  function Remaining(created: seq<string>, removed: seq<string>): seq<string> {
    Kept(created, key => key !in removed)
  }

  predicate Gone(status: int) {
    200 <= status < 300 || status == 404
  }

  /** One DELETE for each of `keys`, in order, as far as the first that throws. */
  function DeleteEach(config: Config, keys: seq<string>, log: seq<Exchange>): seq<Exchange> {
    if keys == [] then []
    else
      var before := DeleteEach(config, keys[..|keys| - 1], log);
      if !AllAnswered(before) then before else before + [Ask(config, log + before, Request(DELETE, TargetOf(keys[|keys| - 1])))]
  }

  function KeysAnswered(keys: seq<string>, answers: seq<Exchange>, gone: bool): (kept: seq<(string, int)>)
    requires |keys| == |answers| && AllAnswered(answers)
  {
    if keys == [] then []
    else
      var last := |keys| - 1;
      var status := answers[last].answer.response.status;
      KeysAnswered(keys[..last], answers[..last], gone) + if Gone(status) == gone then [(keys[last], status)] else []
  }

  function Firsts(pairs: seq<(string, int)>): (keys: seq<string>)
    ensures |keys| == |pairs| && forall i | 0 <= i < |pairs| :: keys[i] == pairs[i].0
  {
    seq(|pairs|, i requires 0 <= i < |pairs| => pairs[i].0)
  }

  /** The cleanup: nothing where delete is not among the actions, or where a request throws before it is finished. */
  function CleanedUp(config: Config, deletes: bool, created: seq<string>, removed: seq<string>, log: seq<Exchange>): Option<Cleanup> {
    var remaining := Remaining(created, removed);
    var answers := DeleteEach(config, remaining, log);
    if !deletes then Some(Cleanup(removed, [], remaining))
    else if !AllAnswered(answers) then None
    else
      DeletesAnswered(config, remaining, log);
      Some(Cleanup(removed + Firsts(KeysAnswered(remaining, answers, true)), KeysAnswered(remaining, answers, false), []))
  }

  lemma {:induction false} DeletesAnswered(config: Config, keys: seq<string>, log: seq<Exchange>)
    ensures |DeleteEach(config, keys, log)| <= |keys|
    ensures AllAnswered(DeleteEach(config, keys, log)) ==> |DeleteEach(config, keys, log)| == |keys|
    ensures forall i | 0 <= i < |DeleteEach(config, keys, log)| ::
              DeleteEach(config, keys, log)[i].request == Request(DELETE, TargetOf(keys[i]))
  {
    if keys != [] {
      DeletesAnswered(config, keys[..|keys| - 1], log);
    }
  }

  /** Everything a run and its cleanup send. */
  function AllSent(config: Config, plan: Plan): seq<Exchange> {
    var run := After(config, plan.scenarios);
    run.sent + if Delete in plan.actions then DeleteEach(config, Remaining(run.created, run.removed), run.sent) else []
  }

  // The loops

  /** The server, with all it was sent. */
  class Connection {
    const config: Config
    var log: seq<Exchange>

    constructor (config: Config)
      ensures this.config == config && log == []
    {
      this.config, log := config, [];
    }

    method Send(request: Request) returns (answer: Answer)
      modifies this
      ensures log == old(log) + [Ask(config, old(log), request)] && answer == Ask(config, old(log), request).answer
    {
      answer := config.server(log, request);
      log := log + [Exchange(request, answer)];
    }

    method Write(scenario: Scenario, request: Request, read: Answer -> Option<Request>) returns (tried: Tried)
      modifies this
      ensures tried == WriteThenRead(config, scenario, old(log), request, read) && log == old(log) + tried.sent
    {
      var answer := Send(request);
      var write := Exchange(request, answer);
      if answer.Threw? || config.throws(scenario, [write]) {
        return Tried([write], false);
      }
      var next := read(answer);
      if next.None? {
        return Tried([write], true);
      }
      var back := Send(next.value);
      var both := [write, Exchange(next.value, back)];
      tried := Tried(both, back.Answered? && !config.throws(scenario, both));
    }

    method DeleteOne(payload: Payload, created: seq<string>) returns (end: ScenarioEnd)
      modifies this
      ensures var run := RunDeleteSucceeds(config, payload, created, old(log)); log == old(log) + run.sent && end == run.end
    {
      var url, own := FieldOf(payload, "url"), KeyOf(FieldOf(payload, "id"));
      var id := OrElse(own, if created != [] then Some(created[|created| - 1]) else None);
      if KeyOf(url).None? && id.None? {
        return Done(None, None);
      }
      var target := if KeyOf(url).Some? then DeleteTarget(url, FieldOf(payload, "id")) else DeleteTarget(Field.Missing, Text(id.value));
      var tried := Write(DeleteSucceeds, Request(DELETE, target), _ => Some(Request(GET, target)));
      if !tried.ok {
        return Stopped;
      }
      end := Done(None, if KeyOf(url).None? && own.None? && IsGone(tried.sent) then id else None);
    }

    method UpdateOne(scenario: Scenario, payload: Payload, created: seq<string>) returns (end: ScenarioEnd)
      modifies this
      ensures var run := RunUpdate(config, scenario, payload, created, old(log)); log == old(log) + run.sent && end == run.end
    {
      if config.keyProperty.None? || config.keyProperty.value == "" {
        return Done(None, None);
      }
      var key := OrElse(KeyOf(FieldOf(payload, config.keyProperty.value)), if created != [] then Some(created[0]) else None);
      if key.None? {
        return Done(None, None);
      }
      var tried := Write(scenario, Request(PATCH, TargetOf(key.value)), ReadAfter(scenario));
      end := if tried.ok then Done(None, None) else Stopped;
    }

    method Run(scenario: Scenario, created: seq<string>) returns (end: ScenarioEnd)
      modifies this
      ensures var run := RunScenario(config, scenario, created, old(log)); log == old(log) + run.sent && end == run.end
    {
      hide RunUpdate, RunDeleteSucceeds, WriteThenRead, Unreadable;
      if StopsFirst(config, scenario) {
        return Stopped;
      }
      var payload := config.payloads[PayloadOf(scenario)];
      match ActionOf(scenario) {
        case Create =>
          var tried := Write(scenario, Request(POST, Collection), ReadAfter(scenario));
          end := if tried.ok then Done(config.keyIn(tried.sent[0].answer.response), None) else Stopped;
        case Update =>
          end := UpdateOne(scenario, payload, created);
        case Delete =>
          if scenario == DeleteSucceeds {
            end := DeleteOne(payload, created);
            return;
          }
          var url, id := FieldOf(payload, "url"), FieldOf(payload, "id");
          if KeyOf(url).None? && KeyOf(id).None? {
            return Done(None, None);
          }
          var tried := Write(DeleteFails, Request(DELETE, DeleteTarget(url, id)), ReadNothing);
          end := if tried.ok then Done(None, None) else Stopped;
      }
    }

    /** The plan's scenarios in order, handing each the keys of the records the ones before it made. */
    method RunPlan(scenarios: seq<Scenario>) returns (run: PlanRun)
      requires log == []
      modifies this
      ensures run == After(config, scenarios) && log == run.sent
    {
      hide RunScenario;
      var created, removed := [], [];
      for i := 0 to |scenarios|
        invariant After(config, scenarios[..i]) == PlanRun(log, scenarios[..i], created, removed, None, [])
      {
        assert scenarios[..i + 1][..i] == scenarios[..i];
        var before := |log|;
        var end := Run(scenarios[i], created);
        match end {
          case Stopped =>
            StaysStopped(config, scenarios, i + 1);
            return PlanRun(log, scenarios[..i], created, removed, Some(scenarios[i]), log[before..]);
          case Done(createdKey, removedKey) =>
            created := created + Keys(createdKey);
            removed := removed + Keys(removedKey);
        }
      }
      assert scenarios[..|scenarios|] == scenarios;
      run := PlanRun(log, scenarios, created, removed, None, []);
    }

    /** What the run created and did not remove is deleted, record by record, where delete is tested, and named where not. */
    method CleanUp(deletes: bool, created: seq<string>, removed: seq<string>) returns (r: Option<Cleanup>)
      modifies this
      ensures r == CleanedUp(config, deletes, created, removed, old(log))
      ensures log == old(log) + if deletes then DeleteEach(config, Remaining(created, removed), old(log)) else []
    {
      var remaining := Remaining(created, removed);
      if !deletes {
        return Some(Cleanup(removed, [], remaining));
      }
      var answers: seq<Exchange> := [];
      ghost var start := log;
      for i := 0 to |remaining|
        invariant |answers| == i && AllAnswered(answers)
        invariant answers == DeleteEach(config, remaining[..i], start) && log == start + answers
      {
        assert remaining[..i + 1][..i] == remaining[..i];
        var answer := Send(Request(DELETE, TargetOf(remaining[i])));
        answers := answers + [Exchange(Request(DELETE, TargetOf(remaining[i])), answer)];
        if answer.Threw? {
          assert answers[i].answer.Threw? && answers == DeleteEach(config, remaining[..i + 1], start);
          StaysThrown(config, remaining, i + 1, start);
          return None;
        }
      }
      assert remaining[..|remaining|] == remaining;
      r := Some(Cleanup(removed + Firsts(KeysAnswered(remaining, answers, true)), KeysAnswered(remaining, answers, false), []));
    }
  }

  lemma {:induction false} StaysStopped(config: Config, scenarios: seq<Scenario>, i: nat)
    requires i <= |scenarios| && After(config, scenarios[..i]).stopped.Some?
    ensures After(config, scenarios) == After(config, scenarios[..i])
    decreases |scenarios|
  {
    if i < |scenarios| {
      assert scenarios[..|scenarios| - 1][..i] == scenarios[..i];
      StaysStopped(config, scenarios[..|scenarios| - 1], i);
    } else {
      assert scenarios[..i] == scenarios;
    }
  }

  lemma {:induction false} StaysThrown(config: Config, keys: seq<string>, i: nat, log: seq<Exchange>)
    requires i <= |keys| && !AllAnswered(DeleteEach(config, keys[..i], log))
    ensures DeleteEach(config, keys, log) == DeleteEach(config, keys[..i], log)
    decreases |keys|
  {
    if i < |keys| {
      assert keys[..|keys| - 1][..i] == keys[..i];
      StaysThrown(config, keys[..|keys| - 1], i, log);
    } else {
      assert keys[..i] == keys;
    }
  }
}
