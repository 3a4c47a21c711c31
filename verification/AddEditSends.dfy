/** What one Add/Edit scenario sends, and what a cleanup makes of each answer, case by case. */
module AddEditSends {
  import opened Strings
  import opened AddEditPlan
  import opened EntityKeys
  import opened AddEditRun

  // Before anything is sent

  /** A url, or else an id, that a delete's target is written of. */
  predicate UsesUrl(url: Field) {
    Truthy(url) && Written(url) != "" && url != Field.Missing && url != Field.Null
  }

  /**
   * A scenario stops before it sends anything exactly where its payload was not loaded, its first checks throw, or a field
   * that it names its record by cannot be written: the key of an update; the url of a delete; the id of a delete, but for
   * the one that should fail, where a url is there to use.
   */
  lemma StopsFirstExactly(config: Config, scenario: Scenario)
    ensures StopsFirst(config, scenario) <==>
              || PayloadOf(scenario) !in config.payloads || config.throws(scenario, [])
              || (ActionOf(scenario) == Update && config.keyProperty.Some?
                  && FieldOf(config.payloads[PayloadOf(scenario)], config.keyProperty.value).Unwritable?)
              || (ActionOf(scenario) == Delete
                  && (|| FieldOf(config.payloads[PayloadOf(scenario)], "url").Unwritable?
                      || (FieldOf(config.payloads[PayloadOf(scenario)], "id").Unwritable?
                          && (scenario.DeleteSucceeds? || !UsesUrl(FieldOf(config.payloads[PayloadOf(scenario)], "url"))))))
    ensures StopsFirst(config, scenario) ==> forall created, log :: RunScenario(config, scenario, created, log) == ScenarioRun([], Stopped)
  {
  }

  // The first request

  /** A create posts to the collection; an update or a delete whose payload names its record sends there and nowhere else. */
  lemma NamedRecords(config: Config, scenario: Scenario, created: seq<string>, log: seq<Exchange>)
    requires !StopsFirst(config, scenario)
    ensures var sent, payload := RunScenario(config, scenario, created, log).sent, config.payloads[PayloadOf(scenario)];
            && (ActionOf(scenario) == Create ==> sent != [] && sent[0].request == Request(POST, Collection))
            && (ActionOf(scenario) == Update && config.keyProperty.Some? && |config.keyProperty.value| > 0 ==>
                  var key := KeyOf(FieldOf(payload, config.keyProperty.value));
                  key.Some? ==> sent != [] && sent[0].request == Request(PATCH, Record(key.value)))
            && (ActionOf(scenario) == Update && (config.keyProperty == None || config.keyProperty == Some("")) ==> sent == [])
            && (ActionOf(scenario) == Delete ==>
                  var url, id := FieldOf(payload, "url"), FieldOf(payload, "id");
                  && (url.Text? && |url.s| > 0 ==> sent != [] && sent[0].request == Request(DELETE, Under(url.s)))
                  && ((url.Missing? || url.Null?) && id.Text? && |id.s| > 0 ==>
                        sent != [] && sent[0].request == Request(DELETE, Record(id.s))))
  {
  }

  // What follows a write

  /** What is read after a write: the record a delete took, or what a create or an update that should succeed says it wrote. */
  function NextRead(scenario: Scenario, first: Exchange): Option<Request> {
    if scenario.DeleteSucceeds? then Some(Request(GET, first.request.target))
    else if (scenario.CreateSucceeds? || scenario.UpdateSucceeds?) && first.answer.Answered? then
      var location := first.answer.response.location;
      if location.Some? && |location.value| > 0 then Some(Request(GET, Elsewhere(location.value))) else None
    else None
  }

  /**
   * A scenario that sends writes once, and reads once after it exactly where the write was answered, no check of it threw,
   * and there is something to read; it is stopped exactly where a request threw or a check of its answers did.
   */
  lemma FollowsExactly(config: Config, scenario: Scenario, created: seq<string>, log: seq<Exchange>)
    requires !StopsFirst(config, scenario)
    ensures var run := RunScenario(config, scenario, created, log);
            && |run.sent| <= 2
            && (run.sent == [] ==> run.end == Done(None, None))
            && (run.sent != [] ==>
                  var first, next := run.sent[0], NextRead(scenario, run.sent[0]);
                  && first == Ask(config, log, first.request)
                  && (|run.sent| == 2 <==> first.answer.Answered? && !config.throws(scenario, [first]) && next.Some?)
                  && (|run.sent| == 2 ==> run.sent[1] == Ask(config, log + [first], next.value))
                  && (run.end.Stopped? <==>
                        || first.answer.Threw? || config.throws(scenario, [first])
                        || (|run.sent| == 2 && (run.sent[1].answer.Threw? || config.throws(scenario, run.sent)))))
  {
    hide Truthy, Written, KeyOf;
  }

  // The cleanup

  /**
   * A cleanup that is finished counts each remaining record as removed exactly where its delete is answered from 200 to
   * 299 or 404, and gives every other with its status.
   */
  lemma CleanupSortsExactly(config: Config, created: seq<string>, removed: seq<string>, log: seq<Exchange>)
    requires CleanedUp(config, true, created, removed, log).Some?
    ensures var cleanup := CleanedUp(config, true, created, removed, log).value;
            var remaining, answers := Remaining(created, removed), DeleteEach(config, Remaining(created, removed), log);
            && |answers| == |remaining| && AllAnswered(answers) && cleanup.left == []
            && removed <= cleanup.removed
            && (forall i | 0 <= i < |remaining| ::
                  var status := answers[i].answer.response.status;
                  if 200 <= status < 300 || status == 404 then remaining[i] in cleanup.removed[|removed|..]
                  else (remaining[i], status) in cleanup.notRemoved)
            && (forall pair <- cleanup.notRemoved :: !(200 <= pair.1 < 300) && pair.1 != 404)
            && |cleanup.removed| + |cleanup.notRemoved| == |removed| + |remaining|
  {
    var remaining, answers := Remaining(created, removed), DeleteEach(config, Remaining(created, removed), log);
    DeletesAnswered(config, remaining, log);
    SortedAnswers(remaining, answers);
    OthersAnswered(remaining, answers);
    hide DeleteEach, KeysAnswered;
    var gone := KeysAnswered(remaining, answers, true);
    forall i | 0 <= i < |remaining| && (remaining[i], answers[i].answer.response.status) in gone ensures remaining[i] in Firsts(gone) {
      var k :| 0 <= k < |gone| && gone[k] == (remaining[i], answers[i].answer.response.status);
      assert Firsts(gone)[k] == remaining[i];
    }
  }

  lemma {:induction false} SortedAnswers(keys: seq<string>, answers: seq<Exchange>)
    requires |keys| == |answers| && AllAnswered(answers)
    ensures forall i | 0 <= i < |keys| ::
              var status := answers[i].answer.response.status;
              (keys[i], status) in KeysAnswered(keys, answers, 200 <= status < 300 || status == 404)
  {
    if keys != [] {
      var last := |keys| - 1;
      var status := answers[last].answer.response.status;
      AnsweredBefore(answers, last);
      hide KeysAnswered, AllAnswered;
      SortedAnswers(keys[..last], answers[..last]);
      OneSorted(keys, answers, true);
      OneSorted(keys, answers, false);
      forall i | 0 <= i < |keys|
        ensures var s := answers[i].answer.response.status; (keys[i], s) in KeysAnswered(keys, answers, 200 <= s < 300 || s == 404)
      {
        if i < last {
          assert keys[..last][i] == keys[i] && answers[..last][i] == answers[i];
        }
      }
    }
  }

  lemma {:induction false} OthersAnswered(keys: seq<string>, answers: seq<Exchange>)
    requires |keys| == |answers| && AllAnswered(answers)
    ensures forall pair <- KeysAnswered(keys, answers, false) :: !(200 <= pair.1 < 300) && pair.1 != 404
    ensures |KeysAnswered(keys, answers, true)| + |KeysAnswered(keys, answers, false)| == |keys|
  {
    if keys != [] {
      var last := |keys| - 1;
      AnsweredBefore(answers, last);
      hide KeysAnswered, AllAnswered;
      OthersAnswered(keys[..last], answers[..last]);
      OneSorted(keys, answers, true);
      OneSorted(keys, answers, false);
    }
  }

  lemma AnsweredBefore(answers: seq<Exchange>, n: nat)
    requires n <= |answers| && AllAnswered(answers)
    ensures AllAnswered(answers[..n]) && forall i | 0 <= i < |answers| :: answers[i].answer.Answered?
  {
  }

  lemma OneSorted(keys: seq<string>, answers: seq<Exchange>, gone: bool)
    requires keys != [] && |keys| == |answers| && AllAnswered(answers)
    ensures var last := |keys| - 1;
            var status := answers[last].answer.response.status;
            KeysAnswered(keys, answers, gone)
            == KeysAnswered(keys[..last], answers[..last], gone)
               + if (200 <= status < 300 || status == 404) == gone then [(keys[last], status)] else []
  {
  }
}
