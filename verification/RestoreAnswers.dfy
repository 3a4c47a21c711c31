/** What a run of the restore does with each answer, told from its events alone. */
module RestoreAnswers {
  import opened Strings
  import opened RestorePool

  function Shifts(events: seq<Event>): nat {
    if events == [] then 0 else Shifts(events[..|events| - 1]) + if events[|events| - 1].Shift? then 1 else 0
  }

  /** The item a worker is posting after the events: the `n`-th shift of all takes the `n`-th item. */
  function Holds(items: seq<string>, events: seq<Event>, w: nat): Option<string> {
    if events == [] then None
    else
      var init, last := events[..|events| - 1], events[|events| - 1];
      if last.w != w then Holds(items, init, w)
      else if last.Shift? && Shifts(init) < |items| then Some(items[Shifts(init)])
      else None
  }

  function KeyOf(key: Option<string>): seq<string> {
    if key.Some? then [key.value] else []
  }

  /** The keys answered with a 2xx, in the order of their answers. */
  function Accepted(items: seq<string>, events: seq<Event>): seq<string> {
    if events == [] then []
    else
      var init, last := events[..|events| - 1], events[|events| - 1];
      Accepted(items, init) + if last.Answer? && 200 <= last.status < 300 then KeyOf(Holds(items, init, last.w)) else []
  }

  /** The keys answered with anything else. */
  function Refused(items: seq<string>, events: seq<Event>): seq<string> {
    if events == [] then []
    else
      var init, last := events[..|events| - 1], events[|events| - 1];
      Refused(items, init) + if last.Answer? && !(200 <= last.status < 300) then KeyOf(Holds(items, init, last.w)) else []
  }

  /** The keys whose documents did not read. */
  function Thrown(items: seq<string>, events: seq<Event>): seq<string> {
    if events == [] then []
    else
      var init, last := events[..|events| - 1], events[|events| - 1];
      Thrown(items, init) + if last.Throw? then KeyOf(Holds(items, init, last.w)) else []
  }

  lemma {:induction false} RunMore(s: State, events: seq<Event>, e: Event)
    requires IsRun(s, events + [e])
    ensures IsRun(s, events) && Enabled(Run(s, events), e) && Run(s, events + [e]) == Step(Run(s, events), e)
    decreases |events|
  {
    hide Enabled, Step;
    if events == [] {
      assert [] + [e] == [e] && [e][1..] == [];
    } else {
      assert (events + [e])[1..] == events[1..] + [e];
      RunMore(Step(s, events[0]), events[1..], e);
    }
  }

  /** The state is what the events say. */
  ghost predicate Told(s: State, items: seq<string>, events: seq<Event>) {
    && s.queue == (if Shifts(events) < |items| then items[Shifts(events)..] else [])
    && (forall w: nat | w < |s.workers| ::
          if s.workers[w].Posting? then Holds(items, events, w) == Some(s.workers[w].key) else Holds(items, events, w) == None)
    && s.accepted == Accepted(items, events) && s.failures == Refused(items, events) && s.unread == Thrown(items, events)
  }

  lemma MoreHeld(items: seq<string>, events: seq<Event>, e: Event)
    ensures forall w :: Holds(items, events + [e], w) == (
              if e.w != w then Holds(items, events, w)
              else if e.Shift? && Shifts(events) < |items| then Some(items[Shifts(events)])
              else None)
    ensures Shifts(events + [e]) == Shifts(events) + if e.Shift? then 1 else 0
  {
    assert (events + [e])[..|events|] == events;
  }

  lemma MoreAnswered(items: seq<string>, events: seq<Event>, e: Event)
    ensures Accepted(items, events + [e])
         == Accepted(items, events) + if e.Answer? && 200 <= e.status < 300 then KeyOf(Holds(items, events, e.w)) else []
    ensures Refused(items, events + [e])
         == Refused(items, events) + if e.Answer? && !(200 <= e.status < 300) then KeyOf(Holds(items, events, e.w)) else []
    ensures Thrown(items, events + [e]) == Thrown(items, events) + if e.Throw? then KeyOf(Holds(items, events, e.w)) else []
  {
    hide Holds;
    assert (events + [e])[..|events|] == events;
  }

  lemma StepTells(s: State, items: seq<string>, events: seq<Event>, e: Event)
    requires Told(s, items, events) && Enabled(s, e)
    ensures Told(Step(s, e), items, events + [e])
  {
    MoreHeld(items, events, e);
    MoreAnswered(items, events, e);
    hide Holds, Accepted, Refused, Thrown, Shifts;
    if e.Shift? && Shifts(events) < |items| {
      assert items[Shifts(events)..][1..] == items[Shifts(events) + 1..];
    }
  }

  lemma {:induction false} RunTells(items: seq<string>, limit: int, events: seq<Event>)
    requires IsRun(Start(items, limit), events)
    ensures Told(Run(Start(items, limit), events), items, events)
  {
    hide Told;
    if events == [] {
      StartTells(items, limit);
    } else {
      var init, last := events[..|events| - 1], events[|events| - 1];
      assert events == init + [last];
      RunMore(Start(items, limit), init, last);
      RunTells(items, limit, init);
      StepTells(Run(Start(items, limit), init), items, init, last);
    }
  }

  lemma StartTells(items: seq<string>, limit: int)
    ensures Told(Start(items, limit), items, [])
  {
  }

  /**
   * In every run the keys accepted are those answered with a status from 200 to 299, in the order of their answers, and
   * counted; the failures are those answered with any other; and the unread are those whose documents did not read.
   */
  lemma AnsweredExactly(items: seq<string>, limit: int, events: seq<Event>)
    requires IsRun(Start(items, limit), events)
    ensures var s := Run(Start(items, limit), events);
            && s.accepted == Accepted(items, events) && s.succeeded == |Accepted(items, events)|
            && s.failures == Refused(items, events) && s.unread == Thrown(items, events)
  {
    hide Accepted, Refused, Thrown;
    RunTells(items, limit, events);
    NothingIsLost(items, limit, events);
  }

  /** The lines a run adds to the ledger are exactly the keys answered with a 2xx. */
  lemma LedgerGainsExactly(ledger: string, items: seq<string>, limit: int, events: seq<Event>)
    requires IsRun(Start(items, limit), events) && EndsInLine(ledger) && forall key <- items :: IsLine(key)
    ensures ReadLedger(AppendKeys(ledger, Run(Start(items, limit), events).accepted)) == ReadLedger(ledger) + Accepted(items, events)
  {
    hide IsRun, Run, ReadLedger, Accepted, IsLine;
    AnsweredExactly(items, limit, events);
    AcceptedOnce(items, limit, events);
    LedgerGrows(ledger, Accepted(items, events));
  }

  // What a run selects

  /** The pending keys are those not done, each as often as given and in the order given. */
  lemma {:induction false} PendingInOrder(a: seq<string>, b: seq<string>, done: seq<string>)
    ensures Pending(a + b, done) == Pending(a, done) + Pending(b, done)
    ensures forall key :: Pending([key], done) == if key in done then [] else [key]
  {
    ConcatRest(a, b);
    if a != [] {
      PendingInOrder(a[1..], b, done);
      ConcatAssociates(if a[0] in done then [] else [a[0]], Pending(a[1..], done), Pending(b, done));
    }
  }

  /** A run sends the first of the pending keys, as many as the limit says, and all where none or zero is given. */
  lemma SelectedExactly(all: seq<string>, ledger: string, limit: Option<nat>)
    ensures var pending := Pending(all, ReadLedger(ledger));
            && Selected(all, ledger, limit) <= pending
            && |Selected(all, ledger, limit)|
               == if limit == None || limit == Some(0) || |pending| <= limit.value then |pending| else limit.value
  {
  }

  /** A pool has as many workers as are allowed and there are items for, but always one. */
  lemma PoolSizeIs(limit: int, n: nat)
    ensures 1 <= limit <= n ==> PoolSize(limit, n) == limit
    ensures 1 <= n < limit ==> PoolSize(limit, n) == n
    ensures limit < 1 || n == 0 ==> PoolSize(limit, n) == 1
    ensures forall items: seq<string> | |items| == n :: |Start(items, limit).workers| == PoolSize(limit, n)
  {
  }
}
