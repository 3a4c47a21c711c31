/** The restore's worker pool, as every interleaving of its workers' steps, and the ledger that outlives a run. */
module RestorePool {
  import opened Strings

  /** A worker is between items, posting one, or done: out of items, or stopped by an item whose document would not read. */
  datatype Worker = Ready | Posting(key: string) | Finished | Stopped

  datatype State = State(
    queue: seq<string>,
    workers: seq<Worker>,
    /** The keys answered 2xx, in the order of their answers: what is appended to the ledger. */
    accepted: seq<string>,
    /** The keys answered anything else. */
    failures: seq<string>,
    /** The keys whose document could not be read: the run throws. */
    unread: seq<string>,
    succeeded: nat)

  /** One worker's next step: to shift the queue, to get an answer, or to throw. */
  datatype Event = Shift(w: nat) | Answer(w: nat, status: int) | Throw(w: nat)

  predicate IsAccepted(status: int) {
    200 <= status < 300
  }

  function PoolSize(limit: int, n: nat): nat {
    var bound := if limit < n then limit else n;
    if bound < 1 then 1 else bound
  }

  function Start(items: seq<string>, limit: int): State {
    State(items, seq(PoolSize(limit, |items|), _ => Ready), [], [], [], 0)
  }

  predicate Enabled(s: State, e: Event) {
    && e.w < |s.workers|
    && match e
       case Shift(w) => s.workers[w].Ready?
       case Answer(w, _) => s.workers[w].Posting?
       case Throw(w) => s.workers[w].Posting?
  }

  function Step(s: State, e: Event): State
    requires Enabled(s, e)
  {
    match e
    case Shift(w) =>
      if s.queue == [] then s.(workers := s.workers[w := Finished])
      else s.(queue := s.queue[1..], workers := s.workers[w := Posting(s.queue[0])])
    case Answer(w, status) =>
      var key := s.workers[w].key;
      var next := s.(workers := s.workers[w := Ready]);
      if IsAccepted(status) then next.(accepted := s.accepted + [key], succeeded := s.succeeded + 1)
      else next.(failures := s.failures + [key])
    case Throw(w) => s.(workers := s.workers[w := Stopped], unread := s.unread + [s.workers[w].key])
  }

  /** The events can happen one after another. */
  predicate IsRun(s: State, events: seq<Event>)
    decreases |events|
  {
    events == [] || (Enabled(s, events[0]) && IsRun(Step(s, events[0]), events[1..]))
  }

  function Run(s: State, events: seq<Event>): State
    requires IsRun(s, events)
    decreases |events|
  {
    if events == [] then s else Run(Step(s, events[0]), events[1..])
  }

  // Conservation

  function Held(worker: Worker): multiset<string> {
    if worker.Posting? then multiset{worker.key} else multiset{}
  }

  function InFlight(workers: seq<Worker>): multiset<string> {
    if workers == [] then multiset{} else Held(workers[0]) + InFlight(workers[1..])
  }

  lemma {:induction false} InFlightUpdate(workers: seq<Worker>, w: nat, worker: Worker)
    requires w < |workers|
    ensures InFlight(workers[w := worker]) + Held(workers[w]) == InFlight(workers) + Held(worker)
  {
    hide Held;
    var changed := workers[w := worker];
    if w == 0 {
      assert changed[1..] == workers[1..];
      assert InFlight(changed) == Held(worker) + InFlight(workers[1..]);
    } else {
      assert changed[1..] == workers[1..][w - 1 := worker];
      InFlightUpdate(workers[1..], w - 1, worker);
      var held, others, before, after := Held(workers[0]), InFlight(workers[1..]), Held(workers[w]), Held(worker);
      var changedOthers := InFlight(workers[1..][w - 1 := worker]);
      assert InFlight(changed) == held + changedOthers;
      assert held + changedOthers + before == held + (changedOthers + before);
      assert held + others + after == held + (others + after);
    }
  }

  /** How often a key is among the items waiting, in flight, answered or unreadable. */
  function Count(s: State, key: string): nat {
    multiset(s.queue)[key] + InFlight(s.workers)[key] + multiset(s.accepted)[key] + multiset(s.failures)[key] + multiset(s.unread)[key]
  }

  /** Every item that is not waiting is being posted, answered, or was unreadable; and the waiting ones are the last. */
  ghost predicate Accounted(s: State, items: seq<string>) {
    && |s.queue| <= |items| && s.queue == items[|items| - |s.queue|..]
    && (forall key: string :: Count(s, key) == multiset(items)[key])
    && s.succeeded == |s.accepted|
  }

  lemma ShiftQueue(queue: seq<string>)
    requires queue != []
    ensures multiset(queue) == multiset{queue[0]} + multiset(queue[1..])
  {
    assert queue == [queue[0]] + queue[1..];
  }

  lemma InFlightCount(workers: seq<Worker>, w: nat, worker: Worker, key: string)
    requires w < |workers|
    ensures InFlight(workers[w := worker])[key] + Held(workers[w])[key] == InFlight(workers)[key] + Held(worker)[key]
  {
    hide InFlight, Held;
    InFlightUpdate(workers, w, worker);
    assert (InFlight(workers[w := worker]) + Held(workers[w]))[key] == (InFlight(workers) + Held(worker))[key];
  }

  lemma AppendCount(keys: seq<string>, last: string, key: string)
    ensures multiset(keys + [last])[key] == multiset(keys)[key] + multiset{last}[key]
  {
    assert multiset(keys + [last]) == multiset(keys) + multiset{last};
  }

  lemma ShiftCounts(s: State, w: nat, key: string)
    requires Enabled(s, Shift(w))
    ensures Count(Step(s, Shift(w)), key) == Count(s, key)
  {
    hide InFlight;
    InFlightCount(s.workers, w, Step(s, Shift(w)).workers[w], key);
    if s.queue != [] {
      ShiftQueue(s.queue);
      assert (multiset{s.queue[0]} + multiset(s.queue[1..]))[key] == multiset(s.queue)[key];
    }
  }

  lemma StepCounts(s: State, e: Event, key: string)
    requires Enabled(s, e)
    ensures Count(Step(s, e), key) == Count(s, key)
  {
    hide InFlight;
    match e
    case Shift(w) => ShiftCounts(s, w, key);
    case Answer(w, _) =>
      InFlightCount(s.workers, w, Step(s, e).workers[w], key);
      AppendCount(s.accepted, s.workers[w].key, key);
      AppendCount(s.failures, s.workers[w].key, key);
    case Throw(w) =>
      InFlightCount(s.workers, w, Step(s, e).workers[w], key);
      AppendCount(s.unread, s.workers[w].key, key);
  }

  lemma StepAccounts(s: State, e: Event, items: seq<string>)
    requires Accounted(s, items) && Enabled(s, e)
    ensures Accounted(Step(s, e), items) && |Step(s, e).workers| == |s.workers|
  {
    hide Count;
    forall key: string ensures Count(Step(s, e), key) == multiset(items)[key] {
      StepCounts(s, e, key);
    }
  }

  lemma {:induction false} RunAccounts(s: State, events: seq<Event>, items: seq<string>)
    requires Accounted(s, items) && IsRun(s, events)
    ensures Accounted(Run(s, events), items) && |Run(s, events).workers| == |s.workers|
    decreases |events|
  {
    if events != [] {
      StepAccounts(s, events[0], items);
      RunAccounts(Step(s, events[0]), events[1..], items);
    }
  }

  lemma {:induction false} NoneInFlight(workers: seq<Worker>)
    requires forall w | 0 <= w < |workers| :: !workers[w].Posting?
    ensures InFlight(workers) == multiset{}
  {
    if workers != [] {
      NoneInFlight(workers[1..]);
    }
  }

  lemma {:induction false} FewInFlight(workers: seq<Worker>)
    ensures |InFlight(workers)| <= |workers|
  {
    if workers != [] {
      FewInFlight(workers[1..]);
    }
  }

  lemma StartAccounts(items: seq<string>, limit: int)
    ensures Accounted(Start(items, limit), items)
  {
    NoneInFlight(Start(items, limit).workers);
    assert items[0..] == items;
  }

  /**
   * In every interleaving, no item is lost or posted twice: waiting, in flight, answered and unreadable are together the
   * items, as often as they were given; and no more are in flight than the pool has workers.
   */
  lemma NothingIsLost(items: seq<string>, limit: int, events: seq<Event>)
    requires IsRun(Start(items, limit), events)
    ensures var s := Run(Start(items, limit), events);
            && Accounted(s, items)
            && |InFlight(s.workers)| <= PoolSize(limit, |items|)
  {
    StartAccounts(items, limit);
    RunAccounts(Start(items, limit), events, items);
    FewInFlight(Run(Start(items, limit), events).workers);
  }

  // Every run ends

  function Weight(worker: Worker): nat {
    match worker
    case Ready => 1
    case Posting(_) => 2
    case _ => 0
  }

  function Weights(workers: seq<Worker>): nat {
    if workers == [] then 0 else Weight(workers[0]) + Weights(workers[1..])
  }

  /** What is still to do: it falls with every step. */
  function ToDo(s: State): nat {
    2 * |s.queue| + Weights(s.workers)
  }

  lemma {:induction false} WeightsUpdate(workers: seq<Worker>, w: nat, worker: Worker)
    requires w < |workers|
    ensures Weights(workers[w := worker]) + Weight(workers[w]) == Weights(workers) + Weight(worker)
  {
    var changed := workers[w := worker];
    if w == 0 {
      assert changed[1..] == workers[1..];
    } else {
      assert changed[1..] == workers[1..][w - 1 := worker];
      WeightsUpdate(workers[1..], w - 1, worker);
    }
  }

  lemma StepProgresses(s: State, e: Event)
    requires Enabled(s, e)
    ensures ToDo(Step(s, e)) < ToDo(s)
  {
    match e
    case Shift(w) => WeightsUpdate(s.workers, w, if s.queue == [] then Finished else Posting(s.queue[0]));
    case Answer(w, _) => WeightsUpdate(s.workers, w, Ready);
    case Throw(w) => WeightsUpdate(s.workers, w, Stopped);
  }

  lemma {:induction false} RunIsBounded(s: State, events: seq<Event>)
    requires IsRun(s, events)
    ensures |events| + ToDo(Run(s, events)) <= ToDo(s)
    decreases |events|
  {
    if events != [] {
      StepProgresses(s, events[0]);
      RunIsBounded(Step(s, events[0]), events[1..]);
    }
  }

  lemma {:induction false} ReadyWeights(n: nat)
    ensures Weights(seq(n, _ => Ready)) == n
  {
    if n > 0 {
      var workers: seq<Worker> := seq(n, _ => Ready);
      assert workers[1..] == seq(n - 1, _ => Ready);
      ReadyWeights(n - 1);
    }
  }

  /** No step is left. */
  ghost predicate Ended(s: State) {
    forall e: Event :: !Enabled(s, e)
  }

  /** A worker that has run out of items has seen the queue empty, and it stays empty. */
  ghost predicate FinishedMeansEmpty(s: State) {
    (exists w :: 0 <= w < |s.workers| && s.workers[w].Finished?) ==> s.queue == []
  }

  /** A worker that can take no item more, now or once it is done: stopped, or posting one whose document does not read. */
  function Tied(worker: Worker, readable: string -> bool): (n: nat)
    ensures n <= 1
  {
    if worker.Stopped? || (worker.Posting? && !readable(worker.key)) then 1 else 0
  }

  function TiedCount(workers: seq<Worker>, readable: string -> bool): (n: nat)
    ensures n <= |workers|
  {
    if workers == [] then 0 else Tied(workers[0], readable) + TiedCount(workers[1..], readable)
  }

  lemma {:induction false} TiedUpdate(workers: seq<Worker>, w: nat, worker: Worker, readable: string -> bool)
    requires w < |workers|
    ensures TiedCount(workers[w := worker], readable) + Tied(workers[w], readable) == TiedCount(workers, readable) + Tied(worker, readable)
  {
    hide Tied;
    var changed := workers[w := worker];
    if w == 0 {
      assert changed[1..] == workers[1..];
    } else {
      assert changed[1..] == workers[1..][w - 1 := worker];
      TiedUpdate(workers[1..], w - 1, worker, readable);
    }
  }

  /** With a worker free of it, fewer are tied than there are workers; with none, all are. */
  lemma {:induction false} TiedWorkers(workers: seq<Worker>, readable: string -> bool)
    ensures TiedCount(workers, readable) == |workers| <==> forall w | 0 <= w < |workers| :: Tied(workers[w], readable) == 1
  {
    hide Tied;
    if workers != [] {
      TiedWorkers(workers[1..], readable);
      assert (forall w | 0 <= w < |workers| :: Tied(workers[w], readable) == 1)
        <==> Tied(workers[0], readable) == 1 && forall w | 0 <= w < |workers| - 1 :: Tied(workers[1..][w], readable) == 1 by {
        if forall w | 0 <= w < |workers| - 1 :: Tied(workers[1..][w], readable) == 1 {
          assert forall w | 1 <= w < |workers| :: workers[w] == workers[1..][w - 1];
        }
      }
    }
  }

  lemma {:induction false} ReadyAreFree(n: nat, readable: string -> bool)
    ensures TiedCount(seq(n, _ => Ready), readable) == 0
  {
    if n > 0 {
      var workers: seq<Worker> := seq(n, _ => Ready);
      assert workers[1..] == seq(n - 1, _ => Ready);
      ReadyAreFree(n - 1, readable);
    }
  }

  const EVERY_KEY: string -> bool := _ => true

  /** Workers finish only once the queue is empty, and as many have stopped as items could not be read. */
  lemma {:induction false} WorkersEndForCause(s: State, events: seq<Event>)
    requires IsRun(s, events) && FinishedMeansEmpty(s) && TiedCount(s.workers, EVERY_KEY) == |s.unread|
    ensures FinishedMeansEmpty(Run(s, events)) && TiedCount(Run(s, events).workers, EVERY_KEY) == |Run(s, events).unread|
    decreases |events|
  {
    if events != [] {
      var next, w := Step(s, events[0]), events[0].w;
      forall v | 0 <= v < |next.workers| && next.workers[v].Finished? ensures next.queue == [] {
        assert v == w || s.workers[v].Finished?;
      }
      assert next.workers == s.workers[w := next.workers[w]];
      TiedUpdate(s.workers, w, next.workers[w], EVERY_KEY);
      WorkersEndForCause(next, events[1..]);
    }
  }

  /**
   * Every run ends, within two steps an item and one a worker. When it has ended, and fewer items could not be read than the
   * pool has workers, every item has been dealt with, once: the accepted, the failed and the unread are together the items.
   */
  lemma EveryRunEnds(items: seq<string>, limit: int, events: seq<Event>)
    requires IsRun(Start(items, limit), events)
    ensures |events| <= 2 * |items| + PoolSize(limit, |items|)
    ensures var s := Run(Start(items, limit), events);
            Ended(s) && |s.unread| < PoolSize(limit, |items|) ==>
              && multiset(s.accepted) + multiset(s.failures) + multiset(s.unread) == multiset(items)
              && s.succeeded + |s.failures| + |s.unread| == |items|
  {
    hide Accounted, Ended;
    var start := Start(items, limit);
    var s := Run(start, events);
    RunIsBounded(start, events);
    ReadyWeights(PoolSize(limit, |items|));
    ReadyAreFree(PoolSize(limit, |items|), EVERY_KEY);
    WorkersEndForCause(start, events);
    StartAccounts(items, limit);
    RunAccounts(start, events, items);
    if Ended(s) && |s.unread| < PoolSize(limit, |items|) {
      EndedAccounts(s, items);
    }
  }

  lemma EndedAccounts(s: State, items: seq<string>)
    requires Accounted(s, items) && FinishedMeansEmpty(s) && TiedCount(s.workers, EVERY_KEY) == |s.unread|
    requires Ended(s) && |s.unread| < |s.workers|
    ensures multiset(s.accepted) + multiset(s.failures) + multiset(s.unread) == multiset(items)
    ensures s.succeeded + |s.failures| + |s.unread| == |items|
  {
    NeverStuck(s);
    TiedWorkers(s.workers, EVERY_KEY);
    assert s.queue == [];
    TakenAccounts(s, items);
    assert items[..|items|] == items;
    var answered := multiset(s.accepted) + multiset(s.failures);
    assert |multiset(items)| == |answered| + |multiset(s.unread)|;
  }

  /** In an ended run, the items no longer waiting have each been accepted, failed or found unreadable. */
  lemma TakenAccounts(s: State, items: seq<string>)
    requires Accounted(s, items) && Ended(s)
    ensures multiset(s.accepted) + multiset(s.failures) + multiset(s.unread) == multiset(items[..|items| - |s.queue|])
  {
    NeverStuck(s);
    NoneInFlight(s.workers);
    var taken := items[..|items| - |s.queue|];
    assert items == taken + s.queue;
    forall key: string
      ensures (multiset(s.accepted) + multiset(s.failures) + multiset(s.unread))[key] == multiset(taken)[key]
    {
      assert Count(s, key) == multiset(items)[key];
      assert multiset(items)[key] == multiset(taken)[key] + multiset(s.queue)[key];
    }
  }

  /** A run that has not ended has a step to take: the pool never waits for itself. */
  lemma NeverStuck(s: State)
    ensures Ended(s) <==> forall w | 0 <= w < |s.workers| :: s.workers[w].Finished? || s.workers[w].Stopped?
  {
    if Ended(s) {
      forall w: nat | w < |s.workers| ensures s.workers[w].Finished? || s.workers[w].Stopped? {
        assert !Enabled(s, Shift(w)) && !Enabled(s, Throw(w));
      }
    }
  }

  // The ledger

  /** The lines of the ledger, with `current` read of the first. */
  function Lines(text: string, current: string): seq<string> {
    if text == "" then [current]
    else if text[0] == '\n' then [current] + Lines(text[1..], "")
    else Lines(text[1..], current + [text[0]])
  }

  function NonEmptyLines(lines: seq<string>): seq<string> {
    if lines == [] then []
    else (if lines[0] == "" then [] else [lines[0]]) + NonEmptyLines(lines[1..])
  }

  /** The keys in the ledger: one a line, empty lines ignored. */
  function ReadLedger(text: string): seq<string> {
    NonEmptyLines(Lines(text, ""))
  }

  function AppendKey(text: string, key: string): string {
    text + key + "\n"
  }

  predicate IsLine(key: string) {
    key != "" && '\n' !in key
  }

  /** Nothing, or lines that each end. */
  predicate EndsInLine(text: string) {
    text == "" || text[|text| - 1] == '\n'
  }

  lemma {:induction false} LinesPassed(line: string, text: string, current: string)
    requires '\n' !in line
    ensures Lines(line + "\n" + text, current) == [current + line] + Lines(text, "")
  {
    var all := line + "\n" + text;
    if line == "" {
      assert all[1..] == text && current + line == current;
    } else {
      assert all[1..] == line[1..] + "\n" + text;
      LinesPassed(line[1..], text, current + [line[0]]);
      assert current + [line[0]] + line[1..] == current + line;
    }
  }

  lemma NothingRead(more: string)
    ensures NonEmptyLines(Lines("", "")) == [] && ReadLedger(more) == NonEmptyLines(Lines(more, ""))
  {
    assert [""][1..] == [];
  }

  /** What is appended to whole lines is read after them. */
  lemma {:induction false} LinesConcat(text: string, current: string, more: string)
    requires EndsInLine(text) && (text == "" ==> current == "")
    ensures NonEmptyLines(Lines(text + more, current)) == NonEmptyLines(Lines(text, current)) + ReadLedger(more)
    decreases |text|
  {
    hide NonEmptyLines, ReadLedger;
    if text == "" {
      assert "" + more == more;
      NothingRead(more);
    } else {
      assert (text + more)[1..] == text[1..] + more;
      if text[0] == '\n' {
        LinesConcat(text[1..], "", more);
        HeadLine(current, Lines(text[1..], ""));
        HeadLine(current, Lines(text[1..] + more, ""));
        ConcatAssociates(if current == "" then [] else [current], NonEmptyLines(Lines(text[1..], "")), ReadLedger(more));
      } else {
        assert |text| > 1;
        LinesConcat(text[1..], current + [text[0]], more);
      }
    }
  }

  lemma OneLine(key: string)
    requires IsLine(key)
    ensures ReadLedger(key + "\n") == [key]
  {
    LinesPassed(key, "", "");
    assert key + "\n" + "" == key + "\n" && "" + key == key;
    HeadLine(key, Lines("", ""));
    assert Lines("", "") == [""] && [""][1..] == [];
    assert NonEmptyLines([""]) == [] && [key] + [] == [key];
  }

  lemma HeadLine(line: string, rest: seq<string>)
    ensures NonEmptyLines([line] + rest) == (if line == "" then [] else [line]) + NonEmptyLines(rest)
  {
    assert ([line] + rest)[1..] == rest;
  }

  lemma {:induction false} LinesHoldNoBreak(text: string, current: string)
    requires '\n' !in current
    ensures forall line <- Lines(text, current) :: '\n' !in line
    decreases |text|
  {
    if text != "" {
      if text[0] == '\n' {
        LinesHoldNoBreak(text[1..], "");
      } else {
        LinesHoldNoBreak(text[1..], current + [text[0]]);
      }
    }
  }

  lemma {:induction false} NonEmptyLinesAre(lines: seq<string>)
    ensures forall line <- NonEmptyLines(lines) :: line in lines && line != ""
  {
    if lines != [] {
      NonEmptyLinesAre(lines[1..]);
    }
  }

  lemma OnlyLinesAreRead(text: string)
    ensures forall key <- ReadLedger(text) :: IsLine(key)
  {
    LinesHoldNoBreak(text, "");
    NonEmptyLinesAre(Lines(text, ""));
  }

  /** A key appended to the ledger is found in it again exactly when it is a line: not empty, with no line break in it. */
  lemma LedgerRemembersExactly(text: string, key: string)
    requires EndsInLine(text)
    ensures key in ReadLedger(AppendKey(text, key)) <==> IsLine(key)
    ensures IsLine(key) ==> ReadLedger(AppendKey(text, key)) == ReadLedger(text) + [key]
  {
    OnlyLinesAreRead(AppendKey(text, key));
    if IsLine(key) {
      LinesConcat(text, "", key + "\n");
      OneLine(key);
      assert text + (key + "\n") == AppendKey(text, key);
    }
  }

  function AppendKeys(text: string, keys: seq<string>): string {
    if keys == [] then text else AppendKey(AppendKeys(text, keys[..|keys| - 1]), keys[|keys| - 1])
  }

  lemma {:induction false} LedgerGrows(text: string, keys: seq<string>)
    requires EndsInLine(text) && forall key <- keys :: IsLine(key)
    ensures EndsInLine(AppendKeys(text, keys)) && ReadLedger(AppendKeys(text, keys)) == ReadLedger(text) + keys
  {
    if keys == [] {
      assert ReadLedger(text) + [] == ReadLedger(text);
    } else {
      var init, last := keys[..|keys| - 1], keys[|keys| - 1];
      LedgerGrows(text, init);
      LedgerRemembersExactly(AppendKeys(text, init), last);
      assert ReadLedger(text) + init + [last] == ReadLedger(text) + keys by { assert keys == init + [last]; }
    }
  }

  /** Whatever is appended, what the ledger held is read in it still, and each key appended that is a line. */
  lemma {:induction false} LedgerKeeps(text: string, keys: seq<string>)
    requires EndsInLine(text)
    ensures EndsInLine(AppendKeys(text, keys))
    ensures forall key <- ReadLedger(text) :: key in ReadLedger(AppendKeys(text, keys))
    ensures forall key <- keys | IsLine(key) :: key in ReadLedger(AppendKeys(text, keys))
  {
    hide ReadLedger;
    if keys != [] {
      var init, last := keys[..|keys| - 1], keys[|keys| - 1];
      var before := AppendKeys(text, init);
      LedgerKeeps(text, init);
      LinesConcat(before, "", last + "\n");
      assert before + (last + "\n") == AppendKey(before, last);
      ReadAppended(before, last);
      assert keys == init + [last];
    }
  }

  lemma ReadAppended(text: string, key: string)
    requires EndsInLine(text)
    ensures forall k <- ReadLedger(text) :: k in ReadLedger(AppendKey(text, key))
    ensures IsLine(key) ==> key in ReadLedger(AppendKey(text, key))
  {
    LinesConcat(text, "", key + "\n");
    assert text + (key + "\n") == AppendKey(text, key);
    LedgerRemembersExactly(text, key);
  }

  // One run after another

  /** The keys not in the ledger, in order. */
  function Pending(all: seq<string>, done: seq<string>): seq<string> {
    if all == [] then []
    else (if all[0] in done then [] else [all[0]]) + Pending(all[1..], done)
  }

  /** What a run sends: the pending keys, or the first of them when a limit other than zero is given. */
  function Selected(all: seq<string>, ledger: string, limit: Option<nat>): seq<string> {
    var pending := Pending(all, ReadLedger(ledger));
    if limit.Some? && limit.value != 0 && limit.value < |pending| then pending[..limit.value] else pending
  }

  lemma {:induction false} PendingAre(all: seq<string>, done: seq<string>)
    ensures forall key <- Pending(all, done) :: key in all && key !in done
  {
    if all != [] {
      PendingAre(all[1..], done);
    }
  }

  lemma SelectedAre(all: seq<string>, ledger: string, limit: Option<nat>)
    ensures forall key <- Selected(all, ledger, limit) :: key in all && key !in ReadLedger(ledger)
  {
    PendingAre(all, ReadLedger(ledger));
  }

  datatype Attempt = Attempt(limit: Option<nat>, concurrency: int, events: seq<Event>)

  /** Each attempt's events can happen, over what the ledger leaves it; the keys it had accepted are appended as it goes. */
  predicate AreAttempts(all: seq<string>, ledger: string, attempts: seq<Attempt>)
    decreases |attempts|
  {
    attempts == [] ||
    (var a := attempts[0];
     var start := Start(Selected(all, ledger, a.limit), a.concurrency);
     IsRun(start, a.events) && AreAttempts(all, AppendKeys(ledger, Run(start, a.events).accepted), attempts[1..]))
  }

  /** The keys accepted in all the attempts, in the order they were. */
  function AllAccepted(all: seq<string>, ledger: string, attempts: seq<Attempt>): seq<string>
    requires AreAttempts(all, ledger, attempts)
    decreases |attempts|
  {
    if attempts == [] then []
    else
      var a := attempts[0];
      var accepted := Run(Start(Selected(all, ledger, a.limit), a.concurrency), a.events).accepted;
      accepted + AllAccepted(all, AppendKeys(ledger, accepted), attempts[1..])
  }

  lemma {:induction false} PendingDistinct(all: seq<string>, done: seq<string>)
    requires Distinct(all)
    ensures Distinct(Pending(all, done))
  {
    if all != [] {
      PendingDistinct(all[1..], done);
      PendingAre(all[1..], done);
      assert all[0] !in all[1..];
    }
  }

  lemma AcceptedOnce(items: seq<string>, limit: int, events: seq<Event>)
    requires IsRun(Start(items, limit), events)
    ensures var accepted := Run(Start(items, limit), events).accepted;
            && (forall key <- accepted :: key in items)
            && (Distinct(items) ==> Distinct(accepted))
  {
    var accepted := Run(Start(items, limit), events).accepted;
    NothingIsLost(items, limit, events);
    forall key <- accepted ensures key in items {
      assert key in multiset(accepted);
      assert Count(Run(Start(items, limit), events), key) == multiset(items)[key];
      assert key in multiset(items);
    }
    DistinctCounts(items);
    DistinctCounts(accepted);
    if Distinct(items) {
      forall key ensures multiset(accepted)[key] <= 1 {
        assert Count(Run(Start(items, limit), events), key) == multiset(items)[key] <= 1;
      }
    }
  }

  /**
   * No report whose key is a line is accepted twice: over any number of runs with one ledger, however their workers
   * interleave, wherever they are cut off, and whatever the other keys, no such key is accepted twice, nor once where the
   * ledger already held it.
   */
  lemma {:induction false} NeverAcceptedTwice(all: seq<string>, ledger: string, attempts: seq<Attempt>)
    requires Distinct(all) && EndsInLine(ledger) && AreAttempts(all, ledger, attempts)
    ensures forall key | IsLine(key) ::
              multiset(AllAccepted(all, ledger, attempts))[key] <= if key in ReadLedger(ledger) then 0 else 1
    ensures forall key <- AllAccepted(all, ledger, attempts) :: key in all
    decreases |attempts|
  {
    hide ReadLedger, IsLine;
    if attempts != [] {
      var a := attempts[0];
      var items := Selected(all, ledger, a.limit);
      var accepted := Run(Start(items, a.concurrency), a.events).accepted;
      var later := AllAccepted(all, AppendKeys(ledger, accepted), attempts[1..]);
      SelectedAre(all, ledger, a.limit);
      PendingDistinct(all, ReadLedger(ledger));
      AcceptedOnce(items, a.concurrency, a.events);
      DistinctCounts(accepted);
      LedgerKeeps(ledger, accepted);
      NeverAcceptedTwice(all, AppendKeys(ledger, accepted), attempts[1..]);
      hide Selected, Run;
      forall key | IsLine(key)
        ensures multiset(accepted + later)[key] <= if key in ReadLedger(ledger) then 0 else 1
      {
        assert multiset(accepted + later)[key] == multiset(accepted)[key] + multiset(later)[key];
        assert key in accepted <==> multiset(accepted)[key] > 0;
      }
    }
  }

  /** Where every key is a line, none is accepted twice at all. */
  lemma LinesAreAcceptedOnce(all: seq<string>, ledger: string, attempts: seq<Attempt>)
    requires Distinct(all) && (forall key <- all :: IsLine(key)) && EndsInLine(ledger) && AreAttempts(all, ledger, attempts)
    ensures Distinct(AllAccepted(all, ledger, attempts))
    ensures forall key <- AllAccepted(all, ledger, attempts) :: key in all && key !in ReadLedger(ledger)
  {
    hide AllAccepted, ReadLedger, IsLine;
    NeverAcceptedTwice(all, ledger, attempts);
    var accepted := AllAccepted(all, ledger, attempts);
    forall key ensures multiset(accepted)[key] <= 1 {
      assert key in accepted || multiset(accepted)[key] == 0;
    }
    DistinctCounts(accepted);
    forall key <- accepted ensures key !in ReadLedger(ledger) {
      assert multiset(accepted)[key] > 0;
    }
  }

  /** What an attempt has accepted, of what the ledger left it. */
  function AcceptedBy(all: seq<string>, ledger: string, attempt: Attempt): seq<string>
    requires IsRun(Start(Selected(all, ledger, attempt.limit), attempt.concurrency), attempt.events)
  {
    Run(Start(Selected(all, ledger, attempt.limit), attempt.concurrency), attempt.events).accepted
  }

  /** The ledger that the `k`-th attempt reads. */
  function LedgerAt(all: seq<string>, ledger: string, attempts: seq<Attempt>, k: nat): string
    requires AreAttempts(all, ledger, attempts) && k <= |attempts|
    decreases |attempts|
  {
    if k == 0 then ledger else LedgerAt(all, AppendKeys(ledger, AcceptedBy(all, ledger, attempts[0])), attempts[1..], k - 1)
  }

  /** The attempts themselves, each over the ledger it reads. */
  lemma {:induction false} AttemptAt(all: seq<string>, ledger: string, attempts: seq<Attempt>, k: nat)
    requires AreAttempts(all, ledger, attempts) && k < |attempts|
    ensures var before := LedgerAt(all, ledger, attempts, k);
            IsRun(Start(Selected(all, before, attempts[k].limit), attempts[k].concurrency), attempts[k].events)
    decreases |attempts|
  {
    if k > 0 {
      AttemptAt(all, AppendKeys(ledger, AcceptedBy(all, ledger, attempts[0])), attempts[1..], k - 1);
    }
  }

  /** What the ledger holds, each later attempt reads in it. */
  lemma {:induction false} LedgerLasts(all: seq<string>, ledger: string, attempts: seq<Attempt>, k: nat)
    requires EndsInLine(ledger) && AreAttempts(all, ledger, attempts) && k <= |attempts|
    ensures forall key <- ReadLedger(ledger) :: key in ReadLedger(LedgerAt(all, ledger, attempts, k))
    decreases |attempts|
  {
    hide ReadLedger, Run;
    if k > 0 {
      LedgerKeeps(ledger, AcceptedBy(all, ledger, attempts[0]));
      LedgerLasts(all, AppendKeys(ledger, AcceptedBy(all, ledger, attempts[0])), attempts[1..], k - 1);
    }
  }

  /**
   * A report accepted once is never sent again, exactly: whatever the other keys, no later attempt has it pending if and
   * only if its key is a line; and only what is pending is selected.
   */
  lemma {:induction false} NeverSentAgain(all: seq<string>, ledger: string, attempts: seq<Attempt>, i: nat, j: nat)
    requires EndsInLine(ledger) && AreAttempts(all, ledger, attempts) && i < j < |attempts|
    ensures var before, after := LedgerAt(all, ledger, attempts, i), LedgerAt(all, ledger, attempts, j);
            && IsRun(Start(Selected(all, before, attempts[i].limit), attempts[i].concurrency), attempts[i].events)
            && (forall key <- Selected(all, after, attempts[j].limit) :: key in Pending(all, ReadLedger(after)))
            && forall key <- AcceptedBy(all, before, attempts[i]) ::
                 key !in Pending(all, ReadLedger(after)) <==> IsLine(key)
    decreases |attempts|
  {
    hide ReadLedger, Run, IsLine;
    AttemptAt(all, ledger, attempts, i);
    var accepted := AcceptedBy(all, ledger, attempts[0]);
    var next := AppendKeys(ledger, accepted);
    LedgerKeeps(ledger, accepted);
    if i == 0 {
      var after := LedgerAt(all, ledger, attempts, j);
      LedgerLasts(all, next, attempts[1..], j - 1);
      OnlyLinesAreRead(after);
      SelectedAre(all, ledger, attempts[0].limit);
      AcceptedOnce(Selected(all, ledger, attempts[0].limit), attempts[0].concurrency, attempts[0].events);
      PendingExactly(all, ReadLedger(after));
    } else {
      NeverSentAgain(all, next, attempts[1..], i - 1, j - 1);
    }
  }

  lemma {:induction false} PendingExactly(all: seq<string>, done: seq<string>)
    ensures forall key :: key in Pending(all, done) <==> key in all && key !in done
  {
    if all != [] {
      PendingExactly(all[1..], done);
    }
  }
}
