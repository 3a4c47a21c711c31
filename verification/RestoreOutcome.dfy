/** What an ended run of the restore has sent, where some documents do not read. */
module RestoreOutcome {
  import opened RestorePool

  /** A document throws when it is read exactly where it is not readable: so a key's post is answered, or its worker stops. */
  predicate Follows(s: State, events: seq<Event>, readable: string -> bool)
    requires IsRun(s, events)
    decreases |events|
  {
    events == [] ||
    (&& (events[0].Answer? ==> readable(s.workers[events[0].w].key))
     && (events[0].Throw? ==> !readable(s.workers[events[0].w].key))
     && Follows(Step(s, events[0]), events[1..], readable))
  }

  /** The items that are readable, or those that are not, in order. */
  function Those(items: seq<string>, readable: string -> bool, wanted: bool): (those: seq<string>)
    ensures |those| <= |items|
  {
    if items == [] then []
    else
      var last := items[|items| - 1];
      Those(items[..|items| - 1], readable, wanted) + if readable(last) == wanted then [last] else []
  }

  function Unreadable(items: seq<string>, readable: string -> bool): nat {
    |Those(items, readable, false)|
  }

  /** How many items a pool of `n` workers comes to: those up to the `n`-th that is not readable, or all. */
  function Reach(items: seq<string>, readable: string -> bool, n: nat): (reach: nat)
    ensures reach <= |items|
  {
    if items == [] then 0
    else if Unreadable(items[..|items| - 1], readable) < n then |items|
    else Reach(items[..|items| - 1], readable, n)
  }

  lemma {:induction false} UnreadableGrows(items: seq<string>, readable: string -> bool, k: nat)
    requires k <= |items|
    ensures Unreadable(items[..k], readable) <= Unreadable(items, readable)
    decreases |items|
  {
    if k < |items| {
      assert items[..|items| - 1][..k] == items[..k];
      UnreadableGrows(items[..|items| - 1], readable, k);
    } else {
      assert items[..k] == items;
    }
  }

  /** An item is come to exactly when fewer before it are not readable than the pool has workers. */
  lemma {:induction false} ReachedExactly(items: seq<string>, readable: string -> bool, n: nat, k: nat)
    requires k < |items|
    ensures k < Reach(items, readable, n) <==> Unreadable(items[..k], readable) < n
    decreases |items|
  {
    var init := items[..|items| - 1];
    assert init[..k] == items[..k];
    if Unreadable(init, readable) < n {
      UnreadableGrows(init, readable, k);
    } else if k < |init| {
      ReachedExactly(init, readable, n, k);
    } else {
      assert init[..k] == init;
    }
  }

  /** The items taken from the queue. */
  function Taken(s: State, items: seq<string>): seq<string>
    requires |s.queue| <= |items|
  {
    items[..|items| - |s.queue|]
  }

  /** What the answers and the throws say of their keys, and how far the workers have come. */
  ghost predicate Sorted(s: State, items: seq<string>, readable: string -> bool) {
    && |s.queue| <= |items| && s.queue == items[|items| - |s.queue|..]
    && (forall key <- s.accepted :: readable(key)) && (forall key <- s.failures :: readable(key))
    && (forall key <- s.unread :: !readable(key))
    && Unreadable(Taken(s, items), readable) == TiedCount(s.workers, readable)
    && |Taken(s, items)| <= Reach(items, readable, |s.workers|)
  }

  lemma ShiftSorts(s: State, w: nat, items: seq<string>, readable: string -> bool)
    requires Sorted(s, items, readable) && Enabled(s, Shift(w))
    ensures Sorted(Step(s, Shift(w)), items, readable)
  {
    var next := Step(s, Shift(w));
    TiedUpdate(s.workers, w, next.workers[w], readable);
    if s.queue != [] {
      var taken, k := Taken(s, items), |items| - |s.queue|;
      assert items[k] == s.queue[0] && Taken(next, items) == taken + [s.queue[0]];
      assert (taken + [s.queue[0]])[..|taken|] == taken;
      TiedWorkers(s.workers, readable);
      assert Tied(s.workers[w], readable) == 0;
      ReachedExactly(items, readable, |s.workers|, k);
    }
  }

  lemma StepSorts(s: State, e: Event, items: seq<string>, readable: string -> bool)
    requires Sorted(s, items, readable) && Enabled(s, e)
    requires e.Answer? ==> readable(s.workers[e.w].key)
    requires e.Throw? ==> !readable(s.workers[e.w].key)
    ensures Sorted(Step(s, e), items, readable)
  {
    if e.Shift? {
      ShiftSorts(s, e.w, items, readable);
    } else {
      TiedUpdate(s.workers, e.w, Step(s, e).workers[e.w], readable);
    }
  }

  lemma {:induction false} RunSorts(s: State, events: seq<Event>, items: seq<string>, readable: string -> bool)
    requires Sorted(s, items, readable) && IsRun(s, events) && Follows(s, events, readable)
    ensures Sorted(Run(s, events), items, readable) && |Run(s, events).workers| == |s.workers|
    decreases |events|
  {
    hide Sorted;
    if events != [] {
      StepSorts(s, events[0], items, readable);
      RunSorts(Step(s, events[0]), events[1..], items, readable);
    }
  }

  /** An ended pool has come as far as it reaches, and no further. */
  lemma EndedAtReach(s: State, items: seq<string>, readable: string -> bool)
    requires Sorted(s, items, readable) && FinishedMeansEmpty(s) && Ended(s)
    ensures |Taken(s, items)| == Reach(items, readable, |s.workers|)
  {
    NeverStuck(s);
    if s.queue != [] {
      TiedWorkers(s.workers, readable);
      assert forall w | 0 <= w < |s.workers| :: s.workers[w].Stopped?;
      ReachedExactly(items, readable, |s.workers|, |items| - |s.queue|);
    }
  }

  lemma {:induction false} ThoseCount(items: seq<string>, readable: string -> bool, wanted: bool, key: string)
    ensures multiset(Those(items, readable, wanted))[key] == if readable(key) == wanted then multiset(items)[key] else 0
  {
    if items != [] {
      ThoseCount(items[..|items| - 1], readable, wanted, key);
      assert items == items[..|items| - 1] + [items[|items| - 1]];
    }
  }

  /** Parts of the items, one of the readable alone and one of the others, are all of each. */
  lemma SortedParts(items: seq<string>, readable: string -> bool, answered: multiset<string>, unread: multiset<string>)
    requires answered + unread == multiset(items)
    requires (forall key <- answered :: readable(key)) && forall key <- unread :: !readable(key)
    ensures answered == multiset(Those(items, readable, true)) && unread == multiset(Those(items, readable, false))
  {
    forall key: string
      ensures answered[key] == multiset(Those(items, readable, true))[key]
      ensures unread[key] == multiset(Those(items, readable, false))[key]
    {
      ThoseCount(items, readable, true, key);
      ThoseCount(items, readable, false, key);
      assert answered[key] + unread[key] == multiset(items)[key];
      assert answered[key] > 0 ==> key in answered;
      assert unread[key] > 0 ==> key in unread;
    }
  }

  /**
   * Exactly what an ended run has sent: of the items up to the `n`-th whose document does not read, `n` being the size of the
   * pool, each that reads was answered once, and each that does not stopped a worker; those after it still wait.
   */
  lemma EndedExactly(items: seq<string>, limit: int, events: seq<Event>, readable: string -> bool)
    requires IsRun(Start(items, limit), events) && Follows(Start(items, limit), events, readable)
    requires Ended(Run(Start(items, limit), events))
    ensures var s, reach := Run(Start(items, limit), events), Reach(items, readable, PoolSize(limit, |items|));
            && s.queue == items[reach..]
            && multiset(s.accepted) + multiset(s.failures) == multiset(Those(items[..reach], readable, true))
            && multiset(s.unread) == multiset(Those(items[..reach], readable, false))
            && s.succeeded == |s.accepted|
  {
    hide Ended, Sorted, Reach, Those, Accounted;
    var start := Start(items, limit);
    var s := Run(start, events);
    StartSorts(items, limit, readable);
    RunSorts(start, events, items, readable);
    ReadyAreFree(PoolSize(limit, |items|), EVERY_KEY);
    WorkersEndForCause(start, events);
    StartAccounts(items, limit);
    RunAccounts(start, events, items);
    EndedIsSorted(s, items, readable);
  }

  lemma StartSorts(items: seq<string>, limit: int, readable: string -> bool)
    ensures Sorted(Start(items, limit), items, readable)
  {
    ReadyAreFree(PoolSize(limit, |items|), readable);
    assert Taken(Start(items, limit), items) == [];
  }

  lemma EndedIsSorted(s: State, items: seq<string>, readable: string -> bool)
    requires Sorted(s, items, readable) && FinishedMeansEmpty(s) && Ended(s) && Accounted(s, items)
    ensures var reach := Reach(items, readable, |s.workers|);
            && s.queue == items[reach..]
            && multiset(s.accepted) + multiset(s.failures) == multiset(Those(items[..reach], readable, true))
            && multiset(s.unread) == multiset(Those(items[..reach], readable, false))
            && s.succeeded == |s.accepted|
  {
    hide Reach, Those, Ended, FinishedMeansEmpty;
    EndedAtReach(s, items, readable);
    TakenAccounts(s, items);
    SortedParts(Taken(s, items), readable, multiset(s.accepted) + multiset(s.failures), multiset(s.unread));
  }

  /** Every readable item is answered exactly when none comes after the `n`-th that is not. */
  lemma AllAnsweredExactly(items: seq<string>, limit: int, events: seq<Event>, readable: string -> bool)
    requires IsRun(Start(items, limit), events) && Follows(Start(items, limit), events, readable)
    requires Ended(Run(Start(items, limit), events))
    ensures var s, reach := Run(Start(items, limit), events), Reach(items, readable, PoolSize(limit, |items|));
            multiset(s.accepted) + multiset(s.failures) == multiset(Those(items, readable, true))
            <==> forall key <- items[reach..] :: !readable(key)
  {
    hide Ended, Reach, Those, Run;
    EndedExactly(items, limit, events, readable);
    var reach := Reach(items, readable, PoolSize(limit, |items|));
    var near, far := items[..reach], items[reach..];
    assert items == near + far;
    forall key: string
      ensures multiset(Those(items, readable, true))[key]
           == multiset(Those(near, readable, true))[key] + if readable(key) then multiset(far)[key] else 0
    {
      ThoseCount(items, readable, true, key);
      ThoseCount(near, readable, true, key);
    }
    SameUnlessFar(multiset(Those(near, readable, true)), multiset(Those(items, readable, true)), far, readable);
  }

  lemma SameUnlessFar(near: multiset<string>, whole: multiset<string>, far: seq<string>, readable: string -> bool)
    requires forall key: string :: whole[key] == near[key] + if readable(key) then multiset(far)[key] else 0
    ensures near == whole <==> forall key <- far :: !readable(key)
  {
    if near == whole {
      forall key <- far ensures !readable(key) {
        assert key in multiset(far) && whole[key] == near[key];
      }
    } else {
      var key: string :| near[key] != whole[key];
      assert multiset(far)[key] > 0 && key in far;
    }
  }

  /** One worker, and a document that does not read before one that does: the run ends, and the second is never sent. */
  lemma AnItemCanBeStranded()
    ensures var start := Start(["a", "b"], 1);
            && IsRun(start, [Shift(0), Throw(0)])
            && var s := Run(start, [Shift(0), Throw(0)]);
               Ended(s) && s.queue == ["b"] && s.unread == ["a"] && s.accepted == [] && s.failures == []
  {
    var start := Start(["a", "b"], 1);
    var events := [Shift(0), Throw(0)];
    var one := Step(start, events[0]);
    assert start.workers == [Ready] && one == start.(queue := ["b"], workers := [Posting("a")]);
    assert events[1..] == [Throw(0)] && [Throw(0)][1..] == [];
    var two := Step(one, Throw(0));
    assert two.workers == [Stopped];
    assert IsRun(two, []) && Run(two, []) == two;
    assert IsRun(one, [Throw(0)]) && Run(one, [Throw(0)]) == two;
    NeverStuck(two);
  }
}
