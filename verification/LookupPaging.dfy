/** Replicating the Lookup resource page by page, and the guard that makes it end. */
module LookupPaging {
  import opened Strings

  /** A Lookup record: its key, where it is a text, and the record as it is serialized. */
  datatype Raw = Raw(lookupKey: Option<string>, serialized: string)

  /** What a 200 carries: no `value`, one that is not an array, or records. */
  datatype Value = NoValue | NotAnArray | Records(records: seq<Raw>)

  /** A request may throw instead of being answered. */
  datatype Response = Threw | Response(status: int, value: Value)

  /** Any server: what it answers to a request may depend on how many it had before, and on `$skip`. */
  type Server = (nat, nat) -> Response

  datatype Error = RequestThrew | BadStatus(status: int) | MalformedValue | SkipIgnored(records: nat, fetchedBefore: nat)

  datatype Outcome = Absent | Failed(error: Error) | Fetched(records: seq<Raw>)

  /** `LookupKey` where it is a text that is not empty, and else the whole record, which no key is taken for. */
  function Identity(record: Raw): string {
    if record.lookupKey.Some? && record.lookupKey.value != "" then "k:" + record.lookupKey.value else "r:" + record.serialized
  }

  /**
   * Records are told apart by their keys, and those without one by all they hold: two are the same to the cursor exactly
   * where both have one key, or neither has a key and they are serialized alike.
   */
  lemma IdentityExactly(a: Raw, b: Raw)
    ensures Identity(a) == Identity(b)
       <==> || (HasKey(a) && HasKey(b) && a.lookupKey == b.lookupKey)
            || (!HasKey(a) && !HasKey(b) && a.serialized == b.serialized)
  {
    var x, y := Identity(a), Identity(b);
    assert x[0] == (if HasKey(a) then 'k' else 'r') && y[0] == (if HasKey(b) then 'k' else 'r');
    assert x[2..] == (if HasKey(a) then a.lookupKey.value else a.serialized);
    assert y[2..] == (if HasKey(b) then b.lookupKey.value else b.serialized);
  }

  predicate HasKey(record: Raw) {
    record.lookupKey.Some? && |record.lookupKey.value| > 0
  }

  function Identities(records: seq<Raw>): set<string> {
    set record | record in records :: Identity(record)
  }

  predicate Has(response: Response, status: int) {
    response.Response? && response.status == status
  }

  /** A 200 that can be read as a page. */
  predicate IsPage(response: Response) {
    Has(response, 200) && !response.value.NotAnArray?
  }

  function PageOf(response: Response): seq<Raw> {
    if Has(response, 200) && response.value.Records? then response.value.records else []
  }

  /** Every record the server may ever serve is one of these. */
  ghost predicate ServesOnly(server: Server, universe: set<string>) {
    forall n: nat, skip: nat :: Identities(PageOf(server(n, skip))) <= universe
  }

  /** The walk from its `n`-th request on, counting from none, with what it has seen and fetched. */
  ghost function Walk(server: Server, universe: set<string>, n: nat, seen: set<string>, fetched: seq<Raw>): Outcome
    requires ServesOnly(server, universe)
    decreases universe - seen
  {
    var response := server(n, |fetched|);
    var page := PageOf(response);
    if response.Threw? then Failed(RequestThrew)
    else if response.status == 404 && n == 0 then Absent
    else if response.status != 200 then Failed(BadStatus(response.status))
    else if response.value.NotAnArray? then Failed(MalformedValue)
    else if page == [] then Fetched(fetched)
    else if Identities(page) <= seen then Failed(SkipIgnored(|page|, |fetched|))
    else Walk(server, universe, n + 1, seen + Identities(page), fetched + page)
  }

  /** The whole of a server's Lookup resource; it ends, whatever the server, because each page it takes is new in part. */
  method FetchLookupResource(server: Server, ghost universe: set<string>) returns (r: Outcome)
    requires ServesOnly(server, universe)
    ensures r == Walk(server, universe, 0, {}, [])
  {
    var allRecords: seq<Raw>, seen: set<string>, n: nat := [], {}, 0;
    while true
      invariant Walk(server, universe, n, seen, allRecords) == Walk(server, universe, 0, {}, [])
      decreases universe - seen
    {
      var response := server(n, |allRecords|);
      if response.Threw? {
        return Failed(RequestThrew);
      }
      if response.status == 404 && n == 0 {
        return Absent;
      }
      if response.status != 200 {
        return Failed(BadStatus(response.status));
      }
      if response.value.NotAnArray? {
        return Failed(MalformedValue);
      }
      var records := PageOf(response);
      var anyNew := exists i :: 0 <= i < |records| && Identity(records[i]) !in seen;
      assert anyNew <==> !(Identities(records) <= seen);
      if records == [] {
        return Fetched(allRecords);
      }
      if !anyNew {
        return Failed(SkipIgnored(|records|, |allRecords|));
      }
      ghost var unseen := universe - seen;
      seen := seen + Identities(records);
      assert universe - seen < unseen by {
        var i :| 0 <= i < |records| && Identity(records[i]) !in universe - seen && Identity(records[i]) in unseen;
      }
      allRecords := allRecords + records;
      n := n + 1;
    }
  }

  // What the walk promises

  /** The `k`-th page is what the server answers at the cursor that the pages before it make, and holds a record new to them. */
  ghost predicate PageTaken(server: Server, pages: seq<seq<Raw>>, k: nat)
    requires k < |pages|
  {
    var before := Concat(pages[..k]);
    var response := server(k, |before|);
    && Has(response, 200) && response.value == Records(pages[k])
    && !(Identities(pages[k]) <= Identities(before))
  }

  /** Pages, each taken at the cursor the ones before it make, and after them an empty one. */
  ghost predicate Replicated(server: Server, pages: seq<seq<Raw>>) {
    && (forall k | 0 <= k < |pages| :: PageTaken(server, pages, k))
    && IsPage(server(|pages|, |Concat(pages)|))
    && PageOf(server(|pages|, |Concat(pages)|)) == []
  }

  lemma IdentitiesConcat(a: seq<Raw>, b: seq<Raw>)
    ensures Identities(a + b) == Identities(a) + Identities(b)
  {
  }

  /** The walk that has taken some pages: it ends as fetched exactly where more pages, and then an empty one, follow. */
  lemma {:induction false} WalkFrom(server: Server, universe: set<string>, pages: seq<seq<Raw>>) returns (all: seq<seq<Raw>>)
    requires ServesOnly(server, universe) && forall k | 0 <= k < |pages| :: PageTaken(server, pages, k)
    ensures var end := Walk(server, universe, |pages|, Identities(Concat(pages)), Concat(pages));
            end.Fetched? ==> pages <= all && Replicated(server, all) && end.records == Concat(all)
    decreases universe - Identities(Concat(pages))
  {
    var seen := Identities(Concat(pages));
    var response := server(|pages|, |Concat(pages)|);
    var page := PageOf(response);
    all := pages;
    if IsPage(response) && response.value.Records? && !(Identities(page) <= seen) {
      hide Identities, Concat;
      MorePages(server, pages, page);
      IdentitiesConcat(Concat(pages), page);
      StrictlyLess(universe, seen, Identities(page));
      all := WalkFrom(server, universe, pages + [page]);
    }
  }

  lemma MorePages(server: Server, pages: seq<seq<Raw>>, page: seq<Raw>)
    requires forall k | 0 <= k < |pages| :: PageTaken(server, pages, k)
    requires var response := server(|pages|, |Concat(pages)|);
             Has(response, 200) && response.value == Records(page) && !(Identities(page) <= Identities(Concat(pages)))
    ensures forall k | 0 <= k <= |pages| :: PageTaken(server, pages + [page], k)
    ensures Concat(pages + [page]) == Concat(pages) + page
  {
    var more := pages + [page];
    assert more[..|pages|] == pages;
    hide Identities;
    forall k | 0 <= k <= |pages| ensures PageTaken(server, more, k) {
      if k < |pages| {
        assert more[..k] == pages[..k] && PageTaken(server, pages, k);
      }
    }
  }

  lemma StrictlyLess(universe: set<string>, seen: set<string>, more: set<string>)
    requires more <= universe && !(more <= seen)
    ensures universe - (seen + more) < universe - seen
  {
    var x :| x in more && x !in seen;
    assert x in universe - seen && x !in universe - (seen + more);
  }

  /** Replicated pages are walked from the first on. */
  lemma {:induction false} ReplicatedIsWalked(server: Server, universe: set<string>, pages: seq<seq<Raw>>, k: nat)
    requires ServesOnly(server, universe) && Replicated(server, pages) && k <= |pages|
    ensures Walk(server, universe, k, Identities(Concat(pages[..k])), Concat(pages[..k])) == Fetched(Concat(pages))
    decreases |pages| - k
  {
    var fetched := Concat(pages[..k]);
    if k < |pages| {
      assert PageTaken(server, pages, k);
      assert pages[..k + 1][..k] == pages[..k];
      hide Identities;
      IdentitiesConcat(fetched, pages[k]);
      WalkStep(server, universe, k, Identities(fetched), fetched);
      hide *;
      ReplicatedIsWalked(server, universe, pages, k + 1);
    } else {
      assert pages[..k] == pages;
      hide Identities;
      WalkStep(server, universe, k, Identities(fetched), fetched);
    }
  }

  /**
   * The walk fetches records exactly where they are the server's pages end to end: each at the cursor the records before
   * it make, each with something new, and an empty one after them.
   */
  lemma FetchedExactly(server: Server, universe: set<string>, records: seq<Raw>)
    requires ServesOnly(server, universe)
    ensures Walk(server, universe, 0, {}, []) == Fetched(records)
       <==> exists pages :: Replicated(server, pages) && Concat(pages) == records
  {
    assert Identities(Concat<Raw>([])) == {} && Concat<Raw>([]) == [];
    var all := WalkFrom(server, universe, []);
    forall pages | Replicated(server, pages)
      ensures Walk(server, universe, 0, {}, []) == Fetched(Concat(pages))
    {
      assert pages[..0] == [];
      ReplicatedIsWalked(server, universe, pages, 0);
    }
  }

  /** What is wrong with an answer, where something is: to the first request a 404 is not. */
  function Wrong(response: Response, first: bool): Option<Error> {
    if response.Threw? then Some(RequestThrew)
    else if response.status != 200 then (if response.status == 404 && first then None else Some(BadStatus(response.status)))
    else if response.value.NotAnArray? then Some(MalformedValue)
    else None
  }

  /** Pages, each taken at the cursor the ones before it make, and after them an answer that is wrong or brings nothing new. */
  ghost predicate BrokenOff(server: Server, pages: seq<seq<Raw>>, error: Error) {
    var response := server(|pages|, |Concat(pages)|);
    && (forall k | 0 <= k < |pages| :: PageTaken(server, pages, k))
    && (|| Wrong(response, pages == []) == Some(error)
        || (IsPage(response) && PageOf(response) != [] && Identities(PageOf(response)) <= Identities(Concat(pages))
            && error == SkipIgnored(|PageOf(response)|, |Concat(pages)|)))
  }

  /** A walk that has taken some pages and fails has taken more, perhaps, and is broken off after them by its error. */
  lemma {:induction false} FailsFrom(server: Server, universe: set<string>, pages: seq<seq<Raw>>) returns (all: seq<seq<Raw>>)
    requires ServesOnly(server, universe) && forall k | 0 <= k < |pages| :: PageTaken(server, pages, k)
    ensures var end := Walk(server, universe, |pages|, Identities(Concat(pages)), Concat(pages));
            end.Failed? ==> pages <= all && BrokenOff(server, all, end.error)
    decreases universe - Identities(Concat(pages))
  {
    var seen := Identities(Concat(pages));
    var response := server(|pages|, |Concat(pages)|);
    var page := PageOf(response);
    all := pages;
    if IsPage(response) && response.value.Records? && !(Identities(page) <= seen) {
      hide Identities, Concat;
      MorePages(server, pages, page);
      IdentitiesConcat(Concat(pages), page);
      StrictlyLess(universe, seen, Identities(page));
      all := FailsFrom(server, universe, pages + [page]);
    }
  }

  /** A walk along pages that are taken and then broken off comes to the error. */
  lemma {:induction false} BrokenIsWalked(server: Server, universe: set<string>, pages: seq<seq<Raw>>, error: Error, k: nat)
    requires ServesOnly(server, universe) && BrokenOff(server, pages, error) && k <= |pages|
    ensures Walk(server, universe, k, Identities(Concat(pages[..k])), Concat(pages[..k])) == Failed(error)
    decreases |pages| - k
  {
    var fetched := Concat(pages[..k]);
    if k < |pages| {
      assert PageTaken(server, pages, k);
      assert pages[..k + 1][..k] == pages[..k];
      hide Identities;
      IdentitiesConcat(fetched, pages[k]);
      WalkStep(server, universe, k, Identities(fetched), fetched);
      hide *;
      BrokenIsWalked(server, universe, pages, error, k + 1);
    } else {
      assert pages[..k] == pages;
      hide Identities;
    }
  }

  /**
   * The walk fails exactly where some pages are taken and the next answer is wrong, or brings nothing new, and with what
   * is wrong with it.
   */
  lemma FailedExactly(server: Server, universe: set<string>, error: Error)
    requires ServesOnly(server, universe)
    ensures Walk(server, universe, 0, {}, []) == Failed(error) <==> exists pages :: BrokenOff(server, pages, error)
  {
    assert Identities(Concat<Raw>([])) == {} && Concat<Raw>([]) == [];
    hide BrokenOff;
    var all := FailsFrom(server, universe, []);
    forall pages | BrokenOff(server, pages, error) ensures Walk(server, universe, 0, {}, []) == Failed(error) {
      assert pages[..0] == [];
      BrokenIsWalked(server, universe, pages, error, 0);
    }
  }

  lemma TakenBefore(server: Server, pages: seq<seq<Raw>>)
    requires pages != [] && forall k | 0 <= k < |pages| :: PageTaken(server, pages, k)
    ensures var before := pages[..|pages| - 1];
            && (forall k | 0 <= k < |before| :: PageTaken(server, before, k))
            && Identities(Concat(pages)) == Identities(Concat(before)) + Identities(pages[|pages| - 1])
            && !(Identities(pages[|pages| - 1]) <= Identities(Concat(before)))
  {
    var last := |pages| - 1;
    var before := pages[..last];
    forall k | 0 <= k < |before| ensures PageTaken(server, before, k) {
      assert before[..k] == pages[..k] && PageTaken(server, pages, k);
    }
    assert PageTaken(server, pages, last);
    hide Identities;
    IdentitiesConcat(Concat(before), pages[last]);
  }

  /** Without any limit on pages: no more of them are taken than there are records to tell apart. */
  lemma {:induction false} PagesAreBounded(server: Server, universe: set<string>, pages: seq<seq<Raw>>)
    requires ServesOnly(server, universe) && forall k | 0 <= k < |pages| :: PageTaken(server, pages, k)
    ensures |pages| <= |Identities(Concat(pages))| <= |universe|
  {
    hide Identities, PageTaken, ServesOnly;
    SeenIsServed(server, universe, pages);
    Smaller(Identities(Concat(pages)), universe);
    if pages != [] {
      var before := pages[..|pages| - 1];
      TakenBefore(server, pages);
      PagesAreBounded(server, universe, before);
      var x :| x in Identities(pages[|pages| - 1]) && x !in Identities(Concat(before));
      Larger(Identities(Concat(before)), Identities(Concat(pages)), x);
    }
  }

  lemma {:induction false} SeenIsServed(server: Server, universe: set<string>, pages: seq<seq<Raw>>)
    requires ServesOnly(server, universe) && forall k | 0 <= k < |pages| :: PageTaken(server, pages, k)
    ensures Identities(Concat(pages)) <= universe
  {
    if pages != [] {
      var last := |pages| - 1;
      var before := pages[..last];
      forall k | 0 <= k < |before| ensures PageTaken(server, before, k) {
        assert before[..k] == pages[..k] && PageTaken(server, pages, k);
      }
      SeenIsServed(server, universe, before);
      assert PageTaken(server, pages, last);
      assert Identities(PageOf(server(last, |Concat(before)|))) <= universe;
      IdentitiesConcat(Concat(before), pages[last]);
    }
  }

  lemma Larger(a: set<string>, b: set<string>, x: string)
    requires a <= b && x in b && x !in a
    ensures |a| < |b|
  {
    assert b == a + (b - a) && |b| == |a| + |b - a|;
  }

  lemma Smaller(a: set<string>, b: set<string>)
    requires a <= b
    ensures |a| <= |b|
  {
    assert b == a + (b - a) && |b| == |a| + |b - a|;
  }

  /** The resource is absent exactly where the first request of all is answered 404. */
  lemma AbsentExactly(server: Server, universe: set<string>)
    requires ServesOnly(server, universe)
    ensures Walk(server, universe, 0, {}, []).Absent? <==> Has(server(0, 0), 404)
  {
    if !Has(server(0, 0), 404) {
      PresentOnce(server, universe, 0, {}, []);
    }
  }

  lemma {:induction false} PresentOnce(server: Server, universe: set<string>, n: nat, seen: set<string>, fetched: seq<Raw>)
    requires ServesOnly(server, universe) && (n == 0 ==> !Has(server(0, |fetched|), 404))
    ensures !Walk(server, universe, n, seen, fetched).Absent?
    decreases universe - seen
  {
    var response := server(n, |fetched|);
    var page := PageOf(response);
    if IsPage(response) && page != [] && !(Identities(page) <= seen) {
      StrictlyLess(universe, seen, Identities(page));
      PresentOnce(server, universe, n + 1, seen + Identities(page), fetched + page);
    }
  }

  /** A server that honours `$skip` over a collection: as many of the rest as it likes, but some while there are some. */
  ghost predicate HonoursSkip(server: Server, collection: seq<Raw>) {
    forall n: nat, skip: nat | skip <= |collection| ::
      var response := server(n, skip);
      && Has(response, 200) && response.value.Records?
      && response.value.records <= collection[skip..]
      && (skip < |collection| ==> response.value.records != [])
  }

  ghost predicate ToldApart(records: seq<Raw>) {
    forall i, j | 0 <= i < j < |records| :: Identity(records[i]) != Identity(records[j])
  }

  /** From such a server, whatever the size of its pages, exactly the collection is fetched: no gap, no truncation. */
  lemma CollectionIsReplicated(server: Server, universe: set<string>, collection: seq<Raw>)
    requires ServesOnly(server, universe) && HonoursSkip(server, collection) && ToldApart(collection)
    ensures Walk(server, universe, 0, {}, []) == Fetched(collection)
  {
    assert Identities(collection[..0]) == {} && collection[..0] == [];
    RestIsReplicated(server, universe, collection, 0, 0);
  }

  lemma {:induction false} RestIsReplicated(server: Server, universe: set<string>, collection: seq<Raw>, n: nat, skip: nat)
    requires ServesOnly(server, universe) && HonoursSkip(server, collection) && ToldApart(collection) && skip <= |collection|
    ensures Walk(server, universe, n, Identities(collection[..skip]), collection[..skip]) == Fetched(collection)
    decreases |collection| - skip
  {
    hide *;
    var page, fetched := PageOf(server(n, skip)), collection[..skip];
    HonestPage(server, collection, n, skip);
    WalkStep(server, universe, n, Identities(fetched), fetched);
    if skip < |collection| {
      NextPage(collection, skip, page);
      RestIsReplicated(server, universe, collection, n + 1, skip + |page|);
    } else {
      assert fetched == collection;
    }
  }

  /** The next page of a collection holds something new, and with what was fetched is the collection up to its end. */
  lemma NextPage(collection: seq<Raw>, skip: nat, page: seq<Raw>)
    requires ToldApart(collection) && skip <= |collection| && page != [] && page <= collection[skip..]
    ensures !(Identities(page) <= Identities(collection[..skip]))
    ensures skip + |page| <= |collection| && collection[..skip] + page == collection[..skip + |page|]
    ensures Identities(collection[..skip]) + Identities(page) == Identities(collection[..skip + |page|])
  {
    assert page[0] == collection[skip..][0];
    NotAmong(collection, skip);
    assert Identity(page[0]) in Identities(page);
    IdentitiesConcat(collection[..skip], page);
    hide *;
    UpToPage(collection, skip, page);
  }

  lemma UpToPage<T>(collection: seq<T>, skip: nat, page: seq<T>)
    requires skip <= |collection| && page <= collection[skip..]
    ensures skip + |page| <= |collection| && collection[..skip] + page == collection[..skip + |page|]
  {
    assert collection[skip..][..|page|] == page;
  }

  /** A page of a walk, while there are more and after the last. */
  lemma WalkStep(server: Server, universe: set<string>, n: nat, seen: set<string>, fetched: seq<Raw>)
    requires ServesOnly(server, universe)
    requires IsPage(server(n, |fetched|))
    ensures var page := PageOf(server(n, |fetched|));
            && (page == [] ==> Walk(server, universe, n, seen, fetched) == Fetched(fetched))
            && (!(Identities(page) <= seen) ==>
                  Walk(server, universe, n, seen, fetched)
                  == Walk(server, universe, n + 1, seen + Identities(page), fetched + page))
  {
    hide Identities;
    var page := PageOf(server(n, |fetched|));
    if page == [] {
      NoIdentities();
    }
  }

  lemma NoIdentities()
    ensures Identities([]) == {}
  {
  }

  lemma HonestPage(server: Server, collection: seq<Raw>, n: nat, skip: nat)
    requires HonoursSkip(server, collection) && skip <= |collection|
    ensures var response := server(n, skip);
            && IsPage(response)
            && PageOf(response) <= collection[skip..]
            && (skip < |collection| ==> PageOf(response) != [] && PageOf(response)[0] == collection[skip])
            && (skip == |collection| ==> PageOf(response) == [])
  {
    var page := server(n, skip).value.records;
    if page != [] {
      assert page[0] == collection[skip..][0];
    }
  }

  lemma NotAmong(collection: seq<Raw>, at: nat)
    requires at < |collection| && ToldApart(collection)
    ensures Identity(collection[at]) !in Identities(collection[..at])
  {
    forall record | record in collection[..at] ensures Identity(record) != Identity(collection[at]) {
      var i :| 0 <= i < at && collection[..at][i] == record;
      assert collection[i] == record;
    }
  }

  /** A server that serves the same page whatever `$skip` says is refused at the second request. */
  lemma IgnoredSkipIsRefused(server: Server, universe: set<string>, page: seq<Raw>)
    requires ServesOnly(server, universe) && page != []
    requires forall n: nat, skip: nat :: server(n, skip) == Response(200, Records(page))
    ensures Walk(server, universe, 0, {}, []) == Failed(SkipIgnored(|page|, |page|))
  {
    assert Identity(page[0]) in Identities(page);
    assert [] + page == page && {} + Identities(page) == Identities(page);
    assert Walk(server, universe, 1, Identities(page), page) == Failed(SkipIgnored(|page|, |page|));
  }
}
