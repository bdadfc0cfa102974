/** The evidence poller: a report and the backup collection of its own generation. */
module Poller {
  import opened Prelude

  const SECOND := 1_000_000_000
  const BACKOFF_INITIAL := SECOND
  const BACKOFF_MAX := 30 * SECOND

  /** A validated report; body stands for everything the poller passes through. */
  datatype Report = Report(revision: nat, generation: nat, body: int)

  datatype Collection = Collection(backups: seq<int>, truncated: bool)

  datatype Fetch<T> = Got(value: T) | Failed(kind: int)

  datatype Snapshot = Snapshot(generation: nat, observedAt: int, stale: bool, failure: Option<int>,
                               report: Report, collection: Collection)

  datatype Status = Status(has: bool, snap: Snapshot, failure: Option<int>)

  datatype Cache = Cache(assembled: bool, generation: nat, collection: Collection)

  const NO_BACKUPS := Collection([], false)
  const NOTHING := Status(false, Snapshot(0, 0, false, None, Report(0, 0, 0), NO_BACKUPS), None)

  /** What the sidecar serves for a generation: its pages derive from the immutable
      generation, whatever the revision asked under. Generation zero has no items. */
  type Sidecar = nat -> Collection

  function Owed(pages: Sidecar, generation: nat): Collection {
    if generation == 0 then NO_BACKUPS else pages(generation)
  }

  /** One poll as the fetcher answers it: the snapshot, the collection if it is asked for,
      and whether the poller was cancelled by the time its outcome was known. A collection
      that does arrive is the one its generation owes. */
  datatype Poll = Poll(snapshot: Fetch<Report>, backups: Fetch<Collection>, at: int, cancelled: bool)

  ghost predicate Honest(p: Poll, pages: Sidecar) {
    p.snapshot.Got? && p.backups.Got? ==> p.backups.value == pages(p.snapshot.value.generation)
  }

  /* ---------- one poll ---------- */

  predicate Reuses(c: Cache, report: Report) {
    c.assembled && c.generation == report.generation
  }

  /** The failure of a poll, if it fails: the snapshot's, or that of a collection it had to fetch. */
  function Failure(c: Cache, p: Poll): Option<int> {
    match p.snapshot
    case Failed(kind) => Some(kind)
    case Got(report) =>
      if report.generation == 0 || Reuses(c, report) || p.backups.Got? then None else Some(p.backups.kind)
  }

  /** What the store shows after a poll: the report with the collection its generation
      owes, or what it showed before, marked stale; a failure under cancellation is not
      recorded as lost contact. */
  ghost function AfterPoll(s: Status, p: Poll, failed: Option<int>, pages: Sidecar): Status
    requires failed.None? ==> p.snapshot.Got?
  {
    if failed.None? then
      var report := p.snapshot.value;
      Status(true, Snapshot(s.snap.generation + 1, p.at, false, None, report, Owed(pages, report.generation)), None)
    else if p.cancelled then s
    else Status(s.has, if s.has then s.snap.(stale := true, failure := failed) else s.snap, failed)
  }

  /** A published pair is a report with the collection its generation owes. */
  ghost predicate Agrees(s: Status, pages: Sidecar) {
    s.has ==> s.snap.collection == Owed(pages, s.snap.report.generation)
  }

  ghost predicate CacheAgrees(c: Cache, pages: Sidecar) {
    c.assembled ==> c.collection == Owed(pages, c.generation)
  }

  /** The delay before the n-th retry in a row: doubled each time, up to the bound. */
  function Delay(n: nat): int {
    if n == 0 then BACKOFF_INITIAL else if 2 * Delay(n - 1) > BACKOFF_MAX then BACKOFF_MAX else 2 * Delay(n - 1)
  }

  function Pow2(n: nat): nat {
    if n == 0 then 1 else 2 * Pow2(n - 1)
  }

  /** The delay is the smaller of 2^n seconds and the bound. */
  lemma {:induction false} DelayDoubles(n: nat)
    ensures Delay(n) == if Pow2(n) * SECOND <= BACKOFF_MAX then Pow2(n) * SECOND else BACKOFF_MAX
  {
    if n > 0 { DelayDoubles(n - 1); }
  }

  class Store {
    var snap: Snapshot
    var has: bool
    var failure: Option<int>

    ghost function Current(): Status
      reads this
    {
      Status(has, snap, failure)
    }

    constructor ()
      ensures Current() == NOTHING
    {
      has, snap, failure := NOTHING.has, NOTHING.snap, NOTHING.failure;
    }

    method Publish(report: Report, collection: Collection, at: int)
      modifies this
      ensures Current() == Status(true, Snapshot(old(snap.generation) + 1, at, false, None, report, collection), None)
    {
      snap := Snapshot(snap.generation + 1, at, false, None, report, collection);
      has, failure := true, None;
    }

    method CurrentEvidence() returns (s: Status)
      ensures s == Current()
    {
      s := Status(has, snap, failure);
    }

    method MarkFailed(kind: int)
      modifies this
      ensures Current()
              == Status(old(has), if old(has) then old(snap).(stale := true, failure := Some(kind))
                        else old(snap), Some(kind))
    {
      failure := Some(kind);
      if !has { return; }
      snap := snap.(stale := true, failure := Some(kind));
    }
  }

  class Poller {
    const store: Store
    var cache: Cache
    var backoff: int
    ghost const pages: Sidecar
    /** Failed polls since the last published one. */
    ghost var failures: nat

    ghost predicate Valid()
      reads this, store
    {
      CacheAgrees(cache, pages) && Agrees(store.Current(), pages) && backoff == Delay(failures)
    }

    constructor (ghost pages: Sidecar)
      ensures Valid() && fresh(store) && store.Current() == NOTHING && !cache.assembled && failures == 0
              && this.pages == pages
    {
      store := new Store();
      cache := Cache(false, 0, NO_BACKUPS);
      backoff := BACKOFF_INITIAL;
      this.pages, failures := pages, 0;
    }

    /** Without a failure the cache holds what the report's generation owes. */
    method Assemble(report: Report, answer: Fetch<Collection>) returns (failed: Option<int>)
      requires CacheAgrees(cache, pages)
      requires answer.Got? ==> answer.value == pages(report.generation)
      modifies this`cache
      ensures failed == Failure(old(cache), Poll(Got(report), answer, 0, false))
      ensures failed.Some? ==> cache == old(cache)
      ensures failed.None? ==> cache == Cache(true, report.generation, Owed(pages, report.generation))
    {
      if report.generation == 0 {
        cache := Cache(true, 0, NO_BACKUPS);
        return None;
      }
      if cache.assembled && cache.generation == report.generation { return None; }
      if answer.Failed? { return Some(answer.kind); }
      cache := Cache(true, report.generation, answer.value);
      return None;
    }

    /** The delay is that of the failures so far in a row. */
    method NextBackoff() returns (d: int)
      requires backoff == Delay(failures)
      modifies this`backoff, this`failures
      ensures d == Delay(old(failures)) && failures == old(failures) + 1 && backoff == Delay(failures)
    {
      d := backoff;
      backoff := backoff * 2;
      if backoff > BACKOFF_MAX { backoff := BACKOFF_MAX; }
      failures := failures + 1;
    }

    /** One turn of Run: what it publishes, how long it waits before a retry, and whether
        it ends the run; the pacing jitter of a success is left out. A success publishes the
        report with the collection of its own generation, fetched or reused; a failure
        leaves the last published pair as it was, marks it stale, and keeps the cache. */
    method Turn(p: Poll) returns (retryIn: Option<int>, stop: bool)
      requires Valid() && Honest(p, pages)
      modifies this`cache, this`backoff, this`failures, store
      ensures Valid() && stop == p.cancelled
      ensures store.Current() == AfterPoll(old(store.Current()), p, Failure(old(cache), p), pages)
      ensures retryIn == if Failure(old(cache), p).None? || p.cancelled then None else Some(Delay(old(failures)))
      ensures failures == if Failure(old(cache), p).None? then 0 else if p.cancelled then old(failures)
              else old(failures) + 1
      ensures cache == CacheAfter(old(cache), p, pages)
    {
      var failed: Option<int>;
      if p.snapshot.Failed? {
        failed := Some(p.snapshot.kind);
      } else {
        failed := Assemble(p.snapshot.value, p.backups);
      }
      if failed.Some? {
        if p.cancelled { return None, true; }
        store.MarkFailed(failed.value);
        var d := NextBackoff();
        return Some(d), false;
      }
      store.Publish(p.snapshot.value, cache.collection, p.at);
      backoff, failures := BACKOFF_INITIAL, 0;
      return None, p.cancelled;
    }
  }

  function CacheAfter(c: Cache, p: Poll, pages: Sidecar): Cache {
    if Failure(c, p).Some? then c
    else Cache(true, p.snapshot.value.generation, Owed(pages, p.snapshot.value.generation))
  }

  /* ---------- whole runs ---------- */

  /** A poll fails when its snapshot does, or when a collection that is not at hand does. */
  predicate Fails(atHand: Option<nat>, p: Poll) {
    p.snapshot.Failed?
    || (p.snapshot.value.generation != 0 && atHand != Some(p.snapshot.value.generation) && p.backups.Failed?)
  }

  /** The last poll that did not fail; its collection is then the one at hand. */
  function LastGood(polls: seq<Poll>): (good: Option<nat>)
    ensures good.Some? ==> good.value < |polls| && polls[good.value].snapshot.Got?
  {
    var n := |polls| - 1;
    if n < 0 then None
    else if Fails(Hand(polls[..n], LastGood(polls[..n])), polls[n]) then LastGood(polls[..n])
    else Some(n)
  }

  function Hand(polls: seq<Poll>, good: Option<nat>): Option<nat>
    requires good.Some? ==> good.value < |polls| && polls[good.value].snapshot.Got?
  {
    if good.None? then None else Some(polls[good.value].snapshot.value.generation)
  }

  /** What went wrong with the last poll, if it failed: its snapshot, or else its collection. */
  function Reported(polls: seq<Poll>): Option<int> {
    var n := |polls| - 1;
    if n < 0 || !Fails(Hand(polls[..n], LastGood(polls[..n])), polls[n]) then None
    else Some(if polls[n].snapshot.Failed? then polls[n].snapshot.kind else polls[n].backups.kind)
  }

  /** How many polls did not fail. */
  function Goods(polls: seq<Poll>): nat {
    var n := |polls| - 1;
    if n < 0 then 0
    else Goods(polls[..n]) + (if Fails(Hand(polls[..n], LastGood(polls[..n])), polls[n]) then 0 else 1)
  }

  /** Over any run of polls the published pair agrees with a fresh fetch: it is the report
      of the last poll that did not fail, with the collection that report's generation
      owes, and it is marked stale exactly when a poll has failed since; each that did not
      fail advanced the generation, and the failure shown is that of the last poll. */
  ghost predicate Shows(s: Status, polls: seq<Poll>, pages: Sidecar) {
    s.failure == Reported(polls) && s.snap.generation == Goods(polls) &&
    match LastGood(polls)
    case None => !s.has
    case Some(i) =>
      && s.has && s.snap.failure == Reported(polls)
      && polls[i].snapshot == Got(s.snap.report) && s.snap.observedAt == polls[i].at
      && s.snap.collection
         == (if s.snap.report.generation == 0 then Collection([], false) else pages(s.snap.report.generation))
      && (s.snap.stale <==> i + 1 < |polls|)
  }

  function AtHand(c: Cache): Option<nat> { if c.assembled then Some(c.generation) else None }

  ghost predicate After(s: Status, c: Cache, polls: seq<Poll>, pages: Sidecar) {
    Shows(s, polls, pages) && AtHand(c) == Hand(polls, LastGood(polls))
  }

  lemma GoodNext(polls: seq<Poll>, p: Poll)
    ensures LastGood(polls + [p]) == if Fails(Hand(polls, LastGood(polls)), p) then LastGood(polls) else Some(|polls|)
  {
    assert (polls + [p])[..|polls|] == polls;
  }

  lemma ReportedNext(polls: seq<Poll>, p: Poll)
    ensures Reported(polls + [p]) == if !Fails(Hand(polls, LastGood(polls)), p) then None
                                     else Some(if p.snapshot.Failed? then p.snapshot.kind else p.backups.kind)
    ensures Goods(polls + [p]) == Goods(polls) + (if Fails(Hand(polls, LastGood(polls)), p) then 0 else 1)
  {
    assert (polls + [p])[..|polls|] == polls;
  }

  lemma AfterNext(s: Status, c: Cache, polls: seq<Poll>, p: Poll, pages: Sidecar)
    requires After(s, c, polls, pages) && (Failure(c, p).None? || !p.cancelled)
    ensures After(AfterPoll(s, p, Failure(c, p), pages), CacheAfter(c, p, pages), polls + [p], pages)
  {
    assert Failure(c, p).Some? <==> Fails(AtHand(c), p);
    GoodNext(polls, p);
    ReportedNext(polls, p);
    assert forall i :: 0 <= i < |polls| ==> (polls + [p])[i] == polls[i];
  }

  function Prefix(polls: seq<Poll>, n: nat): seq<Poll>
    requires n <= |polls|
  {
    polls[..n]
  }

  /** The polls a run records: all up to the one that finds it cancelled, and that one too
      unless it failed. */
  function Heard(polls: seq<Poll>, n: nat): seq<Poll>
    requires n <= |polls|
    decreases |polls| - n
  {
    if n == |polls| then polls
    else if !polls[n].cancelled then Heard(polls, n + 1)
    else if Fails(Hand(Prefix(polls, n), LastGood(Prefix(polls, n))), polls[n]) then Prefix(polls, n)
    else Prefix(polls, n + 1)
  }

  method Run(polls: seq<Poll>, ghost pages: Sidecar) returns (status: Status)
    requires forall i :: 0 <= i < |polls| ==> Honest(polls[i], pages)
    ensures Shows(status, Heard(polls, 0), pages)
  {
    var poller := new Poller(pages);
    var n, stop := 0, false;
    while n < |polls| && !stop
      invariant 0 <= n <= |polls|
      invariant fresh(poller) && fresh(poller.store) && poller.Valid() && poller.pages == pages
      invariant !stop ==> After(poller.store.Current(), poller.cache, Prefix(polls, n), pages)
      invariant !stop ==> Heard(polls, 0) == Heard(polls, n)
      invariant stop ==> Shows(poller.store.Current(), Heard(polls, 0), pages)
      decreases |polls| - n
    {
      if Failure(poller.cache, polls[n]).None? || !polls[n].cancelled {
        AfterNext(poller.store.Current(), poller.cache, Prefix(polls, n), polls[n], pages);
        assert Prefix(polls, n) + [polls[n]] == Prefix(polls, n + 1);
      }
      var retryIn, ended := poller.Turn(polls[n]);
      stop, n := ended, n + 1;
    }
    assert Prefix(polls, |polls|) == polls;
    status := poller.store.CurrentEvidence();
  }
}
