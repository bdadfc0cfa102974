/** Any number of restarts: when each is invisible, and what survives them all. */
module HistoryRestarts {
  import opened Prelude
  import opened Lex
  import opened History
  import opened HistoryInvariants
  import opened HistoryRetention
  import opened HistoryRestart

  function Joined(lives: seq<seq<Op>>): seq<Op>
    decreases |lives|
  {
    if lives == [] then [] else lives[0] + Joined(lives[1..])
  }

  /** Each life runs under its own limits and ends in a restart under the next, which visits
      every live object once. */
  ghost predicate Visited(u: Timeline, lims: seq<Limits>, lives: seq<seq<Op>>, orders: seq<seq<string>>)
    requires |orders| == |lives| && |lims| == |lives| + 1
    decreases |lives|
  {
    lives != [] ==>
      var u1 := Run(u, lims[0], lives[0]);
      && u1.mirror.Some? && Visits(orders[0], u1.mirror.value.objects)
      && Visited(Prime(lims[1], u1.mirror.value, orders[0]), lims[1..], lives[1..], orders[1..])
  }

  /** The store after the last restart. */
  ghost function Restarted(u: Timeline, lims: seq<Limits>, lives: seq<seq<Op>>, orders: seq<seq<string>>): Timeline
    requires |orders| == |lives| && |lims| == |lives| + 1 && Visited(u, lims, lives, orders)
    decreases |lives|
  {
    if lives == [] then u
    else Restarted(Prime(lims[1], Run(u, lims[0], lives[0]).mirror.value, orders[0]), lims[1..], lives[1..],
                   orders[1..])
  }

  /* ---------- one set of limits: when no restart shows ---------- */

  ghost predicate Uniform(lims: seq<Limits>, lim: Limits) {
    forall i :: 0 <= i < |lims| ==> lims[i] == lim
  }

  /** After every restart the store is the one that was never restarted. */
  ghost predicate Agrees(t: Timeline, u: Timeline, lims: seq<Limits>, lives: seq<seq<Op>>, orders: seq<seq<string>>)
    requires |orders| == |lives| && |lims| == |lives| + 1 && Visited(u, lims, lives, orders)
    decreases |lives|
  {
    lives != [] ==>
      var t1, u1 := Run(t, lims[0], lives[0]), Prime(lims[1], Run(u, lims[0], lives[0]).mirror.value, orders[0]);
      (exists shift :: Same(t1, u1, shift)) && Agrees(t1, u1, lims[1..], lives[1..], orders[1..])
  }

  /** At every restart no live object is stale. */
  ghost predicate Settled(t: Timeline, lim: Limits, lives: seq<seq<Op>>, stale: set<string>)
    decreases |lives|
  {
    lives != [] ==>
      var t1, stale1 := Run(t, lim, lives[0]), StaleRun(t, lim, lives[0], stale);
      NoneStale(t1, stale1) && Settled(t1, lim, lives[1..], stale1)
  }

  lemma SameTransitive(t: Timeline, u: Timeline, v: Timeline, a: int, b: int)
    requires Same(t, u, a) && Same(u, v, b)
    ensures Same(t, v, a + b)
  {
    forall s ensures ScopeSet(v.scopes, s) == ScopeSet(t.scopes, s) {
      assert ScopeSet(v.scopes, s) == ScopeSet(u.scopes, s);
    }
  }

  lemma SameReversed(t: Timeline, u: Timeline, shift: int)
    requires Same(t, u, shift)
    ensures Same(u, t, -shift)
  {
    forall s ensures ScopeSet(t.scopes, s) == ScopeSet(u.scopes, s) {}
  }

  lemma OneRestartIff(t: Timeline, u: Timeline, shift: int, lim: Limits, order: seq<string>)
    requires Same(t, u, shift) && Inv(t, lim) && Within(t, lim)
    requires u.mirror.Some? && Visits(order, u.mirror.value.objects)
    ensures (exists s :: Same(t, Prime(lim, u.mirror.value, order), s)) <==> Counted(t)
  {
    var v := Prime(lim, u.mirror.value, order);
    SameKeeps(t, u, shift, lim);
    PrimeSameIff(u, lim, order);
    if Counted(t) {
      WithinIsCap(u, lim, order);
      var s :| Same(u, v, s);
      SameTransitive(t, u, v, shift, s);
    }
    if s :| Same(t, v, s) {
      SameReversed(t, u, shift);
      SameTransitive(u, t, v, -shift, s);
    }
  }

  /** However many lives a store has had, each restarted from the mirror of the one before:
      after every restart it is the store that was never restarted, if and only if at every
      restart no live object's incarnation began while revisions of an earlier one were retained. */
  lemma {:induction false} RestartsIff(t: Timeline, u: Timeline, shift: int, lim: Limits, lims: seq<Limits>,
                                       lives: seq<seq<Op>>, orders: seq<seq<string>>, stale: set<string>)
    requires Same(t, u, shift) && Inv(t, lim) && Within(t, lim) && Parted(t, stale)
    requires |orders| == |lives| && |lims| == |lives| + 1 && Uniform(lims, lim) && Visited(u, lims, lives, orders)
    ensures Agrees(t, u, lims, lives, orders) <==> Settled(t, lim, lives, stale)
    decreases |lives|
  {
    if lives != [] {
      var t1, stale1 := Run(t, lim, lives[0]), StaleRun(t, lim, lives[0], stale);
      var v := Prime(lim, Run(u, lim, lives[0]).mirror.value, orders[0]);
      RunKeeps(t, lim, lives[0]);
      RunParted(t, lim, lives[0], stale);
      PartedIff(t1, stale1);
      RunSame(t, u, shift, lim, lives[0]);
      OneRestartIff(t1, Run(u, lim, lives[0]), shift, lim, orders[0]);
      if s :| Same(t1, v, s) { RestartsIff(t1, v, s, lim, lims[1..], lives[1..], orders[1..], stale1); }
    }
  }

  /** So the whole life, cut by such restarts, ends where the uncut run ends. */
  lemma {:induction false} RestartsTransparent(t: Timeline, u: Timeline, shift: int, lim: Limits, lims: seq<Limits>,
                                               lives: seq<seq<Op>>, orders: seq<seq<string>>)
    requires Same(t, u, shift) && |orders| == |lives| && |lims| == |lives| + 1
    requires Uniform(lims, lim) && Visited(u, lims, lives, orders) && Agrees(t, u, lims, lives, orders)
    ensures exists s :: Same(Run(t, lim, Joined(lives)), Restarted(u, lims, lives, orders), s)
    decreases |lives|
  {
    if lives == [] {
      assert Same(Run(t, lim, Joined(lives)), Restarted(u, lims, lives, orders), shift);
    } else {
      var t1, v := Run(t, lim, lives[0]), Prime(lim, Run(u, lim, lives[0]).mirror.value, orders[0]);
      var s :| Same(t1, v, s);
      RestartsTransparent(t1, v, s, lim, lims[1..], lives[1..], orders[1..]);
      var s' :| Same(Run(t1, lim, Joined(lives[1..])), Restarted(v, lims[1..], lives[1..], orders[1..]), s');
      RunConcat(t, lim, lives[0], Joined(lives[1..]));
      assert Same(Run(t, lim, Joined(lives)), Restarted(u, lims, lives, orders), s');
    }
  }

  /** From an empty persisted store: transparent exactly as above, and then to the end. */
  lemma RestartsFromEmpty(lim: Limits, lims: seq<Limits>, lives: seq<seq<Op>>, orders: seq<seq<string>>)
    requires |orders| == |lives| && |lims| == |lives| + 1 && Uniform(lims, lim)
             && Visited(Empty(true), lims, lives, orders)
    ensures Agrees(Empty(true), Empty(true), lims, lives, orders) <==> Settled(Empty(true), lim, lives, {})
    ensures Settled(Empty(true), lim, lives, {}) ==>
              exists s :: Same(Run(Empty(true), lim, Joined(lives)), Restarted(Empty(true), lims, lives, orders), s)
  {
    RunInvariant(true, lim, []);
    CountedIsParted(Empty(true));
    RestartsIff(Empty(true), Empty(true), 0, lim, lims, lives, orders, {});
    if Settled(Empty(true), lim, lives, {}) {
      RestartsTransparent(Empty(true), Empty(true), 0, lim, lims, lives, orders);
    }
  }

  /* ---------- limits that change: what survives every restart ---------- */

  /** The classification record of every live object. */
  function Recs(t: Timeline): map<string, ObjectRecord> {
    map uid | uid in t.objects :: t.objects[uid].rec
  }

  /** What each operation leaves of the records, from the records alone. */
  function RecsAfter(recs: map<string, ObjectRecord>, obs: Observation, now: int): map<string, ObjectRecord> {
    if obs.deleted then recs - {obs.uid}
    else
      var id := if obs.uid in recs then recs[obs.uid].id else obs.id;
      recs[obs.uid := ObjectRecord(id, obs.specHash, obs.statusHash, Some(now))]
  }

  function RecsAfterAll(recs: map<string, ObjectRecord>, obs: seq<Observation>, now: int): map<string, ObjectRecord>
    decreases |obs|
  {
    if obs == [] then recs else RecsAfterAll(RecsAfter(recs, obs[0], now), obs[1..], now)
  }

  function Under(recs: map<string, ObjectRecord>, scope: string): set<string> {
    set uid | uid in recs && recs[uid].id.scope == scope
  }

  function RecsRun(recs: map<string, ObjectRecord>, ops: seq<Op>): map<string, ObjectRecord>
    decreases |ops|
  {
    if ops == [] then recs
    else
      match ops[0]
      case Watch(obs, now) => RecsRun(RecsAfter(recs, obs, now), ops[1..])
      case Listing(scope, obs, now) =>
        RecsRun(RecsAfterAll(recs - (Under(recs, scope) - Listed(obs)), obs, now), ops[1..])
  }

  lemma ScopedUnder(t: Timeline, scope: string)
    requires Scoped(t)
    ensures ScopeSet(t.scopes, scope) == Under(Recs(t), scope)
  {
    forall uid ensures uid in ScopeSet(t.scopes, scope) <==> uid in Under(Recs(t), scope) {
      assert uid in ScopeSet(t.scopes, scope) <==> uid in t.objects && t.objects[uid].rec.id.scope == scope;
    }
  }

  lemma ObserveRecs(t: Timeline, lim: Limits, obs: Observation, now: int, seed: bool)
    ensures Recs(Observe(t, lim, obs, now, seed)) == RecsAfter(Recs(t), obs, now)
  {
    ObserveState(t, lim, obs, now, seed);
    assert Recs(Observe(t, lim, obs, now, seed)) == StateAfter(t, obs, now).0;
  }

  lemma DeleteRecs(t: Timeline, lim: Limits, uid: string, now: int)
    ensures Recs(DeleteUnobserved(t, lim, uid, now)) == Recs(t) - {uid}
  {
    if uid in t.objects { AppendState(t, lim, Tombstone(t.objects[uid].rec, uid, now)); }
  }

  lemma {:induction false} DeleteAllRecords(t: Timeline, lim: Limits, gone: seq<string>, now: int)
    ensures Recs(DeleteAll(t, lim, gone, now)) == Recs(t) - Elements(gone)
    decreases |gone|
  {
    if gone != [] {
      DeleteRecs(t, lim, gone[0], now);
      DeleteAllRecords(DeleteUnobserved(t, lim, gone[0], now), lim, gone[1..], now);
      DroppedFirst(Recs(t), gone);
    }
  }

  lemma DroppedFirst(recs: map<string, ObjectRecord>, gone: seq<string>)
    requires gone != []
    ensures recs - Elements(gone) == recs - {gone[0]} - Elements(gone[1..])
  {
    assert gone == [gone[0]] + gone[1..];
    assert forall x :: x in gone <==> x == gone[0] || x in gone[1..];
  }

  lemma {:induction false} ObserveAllRecords(t: Timeline, lim: Limits, obs: seq<Observation>, now: int)
    ensures Recs(ObserveAll(t, lim, obs, now)) == RecsAfterAll(Recs(t), obs, now)
    decreases |obs|
  {
    if obs != [] {
      ObserveRecs(t, lim, obs[0], now, true);
      ObserveAllRecords(Observe(t, lim, obs[0], now, true), lim, obs[1..], now);
    }
  }

  /** The records are a function of what was observed: no limit, eviction, fold or returning
      uid changes any of them. */
  lemma {:induction false} RunRecords(t: Timeline, lim: Limits, ops: seq<Op>)
    requires Inv(t, lim)
    ensures Recs(Run(t, lim, ops)) == RecsRun(Recs(t), ops)
    decreases |ops|
  {
    if ops != [] {
      StepKeeps(t, lim, ops[0]);
      match ops[0] {
        case Watch(obs, now) => ObserveRecs(t, lim, obs, now, false);
        case Listing(scope, obs, now) =>
          ScopedUnder(t, scope);
          DeleteAllRecords(t, lim, Gone(t, scope, obs), now);
          ObserveAllRecords(DeleteAll(t, lim, Gone(t, scope, obs), now), lim, obs, now);
      }
      RunRecords(Step(t, lim, ops[0]), lim, ops[1..]);
    }
  }

  lemma PrimeRecords(u: Timeline, lim: Limits, next: Limits, order: seq<string>)
    requires Inv(u, lim) && u.mirror.Some? && Visits(order, u.mirror.value.objects)
    ensures Inv(Prime(next, u.mirror.value, order), next) && Recs(Prime(next, u.mirror.value, order)) == Recs(u)
  {
    BySeqKept(u.entries, u.seqNo);
    PrimeInv(next, u.mirror.value, order);
    PrimeMirror(next, u.mirror.value, order);
  }

  lemma {:induction false} RecsRunConcat(recs: map<string, ObjectRecord>, a: seq<Op>, b: seq<Op>)
    ensures RecsRun(recs, a + b) == RecsRun(RecsRun(recs, a), b)
    decreases |a|
  {
    if a == [] {
      assert a + b == b;
    } else {
      assert (a + b)[1..] == a[1..] + b && (a + b)[0] == a[0];
      match a[0] {
        case Watch(obs, now) => RecsRunConcat(RecsAfter(recs, obs, now), a[1..], b);
        case Listing(scope, obs, now) =>
          RecsRunConcat(RecsAfterAll(recs - (Under(recs, scope) - Listed(obs)), obs, now), a[1..], b);
      }
    }
  }

  /** Restarts under limits that change from life to life, over any run, fresh or not: the
      live objects, their hashes, names and last-seen times and the scope sets are what
      the observations alone make them. */
  lemma {:induction false} RestartsClassify(u: Timeline, lims: seq<Limits>, lives: seq<seq<Op>>,
                                            orders: seq<seq<string>>)
    requires |orders| == |lives| && |lims| == |lives| + 1 && Inv(u, lims[0]) && Visited(u, lims, lives, orders)
    ensures var end := Restarted(u, lims, lives, orders);
            Inv(end, lims[|lives|]) && Recs(end) == RecsRun(Recs(u), Joined(lives))
    decreases |lives|
  {
    if lives != [] {
      LifeRecords(u, lims[0], lims[1], lives[0], orders[0]);
      RestartsClassify(Prime(lims[1], Run(u, lims[0], lives[0]).mirror.value, orders[0]), lims[1..], lives[1..],
                       orders[1..]);
      RecsRunConcat(Recs(u), lives[0], Joined(lives[1..]));
      assert lims[1..][|lives| - 1] == lims[|lives|];
    }
  }

  lemma LifeRecords(u: Timeline, lim: Limits, next: Limits, life: seq<Op>, order: seq<string>)
    requires Inv(u, lim) && Run(u, lim, life).mirror.Some? && Visits(order, Run(u, lim, life).mirror.value.objects)
    ensures var v := Prime(next, Run(u, lim, life).mirror.value, order);
            Inv(v, next) && Recs(v) == RecsRun(Recs(u), life)
  {
    RunKeeps(u, lim, life);
    RunRecords(u, lim, life);
    PrimeRecords(Run(u, lim, life), lim, next, order);
  }

  /** And each scope holds exactly the live objects recorded under it. */
  lemma RestartsScope(lims: seq<Limits>, lives: seq<seq<Op>>, orders: seq<seq<string>>, scope: string)
    requires |orders| == |lives| && |lims| == |lives| + 1 && Visited(Empty(true), lims, lives, orders)
    ensures ScopeSet(Restarted(Empty(true), lims, lives, orders).scopes, scope)
            == Under(RecsRun(map[], Joined(lives)), scope)
  {
    RunInvariant(true, lims[0], []);
    RestartsClassify(Empty(true), lims, lives, orders);
    ScopedUnder(Restarted(Empty(true), lims, lives, orders), scope);
    assert Recs(Empty(true)) == map[];
  }
}
