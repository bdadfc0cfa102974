/** What a complete listing establishes, and when the cached counts are exact. */
module HistorySeed {
  import opened Prelude
  import opened Lex
  import opened History
  import opened HistoryInvariants
  import opened HistoryRetention
  import R = HistoryRestart

  /* ---------- which revisions exist ---------- */

  /** Every revision recorded and not rewritten since, retained or dropped. */
  ghost function Known(t: Timeline): set<Revision> {
    Elements(t.entries) + Elements(t.dropped)
  }

  lemma EvictKnown(t: Timeline, i: nat)
    requires i < |t.entries|
    ensures Known(Evict(t, i)) == Known(t)
  {
    var e, r := t.entries, Evict(t, i);
    forall x ensures x in Known(r) <==> x in Known(t) {
      if x in e {
        var j :| 0 <= j < |e| && e[j] == x;
        if j < i { assert r.entries[j] == x; } else if j > i { assert r.entries[j - 1] == x; }
      }
    }
  }

  lemma {:induction false} EnforceBoundsKnown(t: Timeline, lim: Limits)
    ensures Known(EnforceBounds(t, lim)) == Known(t) && EnforceBounds(t, lim).seqNo == t.seqNo
    decreases |t.entries|
  {
    if |t.entries| > 0 && Over(t, lim) {
      EvictKnown(t, 0);
      EnforceBoundsKnown(Evict(t, 0), lim);
    }
  }

  lemma AppendKnown(t: Timeline, lim: Limits, draft: Revision)
    requires draft.uid in t.objects
    ensures Known(Append(t, lim, draft)) == Known(t) + {draft.(seqNo := t.seqNo + 1)}
    ensures Append(t, lim, draft).seqNo == t.seqNo + 1
  {
    var t1 := Retain(t, draft);
    assert Elements(t1.entries) == Elements(t.entries) + {draft.(seqNo := t.seqNo + 1)};
    var i := FirstOf(t1.entries, draft.uid);
    if i < |t1.entries| { EvictKnown(t1, i); }
    EnforceBoundsKnown(EnforcePerObject(t1, lim, draft.uid), lim);
  }

  lemma SameKnown(t: Timeline, r: Timeline)
    requires r.entries == t.entries && r.dropped == t.dropped
    ensures Known(r) == Known(t)
  {
  }

  /** The classification records of the live objects. */
  ghost function Recs(t: Timeline): map<string, ObjectRecord> {
    map uid | uid in t.objects :: t.objects[uid].rec
  }

  /* ---------- the vanished ---------- */

  /** The revisions a deletion pass records: one per uid of its list, in order, under
      consecutive sequences, each built from the object's classification record. */
  ghost function Tombstones(recs: map<string, ObjectRecord>, gone: seq<string>, seqNo: nat, now: int): set<Revision>
    requires forall uid :: uid in gone ==> uid in recs
    decreases |gone|
  {
    if gone == [] then {}
    else
      assert gone[0] in gone;
      assert forall uid :: uid in gone[1..] ==> uid in gone;
      {Tombstone(recs[gone[0]], gone[0], now).(seqNo := seqNo + 1)} + Tombstones(recs, gone[1..], seqNo + 1, now)
  }

  ghost predicate Distinct(s: seq<string>) {
    forall i, j :: 0 <= i < j < |s| ==> s[i] != s[j]
  }

  lemma {:induction false} TombstonesRestrict(recs: map<string, ObjectRecord>, less: map<string, ObjectRecord>,
                                              gone: seq<string>, seqNo: nat, now: int)
    requires forall uid :: uid in gone ==> uid in recs && uid in less && less[uid] == recs[uid]
    ensures Tombstones(recs, gone, seqNo, now) == Tombstones(less, gone, seqNo, now)
    decreases |gone|
  {
    if gone != [] {
      assert gone[0] in gone;
      assert forall uid :: uid in gone[1..] ==> uid in gone;
      TombstonesRestrict(recs, less, gone[1..], seqNo + 1, now);
    }
  }

  lemma DeleteOne(t: Timeline, lim: Limits, uid: string, now: int)
    requires uid in t.objects
    ensures var r := DeleteUnobserved(t, lim, uid, now);
            && Recs(r) == Recs(t) - {uid}
            && r.seqNo == t.seqNo + 1
            && Known(r) == Known(t) + {Tombstone(Recs(t)[uid], uid, now).(seqNo := t.seqNo + 1)}
  {
    var rev := Tombstone(t.objects[uid].rec, uid, now);
    AppendKnown(t, lim, rev);
    AppendState(t, lim, rev);
    SameKnown(Append(t, lim, rev), DeleteUnobserved(t, lim, uid, now));
  }

  lemma {:induction false} DeleteAllRecs(t: Timeline, lim: Limits, gone: seq<string>, now: int)
    requires Distinct(gone) && forall uid :: uid in gone ==> uid in Recs(t)
    ensures Recs(DeleteAll(t, lim, gone, now)) == Recs(t) - Elements(gone)
    decreases |gone|
  {
    if gone == [] {
      assert Elements(gone) == {};
    } else {
      var uid, rest := gone[0], gone[1..];
      var t1 := DeleteUnobserved(t, lim, uid, now);
      assert uid in gone;
      DeleteOne(t, lim, uid, now);
      forall u | u in rest ensures u in Recs(t1) {
        assert u in gone && u != uid;
      }
      DeleteAllRecs(t1, lim, rest, now);
      assert Elements(gone) == {uid} + Elements(rest);
    }
  }

  lemma TombstonesNext(recs: map<string, ObjectRecord>, gone: seq<string>, seqNo: nat, now: int)
    requires gone != [] && Distinct(gone) && forall uid :: uid in gone ==> uid in recs
    ensures forall uid :: uid in gone[1..] ==> uid in recs - {gone[0]}
    ensures Tombstones(recs, gone, seqNo, now) ==
              {Tombstone(recs[gone[0]], gone[0], now).(seqNo := seqNo + 1)}
              + Tombstones(recs - {gone[0]}, gone[1..], seqNo + 1, now)
  {
    var rest := gone[1..];
    forall u | u in rest ensures u in recs && u in recs - {gone[0]} {
      assert u in gone && u != gone[0];
    }
    TombstonesRestrict(recs, recs - {gone[0]}, rest, seqNo + 1, now);
  }

  lemma DeleteOneKnown(t: Timeline, lim: Limits, gone: seq<string>, now: int)
    requires gone != [] && Distinct(gone) && forall uid :: uid in gone ==> uid in Recs(t)
    ensures var t1 := DeleteUnobserved(t, lim, gone[0], now);
            && Distinct(gone[1..]) && (forall uid :: uid in gone[1..] ==> uid in Recs(t1))
            && Known(t1) + Tombstones(Recs(t1), gone[1..], t1.seqNo, now)
               == Known(t) + Tombstones(Recs(t), gone, t.seqNo, now)
  {
    assert gone[0] in gone;
    DeleteOne(t, lim, gone[0], now);
    TombstonesNext(Recs(t), gone, t.seqNo, now);
  }

  lemma {:induction false} DeleteAllKnown(t: Timeline, lim: Limits, gone: seq<string>, now: int)
    requires Distinct(gone) && forall uid :: uid in gone ==> uid in Recs(t)
    ensures Known(DeleteAll(t, lim, gone, now)) == Known(t) + Tombstones(Recs(t), gone, t.seqNo, now)
    decreases |gone|
  {
    if gone != [] {
      assert gone[0] in gone;
      DeleteOneKnown(t, lim, gone, now);
      var t1 := DeleteUnobserved(t, lim, gone[0], now);
      DeleteAllKnown(t1, lim, gone[1..], now);
      assert DeleteAll(t, lim, gone, now) == DeleteAll(t1, lim, gone[1..], now);
    }
  }

  /* ---------- the listed ---------- */

  ghost predicate Present(obs: seq<Observation>) {
    forall i :: 0 <= i < |obs| ==> !obs[i].deleted
  }

  ghost predicate DistinctUids(obs: seq<Observation>) {
    forall i, j :: 0 <= i < j < |obs| ==> obs[i].uid != obs[j].uid
  }

  /** The classification records a listing leaves. */
  ghost function RecsAfter(recs: map<string, ObjectRecord>, obs: seq<Observation>, now: int): map<string, ObjectRecord>
    decreases |obs|
  {
    if obs == [] then recs
    else
      var o := obs[0];
      var id := if o.uid in recs then recs[o.uid].id else o.id;
      RecsAfter(recs[o.uid := ObjectRecord(id, o.specHash, o.statusHash, Some(now))], obs[1..], now)
  }

  ghost predicate Named(recs: map<string, ObjectRecord>, o: Observation) {
    o.uid in recs && recs[o.uid].specHash == o.specHash && recs[o.uid].statusHash == o.statusHash
  }

  lemma ListedSplit(obs: seq<Observation>)
    requires obs != []
    ensures Listed(obs) == {obs[0].uid} + Listed(obs[1..])
  {
    var rest := obs[1..];
    forall u ensures u in Listed(obs) <==> u == obs[0].uid || u in Listed(rest) {
      if u in Listed(obs) {
        var i :| 0 <= i < |obs| && obs[i].uid == u;
        if i > 0 { assert rest[i - 1].uid == u; }
      }
      if u in Listed(rest) {
        var i :| 0 <= i < |rest| && rest[i].uid == u;
        assert obs[i + 1].uid == u;
      }
    }
  }

  lemma {:induction false} RecsAfterKeys(recs: map<string, ObjectRecord>, obs: seq<Observation>, now: int)
    ensures var r := RecsAfter(recs, obs, now);
            && r.Keys == recs.Keys + Listed(obs)
            && (forall u :: u in recs ==> r[u].id == recs[u].id)
            && (forall u :: u in recs && u !in Listed(obs) ==> r[u] == recs[u])
    decreases |obs|
  {
    if obs != [] {
      var o := obs[0];
      var id := if o.uid in recs then recs[o.uid].id else o.id;
      RecsAfterKeys(recs[o.uid := ObjectRecord(id, o.specHash, o.statusHash, Some(now))], obs[1..], now);
      ListedSplit(obs);
    }
  }

  lemma {:induction false} RecsAfterNamed(recs: map<string, ObjectRecord>, obs: seq<Observation>, now: int, i: nat)
    requires DistinctUids(obs) && i < |obs|
    ensures Named(RecsAfter(recs, obs, now), obs[i])
    decreases |obs|
  {
    var o, rest := obs[0], obs[1..];
    var id := if o.uid in recs then recs[o.uid].id else o.id;
    var recs1 := recs[o.uid := ObjectRecord(id, o.specHash, o.statusHash, Some(now))];
    if i == 0 {
      RecsAfterKeys(recs1, rest, now);
      assert o.uid !in Listed(rest);
    } else {
      RecsAfterNamed(recs1, rest, now, i - 1);
    }
  }

  /** r records more than t, none of it a deletion. */
  ghost predicate Adds(t: Timeline, r: Timeline) {
    && Known(t) <= Known(r)
    && forall x :: x in Known(r) && x !in Known(t) ==> x.change != DeletedUnobserved && x.change != Deleted
  }

  lemma ListedNewAdds(t: Timeline, lim: Limits, obs: Observation, now: int)
    requires !obs.deleted && obs.uid !in t.objects
    ensures Adds(t, ObserveNew(t, lim, obs, now, true))
  {
    var rev := RevisionOf(obs, FirstObserved, now, None, false);
    AppendKnown(Admit(t, obs), lim, rev);
    SameKnown(Append(Admit(t, obs), lim, rev), ObserveNew(t, lim, obs, now, true));
    SameKnown(t, Admit(t, obs));
  }

  lemma ListedOneAdds(t: Timeline, lim: Limits, obs: Observation, now: int)
    requires !obs.deleted
    ensures Adds(t, Observe(t, lim, obs, now, true))
  {
    if obs.uid !in t.objects {
      ListedNewAdds(t, lim, obs, now);
    } else if obs.specHash == t.objects[obs.uid].rec.specHash && obs.statusHash == t.objects[obs.uid].rec.statusHash {
      SameKnown(t, Touch(t, obs.uid, now));
    } else {
      var rec := t.objects[obs.uid].rec;
      var change := if obs.specHash != rec.specHash then SpecChanged else StatusTransition;
      var rev := RevisionOf(obs, change, now, rec.lastObservedAt, true);
      AppendKnown(t, lim, rev);
      SameKnown(Append(t, lim, rev), ObserveRevised(t, lim, obs, change, now, true));
    }
  }

  lemma ListedOneRecs(t: Timeline, lim: Limits, obs: Observation, now: int)
    requires !obs.deleted
    ensures Recs(Observe(t, lim, obs, now, true)) == RecsAfter(Recs(t), [obs], now)
  {
    ObserveState(t, lim, obs, now, true);
    assert [obs][1..] == [];
    var r := Observe(t, lim, obs, now, true);
    assert HasState(r, StateAfter(t, obs, now));
    assert Recs(r) == StateAfter(t, obs, now).0;
  }

  lemma {:induction false} ListedAll(t: Timeline, lim: Limits, obs: seq<Observation>, now: int)
    requires Present(obs)
    ensures Adds(t, ObserveAll(t, lim, obs, now))
    ensures Recs(ObserveAll(t, lim, obs, now)) == RecsAfter(Recs(t), obs, now)
    decreases |obs|
  {
    if obs != [] {
      var t1 := Observe(t, lim, obs[0], now, true);
      ListedOneAdds(t, lim, obs[0], now);
      ListedOneRecs(t, lim, obs[0], now);
      ListedAll(t1, lim, obs[1..], now);
      AddsTransitive(t, t1, ObserveAll(t1, lim, obs[1..], now));
      RecsAfterFirst(Recs(t), obs, now);
    }
  }

  lemma AddsTransitive(t: Timeline, r: Timeline, s: Timeline)
    requires Adds(t, r) && Adds(r, s)
    ensures Adds(t, s)
  {
  }

  lemma RecsAfterFirst(recs: map<string, ObjectRecord>, obs: seq<Observation>, now: int)
    requires obs != []
    ensures RecsAfter(recs, obs, now) == RecsAfter(RecsAfter(recs, [obs[0]], now), obs[1..], now)
  {
    assert [obs[0]][1..] == [];
  }

  lemma GoneIsScoped(t: Timeline, lim: Limits, scope: string, obs: seq<Observation>)
    requires Inv(t, lim)
    ensures Distinct(Gone(t, scope, obs))
    ensures forall u :: u in Gone(t, scope, obs) <==>
              u in Recs(t) && Recs(t)[u].id.scope == scope && u !in Listed(obs)
  {
    var gone := Gone(t, scope, obs);
    SortedDistinct(gone);
    forall u ensures u in gone <==> u in Recs(t) && Recs(t)[u].id.scope == scope && u !in Listed(obs) {
      assert u in gone <==> u in Elements(gone);
    }
  }

  /** The live uids after a seed are the earlier ones without the vanished, plus the
      listed; every object that was live and did not vanish keeps its name and scope,
      so no other scope loses an object; and the seeded scope is left with exactly
      the listed uids recorded under it. */
  lemma {:induction false} SeedReconciles(t: Timeline, lim: Limits, scope: string, obs: seq<Observation>, now: int)
    requires Inv(t, lim) && Present(obs)
    ensures var r, gone := Seed(t, lim, scope, obs, now), Gone(t, scope, obs);
            && Recs(r).Keys == (Recs(t).Keys - Elements(gone)) + Listed(obs)
            && (forall u :: u in Recs(t) && u !in gone ==> Recs(r)[u].id == Recs(t)[u].id)
            && ScopeSet(r.scopes, scope) == set u | u in Listed(obs) && Recs(r)[u].id.scope == scope
  {
    var gone := Gone(t, scope, obs);
    GoneIsScoped(t, lim, scope, obs);
    var t1 := DeleteAll(t, lim, gone, now);
    DeleteAllRecs(t, lim, gone, now);
    ListedAll(t1, lim, obs, now);
    RecsAfterKeys(Recs(t1), obs, now);
    DeleteAllKeeps(t, lim, gone, now);
    ObserveAllKeeps(t1, lim, obs, now);
    SeedScope(t1, ObserveAll(t1, lim, obs, now), lim, scope, obs, Recs(t), gone);
  }

  lemma SeedScope(t1: Timeline, r: Timeline, lim: Limits, scope: string, obs: seq<Observation>,
                  recs: map<string, ObjectRecord>, gone: seq<string>)
    requires Inv(r, lim) && Recs(r).Keys == Recs(t1).Keys + Listed(obs)
    requires forall u :: u in Recs(t1) ==> Recs(r)[u].id == Recs(t1)[u].id
    requires Recs(t1) == recs - Elements(gone)
    requires forall u :: u in gone <==> u in recs && recs[u].id.scope == scope && u !in Listed(obs)
    ensures ScopeSet(r.scopes, scope) == set u | u in Listed(obs) && Recs(r)[u].id.scope == scope
  {
    forall u ensures u in ScopeSet(r.scopes, scope) <==> u in Listed(obs) && Recs(r)[u].id.scope == scope {
      assert u in ScopeSet(r.scopes, scope) <==> u in Recs(r) && Recs(r)[u].id.scope == scope;
      if u in Recs(r) && u !in Listed(obs) {
        assert u in Recs(t1) && u in recs && u !in Elements(gone);
        assert u !in gone;
      }
    }
  }

  /** The revisions a seed records for the vanished are exactly one deletion per uid
      that was live under the scope and is not listed. */
  lemma {:induction false} SeedRecordsVanished(t: Timeline, lim: Limits, scope: string, obs: seq<Observation>, now: int)
    requires Inv(t, lim) && Present(obs)
    ensures var r, gone := Seed(t, lim, scope, obs, now), Gone(t, scope, obs);
            && (forall u :: u in gone <==> u in Recs(t) && Recs(t)[u].id.scope == scope && u !in Listed(obs))
            && Known(t) + Tombstones(Recs(t), gone, t.seqNo, now) <= Known(r)
            && (forall x :: x in Known(r) && x !in Known(t) && x.change == DeletedUnobserved ==>
                  x in Tombstones(Recs(t), gone, t.seqNo, now))
  {
    var gone := Gone(t, scope, obs);
    GoneIsScoped(t, lim, scope, obs);
    DeleteAllKnown(t, lim, gone, now);
    ListedAll(DeleteAll(t, lim, gone, now), lim, obs, now);
  }

  /* ---------- repeating a seed ---------- */

  /** Nothing was recorded: the timeline, its counters and the scopes are as before,
      and at most last-seen times moved. */
  ghost predicate Quiet(t: Timeline, r: Timeline) {
    && r == t.(objects := r.objects, mirror := r.mirror)
    && r.objects.Keys == t.objects.Keys
    && forall u :: u in t.objects ==>
         r.objects[u] == t.objects[u].(rec := t.objects[u].rec.(lastObservedAt := r.objects[u].rec.lastObservedAt))
  }

  lemma {:induction false} MatchedIsQuiet(t: Timeline, lim: Limits, obs: seq<Observation>, now: int)
    requires Present(obs) && forall i :: 0 <= i < |obs| ==> Named(Recs(t), obs[i])
    ensures Quiet(t, ObserveAll(t, lim, obs, now))
    decreases |obs|
  {
    if obs != [] {
      var t1, rest := Touch(t, obs[0].uid, now), obs[1..];
      assert Named(Recs(t), obs[0]);
      assert Observe(t, lim, obs[0], now, true) == t1;
      forall i | 0 <= i < |rest| ensures Named(Recs(t1), rest[i]) {
        assert Named(Recs(t), obs[i + 1]);
      }
      MatchedIsQuiet(t1, lim, rest, now);
    }
  }

  /** A re-seed with the same listing records nothing, so a reconnect adds nothing to
      the timeline. */
  lemma {:induction false} SeedIdempotent(t: Timeline, lim: Limits, scope: string, obs: seq<Observation>, now: int,
                                          later: int)
    requires Inv(t, lim) && Present(obs) && DistinctUids(obs)
    ensures Quiet(Seed(t, lim, scope, obs, now), Seed(Seed(t, lim, scope, obs, now), lim, scope, obs, later))
  {
    var t1 := DeleteAll(t, lim, Gone(t, scope, obs), now);
    var r := ObserveAll(t1, lim, obs, now);
    SeedReconciles(t, lim, scope, obs, now);
    ListedAll(t1, lim, obs, now);
    forall i | 0 <= i < |obs| ensures Named(Recs(r), obs[i]) {
      RecsAfterNamed(Recs(t1), obs, now, i);
    }
    assert ScopeSet(r.scopes, scope) - Listed(obs) == {};
    assert Gone(r, scope, obs) == [];
    MatchedIsQuiet(r, lim, obs, later);
  }

  /* ---------- when the cached count is exact ---------- */

  /** How many retained revisions of a live uid its cached count misses. */
  ghost function Uncounted(t: Timeline, uid: string): int
    requires uid in t.objects
  {
    CountOf(t.entries, uid) - t.objects[uid].count
  }

  lemma EvictUncounted(t: Timeline, i: nat, uid: string)
    requires uid in t.objects && i < |t.entries|
    ensures Uncounted(Evict(t, i), uid) == Uncounted(t, uid)
  {
    CutAt(t.entries, i, uid);
  }

  lemma {:induction false} EnforceBoundsUncounted(t: Timeline, lim: Limits, uid: string)
    requires uid in t.objects
    ensures Uncounted(EnforceBounds(t, lim), uid) == Uncounted(t, uid)
    decreases |t.entries|
  {
    if |t.entries| > 0 && Over(t, lim) {
      EvictUncounted(t, 0, uid);
      EnforceBoundsUncounted(Evict(t, 0), lim, uid);
    }
  }

  lemma CapUncounted(t: Timeline, lim: Limits, uid: string)
    requires uid in t.objects
    ensures Uncounted(EnforcePerObject(t, lim, uid), uid) == Uncounted(t, uid)
  {
    var i := FirstOf(t.entries, uid);
    if i < |t.entries| { EvictUncounted(t, i, uid); }
  }

  lemma AppendUncounted(t: Timeline, lim: Limits, draft: Revision)
    requires draft.uid in t.objects
    ensures Uncounted(Append(t, lim, draft), draft.uid) == Uncounted(t, draft.uid)
  {
    var rev, t1 := draft.(seqNo := t.seqNo + 1), Retain(t, draft);
    CountConcat(t.entries, [rev], draft.uid);
    assert [rev][1..] == [];
    CapUncounted(t1, lim, draft.uid);
    EnforceBoundsUncounted(EnforcePerObject(t1, lim, draft.uid), lim, draft.uid);
  }

  /** An observation leaves every cached count and target exact if and only if it
      does not bring back a uid whose incarnation ended with revisions retained:
      such a uid restarts its count while its old revisions still carry its name. */
  lemma CountsExactIffFresh(t: Timeline, lim: Limits, obs: Observation, now: int, seed: bool)
    requires Inv(t, lim) && Counted(t)
    ensures Counted(Observe(t, lim, obs, now, seed)) <==> Fresh(t, obs)
  {
    if Fresh(t, obs) {
      ObserveKeepsCounts(t, lim, obs, now, seed);
    } else {
      var rev := RevisionOf(obs, if seed then FirstObserved else Created, now, None, false);
      AppendUncounted(Admit(t, obs), lim, rev);
      var r := Observe(t, lim, obs, now, seed);
      assert Uncounted(r, obs.uid) == CountOf(t.entries, obs.uid) != 0;
    }
  }

  const NO_LIMITS := Limits(0, 0, 0, 0)

  lemma UnlimitedAppend(t: Timeline, draft: Revision)
    requires draft.uid in t.objects
    ensures Append(t, NO_LIMITS, draft) == Retain(t, draft)
  {
  }

  lemma CreateRetains(t: Timeline, obs: Observation, now: int)
    requires !obs.deleted && obs.uid !in t.objects
    ensures var r := Observe(t, NO_LIMITS, obs, now, false);
            obs.uid in r.objects && |r.entries| == |t.entries| + 1 && r.entries[|t.entries|].uid == obs.uid
  {
    UnlimitedAppend(Admit(t, obs), RevisionOf(obs, Created, now, None, false));
  }

  lemma DeleteForgets(t: Timeline, obs: Observation, now: int)
    requires obs.deleted && obs.uid in t.objects
    ensures var r := Observe(t, NO_LIMITS, obs, now, false);
            obs.uid !in r.objects && |r.entries| == |t.entries| + 1 && r.entries[..|t.entries|] == t.entries
  {
    UnlimitedAppend(t, RevisionOf(obs, Deleted, now, t.objects[obs.uid].rec.lastObservedAt, false).(manifest := None));
  }

  lemma TwoSteps(t: Timeline, lim: Limits, a: Op, b: Op)
    ensures Run(t, lim, [a, b]) == Step(Step(t, lim, a), lim, b)
    ensures FreshOp(t, lim, a) && FreshOp(Step(t, lim, a), lim, b) ==> FreshRun(t, lim, [a, b])
  {
    assert [a, b][1..] == [b] && [b][1..] == [];
    assert Run(Step(t, lim, a), lim, [b]) == Step(Step(t, lim, a), lim, b);
    assert FreshRun(Step(Step(t, lim, a), lim, b), lim, []);
  }

  /** A reachable input that parts them: an object created, deleted and created again. */
  lemma CreateDeleteCreate(obs: Observation, persisted: bool)
    requires !obs.deleted
    ensures var t := Run(Empty(persisted), NO_LIMITS, [Watch(obs, 0), Watch(obs.(deleted := true), 1)]);
            Counted(t) && !Counted(Step(t, NO_LIMITS, Watch(obs, 2)))
  {
    var a, b := Watch(obs, 0), Watch(obs.(deleted := true), 1);
    var t1 := Step(Empty(persisted), NO_LIMITS, a);
    CreateRetains(Empty(persisted), obs, 0);
    DeleteForgets(t1, b.obs, 1);
    TwoSteps(Empty(persisted), NO_LIMITS, a, b);
    RunInvariant(persisted, NO_LIMITS, [a, b]);
    var t2 := Run(Empty(persisted), NO_LIMITS, [a, b]);
    assert t2.entries[0] == t1.entries[0];
    CountsExactIffFresh(t2, NO_LIMITS, obs, 2, false);
  }

  function Recreation(obs: Observation): seq<Op> {
    [Watch(obs, 0), Watch(obs.(deleted := true), 1), Watch(obs, 2)]
  }

  lemma RecreationSteps(obs: Observation, t: Timeline)
    ensures Run(t, NO_LIMITS, Recreation(obs))
            == Step(Run(t, NO_LIMITS, [Watch(obs, 0), Watch(obs.(deleted := true), 1)]), NO_LIMITS, Watch(obs, 2))
  {
    var ops, last := [Watch(obs, 0), Watch(obs.(deleted := true), 1)], [Watch(obs, 2)];
    R.RunConcat(t, NO_LIMITS, ops, last);
    assert last[1..] == [] && ops + last == Recreation(obs);
  }

  lemma Recreated(obs: Observation)
    requires !obs.deleted
    ensures var t := Run(Empty(true), NO_LIMITS, Recreation(obs)); Inv(t, NO_LIMITS) && t.mirror.Some? && !Counted(t)
  {
    CreateDeleteCreate(obs, true);
    RecreationSteps(obs, Empty(true));
    RunInvariant(true, NO_LIMITS, Recreation(obs));
  }

  /** A restart then shows: whatever order it visits the objects in, it brings back counts
      that the store did not have. */
  lemma RestartShows(obs: Observation, order: seq<string>)
    requires !obs.deleted
    ensures var t := Run(Empty(true), NO_LIMITS, Recreation(obs));
            t.mirror.Some? && (R.Visits(order, t.mirror.value.objects) ==>
                                 forall shift :: !R.Same(t, Prime(NO_LIMITS, t.mirror.value, order), shift))
  {
    Recreated(obs);
    var t := Run(Empty(true), NO_LIMITS, Recreation(obs));
    if R.Visits(order, t.mirror.value.objects) { R.PrimeSameIff(t, NO_LIMITS, order); }
  }

  /** The cached target is the newest retained revision of its object, and is unset
      exactly when none is retained. */
  lemma TargetIsNewest(t: Timeline, uid: string)
    requires Counted(t) && uid in t.objects
    ensures t.objects[uid].last.None? <==> forall i :: 0 <= i < |t.entries| ==> t.entries[i].uid != uid
    ensures t.objects[uid].last.Some? ==>
              exists i :: 0 <= i < |t.entries| && t.entries[i].uid == uid
                          && t.objects[uid].last == Some(t.entries[i].seqNo)
                          && forall j :: i < j < |t.entries| ==> t.entries[j].uid != uid
  {
    CountZero(t.entries, uid);
    if t.objects[uid].last.Some? { LastIsNewest(t.entries, uid); }
  }
}
