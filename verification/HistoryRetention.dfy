/** What eviction and coalescing may not change: how later observations are
    classified, which revisions exist, and how many transitions they stand for. */
module HistoryRetention {
  import opened Prelude
  import opened History
  import opened HistoryInvariants

  /* ---------- nothing is lost or counted twice ---------- */

  /** The transitions a list of revisions stands for. */
  function Transitions(e: seq<Revision>): nat {
    if e == [] then 0 else 1 + e[0].coalesced + Transitions(e[1..])
  }

  function Occurrences(e: seq<Revision>, seqNo: nat): nat {
    if e == [] then 0 else (if e[0].seqNo == seqNo then 1 else 0) + Occurrences(e[1..], seqNo)
  }

  lemma {:induction false} LedgerConcat(a: seq<Revision>, b: seq<Revision>, seqNo: nat)
    ensures Transitions(a + b) == Transitions(a) + Transitions(b)
    ensures Occurrences(a + b, seqNo) == Occurrences(a, seqNo) + Occurrences(b, seqNo)
  {
    if a == [] {
      assert a + b == b;
    } else {
      assert (a + b)[1..] == a[1..] + b;
      LedgerConcat(a[1..], b, seqNo);
    }
  }

  lemma LedgerSplit(e: seq<Revision>, i: nat, seqNo: nat)
    requires i < |e|
    ensures Transitions(e) == Transitions(e[..i] + e[i + 1..]) + 1 + e[i].coalesced
    ensures Occurrences(e, seqNo) == Occurrences(e[..i] + e[i + 1..], seqNo) + (if e[i].seqNo == seqNo then 1 else 0)
  {
    var a, r, b := e[..i], [e[i]], e[i + 1..];
    assert e == a + (r + b);
    LedgerConcat(a, r + b, seqNo);
    LedgerConcat(r, b, seqNo);
    LedgerConcat(a, b, seqNo);
  }

  /** How often a sequence occurs among the retained and the dropped revisions. */
  ghost function Held(t: Timeline, seqNo: nat): nat {
    Occurrences(t.entries, seqNo) + Occurrences(t.dropped, seqNo)
  }

  ghost function Stood(t: Timeline): nat {
    Transitions(t.entries) + Transitions(t.dropped)
  }

  /** Every sequence ever assigned is retained or dropped, exactly once, and the
      generation counts every transition either of them stands for. */
  ghost predicate Ledger(t: Timeline) {
    && t.generation == Stood(t)
    && forall k: nat :: Held(t, k) == if 1 <= k <= t.seqNo then 1 else 0
  }

  /** r continues t: what t had dropped is dropped unchanged, and the dropped list
      is what the eviction mark reports. */
  ghost predicate Continues(t: Timeline, r: Timeline) {
    && t.dropped <= r.dropped
    && (Ledger(t) ==> Ledger(r))
    && ((t.evicted <==> t.dropped != []) ==> (r.evicted <==> r.dropped != []))
  }

  lemma EvictHeld(t: Timeline, i: nat, k: nat)
    requires i < |t.entries|
    ensures Held(Evict(t, i), k) == Held(t, k) && Stood(Evict(t, i)) == Stood(t)
  {
    LedgerSplit(t.entries, i, k);
    LedgerConcat(t.dropped, [t.entries[i]], k);
  }

  lemma EvictContinues(t: Timeline, i: nat)
    requires i < |t.entries|
    ensures Continues(t, Evict(t, i))
  {
    EvictHeld(t, i, 0);
    forall k: nat ensures Held(Evict(t, i), k) == Held(t, k) { EvictHeld(t, i, k); }
  }

  lemma {:induction false} EnforceBoundsContinues(t: Timeline, lim: Limits)
    ensures Continues(t, EnforceBounds(t, lim))
    decreases |t.entries|
  {
    if |t.entries| > 0 && Over(t, lim) {
      EvictContinues(t, 0);
      EnforceBoundsContinues(Evict(t, 0), lim);
    }
  }

  lemma EnforcePerObjectContinues(t: Timeline, lim: Limits, uid: string)
    requires uid in t.objects
    ensures Continues(t, EnforcePerObject(t, lim, uid))
  {
    var i := FirstOf(t.entries, uid);
    if i < |t.entries| { EvictContinues(t, i); }
  }

  lemma RetainHeld(t: Timeline, draft: Revision, k: nat)
    requires draft.uid in t.objects && draft.coalesced == 0
    ensures Held(Retain(t, draft), k) == Held(t, k) + (if k == t.seqNo + 1 then 1 else 0)
    ensures Stood(Retain(t, draft)) == Stood(t) + 1
  {
    var rev := draft.(seqNo := t.seqNo + 1);
    LedgerConcat(t.entries, [rev], k);
  }

  lemma RetainContinues(t: Timeline, draft: Revision)
    requires draft.uid in t.objects && draft.coalesced == 0
    ensures Continues(t, Retain(t, draft))
  {
    RetainHeld(t, draft, 0);
    forall k: nat ensures Held(Retain(t, draft), k) == Held(t, k) + (if k == t.seqNo + 1 then 1 else 0) {
      RetainHeld(t, draft, k);
    }
  }

  lemma AppendContinues(t: Timeline, lim: Limits, draft: Revision)
    requires draft.uid in t.objects && draft.coalesced == 0
    ensures Continues(t, Append(t, lim, draft))
  {
    var t1 := Retain(t, draft);
    RetainContinues(t, draft);
    EnforcePerObjectContinues(t1, lim, draft.uid);
    EnforceBoundsContinues(EnforcePerObject(t1, lim, draft.uid), lim);
  }

  lemma FoldIntoHeld(t: Timeline, obs: Observation, now: int, i: nat, k: nat)
    requires obs.uid in t.objects && i < |t.entries|
    ensures Held(FoldInto(t, obs, now, i), k) == Held(t, k) && Stood(FoldInto(t, obs, now, i)) == Stood(t) + 1
  {
    var e := t.entries[i := Folded(t.entries[i], obs, now)];
    assert e[..i] == t.entries[..i] && e[i + 1..] == t.entries[i + 1..];
    LedgerSplit(t.entries, i, k);
    LedgerSplit(e, i, k);
  }

  lemma FoldIntoContinues(t: Timeline, obs: Observation, now: int, i: nat)
    requires obs.uid in t.objects && i < |t.entries|
    ensures Continues(t, FoldInto(t, obs, now, i))
  {
    FoldIntoHeld(t, obs, now, i, 0);
    forall k: nat ensures Held(FoldInto(t, obs, now, i), k) == Held(t, k) { FoldIntoHeld(t, obs, now, i, k); }
  }

  lemma DeleteObservedContinues(t: Timeline, lim: Limits, obs: Observation, now: int)
    ensures Continues(t, DeleteObserved(t, lim, obs, now))
  {
    if obs.uid in t.objects {
      var rev := RevisionOf(obs, Deleted, now, t.objects[obs.uid].rec.lastObservedAt, false).(manifest := None);
      AppendContinues(t, lim, rev);
      BookkeepingContinues(Append(t, lim, rev), DeleteObserved(t, lim, obs, now));
    }
  }

  /** Changes to classification state alone continue the timeline. */
  lemma BookkeepingContinues(t: Timeline, r: Timeline)
    requires r.entries == t.entries && r.dropped == t.dropped && r.seqNo == t.seqNo
    requires r.generation == t.generation && r.evicted == t.evicted
    ensures Continues(t, r)
  {
    assert forall k: nat :: Held(r, k) == Held(t, k);
    assert Stood(r) == Stood(t);
  }

  lemma ObserveNewContinues(t: Timeline, lim: Limits, obs: Observation, now: int, seed: bool)
    ensures Continues(t, ObserveNew(t, lim, obs, now, seed))
  {
    var rev := RevisionOf(obs, if seed then FirstObserved else Created, now, None, false);
    BookkeepingContinues(t, Admit(t, obs));
    AppendContinues(Admit(t, obs), lim, rev);
    BookkeepingContinues(Append(Admit(t, obs), lim, rev), ObserveNew(t, lim, obs, now, seed));
  }

  lemma ObserveRevisedContinues(t: Timeline, lim: Limits, obs: Observation, change: Change, now: int, seed: bool)
    requires obs.uid in t.objects
    ensures Continues(t, ObserveRevised(t, lim, obs, change, now, seed))
  {
    var rev := RevisionOf(obs, change, now, t.objects[obs.uid].rec.lastObservedAt, seed);
    AppendContinues(t, lim, rev);
    BookkeepingContinues(Append(t, lim, rev), ObserveRevised(t, lim, obs, change, now, seed));
  }

  lemma ObserveContinues(t: Timeline, lim: Limits, obs: Observation, now: int, seed: bool)
    ensures Continues(t, Observe(t, lim, obs, now, seed))
  {
    if obs.deleted {
      DeleteObservedContinues(t, lim, obs, now);
    } else if obs.uid !in t.objects {
      ObserveNewContinues(t, lim, obs, now, seed);
    } else {
      BookkeepingContinues(t, Touch(t, obs.uid, now));
      ObserveChangedContinues(t, lim, obs, now, seed);
    }
  }

  lemma ObserveChangedContinues(t: Timeline, lim: Limits, obs: Observation, now: int, seed: bool)
    requires obs.uid in t.objects
    ensures Continues(t, ObserveChanged(t, lim, obs, now, seed))
  {
    var target := CoalesceTarget(t, lim, obs.uid, now);
    if obs.specHash != t.objects[obs.uid].rec.specHash {
      ObserveRevisedContinues(t, lim, obs, SpecChanged, now, seed);
    } else if !seed && target.Some? {
      FoldIntoContinues(t, obs, now, target.value);
      EnforceBoundsContinues(FoldInto(t, obs, now, target.value), lim);
    } else {
      ObserveRevisedContinues(t, lim, obs, StatusTransition, now, seed);
    }
  }

  lemma {:induction false} DeleteAllContinues(t: Timeline, lim: Limits, gone: seq<string>, now: int)
    ensures Continues(t, DeleteAll(t, lim, gone, now))
    decreases |gone|
  {
    if gone != [] {
      if gone[0] in t.objects {
        var rev := Tombstone(t.objects[gone[0]].rec, gone[0], now);
        AppendContinues(t, lim, rev);
        BookkeepingContinues(Append(t, lim, rev), DeleteUnobserved(t, lim, gone[0], now));
      }
      DeleteAllContinues(DeleteUnobserved(t, lim, gone[0], now), lim, gone[1..], now);
    }
  }

  lemma {:induction false} ObserveAllContinues(t: Timeline, lim: Limits, obs: seq<Observation>, now: int)
    ensures Continues(t, ObserveAll(t, lim, obs, now))
    decreases |obs|
  {
    if obs != [] {
      ObserveContinues(t, lim, obs[0], now, true);
      ObserveAllContinues(Observe(t, lim, obs[0], now, true), lim, obs[1..], now);
    }
  }

  lemma {:induction false} RunContinues(t: Timeline, lim: Limits, ops: seq<Op>)
    ensures Continues(t, Run(t, lim, ops))
    decreases |ops|
  {
    if ops != [] {
      match ops[0] {
        case Watch(obs, now) => ObserveContinues(t, lim, obs, now, false);
        case Listing(scope, obs, now) =>
          var gone := Gone(t, scope, obs);
          DeleteAllContinues(t, lim, gone, now);
          ObserveAllContinues(DeleteAll(t, lim, gone, now), lim, obs, now);
      }
      RunContinues(Step(t, lim, ops[0]), lim, ops[1..]);
    }
  }

  lemma EmptyLedger(persisted: bool)
    ensures Ledger(Empty(persisted))
  {
    assert forall k: nat :: Held(Empty(persisted), k) == 0;
  }

  /** From any state whose ledger balances: after every run it still balances,
      the eviction mark says whether anything was dropped, and nothing dropped by
      then is rewritten by what follows. */
  lemma {:induction false} LedgerKept(t: Timeline, lim: Limits, before: seq<Op>, after: seq<Op>)
    requires Ledger(t) && (t.evicted <==> t.dropped != [])
    ensures Ledger(Run(t, lim, before))
    ensures Run(t, lim, before).evicted <==> Run(t, lim, before).dropped != []
    ensures Run(t, lim, before).dropped <= Run(Run(t, lim, before), lim, after).dropped
  {
    RunContinues(t, lim, before);
    RunContinues(Run(t, lim, before), lim, after);
  }

  /** Coalescing conserves transitions: over every run from an empty store the
      generation counts one per retained or dropped revision plus what was folded
      into it, and each sequence up to the current one exists exactly once. */
  lemma {:induction false} TransitionsConserved(persisted: bool, lim: Limits, ops: seq<Op>)
    ensures Ledger(Run(Empty(persisted), lim, ops))
    ensures Run(Empty(persisted), lim, ops).evicted <==> Run(Empty(persisted), lim, ops).dropped != []
  {
    EmptyLedger(persisted);
    LedgerKept(Empty(persisted), lim, ops, []);
  }

  /* ---------- classification ignores retention ---------- */

  /** The classification state two stores share, whatever they retain. */
  ghost predicate SameState(b: Timeline, u: Timeline) {
    && b.scopes == u.scopes
    && b.objects.Keys == u.objects.Keys
    && forall uid :: uid in b.objects ==> b.objects[uid].rec == u.objects[uid].rec
  }

  lemma EvictState(t: Timeline, i: nat)
    requires i < |t.entries|
    ensures SameState(t, Evict(t, i))
  {
  }

  lemma {:induction false} EnforceBoundsState(t: Timeline, lim: Limits)
    ensures SameState(t, EnforceBounds(t, lim))
    decreases |t.entries|
  {
    if |t.entries| > 0 && Over(t, lim) {
      EvictState(t, 0);
      EnforceBoundsState(Evict(t, 0), lim);
    }
  }

  lemma AppendState(t: Timeline, lim: Limits, draft: Revision)
    requires draft.uid in t.objects
    ensures SameState(t, Append(t, lim, draft))
  {
    var t1 := Retain(t, draft);
    var i := FirstOf(t1.entries, draft.uid);
    if i < |t1.entries| { EvictState(t1, i); }
    EnforceBoundsState(EnforcePerObject(t1, lim, draft.uid), lim);
  }

  /** What an observation leaves of the classification state, without retention. */
  function StateAfter(t: Timeline, obs: Observation, now: int): (map<string, ObjectRecord>, map<string, set<string>>) {
    var recs := map uid | uid in t.objects :: t.objects[uid].rec;
    if obs.deleted then
      if obs.uid in t.objects then (recs - {obs.uid}, Without(t.scopes, obs.uid)) else (recs, t.scopes)
    else
      var id := if obs.uid in t.objects then recs[obs.uid].id else obs.id;
      (recs[obs.uid := ObjectRecord(id, obs.specHash, obs.statusHash, Some(now))],
       if obs.uid in t.objects then t.scopes else Admit(t, obs).scopes)
  }

  ghost predicate HasState(r: Timeline, st: (map<string, ObjectRecord>, map<string, set<string>>)) {
    && r.scopes == st.1
    && r.objects.Keys == st.0.Keys
    && forall uid :: uid in r.objects ==> r.objects[uid].rec == st.0[uid]
  }

  lemma ObserveNewState(t: Timeline, lim: Limits, obs: Observation, now: int, seed: bool)
    requires obs.uid !in t.objects && !obs.deleted
    ensures HasState(ObserveNew(t, lim, obs, now, seed), StateAfter(t, obs, now))
  {
    AppendState(Admit(t, obs), lim, RevisionOf(obs, if seed then FirstObserved else Created, now, None, false));
  }

  lemma ObserveRevisedState(t: Timeline, lim: Limits, obs: Observation, change: Change, now: int, seed: bool)
    requires obs.uid in t.objects && !obs.deleted
    ensures HasState(ObserveRevised(t, lim, obs, change, now, seed), StateAfter(t, obs, now))
  {
    AppendState(t, lim, RevisionOf(obs, change, now, t.objects[obs.uid].rec.lastObservedAt, seed));
  }

  lemma ObserveChangedState(t: Timeline, lim: Limits, obs: Observation, now: int, seed: bool)
    requires obs.uid in t.objects && !obs.deleted
    ensures HasState(ObserveChanged(t, lim, obs, now, seed), StateAfter(t, obs, now))
  {
    var target := CoalesceTarget(t, lim, obs.uid, now);
    if obs.specHash != t.objects[obs.uid].rec.specHash {
      ObserveRevisedState(t, lim, obs, SpecChanged, now, seed);
    } else if !seed && target.Some? {
      EnforceBoundsState(FoldInto(t, obs, now, target.value), lim);
    } else {
      ObserveRevisedState(t, lim, obs, StatusTransition, now, seed);
    }
  }

  lemma DeleteObservedState(t: Timeline, lim: Limits, obs: Observation, now: int)
    requires obs.deleted
    ensures HasState(DeleteObserved(t, lim, obs, now), StateAfter(t, obs, now))
  {
    if obs.uid in t.objects {
      AppendState(t, lim,
                  RevisionOf(obs, Deleted, now, t.objects[obs.uid].rec.lastObservedAt, false).(manifest := None));
    }
  }

  lemma ObserveState(t: Timeline, lim: Limits, obs: Observation, now: int, seed: bool)
    ensures HasState(Observe(t, lim, obs, now, seed), StateAfter(t, obs, now))
  {
    if obs.deleted {
      DeleteObservedState(t, lim, obs, now);
    } else if obs.uid !in t.objects {
      ObserveNewState(t, lim, obs, now, seed);
    } else {
      ObserveChangedState(t, lim, obs, now, seed);
    }
  }

  lemma ObserveSameState(b: Timeline, u: Timeline, limB: Limits, limU: Limits, obs: Observation, now: int, seed: bool)
    requires SameState(b, u)
    ensures SameState(Observe(b, limB, obs, now, seed), Observe(u, limU, obs, now, seed))
  {
    ObserveState(b, limB, obs, now, seed);
    ObserveState(u, limU, obs, now, seed);
    assert (map uid | uid in b.objects :: b.objects[uid].rec) == (map uid | uid in u.objects :: u.objects[uid].rec);
  }

  lemma DeleteOneSameState(b: Timeline, u: Timeline, limB: Limits, limU: Limits, uid: string, now: int)
    requires SameState(b, u)
    ensures SameState(DeleteUnobserved(b, limB, uid, now), DeleteUnobserved(u, limU, uid, now))
  {
    if uid in b.objects {
      AppendState(b, limB, Tombstone(b.objects[uid].rec, uid, now));
      AppendState(u, limU, Tombstone(u.objects[uid].rec, uid, now));
    }
  }

  lemma {:induction false} DeleteAllSameState(b: Timeline, u: Timeline, limB: Limits, limU: Limits, gone: seq<string>,
                                              now: int)
    requires SameState(b, u)
    ensures SameState(DeleteAll(b, limB, gone, now), DeleteAll(u, limU, gone, now))
    decreases |gone|
  {
    if gone != [] {
      DeleteOneSameState(b, u, limB, limU, gone[0], now);
      DeleteAllSameState(DeleteUnobserved(b, limB, gone[0], now), DeleteUnobserved(u, limU, gone[0], now), limB, limU,
                         gone[1..], now);
    }
  }

  lemma {:induction false} ObserveAllSameState(b: Timeline, u: Timeline, limB: Limits, limU: Limits,
                                               obs: seq<Observation>, now: int)
    requires SameState(b, u)
    ensures SameState(ObserveAll(b, limB, obs, now), ObserveAll(u, limU, obs, now))
    decreases |obs|
  {
    if obs != [] {
      ObserveSameState(b, u, limB, limU, obs[0], now, true);
      ObserveAllSameState(Observe(b, limB, obs[0], now, true), Observe(u, limU, obs[0], now, true), limB, limU,
                          obs[1..], now);
    }
  }

  /** Neither the bounds nor the coalescing window ever changes how an object is
      classified: stores under any two limits share hashes, last-seen times, names
      and scope sets after the same operations. */
  lemma {:induction false} ClassificationIgnoresLimits(b: Timeline, u: Timeline, limB: Limits, limU: Limits,
                                                       ops: seq<Op>)
    requires SameState(b, u)
    ensures SameState(Run(b, limB, ops), Run(u, limU, ops))
    decreases |ops|
  {
    if ops != [] {
      match ops[0] {
        case Watch(obs, now) => ObserveSameState(b, u, limB, limU, obs, now, false);
        case Listing(scope, obs, now) =>
          var gone := Gone(b, scope, obs);
          DeleteAllSameState(b, u, limB, limU, gone, now);
          ObserveAllSameState(DeleteAll(b, limB, gone, now), DeleteAll(u, limU, gone, now), limB, limU, obs, now);
      }
      ClassificationIgnoresLimits(Step(b, limB, ops[0]), Step(u, limU, ops[0]), limB, limU, ops[1..]);
    }
  }

  /* ---------- so does the count of transitions ---------- */

  lemma {:induction false} EnforceBoundsGeneration(t: Timeline, lim: Limits)
    ensures EnforceBounds(t, lim).generation == t.generation
    decreases |t.entries|
  {
    if |t.entries| > 0 && Over(t, lim) { EnforceBoundsGeneration(Evict(t, 0), lim); }
  }

  lemma AppendGeneration(t: Timeline, lim: Limits, draft: Revision)
    requires draft.uid in t.objects
    ensures Append(t, lim, draft).generation == t.generation + 1
  {
    EnforceBoundsGeneration(EnforcePerObject(Retain(t, draft), lim, draft.uid), lim);
  }

  /** One transition, unless the observation is of nothing known or of nothing new. */
  function Noted(t: Timeline, obs: Observation): nat {
    if obs.deleted then (if obs.uid in t.objects then 1 else 0)
    else if obs.uid in t.objects && obs.specHash == t.objects[obs.uid].rec.specHash
            && obs.statusHash == t.objects[obs.uid].rec.statusHash then 0
    else 1
  }

  lemma ObserveGeneration(t: Timeline, lim: Limits, obs: Observation, now: int, seed: bool)
    ensures Observe(t, lim, obs, now, seed).generation == t.generation + Noted(t, obs)
  {
    if obs.deleted {
      if obs.uid in t.objects {
        AppendGeneration(t, lim,
                         RevisionOf(obs, Deleted, now, t.objects[obs.uid].rec.lastObservedAt,
                                    false).(manifest := None));
      }
    } else if obs.uid !in t.objects {
      AppendGeneration(Admit(t, obs), lim, RevisionOf(obs, if seed then FirstObserved else Created, now, None, false));
    } else {
      ChangeGeneration(t, lim, obs, now, seed);
    }
  }

  /** Folded or retained, a change counts once. */
  lemma ChangeGeneration(t: Timeline, lim: Limits, obs: Observation, now: int, seed: bool)
    requires obs.uid in t.objects
    ensures ObserveChanged(t, lim, obs, now, seed).generation == t.generation + 1
  {
    var target := CoalesceTarget(t, lim, obs.uid, now);
    RevisedGeneration(t, lim, obs, SpecChanged, now, seed);
    RevisedGeneration(t, lim, obs, StatusTransition, now, seed);
    if target.Some? { EnforceBoundsGeneration(FoldInto(t, obs, now, target.value), lim); }
  }

  lemma RevisedGeneration(t: Timeline, lim: Limits, obs: Observation, change: Change, now: int, seed: bool)
    requires obs.uid in t.objects
    ensures ObserveRevised(t, lim, obs, change, now, seed).generation == t.generation + 1
  {
    AppendGeneration(t, lim, RevisionOf(obs, change, now, t.objects[obs.uid].rec.lastObservedAt, seed));
  }

  ghost predicate SameGap(b: Timeline, u: Timeline, b1: Timeline, u1: Timeline) {
    SameState(b1, u1) && b1.generation - b.generation == u1.generation - u.generation
  }

  lemma {:induction false} DeleteAllGap(b: Timeline, u: Timeline, limB: Limits, limU: Limits, gone: seq<string>,
                                        now: int)
    requires SameState(b, u)
    ensures SameGap(b, u, DeleteAll(b, limB, gone, now), DeleteAll(u, limU, gone, now))
    decreases |gone|
  {
    if gone != [] {
      if gone[0] in b.objects {
        AppendGeneration(b, limB, Tombstone(b.objects[gone[0]].rec, gone[0], now));
        AppendGeneration(u, limU, Tombstone(u.objects[gone[0]].rec, gone[0], now));
      }
      DeleteOneSameState(b, u, limB, limU, gone[0], now);
      DeleteAllGap(DeleteUnobserved(b, limB, gone[0], now), DeleteUnobserved(u, limU, gone[0], now), limB, limU,
                   gone[1..], now);
    }
  }

  lemma {:induction false} ObserveAllGap(b: Timeline, u: Timeline, limB: Limits, limU: Limits, obs: seq<Observation>,
                                         now: int)
    requires SameState(b, u)
    ensures SameGap(b, u, ObserveAll(b, limB, obs, now), ObserveAll(u, limU, obs, now))
    decreases |obs|
  {
    if obs != [] {
      ObserveGeneration(b, limB, obs[0], now, true);
      ObserveGeneration(u, limU, obs[0], now, true);
      ObserveSameState(b, u, limB, limU, obs[0], now, true);
      ObserveAllGap(Observe(b, limB, obs[0], now, true), Observe(u, limU, obs[0], now, true), limB, limU, obs[1..],
                    now);
    }
  }

  lemma StepGap(b: Timeline, u: Timeline, limB: Limits, limU: Limits, op: Op)
    requires SameState(b, u)
    ensures SameGap(b, u, Step(b, limB, op), Step(u, limU, op))
  {
    match op {
      case Watch(obs, now) =>
        ObserveGeneration(b, limB, obs, now, false);
        ObserveGeneration(u, limU, obs, now, false);
        ObserveSameState(b, u, limB, limU, obs, now, false);
      case Listing(scope, obs, now) =>
        var gone := Gone(b, scope, obs);
        DeleteAllGap(b, u, limB, limU, gone, now);
        ObserveAllGap(DeleteAll(b, limB, gone, now), DeleteAll(u, limU, gone, now), limB, limU, obs, now);
    }
  }

  /** Coalescing or not, and whatever was evicted, stores under any two limits count the same
      transitions: where one folds into a revision, another retains a new one. */
  lemma {:induction false} GenerationIgnoresLimits(b: Timeline, u: Timeline, limB: Limits, limU: Limits, ops: seq<Op>)
    requires SameState(b, u)
    ensures SameGap(b, u, Run(b, limB, ops), Run(u, limU, ops))
    decreases |ops|
  {
    if ops != [] {
      StepGap(b, u, limB, limU, ops[0]);
      GenerationIgnoresLimits(Step(b, limB, ops[0]), Step(u, limU, ops[0]), limB, limU, ops[1..]);
    }
  }

  /* ---------- the bounded timeline is a subsequence of the unbounded one ---------- */

  ghost predicate Unbounded(lim: Limits) {
    lim.perObject <= 0 && lim.maxRevisions <= 0 && lim.maxBytes <= 0 && lim.coalesceWindow <= 0
  }

  ghost predicate IsSubsequence<T>(a: seq<T>, b: seq<T>)
    decreases |b|
  {
    a == [] || (b != [] && ((a[0] == b[0] && IsSubsequence(a[1..], b[1..])) || IsSubsequence(a, b[1..])))
  }

  lemma {:induction false} IncreasingSubsequence(a: seq<Revision>, b: seq<Revision>)
    requires Increasing(a) && Increasing(b)
    requires forall r :: r in a ==> r in b
    ensures IsSubsequence(a, b)
    decreases |b|
  {
    if a != [] {
      assert a[0] in b;
      if a[0] == b[0] {
        forall r | r in a[1..] ensures r in b[1..] {
          assert r in b;
        }
        IncreasingSubsequence(a[1..], b[1..]);
      } else {
        forall r | r in a ensures r in b[1..] {
          assert r in b;
          assert a[0] in b[1..];
          assert a[0].seqNo <= r.seqNo;
        }
        IncreasingSubsequence(a, b[1..]);
      }
    }
  }

  /** b retained part of what u retained, and dropped the rest. */
  ghost predicate Tracks(b: Timeline, u: Timeline) {
    && SameState(b, u)
    && b.seqNo == u.seqNo
    && multiset(u.entries) == multiset(b.entries) + multiset(b.dropped)
  }

  lemma EvictTracks(b: Timeline, u: Timeline, i: nat)
    requires Tracks(b, u) && i < |b.entries|
    ensures Tracks(Evict(b, i), u)
  {
    var e := b.entries;
    assert e == e[..i] + ([e[i]] + e[i + 1..]);
  }

  lemma {:induction false} EnforceBoundsTracks(b: Timeline, u: Timeline, lim: Limits)
    requires Tracks(b, u)
    ensures Tracks(EnforceBounds(b, lim), u)
    decreases |b.entries|
  {
    if |b.entries| > 0 && Over(b, lim) {
      EvictTracks(b, u, 0);
      EnforceBoundsTracks(Evict(b, 0), u, lim);
    }
  }

  /** With no bound set, appending only appends. */
  lemma UnboundedAppend(u: Timeline, lim: Limits, draft: Revision)
    requires draft.uid in u.objects && Unbounded(lim)
    ensures Append(u, lim, draft) == Retain(u, draft)
  {
    assert EnforcePerObject(Retain(u, draft), lim, draft.uid) == Retain(u, draft);
    assert !Over(Retain(u, draft), lim);
  }

  lemma RetainTracks(b: Timeline, u: Timeline, draft: Revision)
    requires Tracks(b, u) && draft.uid in b.objects
    ensures Tracks(Retain(b, draft), Retain(u, draft))
  {
  }

  lemma AppendTracks(b: Timeline, u: Timeline, lim: Limits, limU: Limits, draft: Revision)
    requires Tracks(b, u) && draft.uid in b.objects && Unbounded(limU)
    ensures Tracks(Append(b, lim, draft), Append(u, limU, draft))
  {
    var b1, u1 := Retain(b, draft), Retain(u, draft);
    RetainTracks(b, u, draft);
    var i := FirstOf(b1.entries, draft.uid);
    if i < |b1.entries| { EvictTracks(b1, u1, i); }
    EnforceBoundsTracks(EnforcePerObject(b1, lim, draft.uid), u1, lim);
    UnboundedAppend(u, limU, draft);
  }

  /** Bookkeeping on both sides keeps what the timelines share. */
  lemma BookkeepingTracks(b: Timeline, u: Timeline, b1: Timeline, u1: Timeline)
    requires Tracks(b, u) && SameState(b1, u1)
    requires b1.entries == b.entries && b1.dropped == b.dropped && b1.seqNo == b.seqNo
    requires u1.entries == u.entries && u1.seqNo == u.seqNo
    ensures Tracks(b1, u1)
  {
  }

  lemma AdmitTracks(b: Timeline, u: Timeline, obs: Observation)
    requires Tracks(b, u) && obs.uid !in b.objects
    ensures Tracks(Admit(b, obs), Admit(u, obs))
  {
    BookkeepingTracks(b, u, Admit(b, obs), Admit(u, obs));
  }

  lemma ObserveNewTracks(b: Timeline, u: Timeline, lim: Limits, limU: Limits, obs: Observation, now: int, seed: bool)
    requires Tracks(b, u) && obs.uid !in b.objects && !obs.deleted && Unbounded(limU)
    requires SameState(ObserveNew(b, lim, obs, now, seed), ObserveNew(u, limU, obs, now, seed))
    ensures Tracks(ObserveNew(b, lim, obs, now, seed), ObserveNew(u, limU, obs, now, seed))
  {
    var rev := RevisionOf(obs, if seed then FirstObserved else Created, now, None, false);
    AdmitTracks(b, u, obs);
    AppendTracks(Admit(b, obs), Admit(u, obs), lim, limU, rev);
    BookkeepingTracks(Append(Admit(b, obs), lim, rev), Append(Admit(u, obs), limU, rev),
                      ObserveNew(b, lim, obs, now, seed), ObserveNew(u, limU, obs, now, seed));
  }

  lemma ObserveRevisedTracks(b: Timeline, u: Timeline, lim: Limits, limU: Limits, obs: Observation, change: Change,
                             now: int, seed: bool)
    requires Tracks(b, u) && obs.uid in b.objects && Unbounded(limU)
    requires SameState(ObserveRevised(b, lim, obs, change, now, seed), ObserveRevised(u, limU, obs, change, now, seed))
    ensures Tracks(ObserveRevised(b, lim, obs, change, now, seed), ObserveRevised(u, limU, obs, change, now, seed))
  {
    var rev := RevisionOf(obs, change, now, b.objects[obs.uid].rec.lastObservedAt, seed);
    AppendTracks(b, u, lim, limU, rev);
    BookkeepingTracks(Append(b, lim, rev), Append(u, limU, rev),
                      ObserveRevised(b, lim, obs, change, now, seed), ObserveRevised(u, limU, obs, change, now, seed));
  }

  lemma DeleteObservedTracks(b: Timeline, u: Timeline, lim: Limits, limU: Limits, obs: Observation, now: int)
    requires Tracks(b, u) && Unbounded(limU)
    requires SameState(DeleteObserved(b, lim, obs, now), DeleteObserved(u, limU, obs, now))
    ensures Tracks(DeleteObserved(b, lim, obs, now), DeleteObserved(u, limU, obs, now))
  {
    if obs.uid in b.objects {
      var rev := RevisionOf(obs, Deleted, now, b.objects[obs.uid].rec.lastObservedAt, false).(manifest := None);
      AppendTracks(b, u, lim, limU, rev);
      BookkeepingTracks(Append(b, lim, rev), Append(u, limU, rev),
                        DeleteObserved(b, lim, obs, now), DeleteObserved(u, limU, obs, now));
    }
  }

  lemma ObserveTracks(b: Timeline, u: Timeline, lim: Limits, limU: Limits, obs: Observation, now: int, seed: bool)
    requires Tracks(b, u) && lim.coalesceWindow <= 0 && Unbounded(limU)
    ensures Tracks(Observe(b, lim, obs, now, seed), Observe(u, limU, obs, now, seed))
  {
    ObserveSameState(b, u, lim, limU, obs, now, seed);
    if obs.deleted {
      DeleteObservedTracks(b, u, lim, limU, obs, now);
    } else if obs.uid !in b.objects {
      ObserveNewTracks(b, u, lim, limU, obs, now, seed);
    } else {
      ObserveLiveTracks(b, u, lim, limU, obs, now, seed);
    }
  }

  lemma ObserveLiveTracks(b: Timeline, u: Timeline, lim: Limits, limU: Limits, obs: Observation, now: int, seed: bool)
    requires Tracks(b, u) && lim.coalesceWindow <= 0 && Unbounded(limU) && !obs.deleted && obs.uid in b.objects
    requires SameState(Observe(b, lim, obs, now, seed), Observe(u, limU, obs, now, seed))
    ensures Tracks(Observe(b, lim, obs, now, seed), Observe(u, limU, obs, now, seed))
  {
    var rec := b.objects[obs.uid].rec;
    assert u.objects[obs.uid].rec == rec;
    ObservedAs(b, lim, obs, now, seed);
    ObservedAs(u, limU, obs, now, seed);
    if obs.specHash == rec.specHash && obs.statusHash == rec.statusHash {
      BookkeepingTracks(b, u, Touch(b, obs.uid, now), Touch(u, obs.uid, now));
    } else {
      var change := if obs.specHash != rec.specHash then SpecChanged else StatusTransition;
      ObserveRevisedTracks(b, u, lim, limU, obs, change, now, seed);
    }
  }

  /** Without coalescing a live object is touched or gains a revision. */
  lemma ObservedAs(t: Timeline, lim: Limits, obs: Observation, now: int, seed: bool)
    requires lim.coalesceWindow <= 0 && !obs.deleted && obs.uid in t.objects
    ensures var rec := t.objects[obs.uid].rec;
            Observe(t, lim, obs, now, seed)
            == if obs.specHash == rec.specHash && obs.statusHash == rec.statusHash then Touch(t, obs.uid, now)
               else ObserveRevised(t, lim, obs, if obs.specHash != rec.specHash then SpecChanged else StatusTransition,
                                   now, seed)
  {
  }

  lemma {:induction false} DeleteAllTracks(b: Timeline, u: Timeline, lim: Limits, limU: Limits, gone: seq<string>,
                                           now: int)
    requires Tracks(b, u) && lim.coalesceWindow <= 0 && Unbounded(limU)
    ensures Tracks(DeleteAll(b, lim, gone, now), DeleteAll(u, limU, gone, now))
    decreases |gone|
  {
    if gone != [] {
      if gone[0] in b.objects {
        AppendTracks(b, u, lim, limU, Tombstone(b.objects[gone[0]].rec, gone[0], now));
      }
      DeleteAllTracks(DeleteUnobserved(b, lim, gone[0], now), DeleteUnobserved(u, limU, gone[0], now), lim, limU,
                      gone[1..], now);
    }
  }

  lemma {:induction false} ObserveAllTracks(b: Timeline, u: Timeline, lim: Limits, limU: Limits, obs: seq<Observation>,
                                            now: int)
    requires Tracks(b, u) && lim.coalesceWindow <= 0 && Unbounded(limU)
    ensures Tracks(ObserveAll(b, lim, obs, now), ObserveAll(u, limU, obs, now))
    decreases |obs|
  {
    if obs != [] {
      ObserveTracks(b, u, lim, limU, obs[0], now, true);
      ObserveAllTracks(Observe(b, lim, obs[0], now, true), Observe(u, limU, obs[0], now, true), lim, limU, obs[1..],
                       now);
    }
  }

  lemma {:induction false} RunTracks(b: Timeline, u: Timeline, lim: Limits, limU: Limits, ops: seq<Op>)
    requires Tracks(b, u) && lim.coalesceWindow <= 0 && Unbounded(limU)
    ensures Tracks(Run(b, lim, ops), Run(u, limU, ops))
    decreases |ops|
  {
    if ops != [] {
      match ops[0] {
        case Watch(obs, now) => ObserveTracks(b, u, lim, limU, obs, now, false);
        case Listing(scope, obs, now) =>
          var gone := Gone(b, scope, obs);
          DeleteAllTracks(b, u, lim, limU, gone, now);
          ObserveAllTracks(DeleteAll(b, lim, gone, now), DeleteAll(u, limU, gone, now), lim, limU, obs, now);
      }
      RunTracks(Step(b, lim, ops[0]), Step(u, limU, ops[0]), lim, limU, ops[1..]);
    }
  }

  /** Without coalescing, a bounded store's timeline is a subsequence of the
      unbounded store's: every revision it retains is there whole, with the same
      sequence, classification, previous time and name, and what is missing is
      exactly what it dropped. */
  lemma {:induction false} RetentionIsSubsequence(persisted: bool, lim: Limits, limU: Limits, ops: seq<Op>)
    requires lim.coalesceWindow <= 0 && Unbounded(limU)
    ensures var b, u := Run(Empty(persisted), lim, ops), Run(Empty(persisted), limU, ops);
            && SameState(b, u)
            && b.seqNo == u.seqNo
            && IsSubsequence(b.entries, u.entries)
            && multiset(u.entries) == multiset(b.entries) + multiset(b.dropped)
  {
    var e := Empty(persisted);
    RunTracks(e, e, lim, limU, ops);
    RunInvariant(persisted, lim, ops);
    RunInvariant(persisted, limU, ops);
    var b, u := Run(e, lim, ops), Run(e, limU, ops);
    forall r | r in b.entries ensures r in u.entries {
      assert multiset(b.entries)[r] > 0;
      assert multiset(u.entries)[r] > 0;
    }
    IncreasingSubsequence(b.entries, u.entries);
  }
}
