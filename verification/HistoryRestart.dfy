/** A restart from the persister is invisible: the store primed from the mirror
    continues exactly as the store that wrote it would have. */
module HistoryRestart {
  import opened Prelude
  import opened History
  import opened HistoryInvariants

  /** u has everything t has, except that its generation counter is `shift`
      ahead and it may keep different empty scope sets. */
  ghost predicate Same(t: Timeline, u: Timeline, shift: int) {
    && u == t.(generation := u.generation, dropped := u.dropped, scopes := u.scopes)
    && u.generation == t.generation + shift
    && forall s :: ScopeSet(u.scopes, s) == ScopeSet(t.scopes, s)
  }

  /* ---------- reloading the mirror ---------- */

  lemma {:induction false} ListBelowAgree(a: map<nat, Revision>, b: map<nat, Revision>, bound: nat)
    requires forall k: nat :: k < bound ==> (k in a <==> k in b) && (k in a ==> a[k] == b[k])
    ensures ListBelow(a, bound) == ListBelow(b, bound)
  {
    if bound > 0 { ListBelowAgree(a, b, bound - 1); }
  }

  lemma {:induction false} ListBelowGap(m: map<nat, Revision>, from: nat, to: nat)
    requires from <= to && forall k :: from <= k < to ==> k !in m
    ensures ListBelow(m, to) == ListBelow(m, from)
  {
    if from < to { ListBelowGap(m, from, to - 1); }
  }

  /** Listing what was persisted by sequence returns the entries in order. */
  lemma {:induction false} ListBelowBySeq(e: seq<Revision>, bound: nat)
    requires Increasing(e) && bound > 0 && UpTo(e, bound - 1)
    ensures ListBelow(BySeq(e), bound) == e
    decreases |e|
  {
    if e == [] {
      ListBelowGap(BySeq(e), 0, bound);
    } else {
      var n := |e| - 1;
      var before, k := BySeq(e[..n]), e[n].seqNo;
      BySeqKeys(e[..n], k);
      if k == 0 {
        assert e[..n] == [];
      } else {
        ListBelowBySeq(e[..n], k);
      }
      assert BySeq(e) == before[k := e[n]];
      ListBelowAgree(BySeq(e), before, k);
      ListBelowGap(BySeq(e), k + 1, bound);
      assert e == e[..n] + [e[n]];
    }
  }

  lemma ScopesOfSets(objects: map<string, ObjectRecord>, s: string)
    ensures ScopeSet(ScopesOf(objects), s) == set uid | uid in objects && objects[uid].id.scope == s
  {
    if s !in ScopeNames(objects) {
      assert forall uid :: uid in objects ==> objects[uid].id.scope in ScopeNames(objects);
    }
  }

  lemma RebuiltObjects(t: Timeline, c: Contents)
    requires Counted(t) && MirrorsObjects(c, t) && Load(c) == t.entries
    ensures Rebuilt(c).objects == t.objects
  {
    var r := Rebuilt(c);
    assert r.objects.Keys == t.objects.Keys;
    forall uid | uid in t.objects ensures r.objects[uid] == t.objects[uid] {
      assert t.objects[uid] == ObjectState(t.objects[uid].rec, t.objects[uid].count, t.objects[uid].last);
    }
  }

  lemma RebuiltSame(t: Timeline, lim: Limits)
    requires Inv(t, lim) && Counted(t) && t.mirror.Some?
    ensures Same(t, Rebuilt(t.mirror.value), t.seqNo - t.generation)
  {
    ListBelowBySeq(t.entries, t.seqNo + 1);
    RebuiltObjects(t, t.mirror.value);
    forall s ensures ScopeSet(Rebuilt(t.mirror.value).scopes, s) == ScopeSet(t.scopes, s) {
      RebuiltScope(t, t.mirror.value, s);
    }
  }

  lemma RebuiltScope(t: Timeline, c: Contents, s: string)
    requires Scoped(t) && MirrorsObjects(c, t)
    ensures ScopeSet(Rebuilt(c).scopes, s) == ScopeSet(t.scopes, s)
  {
    ScopesOfSets(c.objects, s);
    forall uid ensures uid in ScopeSet(t.scopes, s) <==> uid in c.objects && c.objects[uid].id.scope == s {
      assert uid in ScopeSet(t.scopes, s) <==> uid in t.objects && t.objects[uid].rec.id.scope == s;
    }
  }

  ghost predicate WithinCap(t: Timeline, lim: Limits, uids: seq<string>) {
    lim.perObject > 0 ==> forall uid :: uid in uids ==> CountOf(t.entries, uid) <= lim.perObject
  }

  lemma {:induction false} EnforceEachIdle(t: Timeline, lim: Limits, uids: seq<string>)
    requires Counted(t) && WithinCap(t, lim, uids)
    requires forall uid :: uid in uids ==> uid in t.objects
    ensures EnforceEach(t, lim, uids) == t
    decreases |uids|
  {
    if uids != [] {
      assert uids[0] in t.objects;
      assert lim.perObject > 0 ==> CountOf(t.entries, uids[0]) <= lim.perObject;
      EnforceEachIdle(t, lim, uids[1..]);
    }
  }

  /** Priming from the mirror under the limits the store ran with gives back its
      entries, objects with counts and targets, scope sets, byte total, sequence
      and eviction mark, whatever order the objects are visited in; the
      generation resumes at the sequence. */
  lemma PrimeSame(t: Timeline, lim: Limits, order: seq<string>)
    requires Inv(t, lim) && Counted(t) && WithinCap(t, lim, order) && t.mirror.Some?
    requires forall uid :: uid in order ==> uid in t.mirror.value.objects
    ensures Same(t, Prime(lim, t.mirror.value, order), t.seqNo - t.generation)
  {
    RebuiltSame(t, lim);
    EnforceEachIdle(Rebuilt(t.mirror.value), lim, order);
  }

  /** The primed store satisfies every invariant again, so restarts repeat. */
  lemma SameKeeps(t: Timeline, u: Timeline, shift: int, lim: Limits)
    requires Same(t, u, shift) && Inv(t, lim)
    ensures Inv(u, lim) && (Counted(t) <==> Counted(u)) && (Within(t, lim) <==> Within(u, lim))
  {
    forall s, uid
      ensures uid in ScopeSet(u.scopes, s) <==> uid in u.objects && u.objects[uid].rec.id.scope == s
    {
      assert ScopeSet(u.scopes, s) == ScopeSet(t.scopes, s);
    }
    assert forall uid :: uid in t.objects ==> (CountedAt(t, uid) <==> CountedAt(u, uid));
  }

  /* ---------- priming any well-kept contents ---------- */

  /** What the persister's own mutations maintain: revisions under their sequence. */
  ghost predicate WellKept(c: Contents) {
    forall k :: k in c.revisions ==> c.revisions[k].seqNo == k && k <= c.seqNo
  }

  lemma {:induction false} ListBelowOrdered(c: Contents, bound: nat)
    requires WellKept(c)
    ensures var e := ListBelow(c.revisions, bound);
            Increasing(e) && forall i :: 0 <= i < |e| ==> e[i].seqNo < bound
  {
    if bound > 0 { ListBelowOrdered(c, bound - 1); }
  }

  lemma {:induction false} ListBelowKeyed(c: Contents, bound: nat)
    requires WellKept(c)
    ensures BySeq(ListBelow(c.revisions, bound)) == map k | k in c.revisions && k < bound :: c.revisions[k]
  {
    if bound > 0 {
      ListBelowKeyed(c, bound - 1);
      var before, e := ListBelow(c.revisions, bound - 1), ListBelow(c.revisions, bound);
      if bound - 1 in c.revisions {
        assert e[..|e| - 1] == before;
      } else {
        assert e == before;
      }
    }
  }

  lemma RebuiltCore(c: Contents)
    requires WellKept(c)
    ensures Core(Rebuilt(c))
  {
    ListBelowOrdered(c, c.seqNo + 1);
    ListBelowKeyed(c, c.seqNo + 1);
    assert (map k | k in c.revisions && k < c.seqNo + 1 :: c.revisions[k]) == c.revisions;
  }

  lemma {:induction false} EnforceEachKeeps(t: Timeline, lim: Limits, uids: seq<string>)
    requires Core(t) && Counted(t) && forall uid :: uid in uids ==> uid in t.objects
    ensures var r := EnforceEach(t, lim, uids); Core(r) && Counted(r) && SameClassification(t, r)
    decreases |uids|
  {
    if uids != [] {
      assert uids[0] in t.objects;
      EnforcePerObjectCore(t, lim, uids[0]);
      CountZero(t.entries, uids[0]);
      var i := FirstOf(t.entries, uids[0]);
      if i < |t.entries| { EvictCounted(t, i); }
      EnforceEachKeeps(EnforcePerObject(t, lim, uids[0]), lim, uids[1..]);
    }
  }

  /** Whatever limits the contents were written under, the primed store satisfies the
      global bounds of the new ones and every other invariant, with exact counts. */
  lemma PrimeInv(lim: Limits, c: Contents, order: seq<string>)
    requires WellKept(c) && forall uid :: uid in order ==> uid in c.objects
    ensures Inv(Prime(lim, c, order), lim) && Counted(Prime(lim, c, order))
  {
    var t := Rebuilt(c);
    RebuiltCore(c);
    EnforceEachKeeps(t, lim, order);
    var t1 := EnforceEach(t, lim, order);
    SameClassificationKeeps(t, t1);
    EnforceBoundsCore(t1, lim);
    CountedIsParted(t1);
    EnforceBoundsParted(t1, lim, {});
    CountedIsParted(EnforceBounds(t1, lim));
    SameClassificationKeeps(t1, EnforceBounds(t1, lim));
  }

  lemma {:induction false} EnforceEachClass(t: Timeline, lim: Limits, uids: seq<string>)
    requires Core(t) && forall uid :: uid in uids ==> uid in t.objects
    ensures Core(EnforceEach(t, lim, uids)) && SameClassification(t, EnforceEach(t, lim, uids))
    decreases |uids|
  {
    if uids != [] {
      assert uids[0] in t.objects;
      EnforcePerObjectCore(t, lim, uids[0]);
      EnforceEachClass(EnforcePerObject(t, lim, uids[0]), lim, uids[1..]);
    }
  }

  /** Priming evicts from the mirror and leaves its objects. */
  lemma PrimeMirror(lim: Limits, c: Contents, order: seq<string>)
    requires WellKept(c) && forall uid :: uid in order ==> uid in c.objects
    ensures var r := Prime(lim, c, order);
            r.mirror.Some? && r.mirror.value.objects == c.objects && MirrorsObjects(c, r)
  {
    var t := Rebuilt(c);
    RebuiltCore(c);
    EnforceEachClass(t, lim, order);
    EnforceBoundsCore(EnforceEach(t, lim, order), lim);
  }

  /** The per-object pass evicts exactly one revision of each object over the cap. */
  lemma {:induction false} PassEvictsOnePerObject(t: Timeline, lim: Limits, uids: seq<string>, uid: string)
    requires Core(t) && Counted(t) && lim.perObject > 0
    requires forall u :: u in uids ==> u in t.objects
    requires forall i, j :: 0 <= i < j < |uids| ==> uids[i] != uids[j]
    ensures CountOf(EnforceEach(t, lim, uids).entries, uid) ==
              CountOf(t.entries, uid) - (if uid in uids && CountOf(t.entries, uid) > lim.perObject then 1 else 0)
    decreases |uids|
  {
    if uids != [] {
      assert uids[0] in t.objects;
      var i, t1 := FirstOf(t.entries, uids[0]), EnforcePerObject(t, lim, uids[0]);
      EnforcePerObjectCore(t, lim, uids[0]);
      CountZero(t.entries, uids[0]);
      if i < |t.entries| {
        EvictCounted(t, i);
        EvictCapped(t, i, uid);
      }
      PassEvictsOnePerObject(t1, lim, uids[1..], uid);
    }
  }

  lemma {:induction false} PassShrinks(t: Timeline, lim: Limits, uids: seq<string>)
    requires forall uid :: uid in uids ==> uid in t.objects
    ensures |EnforceEach(t, lim, uids).entries| <= |t.entries| && EnforceEach(t, lim, uids).totalBytes <= t.totalBytes
    decreases |uids|
  {
    if uids != [] {
      assert uids[0] in t.objects;
      PassShrinks(EnforcePerObject(t, lim, uids[0]), lim, uids[1..]);
    }
  }

  /** How many of the oldest revisions the global bounds take. */
  ghost function Trimmed(t: Timeline, lim: Limits): (k: nat)
    ensures k <= |t.entries|
    decreases |t.entries|
  {
    if |t.entries| > 0 && Over(t, lim) then 1 + Trimmed(Evict(t, 0), lim) else 0
  }

  lemma {:induction false} BoundsTrim(t: Timeline, lim: Limits)
    ensures EnforceBounds(t, lim).entries == t.entries[Trimmed(t, lim)..]
    decreases |t.entries|
  {
    if |t.entries| > 0 && Over(t, lim) {
      var t1 := Evict(t, 0);
      assert t1.entries == t.entries[1..];
      BoundsTrim(t1, lim);
      assert t.entries[1..][Trimmed(t1, lim)..] == t.entries[1 + Trimmed(t1, lim)..];
    } else {
      assert t.entries[0..] == t.entries;
    }
  }

  lemma OverIsAll(t: Timeline, lim: Limits)
    requires Core(t)
    ensures Over(t, lim) == OverAll(t.entries[0..], lim)
  {
    assert t.entries[0..] == t.entries;
  }

  /** They take no more than they must: any fewer would leave too much. */
  lemma {:induction false} TrimmedLeast(t: Timeline, lim: Limits, k: nat)
    requires Core(t) && k <= Trimmed(t, lim)
    ensures if k < Trimmed(t, lim) then OverAll(t.entries[k..], lim)
            else !OverAll(t.entries[k..], lim) || k == |t.entries|
    decreases k
  {
    if k == 0 {
      OverIsAll(t, lim);
    } else {
      EvictCore(t, 0);
      TrimmedLeast(Evict(t, 0), lim, k - 1);
      TrimmedNext(t, lim, k);
    }
  }

  lemma TrimmedNext(t: Timeline, lim: Limits, k: nat)
    requires 0 < k <= Trimmed(t, lim)
    ensures Trimmed(Evict(t, 0), lim) == Trimmed(t, lim) - 1 && Evict(t, 0).entries[k - 1..] == t.entries[k..]
  {
    DropFirst(t.entries, k);
  }

  lemma DropFirst<T>(s: seq<T>, k: nat)
    requires 0 < k <= |s|
    ensures (s[..0] + s[1..])[k - 1..] == s[k..]
  {
  }

  predicate OverAll(entries: seq<Revision>, lim: Limits) {
    || (lim.maxRevisions > 0 && |entries| > lim.maxRevisions)
    || (lim.maxBytes > 0 && TotalSize(entries) > lim.maxBytes)
  }

  /** The per-object cap is not among them. After priming an object keeps what it had, less
      one if it was over the cap, less what of it was among the oldest the global bounds
      took; so it is within the cap exactly when it exceeded it by no more than those. */
  lemma PrimeCapIff(lim: Limits, c: Contents, order: seq<string>, uid: string)
    requires WellKept(c) && lim.perObject > 0 && uid in order && forall u :: u in order ==> u in c.objects
    requires forall i, j :: 0 <= i < j < |order| ==> order[i] != order[j]
    ensures var taken := Taken(EnforceEach(Rebuilt(c), lim, order), lim, uid);
            var had, has := CountOf(Load(c), uid), CountOf(Prime(lim, c, order).entries, uid);
            && has == had - (if had > lim.perObject then 1 else 0) - taken
            && (has <= lim.perObject <==> had <= lim.perObject + 1 + taken)
            && (!Over(Rebuilt(c), lim) ==> taken == 0)
  {
    var t := Rebuilt(c);
    RebuiltCore(c);
    PassEvictsOnePerObject(t, lim, order, uid);
    PassShrinks(t, lim, order);
    TrimCounts(EnforceEach(t, lim, order), lim, uid);
  }

  lemma {:induction false} BySeqKept(e: seq<Revision>, bound: nat)
    requires UpTo(e, bound)
    ensures forall k :: k in BySeq(e) ==> BySeq(e)[k].seqNo == k && k <= bound
  {
    if e != [] { BySeqKept(e[..|e| - 1], bound); }
  }

  /** And only then: a store whose counts went wrong, or whose live objects exceed the cap,
      comes back from a restart as another one. */
  lemma PrimeSameIff(t: Timeline, lim: Limits, order: seq<string>)
    requires Inv(t, lim) && t.mirror.Some? && Visits(order, t.mirror.value.objects)
    ensures (exists shift :: Same(t, Prime(lim, t.mirror.value, order), shift))
            <==> Counted(t) && WithinCap(t, lim, order)
  {
    var c := t.mirror.value;
    ListBelowBySeq(t.entries, t.seqNo + 1);
    BySeqKept(t.entries, t.seqNo);
    if Counted(t) && WithinCap(t, lim, order) {
      PrimeSame(t, lim, order);
    }
    if shift :| Same(t, Prime(lim, c, order), shift) {
      PrimeInv(lim, c, order);
      if lim.perObject > 0 {
        forall uid | uid in order ensures CountOf(t.entries, uid) <= lim.perObject { PrimeCapIff(lim, c, order, uid); }
      }
    }
  }

  /** Each live object is visited once. */
  ghost predicate Visits<V>(order: seq<string>, objects: map<string, V>) {
    && (forall uid :: uid in order <==> uid in objects)
    && forall i, j :: 0 <= i < j < |order| ==> order[i] != order[j]
  }

  /** How many of an object's revisions are among the oldest that the global bounds take. */
  ghost function Taken(t: Timeline, lim: Limits, uid: string): nat {
    CountOf(t.entries[..Trimmed(t, lim)], uid)
  }

  lemma TrimCounts(t: Timeline, lim: Limits, uid: string)
    ensures CountOf(EnforceBounds(t, lim).entries, uid) == CountOf(t.entries, uid) - Taken(t, lim, uid)
    ensures !Over(t, lim) ==> Taken(t, lim, uid) == 0
  {
    var k := Trimmed(t, lim);
    BoundsTrim(t, lim);
    assert t.entries == t.entries[..k] + t.entries[k..];
    CountConcat(t.entries[..k], t.entries[k..], uid);
  }

  /** An input that misses the cap: one object, three revisions, a cap lowered to one. */
  lemma PrimeMissesCap(rec: ObjectRecord, rev: Revision)
    requires rev.uid == "a"
    ensures var c := Contents(map[1 := rev.(seqNo := 1), 2 := rev.(seqNo := 2), 3 := rev.(seqNo := 3)], map["a" := rec],
                              3, false);
            WellKept(c) && CountOf(Prime(Limits(1, 0, 0, 0), c, ["a"]).entries, "a") == 2
  {
    var c := Contents(map[1 := rev.(seqNo := 1), 2 := rev.(seqNo := 2), 3 := rev.(seqNo := 3)], map["a" := rec], 3,
                      false);
    ThreeListed(c, rev);
    PrimeCapIff(Limits(1, 0, 0, 0), c, ["a"], "a");
  }

  lemma ThreeListed(c: Contents, rev: Revision)
    requires rev.uid == "a" && c.seqNo == 3
    requires c.revisions == map[1 := rev.(seqNo := 1), 2 := rev.(seqNo := 2), 3 := rev.(seqNo := 3)]
    ensures CountOf(Load(c), "a") == 3
  {
    var r := c.revisions;
    assert ListBelow(r, 0) == [] && ListBelow(r, 1) == [];
    assert ListBelow(r, 2) == [r[1]];
    assert ListBelow(r, 3) == [r[1], r[2]];
    assert Load(c) == [r[1], r[2], r[3]];
    CountConcat([r[1]], [r[2], r[3]], "a");
    CountConcat([r[2]], [r[3]], "a");
    assert [r[1]] + [r[2], r[3]] == Load(c) && [r[2]] + [r[3]] == [r[2], r[3]];
    assert forall x: Revision :: [x][1..] == [];
  }

  /* ---------- every later operation agrees ---------- */

  lemma {:induction false} EnforceBoundsSame(t: Timeline, u: Timeline, shift: int, lim: Limits)
    requires Same(t, u, shift)
    ensures Same(EnforceBounds(t, lim), EnforceBounds(u, lim), shift)
    decreases |t.entries|
  {
    if |t.entries| > 0 && Over(t, lim) {
      EnforceBoundsSame(Evict(t, 0), Evict(u, 0), shift, lim);
    }
  }

  lemma AppendSame(t: Timeline, u: Timeline, shift: int, lim: Limits, draft: Revision)
    requires Same(t, u, shift) && draft.uid in t.objects
    ensures Same(Append(t, lim, draft), Append(u, lim, draft), shift)
  {
    var t1, u1 := Retain(t, draft), Retain(u, draft);
    assert Same(t1, u1, shift);
    EnforceBoundsSame(EnforcePerObject(t1, lim, draft.uid), EnforcePerObject(u1, lim, draft.uid), shift, lim);
  }

  lemma ForgetSame(t: Timeline, u: Timeline, shift: int, uid: string)
    requires Same(t, u, shift)
    ensures Same(Forget(t, uid), Forget(u, uid), shift)
  {
    forall s
      ensures ScopeSet(Without(t.scopes, uid), s) == ScopeSet(t.scopes, s) - {uid}
      ensures ScopeSet(Without(u.scopes, uid), s) == ScopeSet(u.scopes, s) - {uid}
    {}
  }

  lemma AdmitSame(t: Timeline, u: Timeline, shift: int, obs: Observation)
    requires Same(t, u, shift)
    ensures Same(Admit(t, obs), Admit(u, obs), shift)
  {
    forall s
      ensures ScopeSet(Admit(t, obs).scopes, s) == if s
              == obs.id.scope then ScopeSet(t.scopes, s) + {obs.uid} else ScopeSet(t.scopes, s)
      ensures ScopeSet(Admit(u, obs).scopes, s) == if s
              == obs.id.scope then ScopeSet(u.scopes, s) + {obs.uid} else ScopeSet(u.scopes, s)
    {}
  }

  lemma DeleteObservedSame(t: Timeline, u: Timeline, shift: int, lim: Limits, obs: Observation, now: int)
    requires Same(t, u, shift)
    ensures Same(DeleteObserved(t, lim, obs, now), DeleteObserved(u, lim, obs, now), shift)
  {
    if obs.uid in t.objects {
      var rev := RevisionOf(obs, Deleted, now, t.objects[obs.uid].rec.lastObservedAt, false).(manifest := None);
      AppendSame(t, u, shift, lim, rev);
      ForgetSame(Append(t, lim, rev), Append(u, lim, rev), shift, obs.uid);
    }
  }

  lemma ObserveNewSame(t: Timeline, u: Timeline, shift: int, lim: Limits, obs: Observation, now: int, seed: bool)
    requires Same(t, u, shift)
    ensures Same(ObserveNew(t, lim, obs, now, seed), ObserveNew(u, lim, obs, now, seed), shift)
  {
    var rev := RevisionOf(obs, if seed then FirstObserved else Created, now, None, false);
    AdmitSame(t, u, shift, obs);
    AppendSame(Admit(t, obs), Admit(u, obs), shift, lim, rev);
  }

  lemma ObserveRevisedSame(t: Timeline, u: Timeline, shift: int, lim: Limits, obs: Observation, change: Change,
                           now: int, seed: bool)
    requires Same(t, u, shift) && obs.uid in t.objects
    ensures Same(ObserveRevised(t, lim, obs, change, now, seed), ObserveRevised(u, lim, obs, change, now, seed), shift)
  {
    var rev := RevisionOf(obs, change, now, t.objects[obs.uid].rec.lastObservedAt, seed);
    AppendSame(t, u, shift, lim, rev);
  }

  lemma ObserveChangedSame(t: Timeline, u: Timeline, shift: int, lim: Limits, obs: Observation, now: int, seed: bool)
    requires Same(t, u, shift) && obs.uid in t.objects
    ensures Same(ObserveChanged(t, lim, obs, now, seed), ObserveChanged(u, lim, obs, now, seed), shift)
  {
    var target := CoalesceTarget(t, lim, obs.uid, now);
    if obs.specHash != t.objects[obs.uid].rec.specHash {
      ObserveRevisedSame(t, u, shift, lim, obs, SpecChanged, now, seed);
    } else if !seed && target.Some? {
      EnforceBoundsSame(FoldInto(t, obs, now, target.value), FoldInto(u, obs, now, target.value), shift, lim);
    } else {
      ObserveRevisedSame(t, u, shift, lim, obs, StatusTransition, now, seed);
    }
  }

  lemma ObserveSame(t: Timeline, u: Timeline, shift: int, lim: Limits, obs: Observation, now: int, seed: bool)
    requires Same(t, u, shift)
    ensures Same(Observe(t, lim, obs, now, seed), Observe(u, lim, obs, now, seed), shift)
  {
    if obs.deleted {
      DeleteObservedSame(t, u, shift, lim, obs, now);
    } else if obs.uid !in t.objects {
      ObserveNewSame(t, u, shift, lim, obs, now, seed);
    } else {
      ObserveChangedSame(t, u, shift, lim, obs, now, seed);
    }
  }

  lemma {:induction false} DeleteAllSame(t: Timeline, u: Timeline, shift: int, lim: Limits, gone: seq<string>, now: int)
    requires Same(t, u, shift)
    ensures Same(DeleteAll(t, lim, gone, now), DeleteAll(u, lim, gone, now), shift)
    decreases |gone|
  {
    if gone != [] {
      var t1, u1 := DeleteUnobserved(t, lim, gone[0], now), DeleteUnobserved(u, lim, gone[0], now);
      if gone[0] in t.objects {
        var rev := Tombstone(t.objects[gone[0]].rec, gone[0], now);
        AppendSame(t, u, shift, lim, rev);
        ForgetSame(Append(t, lim, rev), Append(u, lim, rev), shift, gone[0]);
      }
      DeleteAllSame(t1, u1, shift, lim, gone[1..], now);
    }
  }

  lemma {:induction false} ObserveAllSame(t: Timeline, u: Timeline, shift: int, lim: Limits, obs: seq<Observation>,
                                          now: int)
    requires Same(t, u, shift)
    ensures Same(ObserveAll(t, lim, obs, now), ObserveAll(u, lim, obs, now), shift)
    decreases |obs|
  {
    if obs != [] {
      ObserveSame(t, u, shift, lim, obs[0], now, true);
      ObserveAllSame(Observe(t, lim, obs[0], now, true), Observe(u, lim, obs[0], now, true), shift, lim, obs[1..], now);
    }
  }

  lemma StepSame(t: Timeline, u: Timeline, shift: int, lim: Limits, op: Op)
    requires Same(t, u, shift)
    ensures Same(Step(t, lim, op), Step(u, lim, op), shift)
  {
    match op {
      case Watch(obs, now) => ObserveSame(t, u, shift, lim, obs, now, false);
      case Listing(scope, obs, now) =>
        var gone := Gone(t, scope, obs);
        DeleteAllSame(t, u, shift, lim, gone, now);
        ObserveAllSame(DeleteAll(t, lim, gone, now), DeleteAll(u, lim, gone, now), shift, lim, obs, now);
    }
  }

  /** Stores that agree keep agreeing under every operation sequence. */
  lemma {:induction false} RunSame(t: Timeline, u: Timeline, shift: int, lim: Limits, ops: seq<Op>)
    requires Same(t, u, shift)
    ensures Same(Run(t, lim, ops), Run(u, lim, ops), shift)
    decreases |ops|
  {
    if ops != [] {
      StepSame(t, u, shift, lim, ops[0]);
      RunSame(Step(t, lim, ops[0]), Step(u, lim, ops[0]), shift, lim, ops[1..]);
    }
  }

  lemma {:induction false} RunConcat(t: Timeline, lim: Limits, a: seq<Op>, b: seq<Op>)
    ensures Run(t, lim, a + b) == Run(Run(t, lim, a), lim, b)
    decreases |a|
  {
    if a == [] {
      assert a + b == b;
    } else {
      assert (a + b)[1..] == a[1..] + b;
      RunConcat(Step(t, lim, a[0]), lim, a[1..], b);
    }
  }

  lemma WithinIsCap(t: Timeline, lim: Limits, order: seq<string>)
    requires Counted(t) && Within(t, lim) && forall uid :: uid in order ==> uid in t.objects
    ensures WithinCap(t, lim, order)
  {
    assert forall uid :: uid in t.objects ==> CountedAt(t, uid);
  }

  /** Restart transparency: after any run that leaves no live object stale, restarting from
      the persister and running `after` leaves what running both without a restart leaves. */
  lemma RestartTransparent(lim: Limits, before: seq<Op>, after: seq<Op>, order: seq<string>)
    requires var t := Run(Empty(true), lim, before);
             && NoneStale(t, StaleRun(Empty(true), lim, before, {}))
             && forall uid :: uid in order ==> uid in t.mirror.value.objects
    ensures var t := Run(Empty(true), lim, before);
            Same(Run(Empty(true), lim, before + after),
                    Run(Prime(lim, t.mirror.value, order), lim, after),
                    t.seqNo - t.generation)
  {
    var t := Run(Empty(true), lim, before);
    RunInvariant(true, lim, before);
    RunCountsIff(Empty(true), lim, before);
    WithinIsCap(t, lim, order);
    PrimeSame(t, lim, order);
    RunSame(t, Prime(lim, t.mirror.value, order), t.seqNo - t.generation, lim, after);
    RunConcat(Empty(true), lim, before, after);
  }

  /** And only after such a run: otherwise the restarted store already differs. */
  lemma RestartIff(lim: Limits, before: seq<Op>, order: seq<string>)
    requires Visits(order, Run(Empty(true), lim, before).mirror.value.objects)
    ensures var t := Run(Empty(true), lim, before);
            NoneStale(t, StaleRun(Empty(true), lim, before, {}))
            <==> exists shift :: Same(t, Prime(lim, t.mirror.value, order), shift)
  {
    var t := Run(Empty(true), lim, before);
    RunInvariant(true, lim, before);
    RunCountsIff(Empty(true), lim, before);
    PrimeSameIff(t, lim, order);
    if Counted(t) { WithinIsCap(t, lim, order); }
  }
}
