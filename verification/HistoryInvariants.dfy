/** What every operation of the timeline keeps, over every run. */
module HistoryInvariants {
  import opened Prelude
  import opened History

  /* ---------- the invariants ---------- */

  ghost predicate Increasing(entries: seq<Revision>) {
    forall i, j :: 0 <= i < j < |entries| ==> entries[i].seqNo < entries[j].seqNo
  }

  ghost predicate UpTo(entries: seq<Revision>, bound: nat) {
    forall i :: 0 <= i < |entries| ==> entries[i].seqNo <= bound
  }

  ghost predicate Ordered(t: Timeline) {
    Increasing(t.entries) && UpTo(t.entries, t.seqNo)
  }

  /** The retained revisions keyed by sequence. */
  ghost function BySeq(entries: seq<Revision>): map<nat, Revision> {
    if entries == [] then map[]
    else
      var n := |entries| - 1;
      BySeq(entries[..n])[entries[n].seqNo := entries[n]]
  }

  /** The persister holds exactly the retained revisions and the counters. */
  ghost predicate MirrorsEntries(m: Contents, t: Timeline) {
    m.seqNo == t.seqNo && m.evicted == t.evicted && m.revisions == BySeq(t.entries)
  }

  /** The persister holds exactly the live objects' classification state. */
  ghost predicate MirrorsObjects(m: Contents, t: Timeline) {
    && m.objects.Keys == t.objects.Keys
    && forall uid :: uid in t.objects ==> m.objects[uid] == t.objects[uid].rec
  }

  ghost predicate Core(t: Timeline) {
    && Ordered(t)
    && t.totalBytes == TotalSize(t.entries)
    && (t.mirror.Some? ==> MirrorsEntries(t.mirror.value, t))
  }

  /** The scope sets partition the live objects by recorded scope. */
  ghost predicate Scoped(t: Timeline) {
    forall s, uid :: uid in ScopeSet(t.scopes, s) <==> uid in t.objects && t.objects[uid].rec.id.scope == s
  }

  ghost predicate Inv(t: Timeline, lim: Limits) {
    && Core(t)
    && Scoped(t)
    && (t.mirror.Some? ==> MirrorsObjects(t.mirror.value, t))
    && !Over(t, lim)
  }

  ghost predicate CountedAt(t: Timeline, uid: string)
    requires uid in t.objects
  {
    t.objects[uid].count == CountOf(t.entries, uid) && t.objects[uid].last == LastOf(t.entries, uid)
  }

  /** Each object's cached count and coalescing target describe its entries. */
  ghost predicate Counted(t: Timeline) {
    forall uid :: uid in t.objects ==> CountedAt(t, uid)
  }

  /** The live objects parted: those counted exactly, and the stale ones counted short. */
  ghost predicate Parted(t: Timeline, stale: set<string>) {
    forall uid :: uid in t.objects ==> PartedAt(t, uid, stale)
  }

  ghost predicate PartedAt(t: Timeline, uid: string, stale: set<string>)
    requires uid in t.objects
  {
    if uid in stale then t.objects[uid].count < CountOf(t.entries, uid) else CountedAt(t, uid)
  }

  /** No incarnation, live or deleted, keeps more revisions than the cap. */
  ghost predicate Capped(t: Timeline, lim: Limits) {
    lim.perObject > 0 ==> forall uid :: CountOf(t.entries, uid) <= lim.perObject
  }

  /** Every live object is counted within the cap. */
  ghost predicate Within(t: Timeline, lim: Limits) {
    lim.perObject > 0 ==> forall uid :: uid in t.objects ==> t.objects[uid].count <= lim.perObject
  }

  ghost predicate GrowsAt(before: seq<Revision>, after: seq<Revision>, lim: Limits, uid: string) {
    CountOf(after, uid) <= CountOf(before, uid) || CountOf(after, uid) <= lim.perObject
  }

  /** No incarnation, live or deleted, grows past the cap; one over it does not grow. */
  ghost predicate NoneOutgrows(t: Timeline, r: Timeline, lim: Limits) {
    lim.perObject > 0 ==> forall uid :: GrowsAt(t.entries, r.entries, lim, uid)
  }

  /** The observation does not bring back a uid whose revisions are retained but
      whose incarnation ended. */
  ghost predicate Fresh(t: Timeline, obs: Observation) {
    obs.deleted || obs.uid in t.objects || CountOf(t.entries, obs.uid) == 0
  }

  ghost predicate FreshAll(t: Timeline, lim: Limits, obs: seq<Observation>, now: int)
    decreases |obs|
  {
    obs == [] || (Fresh(t, obs[0]) && FreshAll(Observe(t, lim, obs[0], now, true), lim, obs[1..], now))
  }

  ghost predicate FreshOp(t: Timeline, lim: Limits, op: Op) {
    match op
    case Watch(obs, now) => Fresh(t, obs)
    case Listing(scope, obs, now) => FreshAll(DeleteAll(t, lim, Gone(t, scope, obs), now), lim, obs, now)
  }

  ghost predicate FreshRun(t: Timeline, lim: Limits, ops: seq<Op>)
    decreases |ops|
  {
    ops == [] || (FreshOp(t, lim, ops[0]) && FreshRun(Step(t, lim, ops[0]), lim, ops[1..]))
  }

  /** The uids whose present incarnation began while revisions of an earlier one were
      retained, after one observation, a listing and a run. */
  ghost function Stale(t: Timeline, obs: Observation, stale: set<string>): set<string> {
    if obs.deleted || obs.uid in t.objects then stale
    else if CountOf(t.entries, obs.uid) > 0 then stale + {obs.uid}
    else stale - {obs.uid}
  }

  ghost function StaleAll(t: Timeline, lim: Limits, obs: seq<Observation>, now: int, stale: set<string>): set<string>
    decreases |obs|
  {
    if obs == [] then stale
    else StaleAll(Observe(t, lim, obs[0], now, true), lim, obs[1..], now, Stale(t, obs[0], stale))
  }

  ghost function StaleStep(t: Timeline, lim: Limits, op: Op, stale: set<string>): set<string> {
    match op
    case Watch(obs, now) => Stale(t, obs, stale)
    case Listing(scope, obs, now) => StaleAll(DeleteAll(t, lim, Gone(t, scope, obs), now), lim, obs, now, stale)
  }

  ghost function StaleRun(t: Timeline, lim: Limits, ops: seq<Op>, stale: set<string>): set<string>
    decreases |ops|
  {
    if ops == [] then stale else StaleRun(Step(t, lim, ops[0]), lim, ops[1..], StaleStep(t, lim, ops[0], stale))
  }

  ghost predicate NoneStale(t: Timeline, stale: set<string>) {
    forall uid :: uid in t.objects ==> uid !in stale
  }

  /** What retention never touches: scopes, live uids and their classification. */
  ghost predicate SameClassification(t: Timeline, r: Timeline) {
    && r.scopes == t.scopes
    && r.objects.Keys == t.objects.Keys
    && (forall uid :: uid in t.objects ==> r.objects[uid].rec == t.objects[uid].rec)
    && (r.mirror.Some? <==> t.mirror.Some?)
    && (t.mirror.Some? ==> r.mirror.value.objects == t.mirror.value.objects)
  }

  /* ---------- lists of revisions ---------- */

  lemma {:induction false} CountConcat(a: seq<Revision>, b: seq<Revision>, uid: string)
    ensures CountOf(a + b, uid) == CountOf(a, uid) + CountOf(b, uid)
  {
    if a == [] {
      assert a + b == b;
    } else {
      assert (a + b)[1..] == a[1..] + b;
      CountConcat(a[1..], b, uid);
    }
  }

  lemma {:induction false} LastConcat(a: seq<Revision>, b: seq<Revision>, uid: string)
    ensures LastOf(a + b, uid) == if LastOf(b, uid).Some? then LastOf(b, uid) else LastOf(a, uid)
    decreases |b|
  {
    if b == [] {
      assert a + b == a;
    } else {
      assert (a + b)[..|a + b| - 1] == a + b[..|b| - 1];
      LastConcat(a, b[..|b| - 1], uid);
    }
  }

  lemma {:induction false} SizeConcat(a: seq<Revision>, b: seq<Revision>)
    ensures TotalSize(a + b) == TotalSize(a) + TotalSize(b)
  {
    if a == [] {
      assert a + b == b;
    } else {
      assert (a + b)[1..] == a[1..] + b;
      SizeConcat(a[1..], b);
    }
  }

  lemma {:induction false} CountZero(e: seq<Revision>, uid: string)
    ensures CountOf(e, uid) == 0 <==> forall i :: 0 <= i < |e| ==> e[i].uid != uid
    ensures CountOf(e, uid) == 0 <==> FirstOf(e, uid) == |e|
    ensures CountOf(e, uid) == 0 <==> LastOf(e, uid).None?
  {
    if e != [] {
      CountZero(e[1..], uid);
      assert e == [e[0]] + e[1..];
      LastConcat([e[0]], e[1..], uid);
      assert [e[0]][..0] == [];
      assert forall i :: 1 <= i < |e| ==> e[i] == e[1..][i - 1];
    }
  }

  /** uid's newest entry is the entry LastOf names. */
  lemma {:induction false} LastIsNewest(e: seq<Revision>, uid: string)
    requires LastOf(e, uid).Some?
    ensures exists i :: 0 <= i < |e| && e[i].uid == uid && LastOf(e, uid) == Some(e[i].seqNo)
                        && forall j :: i < j < |e| ==> e[j].uid != uid
  {
    var n := |e| - 1;
    if e[n].uid != uid {
      LastIsNewest(e[..n], uid);
      var i :| 0 <= i < n && e[..n][i].uid == uid && LastOf(e[..n], uid) == Some(e[..n][i].seqNo)
               && forall j :: i < j < n ==> e[..n][j].uid != uid;
      assert e[i].uid == uid && forall j :: i < j < |e| ==> j == n || e[j] == e[..n][j];
    }
  }

  lemma SplitAt(e: seq<Revision>, i: nat, uid: string)
    requires i < |e|
    ensures CountOf(e, uid) == CountOf(e[..i], uid) + (if e[i].uid == uid then 1 else 0) + CountOf(e[i + 1..], uid)
    ensures LastOf(e, uid) == if LastOf(e[i + 1..], uid).Some? then LastOf(e[i + 1..], uid)
                              else if e[i].uid == uid then Some(e[i].seqNo)
                              else LastOf(e[..i], uid)
    ensures TotalSize(e) == TotalSize(e[..i]) + RevisionSize(e[i]) + TotalSize(e[i + 1..])
  {
    var a, r, b := e[..i], [e[i]], e[i + 1..];
    assert e == a + (r + b);
    CountConcat(a, r + b, uid);
    CountConcat(r, b, uid);
    assert r[1..] == [] && r[..0] == [];
    LastConcat(a, r + b, uid);
    LastConcat(r, b, uid);
    SizeConcat(a, r + b);
    SizeConcat(r, b);
  }

  lemma CutAt(e: seq<Revision>, i: nat, uid: string)
    requires i < |e|
    ensures var cut := e[..i] + e[i + 1..];
            && CountOf(cut, uid) == CountOf(e, uid) - (if e[i].uid == uid then 1 else 0)
            && LastOf(cut, uid)
               == (if LastOf(e[i + 1..], uid).Some? then LastOf(e[i + 1..], uid) else LastOf(e[..i], uid))
            && TotalSize(cut) == TotalSize(e) - RevisionSize(e[i])
  {
    SplitAt(e, i, uid);
    CountConcat(e[..i], e[i + 1..], uid);
    LastConcat(e[..i], e[i + 1..], uid);
    SizeConcat(e[..i], e[i + 1..]);
  }

  /* ---------- eviction ---------- */

  lemma CutOrder(e: seq<Revision>, i: nat, bound: nat)
    requires Increasing(e) && UpTo(e, bound) && i < |e|
    ensures var cut := e[..i] + e[i + 1..];
            Increasing(cut) && UpTo(cut, bound)
  {
    var cut := e[..i] + e[i + 1..];
    assert forall j :: 0 <= j < |cut| ==> cut[j] == if j < i then e[j] else e[j + 1];
  }

  lemma {:induction false} BySeqKeys(e: seq<Revision>, bound: nat)
    requires forall i :: 0 <= i < |e| ==> e[i].seqNo < bound
    ensures forall k :: k in BySeq(e) ==> k < bound
  {
    if e != [] { BySeqKeys(e[..|e| - 1], bound); }
  }

  lemma RemoveThenUpdate<K, V>(m: map<K, V>, k: K, v: V, gone: K)
    requires k != gone
    ensures (m - {gone})[k := v] == m[k := v] - {gone}
  {
  }

  lemma CutLast(e: seq<Revision>, i: nat)
    requires i < |e| - 1
    ensures var cut := e[..i] + e[i + 1..];
            && cut[..|e| - 2] == e[..|e| - 1][..i] + e[..|e| - 1][i + 1..]
            && cut[|e| - 2] == e[|e| - 1]
  {
  }

  lemma {:induction false} CutBySeq(e: seq<Revision>, i: nat)
    requires Increasing(e) && i < |e|
    ensures BySeq(e[..i] + e[i + 1..]) == BySeq(e) - {e[i].seqNo}
    decreases |e|
  {
    var n := |e| - 1;
    var before := e[..n];
    if i == n {
      assert e[..i] + e[i + 1..] == before;
      BySeqKeys(before, e[n].seqNo);
      assert BySeq(before)[e[n].seqNo := e[n]] - {e[n].seqNo} == BySeq(before);
    } else {
      CutLast(e, i);
      CutBySeq(before, i);
      RemoveThenUpdate(BySeq(before), e[n].seqNo, e[n], e[i].seqNo);
    }
  }

  lemma EvictFrames(t: Timeline, i: nat)
    requires i < |t.entries|
    ensures SameClassification(t, Evict(t, i))
  {
  }

  lemma EvictCore(t: Timeline, i: nat)
    requires Core(t) && i < |t.entries|
    ensures Core(Evict(t, i)) && SameClassification(t, Evict(t, i))
  {
    EvictFrames(t, i);
    CutAt(t.entries, i, t.entries[i].uid);
    CutOrder(t.entries, i, t.seqNo);
    CutBySeq(t.entries, i);
  }

  lemma EvictPartedAt(t: Timeline, i: nat, uid: string, stale: set<string>)
    requires Ordered(t) && i < |t.entries| && uid in t.objects && PartedAt(t, uid, stale)
    requires forall j :: 0 <= j < i ==> t.entries[j].uid != t.entries[i].uid
    ensures PartedAt(Evict(t, i), uid, stale)
  {
    var e, rev := t.entries, t.entries[i];
    CutAt(e, i, uid);
    SplitAt(e, i, uid);
    if uid == rev.uid {
      CountZero(e[..i], uid);
      if LastOf(e[i + 1..], uid).Some? {
        LastIsNewest(e[i + 1..], uid);
      }
    }
  }

  /** Evicting an object's oldest entry leaves exact what was exact and short what was short. */
  lemma EvictParted(t: Timeline, i: nat, stale: set<string>)
    requires Ordered(t) && Parted(t, stale) && i < |t.entries|
    requires forall j :: 0 <= j < i ==> t.entries[j].uid != t.entries[i].uid
    ensures Parted(Evict(t, i), stale)
  {
    forall uid | uid in t.objects ensures PartedAt(Evict(t, i), uid, stale) { EvictPartedAt(t, i, uid, stale); }
  }

  /** Evicting an object's oldest entry keeps every cached count and target. */
  lemma EvictCounted(t: Timeline, i: nat)
    requires Ordered(t) && Counted(t) && i < |t.entries|
    requires forall j :: 0 <= j < i ==> t.entries[j].uid != t.entries[i].uid
    ensures Counted(Evict(t, i))
  {
    assert Parted(t, {});
    EvictParted(t, i, {});
    assert forall uid :: uid in t.objects ==> PartedAt(Evict(t, i), uid, {});
  }

  lemma EvictCapped(t: Timeline, i: nat, uid: string)
    requires i < |t.entries|
    ensures CountOf(Evict(t, i).entries, uid) == CountOf(t.entries, uid) - (if t.entries[i].uid == uid then 1 else 0)
  {
    CutAt(t.entries, i, uid);
  }

  lemma {:induction false} EnforceBoundsCore(t: Timeline, lim: Limits)
    requires Core(t)
    ensures var r := EnforceBounds(t, lim); Core(r) && SameClassification(t, r) && !Over(r, lim)
    decreases |t.entries|
  {
    if |t.entries| > 0 && Over(t, lim) {
      EvictCore(t, 0);
      EnforceBoundsCore(Evict(t, 0), lim);
    }
  }

  lemma {:induction false} EnforceBoundsParted(t: Timeline, lim: Limits, stale: set<string>)
    requires Core(t) && Parted(t, stale)
    ensures Parted(EnforceBounds(t, lim), stale)
    decreases |t.entries|
  {
    if |t.entries| > 0 && Over(t, lim) {
      EvictCore(t, 0);
      EvictParted(t, 0, stale);
      EnforceBoundsParted(Evict(t, 0), lim, stale);
    }
  }

  lemma {:induction false} EnforceBoundsShrinks(t: Timeline, lim: Limits, uid: string)
    ensures CountOf(EnforceBounds(t, lim).entries, uid) <= CountOf(t.entries, uid)
    ensures uid in t.objects ==> EnforceBounds(t, lim).objects[uid].count <= t.objects[uid].count
    decreases |t.entries|
  {
    if |t.entries| > 0 && Over(t, lim) {
      EvictCapped(t, 0, uid);
      EnforceBoundsShrinks(Evict(t, 0), lim, uid);
    }
  }

  lemma EnforcePerObjectCore(t: Timeline, lim: Limits, uid: string)
    requires Core(t) && uid in t.objects
    ensures var r := EnforcePerObject(t, lim, uid); Core(r) && SameClassification(t, r)
  {
    var i := FirstOf(t.entries, uid);
    if i < |t.entries| { EvictCore(t, i); }
  }

  lemma EnforcePerObjectParted(t: Timeline, lim: Limits, uid: string, stale: set<string>)
    requires Core(t) && Parted(t, stale) && uid in t.objects
    ensures Parted(EnforcePerObject(t, lim, uid), stale)
  {
    var i := FirstOf(t.entries, uid);
    if i < |t.entries| { EvictParted(t, i, stale); }
  }

  lemma EnforcePerObjectShrinks(t: Timeline, lim: Limits, uid: string, u: string)
    requires uid in t.objects
    ensures var r := EnforcePerObject(t, lim, uid);
            && CountOf(r.entries, u) <= CountOf(t.entries, u)
            && (u in t.objects ==> r.objects[u].count <= t.objects[u].count)
  {
    var i := FirstOf(t.entries, uid);
    if i < |t.entries| { EvictCapped(t, i, u); }
  }

  lemma EnforcePerObjectTrims(t: Timeline, lim: Limits, uid: string)
    requires uid in t.objects && CountOf(t.entries, uid) > 0
    requires lim.perObject > 0 && lim.perObject < t.objects[uid].count
    ensures var r := EnforcePerObject(t, lim, uid);
            CountOf(r.entries, uid) == CountOf(t.entries, uid) - 1 && r.objects[uid].count == t.objects[uid].count - 1
  {
    var i := FirstOf(t.entries, uid);
    CountZero(t.entries, uid);
    EvictCapped(t, i, uid);
  }

  /* ---------- appending ---------- */

  lemma BySeqLast(e: seq<Revision>, rev: Revision)
    ensures BySeq(e + [rev]) == BySeq(e)[rev.seqNo := rev]
  {
    assert (e + [rev])[..|e|] == e;
  }

  lemma AddLast(e: seq<Revision>, rev: Revision)
    requires Increasing(e) && rev.seqNo > 0 && UpTo(e, rev.seqNo - 1)
    ensures Increasing(e + [rev]) && UpTo(e + [rev], rev.seqNo)
    ensures BySeq(e + [rev]) == BySeq(e)[rev.seqNo := rev]
    ensures TotalSize(e + [rev]) == TotalSize(e) + RevisionSize(rev)
  {
    SizeConcat(e, [rev]);
    assert [rev][1..] == [];
    BySeqLast(e, rev);
  }

  lemma RetainFrames(t: Timeline, draft: Revision)
    requires draft.uid in t.objects
    ensures SameClassification(t, Retain(t, draft))
  {
  }

  lemma RetainCore(t: Timeline, draft: Revision)
    requires Core(t) && draft.uid in t.objects
    ensures Core(Retain(t, draft))
  {
    AddLast(t.entries, draft.(seqNo := t.seqNo + 1));
    if t.mirror.Some? { RetainMirrors(t, draft); }
  }

  lemma RetainMirrors(t: Timeline, draft: Revision)
    requires t.mirror.Some? && MirrorsEntries(t.mirror.value, t) && draft.uid in t.objects
    requires BySeq(t.entries + [draft.(seqNo := t.seqNo + 1)])
             == BySeq(t.entries)[t.seqNo + 1 := draft.(seqNo := t.seqNo + 1)]
    ensures MirrorsEntries(Retain(t, draft).mirror.value, Retain(t, draft))
  {
  }

  lemma RetainParted(t: Timeline, draft: Revision, stale: set<string>)
    requires Parted(t, stale) && draft.uid in t.objects
    ensures Parted(Retain(t, draft), stale)
  {
    forall u | u in t.objects ensures PartedAt(Retain(t, draft), u, stale) {
      CountPush(t.entries, draft.(seqNo := t.seqNo + 1), u);
    }
  }

  lemma CountPush(e: seq<Revision>, rev: Revision, u: string)
    ensures CountOf(e + [rev], u) == CountOf(e, u) + (if u == rev.uid then 1 else 0)
    ensures LastOf(e + [rev], u) == if u == rev.uid then Some(rev.seqNo) else LastOf(e, u)
  {
    assert [rev][1..] == [] && [rev][..0] == [];
    CountConcat(e, [rev], u);
    LastConcat(e, [rev], u);
  }

  lemma AppendCore(t: Timeline, lim: Limits, draft: Revision)
    requires Core(t) && draft.uid in t.objects
    ensures var r := Append(t, lim, draft); Core(r) && SameClassification(t, r) && !Over(r, lim)
  {
    RetainCore(t, draft);
    RetainFrames(t, draft);
    var t1 := Retain(t, draft);
    EnforcePerObjectCore(t1, lim, draft.uid);
    EnforceBoundsCore(EnforcePerObject(t1, lim, draft.uid), lim);
  }

  lemma AppendParted(t: Timeline, lim: Limits, draft: Revision, stale: set<string>)
    requires Core(t) && Parted(t, stale) && draft.uid in t.objects
    ensures Parted(Append(t, lim, draft), stale)
  {
    RetainCore(t, draft);
    RetainParted(t, draft, stale);
    var t1 := Retain(t, draft);
    EnforcePerObjectCore(t1, lim, draft.uid);
    EnforcePerObjectParted(t1, lim, draft.uid, stale);
    EnforceBoundsParted(EnforcePerObject(t1, lim, draft.uid), lim, stale);
  }

  lemma RetainCounts(t: Timeline, draft: Revision, u: string)
    requires draft.uid in t.objects
    ensures var r, more := Retain(t, draft), if u == draft.uid then 1 else 0;
            CountOf(r.entries, u) == CountOf(t.entries, u) + more
            && (u in t.objects ==> r.objects[u].count == t.objects[u].count + more)
  {
    CountPush(t.entries, draft.(seqNo := t.seqNo + 1), u);
  }

  lemma AppendGrows(t: Timeline, lim: Limits, draft: Revision, u: string)
    requires draft.uid in t.objects && lim.perObject > 0
    requires u == draft.uid ==> t.objects[u].count == CountOf(t.entries, u)
    ensures GrowsAt(t.entries, Append(t, lim, draft).entries, lim, u)
  {
    var t1 := Retain(t, draft);
    RetainCounts(t, draft, u);
    if u == draft.uid && lim.perObject < t1.objects[u].count {
      EnforcePerObjectTrims(t1, lim, u);
    } else {
      EnforcePerObjectShrinks(t1, lim, draft.uid, u);
    }
    EnforceBoundsShrinks(EnforcePerObject(t1, lim, draft.uid), lim, u);
  }

  lemma AppendWithin(t: Timeline, lim: Limits, draft: Revision, u: string)
    requires draft.uid in t.objects && u in t.objects && lim.perObject > 0 && t.objects[u].count <= lim.perObject
    ensures Append(t, lim, draft).objects[u].count <= lim.perObject
  {
    var t1 := Retain(t, draft);
    RetainCounts(t, draft, u);
    if u == draft.uid && lim.perObject < t1.objects[u].count {
      EnforcePerObjectTrims(t1, lim, u);
    } else {
      EnforcePerObjectShrinks(t1, lim, draft.uid, u);
    }
    EnforceBoundsShrinks(EnforcePerObject(t1, lim, draft.uid), lim, u);
  }

  /** One over the cap is what an append evicts. */
  lemma AppendOutgrows(t: Timeline, lim: Limits, draft: Revision)
    requires draft.uid in t.objects
    ensures t.objects[draft.uid].count == CountOf(t.entries, draft.uid) ==> NoneOutgrows(t, Append(t, lim, draft), lim)
    ensures Within(t, lim) ==> Within(Append(t, lim, draft), lim)
  {
    if lim.perObject > 0 && t.objects[draft.uid].count == CountOf(t.entries, draft.uid) {
      forall u ensures GrowsAt(t.entries, Append(t, lim, draft).entries, lim, u) { AppendGrows(t, lim, draft, u); }
    }
    if lim.perObject > 0 && Within(t, lim) {
      forall u | u in t.objects ensures Append(t, lim, draft).objects[u].count <= lim.perObject {
        AppendWithin(t, lim, draft, u);
      }
    }
  }

  /* ---------- coalescing ---------- */

  lemma {:induction false} UpdateBySeq(e: seq<Revision>, i: nat, rev: Revision)
    requires Increasing(e) && i < |e| && rev.seqNo == e[i].seqNo
    ensures BySeq(e[i := rev]) == BySeq(e)[rev.seqNo := rev]
    decreases |e|
  {
    var n, r := |e| - 1, e[i := rev];
    if i == n {
      assert r[..n] == e[..n];
    } else {
      assert r[..n] == e[..n][i := rev] && r[n] == e[n];
      UpdateBySeq(e[..n], i, rev);
    }
  }

  lemma UpdateOrder(e: seq<Revision>, i: nat, rev: Revision, bound: nat)
    requires Increasing(e) && UpTo(e, bound) && i < |e| && rev.seqNo == e[i].seqNo
    ensures Increasing(e[i := rev]) && UpTo(e[i := rev], bound)
  {
  }

  lemma UpdateSize(e: seq<Revision>, i: nat, rev: Revision)
    requires i < |e|
    ensures TotalSize(e[i := rev]) == TotalSize(e) - RevisionSize(e[i]) + RevisionSize(rev)
  {
    var r := e[i := rev];
    SplitAt(e, i, rev.uid);
    SplitAt(r, i, rev.uid);
    assert r[..i] == e[..i] && r[i + 1..] == e[i + 1..];
  }

  lemma FoldIntoCore(t: Timeline, obs: Observation, now: int, i: nat)
    requires Core(t) && obs.uid in t.objects && i < |t.entries|
    ensures Core(FoldInto(t, obs, now, i))
  {
    UpdateSize(t.entries, i, Folded(t.entries[i], obs, now));
    UpdateBySeq(t.entries, i, Folded(t.entries[i], obs, now));
    UpdateOrder(t.entries, i, Folded(t.entries[i], obs, now), t.seqNo);
  }

  lemma FoldIntoParted(t: Timeline, obs: Observation, now: int, i: nat, stale: set<string>)
    requires Parted(t, stale) && obs.uid in t.objects && i < |t.entries|
    ensures Parted(FoldInto(t, obs, now, i), stale)
    ensures forall u :: CountOf(FoldInto(t, obs, now, i).entries, u) == CountOf(t.entries, u)
  {
    forall u
      ensures CountOf(FoldInto(t, obs, now, i).entries, u) == CountOf(t.entries, u)
      ensures LastOf(FoldInto(t, obs, now, i).entries, u) == LastOf(t.entries, u)
    {
      FoldedCounts(t, obs, now, i, u);
    }
    forall u | u in t.objects ensures PartedAt(FoldInto(t, obs, now, i), u, stale) {}
  }

  lemma FoldedCounts(t: Timeline, obs: Observation, now: int, i: nat, u: string)
    requires obs.uid in t.objects && i < |t.entries|
    ensures var r := FoldInto(t, obs, now, i);
            CountOf(r.entries, u) == CountOf(t.entries, u) && LastOf(r.entries, u) == LastOf(t.entries, u)
  {
    var e, r := t.entries, FoldInto(t, obs, now, i);
    SplitAt(e, i, u);
    SplitAt(r.entries, i, u);
    assert r.entries[..i] == e[..i] && r.entries[i + 1..] == e[i + 1..];
  }

  /* ---------- whole operations ---------- */

  lemma ForgetInv(t: Timeline, lim: Limits, uid: string)
    requires Inv(t, lim)
    ensures Inv(Forget(t, uid), lim)
  {
    var r := Forget(t, uid);
    forall s ensures ScopeSet(r.scopes, s) == ScopeSet(t.scopes, s) - {uid} {}
  }

  lemma ScopedKeeps(t: Timeline, r: Timeline)
    requires SameClassification(t, r) && Scoped(t)
    ensures Scoped(r)
  {
  }

  lemma CommitInv(t: Timeline, lim: Limits, obs: Observation, now: int)
    requires Core(t) && Scoped(t) && !Over(t, lim) && obs.uid in t.objects
    requires t.mirror.Some? ==>
               && t.mirror.value.objects.Keys + {obs.uid} == t.objects.Keys
               && forall uid :: uid in t.objects && uid != obs.uid ==> t.mirror.value.objects[uid] == t.objects[uid].rec
    ensures Inv(Commit(t, obs, now), lim)
  {
  }

  lemma AdmitScoped(t: Timeline, obs: Observation)
    requires Core(t) && Scoped(t) && obs.uid !in t.objects
    ensures Core(Admit(t, obs)) && Scoped(Admit(t, obs))
  {
    var r := Admit(t, obs);
    forall s ensures ScopeSet(r.scopes, s) == ScopeSet(t.scopes, s) + (if s == obs.id.scope then {obs.uid} else {}) {}
  }

  lemma CommitParted(t: Timeline, obs: Observation, now: int, stale: set<string>)
    requires Parted(t, stale) && obs.uid in t.objects
    ensures Parted(Commit(t, obs, now), stale)
  {
    forall u | u in t.objects ensures PartedAt(Commit(t, obs, now), u, stale) {}
  }

  lemma ForgetParted(t: Timeline, uid: string, stale: set<string>)
    requires Parted(t, stale)
    ensures Parted(Forget(t, uid), stale)
  {
    forall u | u in Forget(t, uid).objects ensures PartedAt(Forget(t, uid), u, stale) {}
  }

  lemma DeleteObservedInv(t: Timeline, lim: Limits, obs: Observation, now: int)
    requires Inv(t, lim)
    ensures Inv(DeleteObserved(t, lim, obs, now), lim)
  {
    if obs.uid in t.objects {
      var rev := RevisionOf(obs, Deleted, now, t.objects[obs.uid].rec.lastObservedAt, false).(manifest := None);
      AppendCore(t, lim, rev);
      ForgetInv(Append(t, lim, rev), lim, obs.uid);
    }
  }

  lemma DeleteObservedParted(t: Timeline, lim: Limits, obs: Observation, now: int, stale: set<string>)
    requires Core(t) && Parted(t, stale)
    ensures Parted(DeleteObserved(t, lim, obs, now), stale)
  {
    if obs.uid in t.objects {
      var rev := RevisionOf(obs, Deleted, now, t.objects[obs.uid].rec.lastObservedAt, false).(manifest := None);
      AppendParted(t, lim, rev, stale);
      ForgetParted(Append(t, lim, rev), obs.uid, stale);
    }
  }

  lemma ObserveNewInv(t: Timeline, lim: Limits, obs: Observation, now: int, seed: bool)
    requires Inv(t, lim) && obs.uid !in t.objects
    ensures Inv(ObserveNew(t, lim, obs, now, seed), lim)
  {
    var rev := RevisionOf(obs, if seed then FirstObserved else Created, now, None, false);
    var t1 := Admit(t, obs);
    AdmitScoped(t, obs);
    AppendCore(t1, lim, rev);
    ScopedKeeps(t1, Append(t1, lim, rev));
    CommitInv(Append(t1, lim, rev), lim, obs, now);
  }

  lemma AdmitParted(t: Timeline, obs: Observation, stale: set<string>)
    requires Parted(t, stale) && obs.uid !in t.objects && !obs.deleted
    ensures Parted(Admit(t, obs), Stale(t, obs, stale))
  {
    CountZero(t.entries, obs.uid);
    forall u | u in Admit(t, obs).objects ensures PartedAt(Admit(t, obs), u, Stale(t, obs, stale)) {
      if u != obs.uid { assert PartedAt(t, u, stale); }
    }
  }

  lemma ObserveNewParted(t: Timeline, lim: Limits, obs: Observation, now: int, seed: bool, stale: set<string>)
    requires Inv(t, lim) && Parted(t, stale) && obs.uid !in t.objects && !obs.deleted
    ensures Parted(ObserveNew(t, lim, obs, now, seed), Stale(t, obs, stale))
  {
    var rev := RevisionOf(obs, if seed then FirstObserved else Created, now, None, false);
    AdmitScoped(t, obs);
    AdmitParted(t, obs, stale);
    AppendParted(Admit(t, obs), lim, rev, Stale(t, obs, stale));
    CommitParted(Append(Admit(t, obs), lim, rev), obs, now, Stale(t, obs, stale));
  }

  lemma ObserveRevisedInv(t: Timeline, lim: Limits, obs: Observation, change: Change, now: int, seed: bool)
    requires Inv(t, lim) && obs.uid in t.objects
    ensures Inv(ObserveRevised(t, lim, obs, change, now, seed), lim)
  {
    var rev := RevisionOf(obs, change, now, t.objects[obs.uid].rec.lastObservedAt, seed);
    AppendCore(t, lim, rev);
    CommitInv(Append(t, lim, rev), lim, obs, now);
  }

  lemma ObserveRevisedParted(t: Timeline, lim: Limits, obs: Observation, change: Change, now: int, seed: bool,
                             stale: set<string>)
    requires Core(t) && Parted(t, stale) && obs.uid in t.objects
    ensures Parted(ObserveRevised(t, lim, obs, change, now, seed), stale)
  {
    var rev := RevisionOf(obs, change, now, t.objects[obs.uid].rec.lastObservedAt, seed);
    AppendParted(t, lim, rev, stale);
    CommitParted(Append(t, lim, rev), obs, now, stale);
  }

  lemma FoldIntoScoped(t: Timeline, lim: Limits, obs: Observation, now: int, i: nat)
    requires Inv(t, lim) && obs.uid in t.objects && i < |t.entries|
    ensures var r := FoldInto(t, obs, now, i); Scoped(r) && (r.mirror.Some? ==> MirrorsObjects(r.mirror.value, r))
  {
  }

  lemma SameClassificationKeeps(t: Timeline, r: Timeline)
    requires SameClassification(t, r) && Scoped(t) && (t.mirror.Some? ==> MirrorsObjects(t.mirror.value, t))
    ensures Scoped(r) && (r.mirror.Some? ==> MirrorsObjects(r.mirror.value, r))
  {
  }

  lemma CoalesceInv(t: Timeline, lim: Limits, obs: Observation, now: int, i: nat)
    requires Inv(t, lim) && obs.uid in t.objects && i < |t.entries|
    ensures Inv(EnforceBounds(FoldInto(t, obs, now, i), lim), lim)
  {
    var t1 := FoldInto(t, obs, now, i);
    FoldIntoCore(t, obs, now, i);
    FoldIntoScoped(t, lim, obs, now, i);
    EnforceBoundsCore(t1, lim);
    SameClassificationKeeps(t1, EnforceBounds(t1, lim));
  }

  lemma CoalesceParted(t: Timeline, lim: Limits, obs: Observation, now: int, i: nat, stale: set<string>)
    requires Core(t) && Parted(t, stale) && obs.uid in t.objects && i < |t.entries|
    ensures Parted(EnforceBounds(FoldInto(t, obs, now, i), lim), stale)
  {
    FoldIntoCore(t, obs, now, i);
    FoldIntoParted(t, obs, now, i, stale);
    EnforceBoundsParted(FoldInto(t, obs, now, i), lim, stale);
  }

  lemma CoalesceOutgrows(t: Timeline, lim: Limits, obs: Observation, now: int, i: nat)
    requires obs.uid in t.objects && i < |t.entries|
    ensures var r := EnforceBounds(FoldInto(t, obs, now, i), lim);
            NoneOutgrows(t, r, lim) && (Within(t, lim) ==> Within(r, lim))
  {
    var t1 := FoldInto(t, obs, now, i);
    forall u
      ensures GrowsAt(t.entries, EnforceBounds(t1, lim).entries, lim, u)
      ensures u in t.objects ==> EnforceBounds(t1, lim).objects[u].count <= t.objects[u].count
    {
      FoldedCounts(t, obs, now, i, u);
      EnforceBoundsShrinks(t1, lim, u);
    }
  }

  lemma TouchInv(t: Timeline, lim: Limits, uid: string, now: int)
    requires Inv(t, lim) && uid in t.objects
    ensures Inv(Touch(t, uid, now), lim)
  {
  }

  lemma ObserveChangedInv(t: Timeline, lim: Limits, obs: Observation, now: int, seed: bool)
    requires Inv(t, lim) && obs.uid in t.objects
    ensures Inv(ObserveChanged(t, lim, obs, now, seed), lim)
  {
    var target := CoalesceTarget(t, lim, obs.uid, now);
    if obs.specHash != t.objects[obs.uid].rec.specHash {
      ObserveRevisedInv(t, lim, obs, SpecChanged, now, seed);
    } else if !seed && target.Some? {
      CoalesceInv(t, lim, obs, now, target.value);
    } else {
      ObserveRevisedInv(t, lim, obs, StatusTransition, now, seed);
    }
  }

  /** Every observation, in any state, keeps sequence order, the byte total, both
      global bounds, the scope partition and the mirror. */
  lemma ObserveKeepsInv(t: Timeline, lim: Limits, obs: Observation, now: int, seed: bool)
    requires Inv(t, lim)
    ensures Inv(Observe(t, lim, obs, now, seed), lim)
  {
    if obs.deleted {
      DeleteObservedInv(t, lim, obs, now);
    } else if obs.uid !in t.objects {
      ObserveNewInv(t, lim, obs, now, seed);
    } else {
      TouchInv(t, lim, obs.uid, now);
      ObserveChangedInv(t, lim, obs, now, seed);
    }
  }

  lemma ObserveChangedParted(t: Timeline, lim: Limits, obs: Observation, now: int, seed: bool, stale: set<string>)
    requires Core(t) && Parted(t, stale) && obs.uid in t.objects
    ensures Parted(ObserveChanged(t, lim, obs, now, seed), stale)
  {
    var target := CoalesceTarget(t, lim, obs.uid, now);
    if obs.specHash != t.objects[obs.uid].rec.specHash {
      ObserveRevisedParted(t, lim, obs, SpecChanged, now, seed, stale);
    } else if !seed && target.Some? {
      CoalesceParted(t, lim, obs, now, target.value, stale);
    } else {
      ObserveRevisedParted(t, lim, obs, StatusTransition, now, seed, stale);
    }
  }

  lemma TouchParted(t: Timeline, uid: string, now: int, stale: set<string>)
    requires Parted(t, stale) && uid in t.objects
    ensures Parted(Touch(t, uid, now), stale)
  {
    forall u | u in t.objects ensures PartedAt(Touch(t, uid, now), u, stale) {}
  }

  /** An observation moves no object between the exact and the stale but the one it admits. */
  lemma ObserveParted(t: Timeline, lim: Limits, obs: Observation, now: int, seed: bool, stale: set<string>)
    requires Inv(t, lim) && Parted(t, stale)
    ensures Parted(Observe(t, lim, obs, now, seed), Stale(t, obs, stale))
  {
    if obs.deleted {
      DeleteObservedParted(t, lim, obs, now, stale);
    } else if obs.uid !in t.objects {
      ObserveNewParted(t, lim, obs, now, seed, stale);
    } else {
      TouchParted(t, obs.uid, now, stale);
      ObserveChangedParted(t, lim, obs, now, seed, stale);
    }
  }

  /* ---------- the cap ---------- */

  lemma ObserveRevisedOutgrows(t: Timeline, lim: Limits, obs: Observation, change: Change, now: int, seed: bool)
    requires obs.uid in t.objects
    ensures var r := ObserveRevised(t, lim, obs, change, now, seed);
            && (t.objects[obs.uid].count == CountOf(t.entries, obs.uid) ==> NoneOutgrows(t, r, lim))
            && (Within(t, lim) ==> Within(r, lim))
  {
    AppendOutgrows(t, lim, RevisionOf(obs, change, now, t.objects[obs.uid].rec.lastObservedAt, seed));
  }

  lemma ObserveChangedOutgrows(t: Timeline, lim: Limits, obs: Observation, now: int, seed: bool)
    requires obs.uid in t.objects
    ensures var r := ObserveChanged(t, lim, obs, now, seed);
            && (t.objects[obs.uid].count == CountOf(t.entries, obs.uid) ==> NoneOutgrows(t, r, lim))
            && (Within(t, lim) ==> Within(r, lim))
  {
    var target := CoalesceTarget(t, lim, obs.uid, now);
    if obs.specHash != t.objects[obs.uid].rec.specHash {
      ObserveRevisedOutgrows(t, lim, obs, SpecChanged, now, seed);
    } else if !seed && target.Some? {
      CoalesceOutgrows(t, lim, obs, now, target.value);
    } else {
      ObserveRevisedOutgrows(t, lim, obs, StatusTransition, now, seed);
    }
  }

  lemma ObserveNewOutgrows(t: Timeline, lim: Limits, obs: Observation, now: int, seed: bool)
    requires obs.uid !in t.objects
    ensures var r := ObserveNew(t, lim, obs, now, seed);
            && (CountOf(t.entries, obs.uid) == 0 ==> NoneOutgrows(t, r, lim))
            && (Within(t, lim) ==> Within(r, lim))
  {
    AppendOutgrows(Admit(t, obs), lim, RevisionOf(obs, if seed then FirstObserved else Created, now, None, false));
  }

  lemma DeleteObservedOutgrows(t: Timeline, lim: Limits, obs: Observation, now: int)
    ensures var r := DeleteObserved(t, lim, obs, now);
            && (obs.uid !in t.objects || t.objects[obs.uid].count == CountOf(t.entries, obs.uid) ==>
                  NoneOutgrows(t, r, lim))
            && (Within(t, lim) ==> Within(r, lim))
  {
    if obs.uid in t.objects {
      AppendOutgrows(t, lim,
                     RevisionOf(obs, Deleted, now, t.objects[obs.uid].rec.lastObservedAt, false).(manifest := None));
    }
  }

  /** Whatever the state, an observation keeps the cached counts within the cap; where they
      are exact and it is fresh, no incarnation outgrows the cap. */
  lemma ObserveOutgrows(t: Timeline, lim: Limits, obs: Observation, now: int, seed: bool)
    ensures var r := Observe(t, lim, obs, now, seed);
            (Counted(t) && Fresh(t, obs) ==> NoneOutgrows(t, r, lim)) && (Within(t, lim) ==> Within(r, lim))
  {
    if obs.deleted {
      DeleteObservedOutgrows(t, lim, obs, now);
    } else if obs.uid !in t.objects {
      ObserveNewOutgrows(t, lim, obs, now, seed);
    } else {
      ObserveChangedOutgrows(t, lim, obs, now, seed);
    }
  }

  lemma DeleteUnobservedOutgrows(t: Timeline, lim: Limits, uid: string, now: int)
    ensures var r := DeleteUnobserved(t, lim, uid, now);
            (Counted(t) ==> NoneOutgrows(t, r, lim)) && (Within(t, lim) ==> Within(r, lim))
  {
    if uid in t.objects { AppendOutgrows(t, lim, Tombstone(t.objects[uid].rec, uid, now)); }
  }

  lemma OutgrowsTransitive(a: Timeline, b: Timeline, c: Timeline, lim: Limits)
    requires NoneOutgrows(a, b, lim) && NoneOutgrows(b, c, lim)
    ensures NoneOutgrows(a, c, lim)
  {
    forall uid ensures lim.perObject > 0 ==> GrowsAt(a.entries, c.entries, lim, uid) {
      assert lim.perObject > 0 ==> GrowsAt(a.entries, b.entries, lim, uid) && GrowsAt(b.entries, c.entries, lim, uid);
    }
  }

  /* ---------- steps and runs ---------- */

  /** A fresh observation keeps the cached counts and targets, and nothing outgrows the cap. */
  lemma ObserveKeepsCounts(t: Timeline, lim: Limits, obs: Observation, now: int, seed: bool)
    requires Inv(t, lim) && Counted(t) && Fresh(t, obs)
    ensures var r := Observe(t, lim, obs, now, seed); Counted(r) && NoneOutgrows(t, r, lim)
  {
    var r := Observe(t, lim, obs, now, seed);
    assert forall uid :: uid in t.objects ==> CountedAt(t, uid) && PartedAt(t, uid, {});
    ObserveParted(t, lim, obs, now, seed, {});
    forall uid | uid in r.objects ensures CountedAt(r, uid) {
      assert PartedAt(r, uid, Stale(t, obs, {}));
      assert uid !in Stale(t, obs, {});
    }
    ObserveOutgrows(t, lim, obs, now, seed);
  }

  lemma DeleteUnobservedInv(t: Timeline, lim: Limits, uid: string, now: int)
    requires Inv(t, lim)
    ensures Inv(DeleteUnobserved(t, lim, uid, now), lim)
  {
    if uid in t.objects {
      var rev := Tombstone(t.objects[uid].rec, uid, now);
      AppendCore(t, lim, rev);
      ForgetInv(Append(t, lim, rev), lim, uid);
    }
  }

  lemma DeleteUnobservedParted(t: Timeline, lim: Limits, uid: string, now: int, stale: set<string>)
    requires Core(t) && Parted(t, stale)
    ensures Parted(DeleteUnobserved(t, lim, uid, now), stale)
  {
    if uid in t.objects {
      var rev := Tombstone(t.objects[uid].rec, uid, now);
      AppendParted(t, lim, rev, stale);
      ForgetParted(Append(t, lim, rev), uid, stale);
    }
  }

  lemma {:induction false} DeleteAllKeeps(t: Timeline, lim: Limits, gone: seq<string>, now: int)
    requires Inv(t, lim)
    ensures var r := DeleteAll(t, lim, gone, now);
            Inv(r, lim) && (Within(t, lim) ==> Within(r, lim)) && (Counted(t) ==> Counted(r) && NoneOutgrows(t, r, lim))
    decreases |gone|
  {
    if gone != [] {
      var t1 := DeleteUnobserved(t, lim, gone[0], now);
      DeleteUnobservedInv(t, lim, gone[0], now);
      DeleteUnobservedOutgrows(t, lim, gone[0], now);
      DeleteAllKeeps(t1, lim, gone[1..], now);
      if Counted(t) {
        CountedIsParted(t);
        DeleteUnobservedParted(t, lim, gone[0], now, {});
        CountedIsParted(t1);
        OutgrowsTransitive(t, t1, DeleteAll(t, lim, gone, now), lim);
      }
    }
  }

  lemma CountedIsParted(t: Timeline)
    ensures Counted(t) <==> Parted(t, {})
  {
    assert forall uid :: uid in t.objects ==> (CountedAt(t, uid) <==> PartedAt(t, uid, {}));
  }

  lemma {:induction false} DeleteAllParted(t: Timeline, lim: Limits, gone: seq<string>, now: int, stale: set<string>)
    requires Inv(t, lim) && Parted(t, stale)
    ensures Parted(DeleteAll(t, lim, gone, now), stale)
    decreases |gone|
  {
    if gone != [] {
      DeleteUnobservedInv(t, lim, gone[0], now);
      DeleteUnobservedParted(t, lim, gone[0], now, stale);
      DeleteAllParted(DeleteUnobserved(t, lim, gone[0], now), lim, gone[1..], now, stale);
    }
  }

  lemma {:induction false} ObserveAllKeeps(t: Timeline, lim: Limits, obs: seq<Observation>, now: int)
    requires Inv(t, lim)
    ensures var r := ObserveAll(t, lim, obs, now);
            Inv(r, lim) && (Within(t, lim) ==> Within(r, lim))
            && (Counted(t) && FreshAll(t, lim, obs, now) ==> Counted(r) && NoneOutgrows(t, r, lim))
    decreases |obs|
  {
    if obs != [] {
      var t1 := Observe(t, lim, obs[0], now, true);
      ObserveKeepsInv(t, lim, obs[0], now, true);
      ObserveOutgrows(t, lim, obs[0], now, true);
      ObserveAllKeeps(t1, lim, obs[1..], now);
      if Counted(t) && FreshAll(t, lim, obs, now) {
        ObserveKeepsCounts(t, lim, obs[0], now, true);
        OutgrowsTransitive(t, t1, ObserveAll(t, lim, obs, now), lim);
      }
    }
  }

  lemma {:induction false} ObserveAllParted(t: Timeline, lim: Limits, obs: seq<Observation>, now: int,
                                            stale: set<string>)
    requires Inv(t, lim) && Parted(t, stale)
    ensures Parted(ObserveAll(t, lim, obs, now), StaleAll(t, lim, obs, now, stale))
    decreases |obs|
  {
    if obs != [] {
      ObserveKeepsInv(t, lim, obs[0], now, true);
      ObserveParted(t, lim, obs[0], now, true, stale);
      ObserveAllParted(Observe(t, lim, obs[0], now, true), lim, obs[1..], now, Stale(t, obs[0], stale));
    }
  }

  /** A step keeps the invariant and the cached counts within the cap; a fresh one keeps the
      counts exact, and nothing outgrows the cap. */
  lemma StepKeeps(t: Timeline, lim: Limits, op: Op)
    requires Inv(t, lim)
    ensures var r := Step(t, lim, op);
            Inv(r, lim) && (Within(t, lim) ==> Within(r, lim))
            && (Counted(t) && FreshOp(t, lim, op) ==> Counted(r) && NoneOutgrows(t, r, lim))
  {
    match op {
      case Watch(obs, now) =>
        ObserveKeepsInv(t, lim, obs, now, false);
        ObserveOutgrows(t, lim, obs, now, false);
        if Counted(t) && Fresh(t, obs) { ObserveKeepsCounts(t, lim, obs, now, false); }
      case Listing(scope, obs, now) =>
        ListingKeeps(t, lim, Gone(t, scope, obs), obs, now);
    }
  }

  lemma ListingKeeps(t: Timeline, lim: Limits, gone: seq<string>, obs: seq<Observation>, now: int)
    requires Inv(t, lim)
    ensures var t1 := DeleteAll(t, lim, gone, now); var r := ObserveAll(t1, lim, obs, now);
            Inv(r, lim) && (Within(t, lim) ==> Within(r, lim))
            && (Counted(t) && FreshAll(t1, lim, obs, now) ==> Counted(r) && NoneOutgrows(t, r, lim))
  {
    var t1 := DeleteAll(t, lim, gone, now);
    DeleteAllKeeps(t, lim, gone, now);
    ObserveAllKeeps(t1, lim, obs, now);
    if Counted(t) && FreshAll(t1, lim, obs, now) { OutgrowsTransitive(t, t1, ObserveAll(t1, lim, obs, now), lim); }
  }

  lemma StepParted(t: Timeline, lim: Limits, op: Op, stale: set<string>)
    requires Inv(t, lim) && Parted(t, stale)
    ensures Parted(Step(t, lim, op), StaleStep(t, lim, op, stale))
  {
    match op {
      case Watch(obs, now) => ObserveParted(t, lim, obs, now, false, stale);
      case Listing(scope, obs, now) =>
        DeleteAllKeeps(t, lim, Gone(t, scope, obs), now);
        DeleteAllParted(t, lim, Gone(t, scope, obs), now, stale);
        ObserveAllParted(DeleteAll(t, lim, Gone(t, scope, obs), now), lim, obs, now, stale);
    }
  }

  lemma {:induction false} RunKeeps(t: Timeline, lim: Limits, ops: seq<Op>)
    requires Inv(t, lim)
    ensures var r := Run(t, lim, ops);
            Inv(r, lim) && (Within(t, lim) ==> Within(r, lim))
            && (Counted(t) && FreshRun(t, lim, ops) ==> Counted(r) && NoneOutgrows(t, r, lim))
    decreases |ops|
  {
    if ops != [] {
      StepKeeps(t, lim, ops[0]);
      RunKeeps(Step(t, lim, ops[0]), lim, ops[1..]);
      if Counted(t) && FreshRun(t, lim, ops) {
        OutgrowsTransitive(t, Step(t, lim, ops[0]), Run(t, lim, ops), lim);
      }
    }
  }

  lemma {:induction false} RunParted(t: Timeline, lim: Limits, ops: seq<Op>, stale: set<string>)
    requires Inv(t, lim) && Parted(t, stale)
    ensures Parted(Run(t, lim, ops), StaleRun(t, lim, ops, stale))
    decreases |ops|
  {
    if ops != [] {
      StepKeeps(t, lim, ops[0]);
      StepParted(t, lim, ops[0], stale);
      RunParted(Step(t, lim, ops[0]), lim, ops[1..], StaleStep(t, lim, ops[0], stale));
    }
  }

  lemma PartedIff(t: Timeline, stale: set<string>)
    requires Parted(t, stale)
    ensures Counted(t) <==> NoneStale(t, stale)
  {
    assert forall uid :: uid in t.objects ==> PartedAt(t, uid, stale);
    assert Counted(t) ==> forall uid :: uid in t.objects ==> CountedAt(t, uid);
  }

  /** Over every run, fresh or not, from a state of exact counts, whatever its cap: the
      counts and targets end exact if and only if no live object's present incarnation
      began while revisions of an earlier one were retained. */
  lemma RunCountsIff(t: Timeline, lim: Limits, ops: seq<Op>)
    requires Inv(t, lim) && Counted(t)
    ensures Counted(Run(t, lim, ops)) <==> NoneStale(Run(t, lim, ops), StaleRun(t, lim, ops, {}))
  {
    CountedIsParted(t);
    RunParted(t, lim, ops, {});
    PartedIff(Run(t, lim, ops), StaleRun(t, lim, ops, {}));
  }

  /** Over every run from an empty store, with or without a persister: sequences
      strictly increase, the byte total is the summed size, the global bounds
      hold, scopes partition the live objects, the mirror is exact and no cached count
      exceeds the cap. When no dead uid returns while its revisions are retained, the
      per-object cap holds too, and every object's cached count and target describe its entries. */
  lemma RunInvariant(persisted: bool, lim: Limits, ops: seq<Op>)
    ensures var r := Run(Empty(persisted), lim, ops);
            Inv(r, lim) && Within(r, lim)
            && (lim.maxRevisions > 0 ==> |r.entries| <= lim.maxRevisions)
            && (lim.maxBytes > 0 ==> TotalSize(r.entries) <= lim.maxBytes)
            && (FreshRun(Empty(persisted), lim, ops) ==> Counted(r) && Capped(r, lim))
  {
    RunKeeps(Empty(persisted), lim, ops);
    OutgrowsCapped(Empty(persisted), Run(Empty(persisted), lim, ops), lim);
  }

  lemma OutgrowsCapped(t: Timeline, r: Timeline, lim: Limits)
    requires Capped(t, lim)
    ensures NoneOutgrows(t, r, lim) ==> Capped(r, lim)
  {
    if NoneOutgrows(t, r, lim) && lim.perObject > 0 {
      forall uid ensures CountOf(r.entries, uid) <= lim.perObject { assert GrowsAt(t.entries, r.entries, lim, uid); }
    }
  }
}
