/** The revision timeline as a value: what each operation of the store does to
    the retained entries, the per-object classification state, the scope sets
    and the persisted mirror. `HistoryStore` proves that the mutable store
    computes exactly these functions; the other History modules prove what the
    functions guarantee. */
module History {
  import opened Prelude
  import opened Lex
  import opened Json

  datatype Identity = Identity(scope: string, group: string, version: string, kind: string,
                               namespace: string, name: string)

  datatype Actor = Actor(manager: string, operation: string)

  datatype FieldOwner = FieldOwner(manager: string, paths: seq<string>)

  /** A captured definition: its encoded length and the value it decodes to, if it does. */
  datatype Manifest = Manifest(size: nat, doc: Option<Json>)

  datatype Observation = Observation(id: Identity, uid: string, generation: int,
                                     manifest: Option<Manifest>, specHash: string, statusHash: string,
                                     actor: Actor, owners: seq<FieldOwner>, deleted: bool)

  datatype Change = Created | FirstObserved | SpecChanged | StatusTransition | Deleted | DeletedUnobserved

  /** Times are clock readings; `None` is Go's zero time. */
  datatype Revision = Revision(seqNo: nat, id: Identity, uid: string, generation: int, change: Change,
                               afterGap: bool, actor: Actor, observedAt: int, prevObservedAt: Option<int>,
                               coalesced: nat, specHash: string, statusHash: string,
                               owners: seq<FieldOwner>, manifest: Option<Manifest>)

  /** A bound that is not positive is no bound. */
  datatype Limits = Limits(perObject: int, maxRevisions: int, maxBytes: int, coalesceWindow: int)

  datatype ObjectRecord = ObjectRecord(id: Identity, specHash: string, statusHash: string,
                                       lastObservedAt: Option<int>)

  /** What a persister holds, and reloads at boot. */
  datatype Contents = Contents(revisions: map<nat, Revision>, objects: map<string, ObjectRecord>,
                               seqNo: nat, evicted: bool)

  /** One live incarnation; `last` names the coalescing target by its sequence. */
  datatype ObjectState = ObjectState(rec: ObjectRecord, count: int, last: Option<nat>)

  /** The store's whole state. `mirror` is the persister's contents, absent when
      there is none. `dropped` is not kept by the store: it is the history of
      evicted revisions, oldest eviction first, that conservation is stated over. */
  datatype Timeline = Timeline(seqNo: nat, generation: nat, entries: seq<Revision>,
                               objects: map<string, ObjectState>, scopes: map<string, set<string>>,
                               totalBytes: int, evicted: bool, mirror: Option<Contents>, dropped: seq<Revision>)

  /* ---------- sizes and lookups ---------- */

  function PathsSize(paths: seq<string>): nat {
    if paths == [] then 0 else |paths[0]| + PathsSize(paths[1..])
  }

  function OwnersSize(owners: seq<FieldOwner>): nat {
    if owners == [] then 0
    else |owners[0].manager| + PathsSize(owners[0].paths) + OwnersSize(owners[1..])
  }

  function RevisionSize(rev: Revision): nat {
    (if rev.manifest.Some? then rev.manifest.value.size else 0) + OwnersSize(rev.owners)
  }

  /** Position of the oldest entry of uid, or the length when it has none. */
  function FirstOf(entries: seq<Revision>, uid: string): (i: nat)
    ensures i <= |entries|
    ensures i < |entries| ==> entries[i].uid == uid
    ensures forall j :: 0 <= j < i ==> entries[j].uid != uid
  {
    if entries == [] then 0
    else if entries[0].uid == uid then 0
    else 1 + FirstOf(entries[1..], uid)
  }

  /** Position of the entry with the given sequence, or the length. */
  function IndexOf(entries: seq<Revision>, seqNo: nat): (i: nat)
    ensures i <= |entries|
    ensures i < |entries| ==> entries[i].seqNo == seqNo
    ensures forall j :: 0 <= j < i ==> entries[j].seqNo != seqNo
  {
    if entries == [] then 0
    else if entries[0].seqNo == seqNo then 0
    else 1 + IndexOf(entries[1..], seqNo)
  }

  function ScopeSet(scopes: map<string, set<string>>, scope: string): set<string> {
    if scope in scopes then scopes[scope] else {}
  }

  /* ---------- the persister's mutations ---------- */

  function MirrorAppend(m: Option<Contents>, rev: Revision): Option<Contents> {
    if m.None? then m
    else Some(m.value.(revisions := m.value.revisions[rev.seqNo := rev],
                       seqNo := if rev.seqNo > m.value.seqNo then rev.seqNo else m.value.seqNo))
  }

  function MirrorUpdate(m: Option<Contents>, rev: Revision): Option<Contents> {
    if m.None? then m else Some(m.value.(revisions := m.value.revisions[rev.seqNo := rev]))
  }

  function MirrorEvict(m: Option<Contents>, seqNo: nat): Option<Contents> {
    if m.None? then m else Some(m.value.(revisions := m.value.revisions - {seqNo}))
  }

  function MirrorMarkEvicted(m: Option<Contents>): Option<Contents> {
    if m.None? then m else Some(m.value.(evicted := true))
  }

  function MirrorPut(m: Option<Contents>, uid: string, rec: ObjectRecord): Option<Contents> {
    if m.None? then m else Some(m.value.(objects := m.value.objects[uid := rec]))
  }

  function MirrorDelete(m: Option<Contents>, uid: string): Option<Contents> {
    if m.None? then m else Some(m.value.(objects := m.value.objects - {uid}))
  }

  /* ---------- retention ---------- */

  function Uncount(st: ObjectState, seqNo: nat): ObjectState {
    st.(count := st.count - 1, last := if st.last == Some(seqNo) then None else st.last)
  }

  /** The live objects without one evicted revision. */
  function UncountIn(objects: map<string, ObjectState>, rev: Revision): map<string, ObjectState> {
    if rev.uid in objects then objects[rev.uid := Uncount(objects[rev.uid], rev.seqNo)] else objects
  }

  function MirrorEviction(m: Option<Contents>, seqNo: nat, evicted: bool): Option<Contents> {
    if evicted then MirrorEvict(m, seqNo) else MirrorMarkEvicted(MirrorEvict(m, seqNo))
  }

  function Evict(t: Timeline, i: nat): (r: Timeline)
    requires i < |t.entries|
    ensures r.objects.Keys == t.objects.Keys && r.mirror.Some? == t.mirror.Some?
  {
    var rev := t.entries[i];
    t.(entries := t.entries[..i] + t.entries[i + 1..],
       totalBytes := t.totalBytes - RevisionSize(rev),
       mirror := MirrorEviction(t.mirror, rev.seqNo, t.evicted),
       evicted := true,
       dropped := t.dropped + [rev],
       objects := UncountIn(t.objects, rev))
  }

  predicate Over(t: Timeline, lim: Limits) {
    || (lim.maxRevisions > 0 && |t.entries| > lim.maxRevisions)
    || (lim.maxBytes > 0 && t.totalBytes > lim.maxBytes)
  }

  function EnforceBounds(t: Timeline, lim: Limits): (r: Timeline)
    ensures r.objects.Keys == t.objects.Keys && r.mirror.Some? == t.mirror.Some?
    decreases |t.entries|
  {
    if |t.entries| > 0 && Over(t, lim) then EnforceBounds(Evict(t, 0), lim) else t
  }

  function EnforcePerObject(t: Timeline, lim: Limits, uid: string): (r: Timeline)
    requires uid in t.objects
    ensures r.objects.Keys == t.objects.Keys && r.mirror.Some? == t.mirror.Some?
  {
    if lim.perObject <= 0 || t.objects[uid].count <= lim.perObject then t
    else
      var i := FirstOf(t.entries, uid);
      if i < |t.entries| then Evict(t, i) else t
  }

  /** Retains one revision under the next sequence, before any bound is enforced. */
  function Retain(t: Timeline, draft: Revision): (r: Timeline)
    requires draft.uid in t.objects
    ensures r.objects.Keys == t.objects.Keys && r.mirror.Some? == t.mirror.Some?
  {
    var rev := draft.(seqNo := t.seqNo + 1);
    var st := t.objects[rev.uid];
    t.(seqNo := rev.seqNo,
       entries := t.entries + [rev],
       totalBytes := t.totalBytes + RevisionSize(rev),
       objects := t.objects[rev.uid := st.(count := st.count + 1, last := Some(rev.seqNo))],
       generation := t.generation + 1,
       mirror := MirrorAppend(t.mirror, rev))
  }

  function Append(t: Timeline, lim: Limits, draft: Revision): (r: Timeline)
    requires draft.uid in t.objects
    ensures r.objects.Keys == t.objects.Keys && r.mirror.Some? == t.mirror.Some?
  {
    EnforceBounds(EnforcePerObject(Retain(t, draft), lim, draft.uid), lim)
  }

  /* ---------- folding one observation ---------- */

  function RevisionOf(obs: Observation, change: Change, now: int, prev: Option<int>, afterGap: bool): Revision {
    Revision(0, obs.id, obs.uid, obs.generation, change, afterGap, obs.actor, now, prev, 0,
             obs.specHash, obs.statusHash, obs.owners, obs.manifest)
  }

  function Commit(t: Timeline, obs: Observation, now: int): (r: Timeline)
    requires obs.uid in t.objects
    ensures r.objects.Keys == t.objects.Keys && r.mirror.Some? == t.mirror.Some?
  {
    var st := t.objects[obs.uid];
    var rec := st.rec.(specHash := obs.specHash, statusHash := obs.statusHash, lastObservedAt := Some(now));
    t.(objects := t.objects[obs.uid := st.(rec := rec)], mirror := MirrorPut(t.mirror, obs.uid, rec))
  }

  /** The position of the entry a status transition would fold into, if any. */
  function CoalesceTarget(t: Timeline, lim: Limits, uid: string, now: int): (i: Option<nat>)
    requires uid in t.objects
    ensures i.Some? ==> i.value < |t.entries| && t.objects[uid].last == Some(t.entries[i.value].seqNo)
  {
    var last := t.objects[uid].last;
    if lim.coalesceWindow <= 0 || last.None? then None
    else
      var i := IndexOf(t.entries, last.value);
      if i == |t.entries| || t.entries[i].change != StatusTransition then None
      else if now - t.entries[i].observedAt >= lim.coalesceWindow then None
      else Some(i)
  }

  function Folded(rev: Revision, obs: Observation, now: int): Revision {
    rev.(manifest := obs.manifest, statusHash := obs.statusHash, generation := obs.generation,
         actor := obs.actor, owners := obs.owners, observedAt := now, coalesced := rev.coalesced + 1)
  }

  /** Folds a status transition into entry i, before the bounds are enforced. */
  function FoldInto(t: Timeline, obs: Observation, now: int, i: nat): (r: Timeline)
    requires obs.uid in t.objects && i < |t.entries|
    ensures r.objects.Keys == t.objects.Keys && r.mirror.Some? == t.mirror.Some?
  {
    var rev := Folded(t.entries[i], obs, now);
    var t1 := t.(entries := t.entries[i := rev],
                 totalBytes := t.totalBytes - RevisionSize(t.entries[i]) + RevisionSize(rev),
                 mirror := MirrorUpdate(t.mirror, rev));
    Commit(t1, obs, now).(generation := t.generation + 1)
  }

  function Without(scopes: map<string, set<string>>, uid: string): map<string, set<string>> {
    map s | s in scopes :: scopes[s] - {uid}
  }

  function Forget(t: Timeline, uid: string): (r: Timeline)
    ensures r.mirror.Some? == t.mirror.Some?
  {
    t.(objects := t.objects - {uid}, scopes := Without(t.scopes, uid), mirror := MirrorDelete(t.mirror, uid))
  }

  function DeleteObserved(t: Timeline, lim: Limits, obs: Observation, now: int): (r: Timeline)
    ensures r.mirror.Some? == t.mirror.Some?
  {
    if obs.uid !in t.objects then t
    else
      var rev := RevisionOf(obs, Deleted, now, t.objects[obs.uid].rec.lastObservedAt, false).(manifest := None);
      Forget(Append(t, lim, rev), obs.uid)
  }

  function Tombstone(rec: ObjectRecord, uid: string, now: int): Revision {
    Revision(0, rec.id, uid, 0, DeletedUnobserved, true, Actor("", ""), now, rec.lastObservedAt, 0,
             "", "", [], None)
  }

  function DeleteUnobserved(t: Timeline, lim: Limits, uid: string, now: int): (r: Timeline)
    ensures r.mirror.Some? == t.mirror.Some?
  {
    if uid !in t.objects then t
    else Forget(Append(t, lim, Tombstone(t.objects[uid].rec, uid, now)), uid)
  }

  /** The classification state an unknown uid starts from. */
  function Admit(t: Timeline, obs: Observation): (r: Timeline)
    ensures r.mirror.Some? == t.mirror.Some?
  {
    t.(objects := t.objects[obs.uid := ObjectState(ObjectRecord(obs.id, "", "", None), 0, None)],
       scopes := t.scopes[obs.id.scope := ScopeSet(t.scopes, obs.id.scope) + {obs.uid}])
  }

  function Touch(t: Timeline, uid: string, now: int): (r: Timeline)
    requires uid in t.objects
    ensures r.mirror.Some? == t.mirror.Some?
  {
    var st := t.objects[uid];
    var rec := st.rec.(lastObservedAt := Some(now));
    t.(objects := t.objects[uid := st.(rec := rec)], mirror := MirrorPut(t.mirror, uid, rec))
  }

  function ObserveNew(t: Timeline, lim: Limits, obs: Observation, now: int, seed: bool): (r: Timeline)
    ensures r.mirror.Some? == t.mirror.Some?
  {
    var rev := RevisionOf(obs, if seed then FirstObserved else Created, now, None, false);
    Commit(Append(Admit(t, obs), lim, rev), obs, now)
  }

  function ObserveRevised(t: Timeline, lim: Limits, obs: Observation, change: Change, now: int,
                          seed: bool): (r: Timeline)
    requires obs.uid in t.objects
    ensures r.mirror.Some? == t.mirror.Some?
  {
    Commit(Append(t, lim, RevisionOf(obs, change, now, t.objects[obs.uid].rec.lastObservedAt, seed)), obs, now)
  }

  function ObserveChanged(t: Timeline, lim: Limits, obs: Observation, now: int, seed: bool): (r: Timeline)
    requires obs.uid in t.objects
    ensures r.mirror.Some? == t.mirror.Some?
  {
    if obs.specHash != t.objects[obs.uid].rec.specHash then
      ObserveRevised(t, lim, obs, SpecChanged, now, seed)
    else
      var target := CoalesceTarget(t, lim, obs.uid, now);
      if !seed && target.Some? then EnforceBounds(FoldInto(t, obs, now, target.value), lim)
      else ObserveRevised(t, lim, obs, StatusTransition, now, seed)
  }

  function Observe(t: Timeline, lim: Limits, obs: Observation, now: int, seed: bool): (r: Timeline)
    ensures r.mirror.Some? == t.mirror.Some?
  {
    if obs.deleted then DeleteObserved(t, lim, obs, now)
    else if obs.uid !in t.objects then ObserveNew(t, lim, obs, now, seed)
    else if obs.specHash == t.objects[obs.uid].rec.specHash
            && obs.statusHash == t.objects[obs.uid].rec.statusHash then Touch(t, obs.uid, now)
    else ObserveChanged(t, lim, obs, now, seed)
  }

  /* ---------- folding a complete listing ---------- */

  function Listed(obs: seq<Observation>): set<string> {
    set i | 0 <= i < |obs| :: obs[i].uid
  }

  ghost function Gone(t: Timeline, scope: string, obs: seq<Observation>): seq<string> {
    Ascending(ScopeSet(t.scopes, scope) - Listed(obs))
  }

  function DeleteAll(t: Timeline, lim: Limits, gone: seq<string>, now: int): (r: Timeline)
    ensures r.mirror.Some? == t.mirror.Some?
    decreases |gone|
  {
    if gone == [] then t
    else DeleteAll(DeleteUnobserved(t, lim, gone[0], now), lim, gone[1..], now)
  }

  function ObserveAll(t: Timeline, lim: Limits, obs: seq<Observation>, now: int): (r: Timeline)
    ensures r.mirror.Some? == t.mirror.Some?
    decreases |obs|
  {
    if obs == [] then t
    else ObserveAll(Observe(t, lim, obs[0], now, true), lim, obs[1..], now)
  }

  ghost function Seed(t: Timeline, lim: Limits, scope: string, obs: seq<Observation>, now: int): (r: Timeline)
    ensures r.mirror.Some? == t.mirror.Some?
  {
    ObserveAll(DeleteAll(t, lim, Gone(t, scope, obs), now), lim, obs, now)
  }

  /* ---------- runs ---------- */

  datatype Op =
    | Watch(obs: Observation, now: int)
    | Listing(scope: string, listed: seq<Observation>, now: int)

  ghost function Step(t: Timeline, lim: Limits, op: Op): (r: Timeline)
    ensures r.mirror.Some? == t.mirror.Some?
  {
    match op
    case Watch(obs, now) => Observe(t, lim, obs, now, false)
    case Listing(scope, obs, now) => Seed(t, lim, scope, obs, now)
  }

  ghost function Run(t: Timeline, lim: Limits, ops: seq<Op>): (r: Timeline)
    ensures r.mirror.Some? == t.mirror.Some?
    decreases |ops|
  {
    if ops == [] then t else Run(Step(t, lim, ops[0]), lim, ops[1..])
  }

  /** A store before its first observation, with or without an empty persister. */
  function Empty(persisted: bool): Timeline {
    Timeline(0, 0, [], map[], map[], 0, false,
             if persisted then Some(Contents(map[], map[], 0, false)) else None, [])
  }

  /* ---------- reloading ---------- */

  /** The persisted revisions below the bound, oldest first. */
  function ListBelow(revisions: map<nat, Revision>, bound: nat): seq<Revision> {
    if bound == 0 then []
    else ListBelow(revisions, bound - 1)
         + (if bound - 1 in revisions then [revisions[bound - 1]] else [])
  }

  function Load(c: Contents): seq<Revision> {
    ListBelow(c.revisions, c.seqNo + 1)
  }

  function CountOf(entries: seq<Revision>, uid: string): nat {
    if entries == [] then 0
    else (if entries[0].uid == uid then 1 else 0) + CountOf(entries[1..], uid)
  }

  /** The sequence of uid's newest entry. */
  function LastOf(entries: seq<Revision>, uid: string): Option<nat> {
    if entries == [] then None
    else if entries[|entries| - 1].uid == uid then Some(entries[|entries| - 1].seqNo)
    else LastOf(entries[..|entries| - 1], uid)
  }

  function TotalSize(entries: seq<Revision>): nat {
    if entries == [] then 0 else RevisionSize(entries[0]) + TotalSize(entries[1..])
  }

  function ScopeNames(objects: map<string, ObjectRecord>): set<string> {
    set uid | uid in objects :: objects[uid].id.scope
  }

  function ScopesOf(objects: map<string, ObjectRecord>): map<string, set<string>> {
    map s | s in ScopeNames(objects)
      :: set uid | uid in objects && objects[uid].id.scope == s
  }

  /** The state rebuilt from contents, before the limits are enforced. */
  function Rebuilt(c: Contents): Timeline {
    var entries := Load(c);
    Timeline(c.seqNo, c.seqNo, entries,
             map uid | uid in c.objects :: ObjectState(c.objects[uid], CountOf(entries, uid), LastOf(entries, uid)),
             ScopesOf(c.objects), TotalSize(entries), c.evicted, Some(c), [])
  }

  function EnforceEach(t: Timeline, lim: Limits, uids: seq<string>): (r: Timeline)
    requires forall uid :: uid in uids ==> uid in t.objects
    ensures r.mirror.Some? == t.mirror.Some?
    decreases |uids|
  {
    if uids == [] then t
    else EnforceEach(EnforcePerObject(t, lim, uids[0]), lim, uids[1..])
  }

  /** Priming visits the objects in an order of the map's choosing. */
  function Prime(lim: Limits, c: Contents, order: seq<string>): Timeline
    requires forall uid :: uid in order ==> uid in c.objects
  {
    EnforceBounds(EnforceEach(Rebuilt(c), lim, order), lim)
  }
}
