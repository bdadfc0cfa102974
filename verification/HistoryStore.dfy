/** The mutable store and the persister it mirrors into. Every method is proved to
    leave the state its function in `History` computes. */
module HistoryStore {
  import opened Prelude
  import opened Lex
  import opened History
  import opened HistoryInvariants
  import opened HistoryRecords
  import opened HistoryRestart
  import H = History

  class Persister {
    var revisions: map<nat, Revision>
    var objects: map<string, ObjectRecord>
    var seqNo: nat
    var evicted: bool

    ghost function Held(): Contents
      reads this
    {
      Contents(revisions, objects, seqNo, evicted)
    }

    constructor ()
      ensures Held() == Contents(map[], map[], 0, false)
    {
      revisions, objects, seqNo, evicted := map[], map[], 0, false;
    }

    method Load() returns (c: Contents)
      ensures c == Held()
    {
      c := Contents(revisions, objects, seqNo, evicted);
    }

    method Append(rev: Revision)
      modifies this
      ensures Some(Held()) == MirrorAppend(Some(old(Held())), rev)
      ensures revisions == old(revisions)[rev.seqNo := rev] && objects == old(objects) && evicted == old(evicted)
      ensures seqNo in {old(seqNo), rev.seqNo} && seqNo >= old(seqNo) && seqNo >= rev.seqNo
    {
      revisions := revisions[rev.seqNo := rev];
      if rev.seqNo > seqNo { seqNo := rev.seqNo; }
    }

    method Update(rev: Revision)
      modifies this
      ensures Some(Held()) == MirrorUpdate(Some(old(Held())), rev)
    {
      revisions := revisions[rev.seqNo := rev];
    }

    method Evict(seqNo: nat)
      modifies this
      ensures Some(Held()) == MirrorEvict(Some(old(Held())), seqNo)
    {
      revisions := revisions - {seqNo};
    }

    method PutObject(uid: string, rec: ObjectRecord)
      modifies this
      ensures Some(Held()) == MirrorPut(Some(old(Held())), uid, rec)
    {
      objects := objects[uid := rec];
    }

    method DeleteObject(uid: string)
      modifies this
      ensures Some(Held()) == MirrorDelete(Some(old(Held())), uid)
    {
      objects := objects - {uid};
    }

    method MarkEvicted()
      modifies this
      ensures Some(Held()) == MirrorMarkEvicted(Some(old(Held())))
    {
      evicted := true;
    }
  }

  /** The projection a timeline renders. */
  datatype Entry = Entry(seqNo: nat, id: Identity, uid: string, change: Change, afterGap: bool, actor: Actor,
                         observedAt: int, prevObservedAt: Option<int>, coalesced: nat, hasManifest: bool)

  datatype Snapshot = Snapshot(generation: nat, entries: seq<Entry>, evicted: bool)

  /** The entry shows the revision's own fields, and whether it holds a definition. */
  ghost predicate Shows(e: Entry, rev: Revision) {
    && e.seqNo == rev.seqNo && e.id == rev.id && e.uid == rev.uid && e.change == rev.change
    && e.afterGap == rev.afterGap && e.actor == rev.actor && e.observedAt == rev.observedAt
    && e.prevObservedAt == rev.prevObservedAt && e.coalesced == rev.coalesced
    && (e.hasManifest <==> rev.manifest != None)
  }

  function EntryOf(rev: Revision): (e: Entry)
    ensures Shows(e, rev)
  {
    Entry(rev.seqNo, rev.id, rev.uid, rev.change, rev.afterGap, rev.actor, rev.observedAt, rev.prevObservedAt,
          rev.coalesced, rev.manifest.Some?)
  }

  lemma SizeOfNext(e: seq<Revision>, i: nat)
    requires i < |e|
    ensures e[..i + 1] == e[..i] + [e[i]] && TotalSize(e[..i + 1]) == TotalSize(e[..i]) + RevisionSize(e[i])
  {
    assert e[..i + 1] == e[..i] + [e[i]];
    SizeConcat(e[..i], [e[i]]);
    assert [e[i]][1..] == [];
  }

  lemma CountOfNext(e: seq<Revision>, i: nat, uid: string)
    requires i < |e|
    ensures CountOf(e[..i + 1], uid) == CountOf(e[..i], uid) + (if e[i].uid == uid then 1 else 0)
    ensures LastOf(e[..i + 1], uid) == if e[i].uid == uid then Some(e[i].seqNo) else LastOf(e[..i], uid)
  {
    assert e[..i + 1] == e[..i] + [e[i]];
    assert [e[i]][1..] == [] && [e[i]][..0] == [];
    CountConcat(e[..i], [e[i]], uid);
    LastConcat(e[..i], [e[i]], uid);
  }

  lemma ScopesOfNext(done: map<string, ObjectRecord>, uid: string, rec: ObjectRecord)
    requires uid !in done
    ensures ScopesOf(done[uid := rec]) == ScopesOf(done)[rec.id.scope := ScopeSet(ScopesOf(done), rec.id.scope) + {uid}]
  {
    var a := ScopesOf(done[uid := rec]);
    var b := ScopesOf(done)[rec.id.scope := ScopeSet(ScopesOf(done), rec.id.scope) + {uid}];
    ScopeNamesNext(done, uid, rec);
    assert a.Keys == b.Keys;
    forall s | s in a ensures a[s] == b[s] { ScopeNext(done, uid, rec, s); }
  }

  lemma ScopeNamesNext(done: map<string, ObjectRecord>, uid: string, rec: ObjectRecord)
    requires uid !in done
    ensures ScopeNames(done[uid := rec]) == ScopeNames(done) + {rec.id.scope}
  {
    assert forall u :: u in done ==> u in done[uid := rec] && done[uid := rec][u] == done[u];
    assert done[uid := rec][uid] == rec;
  }

  lemma ScopeNext(done: map<string, ObjectRecord>, uid: string, rec: ObjectRecord, s: string)
    requires uid !in done && s in ScopesOf(done[uid := rec]) && (s == rec.id.scope || s in ScopesOf(done))
    ensures ScopesOf(done[uid := rec])[s]
            == if s == rec.id.scope then ScopeSet(ScopesOf(done), s) + {uid} else ScopesOf(done)[s]
  {
    ScopesOfSets(done, s);
  }

  lemma {:induction false} EnforceEachNext(t: Timeline, lim: Limits, order: seq<string>, uid: string)
    requires uid in t.objects && forall u :: u in order ==> u in t.objects
    ensures var r := EnforceEach(t, lim, order);
            r.objects.Keys == t.objects.Keys && EnforceEach(t, lim, order + [uid]) == EnforcePerObject(r, lim, uid)
    decreases |order|
  {
    if order == [] {
      assert order + [uid] == [uid];
      assert [uid][1..] == [];
    } else {
      assert order[0] in order;
      assert (order + [uid])[1..] == order[1..] + [uid];
      EnforceEachNext(EnforcePerObject(t, lim, order[0]), lim, order[1..], uid);
    }
  }

  ghost function Uncounted(objects: map<string, ObjectRecord>): map<string, ObjectState> {
    map uid | uid in objects :: ObjectState(objects[uid], 0, None)
  }

  lemma RestoredNext(all: map<string, ObjectRecord>, left: set<string>, uid: string)
    requires uid in left && left <= all.Keys
    ensures all - (left - {uid}) == (all - left)[uid := all[uid]]
    ensures Uncounted(all - (left - {uid})) == Uncounted(all - left)[uid := ObjectState(all[uid], 0, None)]
  {
  }

  /** The objects with the counts and targets that some entries give them. */
  ghost function CountedIn(objects: map<string, ObjectRecord>, entries: seq<Revision>): map<string, ObjectState> {
    map uid | uid in objects :: ObjectState(objects[uid], CountOf(entries, uid), LastOf(entries, uid))
  }

  lemma CountedNone(objects: map<string, ObjectRecord>)
    ensures CountedIn(objects, []) == Uncounted(objects)
  {
  }

  lemma CountedNext(objects: map<string, ObjectRecord>, entries: seq<Revision>, i: nat)
    requires i < |entries|
    ensures var before, rev := CountedIn(objects, entries[..i]), entries[i];
            CountedIn(objects, entries[..i + 1])
            == if rev.uid in before
               then before[rev.uid := ObjectState(objects[rev.uid], before[rev.uid].count + 1, Some(rev.seqNo))]
               else before
  {
    forall uid | uid in objects
      ensures CountOf(entries[..i + 1], uid) == CountOf(entries[..i], uid) + (if entries[i].uid == uid then 1 else 0)
      ensures LastOf(entries[..i + 1], uid) == if entries[i].uid == uid then Some(entries[i].seqNo)
              else LastOf(entries[..i], uid)
    {
      CountOfNext(entries, i, uid);
    }
  }

  class Store {
    const limits: Limits
    const persist: Persister?

    var seqNo: nat
    var generation: nat
    var entries: seq<Revision>
    var objects: map<string, ObjectState>
    var scopes: map<string, set<string>>
    var totalBytes: int
    var evicted: bool
    ghost var dropped: seq<Revision>

    ghost function Mirror(): Option<Contents>
      reads persist
    {
      if persist == null then None else Some(persist.Held())
    }

    /** The state as a value. */
    ghost function Abs(): Timeline
      reads this, persist
    {
      Timeline(seqNo, generation, entries, objects, scopes, totalBytes, evicted, Mirror(), dropped)
    }

    ghost predicate Valid()
      reads this, persist
    {
      Inv(Abs(), limits)
    }

    /** NewStore. */
    constructor (limits: Limits)
      ensures Valid()
      ensures this.limits == limits && persist == null && Abs() == Empty(false)
    {
      this.limits := limits;
      persist := null;
      seqNo, generation, totalBytes, evicted := 0, 0, 0, false;
      entries, objects, scopes, dropped := [], map[], map[], [];
    }

    /** Whatever limits the contents were written under, the store starts with the
        invariant; only the order in which a map yields its objects is left open. */
    constructor Persisted(limits: Limits, persist: Persister)
      requires WellKept(persist.Held())
      modifies persist
      ensures Valid() && this.limits == limits && this.persist == persist
      ensures exists order :: Elements(order) == old(persist.objects.Keys)
                              && Abs() == Prime(limits, old(persist.Held()), order)
    {
      this.limits := limits;
      this.persist := persist;
      seqNo, generation, totalBytes, evicted := 0, 0, 0, false;
      entries, objects, scopes, dropped := [], map[], map[], [];
      new;
      var contents := persist.Load();
      Restore(contents);
      var order := EnforceObjects();
      PrimeInv(limits, contents, order);
      EnforceBounds();
      assert Elements(order) == contents.objects.Keys && Abs() == Prime(limits, contents, order);
    }

    /** The part of prime before the limits: entries, objects, scopes, counts, targets. */
    method Restore(contents: Contents)
      requires Abs() == Empty(false).(mirror := Some(contents))
      modifies this
      ensures Abs() == Rebuilt(contents)
    {
      RestoreEntries(H.Load(contents));
      seqNo, generation, evicted := contents.seqNo, contents.seqNo, contents.evicted;
      RestoreObjects(contents);
      CountEntries(contents);
    }

    method RestoreEntries(listed: seq<Revision>)
      requires entries == [] && totalBytes == 0
      modifies `entries, `totalBytes
      ensures entries == listed && totalBytes == TotalSize(listed)
    {
      for i := 0 to |listed|
        invariant entries == listed[..i] && totalBytes == TotalSize(listed[..i])
      {
        SizeOfNext(listed, i);
        entries := entries + [listed[i]];
        totalBytes := totalBytes + RevisionSize(listed[i]);
      }
      assert listed[..|listed|] == listed;
    }

    method RestoreObjects(contents: Contents)
      requires objects == map[] && scopes == map[]
      modifies `objects, `scopes
      ensures objects == Uncounted(contents.objects)
      ensures scopes == ScopesOf(contents.objects)
    {
      var left := contents.objects.Keys;
      assert contents.objects - left == map[];
      while left != {}
        invariant left <= contents.objects.Keys
        invariant objects == Uncounted(contents.objects - left)
        invariant scopes == ScopesOf(contents.objects - left)
        decreases |left|
      {
        var uid :| uid in left;
        var rec := contents.objects[uid];
        RestoredNext(contents.objects, left, uid);
        ScopesOfNext(contents.objects - left, uid, rec);
        objects := objects[uid := ObjectState(rec, 0, None)];
        scopes := scopes[rec.id.scope := ScopeSet(scopes, rec.id.scope) + {uid}];
        left := left - {uid};
      }
      assert contents.objects - {} == contents.objects;
    }

    /** Every object ends with the count and the target its own entries give it. */
    method CountEntries(contents: Contents)
      requires objects == Uncounted(contents.objects)
      modifies `objects
      ensures objects == CountedIn(contents.objects, entries)
    {
      CountedNone(contents.objects);
      assert entries[..0] == [];
      for i := 0 to |entries|
        invariant objects == CountedIn(contents.objects, entries[..i])
      {
        var rev := entries[i];
        CountedNext(contents.objects, entries, i);
        if rev.uid in objects {
          var state := objects[rev.uid];
          objects := objects[rev.uid := state.(count := state.count + 1, last := Some(rev.seqNo))];
        }
      }
      assert entries[..|entries|] == entries;
    }

    /** Enforces the per-object cap once for every object, in the map's order. */
    method EnforceObjects() returns (order: seq<string>)
      modifies this, persist
      ensures Elements(order) == old(objects.Keys)
      ensures forall u :: u in order ==> u in old(objects)
      ensures Abs() == EnforceEach(old(Abs()), limits, order)
    {
      ghost var t := Abs();
      order := AnyOrder(objects.Keys);
      assert forall u :: u in order ==> u in Elements(order);
      for i := 0 to |order|
        invariant objects.Keys == t.objects.Keys
        invariant Abs() == EnforceEach(t, limits, order[..i])
      {
        assert order[..i + 1] == order[..i] + [order[i]];
        EnforceEachNext(t, limits, order[..i], order[i]);
        EnforcePerObject(order[i]);
      }
      assert order[..|order|] == order;
    }

    /** Any position may go: the bounds take the first, the cap one of an object. */
    method Evict(i: nat)
      requires i < |entries|
      modifies this, persist
      ensures Abs() == H.Evict(old(Abs()), i)
    {
      var rev := entries[i];
      entries := entries[..i] + entries[i + 1..];
      totalBytes := totalBytes - RevisionSize(rev);
      if persist != null {
        persist.Evict(rev.seqNo);
        if !evicted { persist.MarkEvicted(); }
      }
      evicted := true;
      dropped := dropped + [rev];
      if rev.uid in objects {
        var state := objects[rev.uid];
        state := state.(count := state.count - 1);
        if state.last == Some(rev.seqNo) { state := state.(last := None); }
        objects := objects[rev.uid := state];
      }
    }

    /** Loops on the front of the list; ends in the trimmed state of the specification. */
    method EnforceBounds()
      modifies this, persist
      ensures Abs() == H.EnforceBounds(old(Abs()), limits)
    {
      while |entries| > 0
        invariant H.EnforceBounds(Abs(), limits) == H.EnforceBounds(old(Abs()), limits)
        decreases |entries|
      {
        var over := (limits.maxRevisions > 0 && |entries| > limits.maxRevisions)
                    || (limits.maxBytes > 0 && totalBytes > limits.maxBytes);
        if !over { return; }
        Evict(0);
      }
    }

    /** Scans for the first entry of the uid, and only when its cached count is over the cap. */
    method EnforcePerObject(uid: string)
      requires uid in objects
      modifies this, persist
      ensures Abs() == H.EnforcePerObject(old(Abs()), limits, uid)
    {
      if limits.perObject <= 0 || objects[uid].count <= limits.perObject { return; }
      for i := 0 to |entries|
        invariant Abs() == old(Abs())
        invariant forall j :: 0 <= j < i ==> entries[j].uid != uid
      {
        if entries[i].uid == uid {
          assert FirstOf(entries, uid) == i;
          Evict(i);
          return;
        }
      }
      assert FirstOf(entries, uid) == |entries|;
    }

    /** Leaves list, counters, object and mirror as the specification does. */
    method Append(draft: Revision)
      requires draft.uid in objects
      modifies this, persist
      ensures Abs() == H.Append(old(Abs()), limits, draft)
    {
      Retain(draft);
      EnforcePerObject(draft.uid);
      EnforceBounds();
    }

    /** The revision under the next sequence, counted and mirrored, before any bound. */
    method Retain(draft: Revision)
      requires draft.uid in objects
      modifies this, persist
      ensures Abs() == H.Retain(old(Abs()), draft)
    {
      seqNo := seqNo + 1;
      var rev := draft.(seqNo := seqNo);
      entries := entries + [rev];
      totalBytes := totalBytes + RevisionSize(rev);
      var state := objects[rev.uid];
      objects := objects[rev.uid := state.(count := state.count + 1, last := Some(rev.seqNo))];
      generation := generation + 1;
      if persist != null { persist.Append(rev); }
    }

    /** Only the record of one live object changes, and its mirror. */
    method Commit(obs: Observation, now: int)
      requires obs.uid in objects
      modifies this, persist
      ensures Abs() == H.Commit(old(Abs()), obs, now)
    {
      var state := objects[obs.uid];
      var rec := state.rec.(specHash := obs.specHash, statusHash := obs.statusHash, lastObservedAt := Some(now));
      objects := objects[obs.uid := state.(rec := rec)];
      if persist != null { persist.PutObject(obs.uid, rec); }
    }

    /** Folds into the target of the specification when there is one, and changes nothing
        when there is none; the result tells which. */
    method Coalesce(obs: Observation, now: int) returns (done: bool)
      requires obs.uid in objects
      modifies this, persist
      ensures var target := CoalesceTarget(old(Abs()), limits, obs.uid, now);
              && (done <==> target.Some?)
              && Abs() == if done then H.EnforceBounds(FoldInto(old(Abs()), obs, now, target.value), limits)
                          else old(Abs())
    {
      var last := objects[obs.uid].last;
      if limits.coalesceWindow <= 0 || last == None { return false; }
      var i := IndexOf(entries, last.value);
      if i == |entries| || entries[i].change != StatusTransition { return false; }
      if now - entries[i].observedAt >= limits.coalesceWindow { return false; }
      totalBytes := totalBytes - RevisionSize(entries[i]);
      entries := entries[i := Folded(entries[i], obs, now)];
      totalBytes := totalBytes + RevisionSize(entries[i]);
      if persist != null { persist.Update(entries[i]); }
      Commit(obs, now);
      generation := generation + 1;
      assert Abs() == FoldInto(old(Abs()), obs, now, i);
      EnforceBounds();
      return true;
    }

    /** The uid is live nowhere afterwards; its revisions stay. */
    method Forget(uid: string)
      modifies this, persist
      ensures Abs() == H.Forget(old(Abs()), uid)
    {
      objects := objects - {uid};
      scopes := Without(scopes, uid);
      if persist != null { persist.DeleteObject(uid); }
    }

    method DeleteObserved(obs: Observation, now: int)
      modifies this, persist
      ensures Abs() == H.DeleteObserved(old(Abs()), limits, obs, now)
    {
      if obs.uid !in objects { return; }
      var rev := RevisionOf(obs, Deleted, now, objects[obs.uid].rec.lastObservedAt, false);
      Append(rev.(manifest := None));
      Forget(obs.uid);
    }

    method DeleteUnobserved(uid: string, now: int)
      modifies this, persist
      ensures Abs() == H.DeleteUnobserved(old(Abs()), limits, uid, now)
    {
      if uid !in objects { return; }
      Append(Tombstone(objects[uid].rec, uid, now));
      Forget(uid);
    }

    /** Starts the classification state of an unknown uid, in its scope's set. */
    method Admit(obs: Observation)
      modifies `objects, `scopes
      ensures Abs() == H.Admit(old(Abs()), obs)
    {
      objects := objects[obs.uid := ObjectState(ObjectRecord(obs.id, "", "", None), 0, None)];
      scopes := scopes[obs.id.scope := ScopeSet(scopes, obs.id.scope) + {obs.uid}];
    }

    /** observe for a uid not live: creation or first observation. */
    method FoldNew(obs: Observation, now: int, seed: bool)
      requires obs.uid !in objects
      modifies this, persist
      ensures Abs() == H.ObserveNew(old(Abs()), limits, obs, now, seed)
    {
      var change := if seed then FirstObserved else Created;
      Admit(obs);
      Append(RevisionOf(obs, change, now, None, false));
      Commit(obs, now);
    }

    /** observe for a live uid whose digests differ. */
    method FoldChanged(obs: Observation, now: int, seed: bool)
      requires obs.uid in objects
      requires obs.specHash != objects[obs.uid].rec.specHash || obs.statusHash != objects[obs.uid].rec.statusHash
      modifies this, persist
      ensures Abs() == H.ObserveChanged(old(Abs()), limits, obs, now, seed)
    {
      var rec := objects[obs.uid].rec;
      var change := StatusTransition;
      if obs.specHash != rec.specHash { change := SpecChanged; }
      if change == StatusTransition && !seed {
        var done := Coalesce(obs, now);
        if done { return; }
      }
      Append(RevisionOf(obs, change, now, rec.lastObservedAt, seed));
      Commit(obs, now);
    }

    /** observe: folds one observation. */
    method Fold(obs: Observation, now: int, seed: bool)
      modifies this, persist
      ensures Abs() == H.Observe(old(Abs()), limits, obs, now, seed)
    {
      if obs.deleted {
        DeleteObserved(obs, now);
        return;
      }
      if obs.uid !in objects {
        FoldNew(obs, now, seed);
        return;
      }
      var state := objects[obs.uid];
      if obs.specHash == state.rec.specHash && obs.statusHash == state.rec.statusHash {
        var rec := state.rec.(lastObservedAt := Some(now));
        objects := objects[obs.uid := state.(rec := rec)];
        if persist != null { persist.PutObject(obs.uid, rec); }
        return;
      }
      FoldChanged(obs, now, seed);
    }

    /** One Watch step of a run: what every theorem on runs says holds of this store. What
        it records is said field by field. */
    method Observe(obs: Observation, now: int)
      requires Valid()
      modifies this, persist
      ensures Valid() && Abs() == Step(old(Abs()), limits, Watch(obs, now))
      ensures Recorded(old(Abs()), Abs(), limits, obs, now, false)
    {
      ObserveKeepsInv(Abs(), limits, obs, now, false);
      ObservationRecorded(Abs(), limits, obs, now, false);
      Fold(obs, now, false);
    }

    /** One Listing step of a run. */
    method Seed(scope: string, obs: seq<Observation>, now: int)
      requires Valid()
      modifies this, persist
      ensures Valid() && Abs() == Step(old(Abs()), limits, Listing(scope, obs, now))
    {
      ghost var t := Abs();
      StepKeeps(t, limits, Listing(scope, obs, now));
      var gone := SortKeys(ScopeSet(scopes, scope) - Listed(obs));
      for i := 0 to |gone|
        invariant H.DeleteAll(Abs(), limits, gone[i..], now) == H.DeleteAll(t, limits, gone, now)
      {
        DeleteUnobserved(gone[i], now);
        assert gone[i..][1..] == gone[i + 1..];
      }
      ghost var t1 := Abs();
      for i := 0 to |obs|
        invariant H.ObserveAll(Abs(), limits, obs[i..], now) == H.ObserveAll(t1, limits, obs, now)
      {
        Fold(obs[i], now, true);
        assert obs[i..][1..] == obs[i + 1..];
      }
    }

    /** Reads the list backwards, each entry projected; nothing is left out. */
    method TakeSnapshot() returns (snap: Snapshot, any: bool)
      ensures snap.generation == generation && snap.evicted == evicted
      ensures |snap.entries| == |entries|
      ensures forall i :: 0 <= i < |entries| ==> Shows(snap.entries[i], entries[|entries| - 1 - i])
      ensures any <==> entries != []
    {
      var listed := [];
      var i := |entries|;
      while i > 0
        invariant 0 <= i <= |entries|
        invariant |listed| == |entries| - i
        invariant forall j :: 0 <= j < |listed| ==> Shows(listed[j], entries[|entries| - 1 - j])
      {
        i := i - 1;
        listed := listed + [EntryOf(entries[i])];
      }
      snap := Snapshot(generation, listed, evicted);
      any := |listed| > 0;
    }

    /** The binary search of Revision and Diff: the first entry at or after a sequence. */
    method Search(wanted: nat) returns (at: nat)
      requires Increasing(entries)
      ensures at <= |entries|
      ensures forall j :: 0 <= j < at ==> entries[j].seqNo < wanted
      ensures forall j :: at <= j < |entries| ==> entries[j].seqNo >= wanted
    {
      var lo, hi := 0, |entries|;
      while lo < hi
        invariant lo <= hi <= |entries|
        invariant forall j :: 0 <= j < lo ==> entries[j].seqNo < wanted
        invariant forall j :: hi <= j < |entries| ==> entries[j].seqNo >= wanted
      {
        var mid := lo + (hi - lo) / 2;
        if entries[mid].seqNo >= wanted { hi := mid; } else { lo := mid + 1; }
      }
      at := lo;
    }

    /** Finds a revision exactly when one is retained under the sequence wanted. */
    method Revision(wanted: nat) returns (rev: Option<Revision>)
      requires Valid()
      ensures rev.Some? ==> rev.value in entries && rev.value.seqNo == wanted
      ensures rev.None? ==> forall j :: 0 <= j < |entries| ==> entries[j].seqNo != wanted
    {
      var i := Search(wanted);
      if i >= |entries| || entries[i].seqNo != wanted { return None; }
      return Some(entries[i]);
    }
  }
}
