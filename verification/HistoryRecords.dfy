/** What the timeline records of each observation, said of fields and not of the functions
    that build a revision. */
module HistoryRecords {
  import opened Prelude
  import opened Lex
  import opened History
  import opened HistoryInvariants
  import opened HistorySeed
  import R = HistoryRestart

  /* ---------- an observation of a present object ---------- */

  /** The observation repeats what the object's last one recorded. */
  ghost predicate Repeats(t: Timeline, obs: Observation) {
    && obs.uid in t.objects
    && obs.specHash == t.objects[obs.uid].rec.specHash && obs.statusHash == t.objects[obs.uid].rec.statusHash
  }

  /** The i-th retained revision takes a watched status transition: it is the object's
      target, itself a status transition, and younger than the window. */
  ghost predicate Takes(t: Timeline, lim: Limits, obs: Observation, now: int, i: nat) {
    && obs.uid in t.objects && !Repeats(t, obs) && obs.specHash == t.objects[obs.uid].rec.specHash
    && i < |t.entries| && t.objects[obs.uid].last == Some(t.entries[i].seqNo)
    && t.entries[i].change == StatusTransition
    && lim.coalesceWindow > 0 && now < t.entries[i].observedAt + lim.coalesceWindow
  }

  /** The revision holds what was observed: name, definition, digests, who wrote it, when. */
  ghost predicate Holds(rev: Revision, obs: Observation, now: int) {
    && rev.id == obs.id && rev.uid == obs.uid && rev.generation == obs.generation && rev.actor == obs.actor
    && rev.specHash == obs.specHash && rev.statusHash == obs.statusHash && rev.owners == obs.owners
    && rev.observedAt == now && rev.coalesced == 0
  }

  /** How the change is told: a new uid was created under a watch and first observed by a
      listing; a live one changed its spec or else its status since it was last seen, after a
      gap exactly when a listing found it. */
  ghost predicate Tells(rev: Revision, t: Timeline, obs: Observation, seed: bool) {
    if obs.uid !in t.objects then
      rev.change == (if seed then FirstObserved else Created) && rev.prevObservedAt == None && !rev.afterGap
    else
      var rec := t.objects[obs.uid].rec;
      && rev.prevObservedAt == rec.lastObservedAt && rev.afterGap == seed
      && rev.change == (if obs.specHash != rec.specHash then SpecChanged else StatusTransition)
  }

  ghost predicate RecordsNext(rev: Revision, t: Timeline, obs: Observation, now: int, seed: bool) {
    rev.seqNo == t.seqNo + 1 && Holds(rev, obs, now) && rev.manifest == obs.manifest && Tells(rev, t, obs, seed)
  }

  lemma TargetIff(t: Timeline, lim: Limits, obs: Observation, now: int)
    requires Increasing(t.entries) && obs.uid in t.objects && !Repeats(t, obs)
    requires obs.specHash == t.objects[obs.uid].rec.specHash
    ensures var target := CoalesceTarget(t, lim, obs.uid, now);
            forall i: nat :: Takes(t, lim, obs, now, i) <==> target == Some(i)
  {
    var last := t.objects[obs.uid].last;
    if last.Some? {
      var k := IndexOf(t.entries, last.value);
      assert forall i :: k < i < |t.entries| ==> t.entries[k].seqNo < t.entries[i].seqNo;
      assert forall i :: 0 <= i < |t.entries| && t.entries[i].seqNo == last.value ==> i == k;
    }
  }

  lemma RevisedRecords(t: Timeline, lim: Limits, obs: Observation, change: Change, now: int, seed: bool)
    requires obs.uid in t.objects
    requires change == if obs.specHash != t.objects[obs.uid].rec.specHash then SpecChanged else StatusTransition
    ensures var r := ObserveRevised(t, lim, obs, change, now, seed);
            r.seqNo == t.seqNo + 1 && exists rev :: RecordsNext(rev, t, obs, now, seed) && Known(r) == Known(t) + {rev}
  {
    var draft := RevisionOf(obs, change, now, t.objects[obs.uid].rec.lastObservedAt, seed);
    AppendKnown(t, lim, draft);
    SameKnown(Append(t, lim, draft), ObserveRevised(t, lim, obs, change, now, seed));
    assert RecordsNext(draft.(seqNo := t.seqNo + 1), t, obs, now, seed);
  }

  lemma NewRecords(t: Timeline, lim: Limits, obs: Observation, now: int, seed: bool)
    requires obs.uid !in t.objects
    ensures var r := ObserveNew(t, lim, obs, now, seed);
            r.seqNo == t.seqNo + 1 && exists rev :: RecordsNext(rev, t, obs, now, seed) && Known(r) == Known(t) + {rev}
  {
    var draft := RevisionOf(obs, if seed then FirstObserved else Created, now, None, false);
    AppendKnown(Admit(t, obs), lim, draft);
    SameKnown(Append(Admit(t, obs), lim, draft), ObserveNew(t, lim, obs, now, seed));
    SameKnown(t, Admit(t, obs));
    assert RecordsNext(draft.(seqNo := t.seqNo + 1), t, obs, now, seed);
  }

  /** An observation that repeats the last one records nothing. Any other that no retained
      revision takes records exactly one revision, under the next sequence, that holds what
      was observed and tells how it changed. */
  lemma ObserveRecords(t: Timeline, lim: Limits, obs: Observation, now: int, seed: bool)
    requires Inv(t, lim) && !obs.deleted && (seed || forall i: nat :: !Takes(t, lim, obs, now, i))
    ensures var r := Observe(t, lim, obs, now, seed);
            if Repeats(t, obs) then Known(r) == Known(t) && r.seqNo == t.seqNo
            else r.seqNo == t.seqNo + 1
                 && exists rev :: RecordsNext(rev, t, obs, now, seed) && Known(r) == Known(t) + {rev}
  {
    if obs.uid !in t.objects {
      NewRecords(t, lim, obs, now, seed);
    } else if Repeats(t, obs) {
      SameKnown(t, Observe(t, lim, obs, now, seed));
    } else if obs.specHash != t.objects[obs.uid].rec.specHash {
      RevisedRecords(t, lim, obs, SpecChanged, now, seed);
    } else {
      TargetIff(t, lim, obs, now);
      RevisedRecords(t, lim, obs, StatusTransition, now, seed);
    }
  }

  /** The revision that took a transition: it keeps its place in the timeline and how its
      own change was told, and holds the definition, status, writer and time of the newest. */
  ghost predicate TakenBy(rev: Revision, before: Revision, obs: Observation, now: int) {
    && rev.seqNo == before.seqNo && rev.id == before.id && rev.uid == before.uid && rev.change == before.change
    && rev.afterGap == before.afterGap && rev.prevObservedAt == before.prevObservedAt
    && rev.specHash == before.specHash && rev.coalesced == before.coalesced + 1
    && rev.generation == obs.generation && rev.actor == obs.actor && rev.statusHash == obs.statusHash
    && rev.owners == obs.owners && rev.manifest == obs.manifest && rev.observedAt == now
  }

  /** A watched transition that a retained revision takes changes that revision and records
      none. */
  lemma ObserveFolds(t: Timeline, lim: Limits, obs: Observation, now: int, i: nat)
    requires Inv(t, lim) && !obs.deleted && Takes(t, lim, obs, now, i)
    ensures var r := Observe(t, lim, obs, now, false);
            && r.seqNo == t.seqNo
            && exists rev :: TakenBy(rev, t.entries[i], obs, now)
                             && Known(r) == Elements(t.entries[i := rev]) + Elements(t.dropped)
  {
    TargetIff(t, lim, obs, now);
    var t1, rev := FoldInto(t, obs, now, i), Folded(t.entries[i], obs, now);
    EnforceBoundsKnown(t1, lim);
    assert TakenBy(rev, t.entries[i], obs, now);
    assert Known(t1) == Elements(t.entries[i := rev]) + Elements(t.dropped);
  }

  /* ---------- deletions ---------- */

  /** An observed deletion: what was observed but for the definition, last seen when the
      object was. */
  ghost predicate RecordsDeletion(rev: Revision, t: Timeline, obs: Observation, now: int)
    requires obs.uid in t.objects
  {
    && rev.seqNo == t.seqNo + 1 && Holds(rev, obs, now) && rev.manifest == None
    && rev.change == Deleted && rev.prevObservedAt == t.objects[obs.uid].rec.lastObservedAt && !rev.afterGap
  }

  /** A deletion of a uid that is not live changes nothing at all; of a live one it records
      exactly one deletion and ends the incarnation, in every scope. */
  lemma DeletionRecords(t: Timeline, lim: Limits, obs: Observation, now: int, seed: bool)
    requires obs.deleted
    ensures var r := Observe(t, lim, obs, now, seed);
            if obs.uid !in t.objects then r == t
            else obs.uid !in r.objects && (forall s :: s in r.scopes ==> obs.uid !in r.scopes[s])
                 && exists rev :: RecordsDeletion(rev, t, obs, now) && Known(r) == Known(t) + {rev}
  {
    if obs.uid in t.objects {
      var draft := RevisionOf(obs, Deleted, now, t.objects[obs.uid].rec.lastObservedAt, false).(manifest := None);
      AppendKnown(t, lim, draft);
      SameKnown(Append(t, lim, draft), Observe(t, lim, obs, now, seed));
      assert RecordsDeletion(draft.(seqNo := t.seqNo + 1), t, obs, now);
    }
  }

  /** What r records of one observation that reached t. */
  ghost predicate Recorded(t: Timeline, r: Timeline, lim: Limits, obs: Observation, now: int, seed: bool) {
    if obs.deleted then
      if obs.uid !in t.objects then r == t
      else exists rev :: RecordsDeletion(rev, t, obs, now) && Known(r) == Known(t) + {rev}
    else if Repeats(t, obs) then Known(r) == Known(t)
    else if !seed && exists i: nat :: Takes(t, lim, obs, now, i) then
      exists i: nat, rev :: Takes(t, lim, obs, now, i) && TakenBy(rev, t.entries[i], obs, now)
                            && Known(r) == Elements(t.entries[i := rev]) + Elements(t.dropped)
    else exists rev :: RecordsNext(rev, t, obs, now, seed) && Known(r) == Known(t) + {rev}
  }

  lemma ObservationRecorded(t: Timeline, lim: Limits, obs: Observation, now: int, seed: bool)
    requires Inv(t, lim)
    ensures Recorded(t, Observe(t, lim, obs, now, seed), lim, obs, now, seed)
  {
    if obs.deleted {
      DeletionRecords(t, lim, obs, now, seed);
    } else if !Repeats(t, obs) && !seed && exists i: nat :: Takes(t, lim, obs, now, i) {
      var i: nat :| Takes(t, lim, obs, now, i);
      ObserveFolds(t, lim, obs, now, i);
    } else {
      ObserveRecords(t, lim, obs, now, seed);
    }
  }

  /** A synthesized deletion: the name the object was known by, its window, nothing else. */
  ghost predicate RecordsAbsence(rev: Revision, rec: ObjectRecord, uid: string, seqNo: nat, now: int) {
    && rev.seqNo == seqNo && rev.id == rec.id && rev.uid == uid && rev.change == DeletedUnobserved && rev.afterGap
    && rev.observedAt == now && rev.prevObservedAt == rec.lastObservedAt && rev.manifest == None && rev.owners == []
    && rev.generation == 0 && rev.specHash == "" && rev.statusHash == "" && rev.actor == Actor("", "")
    && rev.coalesced == 0
  }

  lemma {:induction false} TombstoneAt(recs: map<string, ObjectRecord>, gone: seq<string>, seqNo: nat, now: int, k: nat)
    requires k < |gone| && forall uid :: uid in gone ==> uid in recs
    ensures exists rev :: rev in Tombstones(recs, gone, seqNo, now)
                          && RecordsAbsence(rev, recs[gone[k]], gone[k], seqNo + 1 + k, now)
    decreases k
  {
    assert gone[0] in gone;
    assert forall uid :: uid in gone[1..] ==> uid in gone;
    if k == 0 {
      var rev := Tombstone(recs[gone[0]], gone[0], now).(seqNo := seqNo + 1);
      assert rev in Tombstones(recs, gone, seqNo, now) && RecordsAbsence(rev, recs[gone[0]], gone[0], seqNo + 1, now);
    } else {
      TombstoneAt(recs, gone[1..], seqNo + 1, now, k - 1);
      var rev :| rev in Tombstones(recs, gone[1..], seqNo + 1, now)
                 && RecordsAbsence(rev, recs[gone[k]], gone[k], seqNo + 1 + k, now);
      assert rev in Tombstones(recs, gone, seqNo, now);
    }
  }

  /** A listing records one such deletion for each uid of its scope that it misses, in the
      order of their names under consecutive sequences, before anything it lists. */
  lemma AbsenceRecords(t: Timeline, lim: Limits, scope: string, obs: seq<Observation>, now: int, k: nat)
    requires Inv(t, lim) && Present(obs) && k < |Gone(t, scope, obs)|
    ensures var uid := Gone(t, scope, obs)[k];
            && Sorted(Gone(t, scope, obs)) && uid in Recs(t) && Recs(t)[uid].id.scope == scope && uid !in Listed(obs)
            && exists rev :: rev in Known(Seed(t, lim, scope, obs, now))
                             && RecordsAbsence(rev, Recs(t)[uid], uid, t.seqNo + 1 + k, now)
  {
    SeedRecordsVanished(t, lim, scope, obs, now);
    assert Gone(t, scope, obs)[k] in Gone(t, scope, obs);
    TombstoneAt(Recs(t), Gone(t, scope, obs), t.seqNo, now, k);
  }

  /* ---------- what a revision costs, and whether it stays ---------- */

  ghost function Joined(texts: seq<string>): string {
    if texts == [] then "" else texts[0] + Joined(texts[1..])
  }

  /** Every attribution text of a revision: each manager and the paths it owns. */
  ghost function Texts(owners: seq<FieldOwner>): seq<string> {
    if owners == [] then [] else [owners[0].manager] + owners[0].paths + Texts(owners[1..])
  }

  lemma {:induction false} JoinedConcat(a: seq<string>, b: seq<string>)
    ensures |Joined(a + b)| == |Joined(a)| + |Joined(b)|
    decreases |a|
  {
    if a == [] {
      assert a + b == b;
    } else {
      assert (a + b)[1..] == a[1..] + b;
      JoinedConcat(a[1..], b);
    }
  }

  lemma {:induction false} PathsJoined(paths: seq<string>)
    ensures PathsSize(paths) == |Joined(paths)|
    decreases |paths|
  {
    if paths != [] { PathsJoined(paths[1..]); }
  }

  /** A revision costs its definition and every byte of its attribution. */
  lemma {:induction false} OwnersCost(owners: seq<FieldOwner>)
    ensures OwnersSize(owners) == |Joined(Texts(owners))|
    decreases |owners|
  {
    if owners != [] {
      var first := [owners[0].manager] + owners[0].paths;
      OwnersCost(owners[1..]);
      PathsJoined(owners[0].paths);
      assert first[1..] == owners[0].paths;
      JoinedConcat(first, Texts(owners[1..]));
    }
  }

  lemma RevisionCost(rev: Revision)
    ensures RevisionSize(rev)
            == (match rev.manifest case None => 0 case Some(m) => m.size) + |Joined(Texts(rev.owners))|
  {
    OwnersCost(rev.owners);
  }

  lemma FirstOfMore(e: seq<Revision>, rev: Revision, uid: string)
    requires CountOf(e, uid) > 0
    ensures FirstOf(e + [rev], uid) == FirstOf(e, uid) < |e|
  {
    CountZero(e, uid);
    var i, j := FirstOf(e, uid), FirstOf(e + [rev], uid);
    assert (e + [rev])[i] == e[i];
    assert j < |e| ==> (e + [rev])[j] == e[j];
  }

  lemma CutKeepsLast<T>(s: seq<T>, i: nat)
    requires i + 1 < |s|
    ensures var cut := s[..i] + s[i + 1..]; cut != [] && cut[|cut| - 1] == s[|s| - 1]
  {
  }

  /** The per-object cap takes an older revision of the object, never the one just retained. */
  lemma CapSparesNewest(t: Timeline, lim: Limits, draft: Revision)
    requires Core(t) && draft.uid in t.objects && t.objects[draft.uid].count <= CountOf(t.entries, draft.uid)
    ensures var e := EnforcePerObject(Retain(t, draft), lim, draft.uid).entries;
            e != [] && e[|e| - 1] == draft.(seqNo := t.seqNo + 1)
  {
    var rev, t1 := draft.(seqNo := t.seqNo + 1), Retain(t, draft);
    if lim.perObject > 0 && t1.objects[draft.uid].count > lim.perObject {
      FirstOfMore(t.entries, rev, draft.uid);
      CutKeepsLast(t1.entries, FirstOf(t.entries, draft.uid));
    }
  }

  lemma SizeOfOne(rev: Revision)
    ensures TotalSize([rev]) == RevisionSize(rev)
  {
    assert [rev][1..] == [];
  }

  lemma SizeWithLast(e: seq<Revision>, k: nat)
    requires k < |e|
    ensures TotalSize(e[k..]) >= RevisionSize(e[|e| - 1]) && e[k..][|e| - 1 - k] == e[|e| - 1]
  {
    var last := |e| - 1;
    assert e[k..] == e[k..last] + [e[last]];
    SizeConcat(e[k..last], [e[last]]);
    SizeOfOne(e[last]);
  }

  /** The global bounds reach the newest revision only when it alone is too large. */
  lemma BoundsSpareNewest(t: Timeline, lim: Limits)
    requires Core(t) && t.entries != []
    ensures var rev := t.entries[|t.entries| - 1];
            rev in EnforceBounds(t, lim).entries <==> lim.maxBytes <= 0 || RevisionSize(rev) <= lim.maxBytes
  {
    var e, k, last := t.entries, R.Trimmed(t, lim), |t.entries| - 1;
    R.BoundsTrim(t, lim);
    if k <= last {
      R.TrimmedLeast(t, lim, k);
      SizeWithLast(e, k);
    } else {
      R.TrimmedLeast(t, lim, last);
      assert e[last..] == [e[last]];
      SizeOfOne(e[last]);
    }
  }

  /** What was just retained stays exactly when it fits the byte bound alone: the other bounds
      only ever take what is older. */
  lemma NewestStaysIff(t: Timeline, lim: Limits, draft: Revision)
    requires Core(t) && draft.uid in t.objects && t.objects[draft.uid].count <= CountOf(t.entries, draft.uid)
    ensures var rev := draft.(seqNo := t.seqNo + 1);
            rev in Append(t, lim, draft).entries <==> lim.maxBytes <= 0 || RevisionSize(rev) <= lim.maxBytes
  {
    CapSparesNewest(t, lim, draft);
    RetainCore(t, draft);
    EnforcePerObjectCore(Retain(t, draft), lim, draft.uid);
    BoundsSpareNewest(EnforcePerObject(Retain(t, draft), lim, draft.uid), lim);
  }
}
