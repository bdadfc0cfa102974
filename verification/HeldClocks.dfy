/** First-seen clocks over the states a cluster publishes. */
module HeldClocks {
  import opened Lex

  /** One publication: the states present in it, as keys, and when it was made. */
  datatype Publication = Publication(keys: seq<string>, at: int)

  datatype Snapshot = Snapshot(generation: nat, observedAt: int, stale: bool, keys: seq<string>,
                               since: map<string, int>)

  /* ---------- what a clock should read ---------- */

  /** Every publication from the i-th on showed the key. */
  ghost predicate HeldFrom(pubs: seq<Publication>, key: string, i: nat) {
    forall j :: i <= j < |pubs| ==> key in pubs[j].keys
  }

  /** The i-th publication began the unbroken run that shows the key to the end. */
  ghost predicate RunStarts(pubs: seq<Publication>, key: string, i: nat) {
    i < |pubs| && HeldFrom(pubs, key, i) && (i == 0 || key !in pubs[i - 1].keys)
  }

  lemma {:induction false} RunExists(pubs: seq<Publication>, key: string)
    requires pubs != [] && key in pubs[|pubs| - 1].keys
    ensures exists i :: RunStarts(pubs, key, i)
    decreases |pubs|
  {
    var n := |pubs| - 1;
    if n == 0 || key !in pubs[n - 1].keys {
      assert RunStarts(pubs, key, n);
    } else {
      RunExists(pubs[..n], key);
      var i :| RunStarts(pubs[..n], key, i);
      RunGrows(pubs[..n], pubs[n], key, i);
      assert pubs == pubs[..n] + [pubs[n]];
    }
  }

  lemma RunGrows(pubs: seq<Publication>, p: Publication, key: string, i: nat)
    requires RunStarts(pubs, key, i) && key in p.keys
    ensures RunStarts(pubs + [p], key, i)
  {
  }

  /** Exactly the states of the last publication have a clock, and each reads the time of
      the publication that began its run. */
  ghost predicate Clocks(since: map<string, int>, pubs: seq<Publication>) {
    && (forall key :: key in since <==> pubs != [] && key in pubs[|pubs| - 1].keys)
    && forall key, i: nat :: key in since && RunStarts(pubs, key, i) ==> since[key] == pubs[i].at
  }

  /** What publish builds, key by key. */
  function Held(before: map<string, int>, keys: seq<string>, at: int): map<string, int> {
    if keys == [] then map[]
    else
      var n := |keys| - 1;
      Held(before, keys[..n], at)[keys[n] := if keys[n] in before then before[keys[n]] else at]
  }

  lemma {:induction false} HeldMeans(before: map<string, int>, keys: seq<string>, at: int)
    ensures Held(before, keys, at).Keys == Elements(keys)
    ensures forall k :: k in keys ==> Held(before, keys, at)[k] == if k in before then before[k] else at
    decreases |keys|
  {
    if keys != [] {
      var n := |keys| - 1;
      HeldMeans(before, keys[..n], at);
      ElementsNext(keys, n);
      assert keys[..n + 1] == keys;
    }
  }

  lemma ClocksKept(since: map<string, int>, pubs: seq<Publication>, p: Publication)
    requires Clocks(since, pubs)
    ensures Clocks(Held(since, p.keys, p.at), pubs + [p])
  {
    HeldMeans(since, p.keys, p.at);
    var next, all := Held(since, p.keys, p.at), pubs + [p];
    assert pubs != [] ==> all[|pubs| - 1] == pubs[|pubs| - 1];
    forall key, i: nat | key in next && RunStarts(all, key, i) ensures next[key] == all[i].at {
      if key in since {
        RunExists(pubs, key);
        var j :| RunStarts(pubs, key, j);
        RunGrows(pubs, p, key, j);
      }
    }
  }

  /* ---------- the store ---------- */

  class Store {
    var snap: Snapshot
    var has: bool
    ghost var pubs: seq<Publication>

    ghost predicate Valid()
      reads this
    {
      && (has <==> pubs != []) && snap.generation == |pubs| && Clocks(snap.since, pubs)
      && (has ==> snap.keys == pubs[|pubs| - 1].keys && snap.observedAt == pubs[|pubs| - 1].at)
    }

    constructor ()
      ensures Valid() && pubs == [] && !has
    {
      snap, has, pubs := Snapshot(0, 0, false, [], map[]), false, [];
    }

    /** publish: a state present before keeps its clock, a new one starts it now. */
    method Publish(keys: seq<string>, at: int)
      requires Valid()
      modifies this
      ensures Valid() && pubs == old(pubs) + [Publication(keys, at)]
      ensures has && !snap.stale && snap.generation == old(snap.generation) + 1
    {
      var held: map<string, int> := map[];
      for i := 0 to |keys|
        invariant held == Held(snap.since, keys[..i], at)
      {
        assert keys[..i + 1][..i] == keys[..i];
        if has && keys[i] in snap.since {
          held := held[keys[i] := snap.since[keys[i]]];
        } else {
          held := held[keys[i] := at];
        }
      }
      assert keys[..|keys|] == keys;
      ClocksKept(snap.since, pubs, Publication(keys, at));
      snap := Snapshot(snap.generation + 1, at, false, keys, held);
      has := true;
      pubs := pubs + [Publication(keys, at)];
    }

    /** markStale does not interrupt any clock. */
    method MarkStale()
      requires Valid()
      modifies this`snap
      ensures Valid() && snap == if has then old(snap).(stale := true) else old(snap)
    {
      if has { snap := snap.(stale := true); }
    }

    method HeldEvidence(key: string, minAge: int, now: int) returns (v: Verdict)
      requires Valid()
      ensures v == Evidence(snap.since, key, minAge, now)
      ensures minAge == 0 ==> v == Matched
      ensures minAge != 0 ==> (v == Matched <==> RunIsOld(pubs, key, minAge, now))
      ensures minAge != 0 && v == Matched ==> HeldFor(pubs, key, minAge, now)
      ensures minAge != 0 && Timed(pubs) && HeldFor(pubs, key, minAge, now) ==> v == Matched
      ensures minAge != 0 ==> (v == Unjudged <==> pubs == [] || key !in pubs[|pubs| - 1].keys)
    {
      if minAge != 0 {
        MatchesIffRunIsOld(snap.since, pubs, key, minAge, now);
        if Timed(pubs) && HeldFor(pubs, key, minAge, now) { HeldRunIsOld(pubs, key, minAge, now); }
      }
      if minAge == 0 { return Matched; }
      if key !in snap.since { return Unjudged; }
      return if now - snap.since[key] < minAge then NotYet else Matched;
    }
  }

  /* ---------- the minimum-age check ---------- */

  datatype Verdict = Matched | NotYet | Unjudged

  /** heldEvidence. */
  function Evidence(since: map<string, int>, key: string, minAge: int, now: int): Verdict {
    if minAge == 0 then Matched
    else if key !in since then Unjudged
    else if now - since[key] < minAge then NotYet
    else Matched
  }

  ghost predicate Timed(pubs: seq<Publication>) {
    forall i, j :: 0 <= i < j < |pubs| ==> pubs[i].at <= pubs[j].at
  }

  /** Some publication at least minAge old, and every one since, showed the state. */
  ghost predicate HeldFor(pubs: seq<Publication>, key: string, minAge: int, now: int) {
    exists i :: 0 <= i < |pubs| && pubs[i].at + minAge <= now && HeldFrom(pubs, key, i)
  }

  /** The publication that began the unbroken run is that old. */
  ghost predicate RunIsOld(pubs: seq<Publication>, key: string, minAge: int, now: int) {
    exists i: nat :: RunStarts(pubs, key, i) && pubs[i].at + minAge <= now
  }

  /** Whatever the order of publication times: a check with a minimum age matches if and only
      if the unbroken run that shows the state began that long ago; and then the state was
      shown by some publication that old and by every publication since. */
  lemma {:induction false} MatchesIffRunIsOld(since: map<string, int>, pubs: seq<Publication>, key: string, minAge: int,
                                              now: int)
    requires Clocks(since, pubs) && minAge != 0
    ensures Evidence(since, key, minAge, now) == Matched <==> RunIsOld(pubs, key, minAge, now)
    ensures Evidence(since, key, minAge, now) == Matched ==> HeldFor(pubs, key, minAge, now)
  {
    if RunIsOld(pubs, key, minAge, now) {
      var i: nat :| RunStarts(pubs, key, i) && pubs[i].at + minAge <= now;
      assert key in pubs[|pubs| - 1].keys;
    }
    if Evidence(since, key, minAge, now) == Matched {
      RunExists(pubs, key);
      var i: nat :| RunStarts(pubs, key, i);
      assert HeldFrom(pubs, key, i);
    }
  }

  /** While publication times never go back, a state shown that long has an old run. */
  lemma {:induction false} HeldRunIsOld(pubs: seq<Publication>, key: string, minAge: int, now: int)
    requires Timed(pubs) && HeldFor(pubs, key, minAge, now)
    ensures RunIsOld(pubs, key, minAge, now)
  {
    var j :| 0 <= j < |pubs| && pubs[j].at + minAge <= now && HeldFrom(pubs, key, j);
    var i := LongestRun(pubs, key, j);
    NotLater(pubs, i, j);
    assert RunStarts(pubs, key, i) && pubs[i].at + minAge <= now;
  }

  lemma {:induction false} NotLater(pubs: seq<Publication>, i: nat, j: nat)
    requires Timed(pubs) && i <= j < |pubs|
    ensures pubs[i].at <= pubs[j].at
  {
  }

  lemma {:induction false} LongestRun(pubs: seq<Publication>, key: string, j: nat) returns (i: nat)
    requires j < |pubs| && HeldFrom(pubs, key, j)
    ensures RunStarts(pubs, key, i) && i <= j
  {
    assert key in pubs[|pubs| - 1].keys;
    RunExists(pubs, key);
    i :| RunStarts(pubs, key, i);
    RunIsLongest(pubs, key, i, j);
  }

  lemma {:induction false} RunIsLongest(pubs: seq<Publication>, key: string, i: nat, j: nat)
    requires RunStarts(pubs, key, i) && j < |pubs| && HeldFrom(pubs, key, j)
    ensures i <= j
  {
  }

  lemma {:induction false} EvidenceIff(since: map<string, int>, pubs: seq<Publication>, key: string, minAge: int,
                                       now: int)
    requires Clocks(since, pubs) && Timed(pubs) && minAge != 0
    ensures Evidence(since, key, minAge, now) == Matched <==> HeldFor(pubs, key, minAge, now)
  {
    MatchesIffRunIsOld(since, pubs, key, minAge, now);
    if HeldFor(pubs, key, minAge, now) { HeldRunIsOld(pubs, key, minAge, now); }
  }
}
