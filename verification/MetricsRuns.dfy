/** Whole runs of the metrics store: what a tracked instrument stands for, and which
    instance an eviction takes. */
module MetricsRuns {
  import opened Counting
  import opened Lex
  import opened Rollup
  import opened Metrics
  import opened MetricsStore

  /* ---------- the instance an eviction takes ---------- */

  ghost predicate IsOrder(order: seq<string>, instances: map<string, InstanceSeries>) {
    Elements(order) == instances.Keys && forall i, j :: 0 <= i < j < |order| ==> order[i] != order[j]
  }

  /** What the loop has found over part of an order: nothing seen is older, or it was
      forgotten for an empty name no older than the least recent instance still to come. */
  ghost predicate Found(part: seq<string>, v: string, instances: map<string, InstanceSeries>, n: string)
    requires n in instances && "" in instances
  {
    forall p :: p in part ==>
      && p in instances
      && ((v != "" && v in instances && instances[v].lastAt <= instances[p].lastAt)
          || (n !in part && instances[""].lastAt <= instances[p].lastAt))
  }

  lemma {:induction false} FoundAll(order: seq<string>, k: nat, instances: map<string, InstanceSeries>, n: string)
    requires k <= |order| && forall i :: 0 <= i < |order| ==> order[i] in instances
    requires forall i, j :: 0 <= i < j < |order| ==> order[i] != order[j]
    requires n in instances && n != "" && "" in instances && instances[n].lastAt <= instances[""].lastAt
    ensures Found(order[..k], Victim(order[..k], instances), instances, n)
    ensures Victim(order[..k], instances) != "" ==> Victim(order[..k], instances) in order[..k]
    decreases k
  {
    if k > 0 {
      var front, x := order[..k - 1], order[k - 1];
      FoundAll(order, k - 1, instances, n);
      assert order[..k][..k - 1] == front && order[..k] == front + [x];
      FoundNext(front, x, instances, n);
    }
  }

  lemma FoundNext(front: seq<string>, x: string, instances: map<string, InstanceSeries>, n: string)
    requires (forall i :: 0 <= i < |front| ==> front[i] in instances) && x in instances && x !in front
    requires n in instances && n != "" && "" in instances && instances[n].lastAt <= instances[""].lastAt
    requires Found(front, Victim(front, instances), instances, n)
    requires Victim(front, instances) != "" ==> Victim(front, instances) in front
    ensures Found(front + [x], Victim(front + [x], instances), instances, n)
    ensures Victim(front + [x], instances) != "" ==> Victim(front + [x], instances) in front + [x]
  {
    assert (front + [x])[..|front|] == front;
  }

  lemma {:induction false} PlainOrder(order: seq<string>, instances: map<string, InstanceSeries>)
    requires order != [] && "" !in instances && forall i :: 0 <= i < |order| ==> order[i] in instances
    ensures var v := Victim(order, instances);
            v in order && forall p :: p in order ==> instances[v].lastAt <= instances[p].lastAt
  {
    var front, x := order[..|order| - 1], order[|order| - 1];
    assert order == front + [x];
    if front != [] { PlainOrder(front, instances); }
  }

  /** Whatever the order, the loop takes a least recent instance, unless the empty name shadows it. */
  lemma EveryOrderLeast(order: seq<string>, instances: map<string, InstanceSeries>)
    requires instances != map[] && Elements(order) == instances.Keys
    requires forall i, j :: 0 <= i < j < |order| ==> order[i] != order[j]
    requires forall i :: 0 <= i < |order| ==> order[i] in instances
    ensures LeastRecent(Victim(order, instances), instances)
  {
    var some :| some in instances;
    assert some in Elements(order);
    assert forall p :: p in instances ==> p in Elements(order);
    if "" !in instances {
      PlainOrder(order, instances);
    } else if n :| n in instances && n != "" && instances[n].lastAt <= instances[""].lastAt {
      FoundAll(order, |order|, instances, n);
      assert order[..|order|] == order;
    } else {
      VictimAmong(order, instances);
      if |instances| == 1 { OnlyOne(instances); }
    }
  }

  lemma {:induction false} VictimAmong(order: seq<string>, instances: map<string, InstanceSeries>)
    requires order != [] && forall i :: 0 <= i < |order| ==> order[i] in instances
    ensures Victim(order, instances) in order
  {
    var front, x := order[..|order| - 1], order[|order| - 1];
    assert order == front + [x];
    if front != [] { VictimAmong(front, instances); }
  }

  lemma OnlyOne(instances: map<string, InstanceSeries>)
    requires |instances| == 1
    ensures forall a, b :: a in instances && b in instances ==> a == b
  {
    assert |instances.Keys| == 1;
    var k :| k in instances.Keys;
    SubsetCount({k}, instances.Keys);
  }

  lemma {:induction false} ShadowedFirst(rest: seq<string>, instances: map<string, InstanceSeries>)
    requires "" in instances && "" !in rest && forall i :: 0 <= i < |rest| ==> rest[i] in instances
    ensures Victim([""] + rest, instances) != "" <==> rest != []
    decreases |rest|
  {
    if rest != [] {
      var front := rest[..|rest| - 1];
      assert ([""] + rest)[..|rest|] == [""] + front;
      ShadowedFirst(front, instances);
      VictimAmong([""] + front, instances);
    } else {
      assert ([""] + rest)[..0] == [];
    }
  }

  /** Exactly then: some order makes the loop spare the least recent instance if and only
      if that instance is the one with the empty name, alone older than all others. */
  lemma EveryOrderLeastIff(instances: map<string, InstanceSeries>)
    requires instances != map[]
    ensures (forall order :: IsOrder(order, instances) && (forall i :: 0 <= i < |order| ==> order[i] in instances) ==>
               Least(Victim(order, instances), instances))
            <==> Unshadowed(instances)
  {
    if Unshadowed(instances) {
      forall order | IsOrder(order, instances) && (forall i :: 0 <= i < |order| ==> order[i] in instances)
        ensures Least(Victim(order, instances), instances)
      {
        EveryOrderLeast(order, instances);
      }
    } else {
      ShadowedOrder(instances);
    }
  }

  lemma EmptyFirst(instances: map<string, InstanceSeries>) returns (rest: seq<string>)
    requires "" in instances && |instances| > 1
    ensures rest != [] && "" !in rest && IsOrder([""] + rest, instances)
    ensures forall i :: 0 <= i < |rest| ==> rest[i] in instances
  {
    var others := instances.Keys - {""};
    rest := Ascending(others);
    SortedDistinct(rest);
    assert forall i :: 0 <= i < |rest| ==> rest[i] in Elements(rest);
    assert Elements([""] + rest) == {""} + others by {
      assert forall x :: x in [""] + rest <==> x == "" || x in Elements(rest);
    }
    assert |instances.Keys| == |instances| && |others| == |instances| - 1;
    var o :| o in others;
    assert o in Elements(rest);
  }

  lemma ShadowedOrder(instances: map<string, InstanceSeries>)
    requires !Unshadowed(instances)
    ensures exists order :: IsOrder(order, instances) && (forall i :: 0 <= i < |order| ==> order[i] in instances)
                            && !Least(Victim(order, instances), instances)
  {
    var rest := EmptyFirst(instances);
    ShadowedFirst(rest, instances);
    VictimAmong([""] + rest, instances);
  }

  /* ---------- what a tracked instrument stands for ---------- */

  /** The sweeps of an instance since it was last admitted. */
  ghost function Since(states: seq<map<string, InstanceSeries>>, visits: seq<Visit>, n: string): seq<Reading>
    requires |states| == |visits| + 1
    decreases |visits|
  {
    if visits == [] then []
    else
      var k := |visits| - 1;
      var v, before := visits[k], Since(states[..k + 1], visits[..k], n);
      if v.instance != n then before
      else (if n in states[k] then before else []) + [v.reading]
  }

  lemma {:induction false} SweepRunPush(inst: InstanceSeries, catalog: seq<SeriesDef>, sweeps: seq<Reading>, r: Reading,
                                        l: Limits)
    requires Usable(l)
    ensures SweepRun(inst, catalog, sweeps + [r], l)
            == SweepAll(SweepRun(inst, catalog, sweeps, l), catalog, r.at, r.values, l)
    decreases |sweeps|
  {
    if sweeps == [] {
      assert ([] + [r])[1..] == [];
    } else {
      assert (sweeps + [r])[1..] == sweeps[1..] + [r];
      SweepRunPush(SweepAll(inst, catalog, sweeps[0].at, sweeps[0].values, l), catalog, sweeps[1..], r, l);
    }
  }

  lemma ObservedOther(before: map<string, InstanceSeries>, after: map<string, InstanceSeries>, instance: string,
                      catalog: seq<SeriesDef>, r: Reading, l: Limits, n: string)
    requires Usable(l) && Observed(before, after, instance, catalog, r, l) && n in after && n != instance
    ensures n in before && after[n] == before[n]
  {
  }

  /** Over any run a tracked instance is exactly what its sweeps since its last admission
      made of a new one; whatever it was before an eviction is gone. */
  lemma {:induction false} RunTracks(states: seq<map<string, InstanceSeries>>, visits: seq<Visit>,
                                     catalog: seq<SeriesDef>, l: Limits, n: string)
    requires Usable(l) && Run(states, visits, catalog, l) && n in states[|visits|]
    ensures states[|visits|][n] == SweepRun(NEW_INSTANCE, catalog, Since(states, visits, n), l)
    decreases |visits|
  {
    if visits != [] {
      var k := |visits| - 1;
      var v := visits[k];
      assert Observed(states[k], states[k + 1], v.instance, catalog, v.reading, l);
      if v.instance != n {
        ObservedOther(states[k], states[k + 1], v.instance, catalog, v.reading, l, n);
        RunTracks(states[..k + 1], visits[..k], catalog, l, n);
      } else {
        var before := if n in states[k] then Since(states[..k + 1], visits[..k], n) else [];
        if n in states[k] { RunTracks(states[..k + 1], visits[..k], catalog, l, n); }
        SweepRunPush(NEW_INSTANCE, catalog, before, v.reading, l);
      }
    }
  }

  /** So each of its instruments stands for exactly the samples its series stored in that
      time, through evictions and readmissions. */
  lemma RunExact(states: seq<map<string, InstanceSeries>>, visits: seq<Visit>, catalog: seq<SeriesDef>, l: Limits,
                 n: string, d: nat)
    requires Usable(l) && Run(states, visits, catalog, l) && n in states[|visits|] && UniqueKeys(catalog)
             && d < |catalog|
    ensures StandsFor(Charts(states[|visits|][n], catalog[d].key),
                      Stored(catalog[d].kind, Base(0.0, 0), ReadingsOf(Since(states, visits, n), catalog[d].key)), l)
  {
    RunTracks(states, visits, catalog, l, n);
    SweepRunExact(catalog, d, Since(states, visits, n), l);
  }

  /* ---------- an instance a restart forgets ---------- */

  lemma {:induction false} NothingReported(inst: InstanceSeries, catalog: seq<SeriesDef>, at: int, l: Limits)
    requires Usable(l)
    ensures SweepAll(inst, catalog, at, map[], l).byKey == inst.byKey
    decreases |catalog|
  {
    if catalog != [] { NothingReported(inst, catalog[..|catalog| - 1], at, l); }
  }

  /** A reachable store a restart does not give back: one instance whose only sweep
      reported no charted series. */
  lemma SilentInstanceForgotten(n: string, at: int, catalog: seq<SeriesDef>, l: Limits, records: seq<Persisted>,
                                keep: set<string>)
    requires Usable(l)
    ensures var after := map[n := SweepAll(NEW_INSTANCE, catalog, at, map[], l)];
            && Run([map[], after], [Visit(n, Reading(at, map[]))], catalog, l)
            && (Exported(after, records) && MostRecent(keep, LastSeen(records), l.maxInstances) ==>
                  !Returned(ImportAll(map[], records, keep, catalog, l), after))
  {
    var after := map[n := SweepAll(NEW_INSTANCE, catalog, at, map[], l)];
    NothingReported(NEW_INSTANCE, catalog, at, l);
    var none: map<string, InstanceSeries> := map[];
    assert MadeRoom(none, none, l.maxInstances) && after == none[n := SweepAll(NEW_INSTANCE, catalog, at, map[], l)];
    assert Observed(none, after, n, catalog, Reading(at, map[]), l);
    if Exported(after, records) && MostRecent(keep, LastSeen(records), l.maxInstances) {
      RoundTripIff(after, records, keep, catalog, l);
      assert !Restorable(after[n]);
    }
  }
}
