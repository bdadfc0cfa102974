/** What a restart of the metrics store leaves behind it: the runs that follow. */
module MetricsRestart {
  import opened Rollup
  import opened Metrics
  import opened MetricsStore

  /* ---------- what a restart costs one instrument ---------- */

  /** A restored instrument, swept on, stands for what it stood for and what the new readings
      store from an empty baseline. */
  lemma RestoredStands(inst: InstanceSeries, catalog: seq<SeriesDef>, d: nat, before: seq<Sample>, sweeps: seq<Reading>,
                       l: Limits)
    requires Usable(l) && UniqueKeys(catalog) && d < |catalog|
    requires StandsFor(Charts(inst, catalog[d].key), before, l) && Charts(inst, catalog[d].key).base == Base(0.0, 0)
    ensures StandsFor(Charts(SweepRun(inst, catalog, sweeps, l), catalog[d].key),
                      before + Stored(catalog[d].kind, Base(0.0, 0), ReadingsOf(sweeps, catalog[d].key)), l)
  {
    SweepRunIngests(inst, catalog, d, sweeps, l);
    IngestStands(Charts(inst, catalog[d].key), catalog[d].kind, before, ReadingsOf(sweeps, catalog[d].key), l);
  }

  /** So a restart costs a counter the one rate its first reading would have stored, and a
      gauge nothing. */
  lemma RestartCostsOne(kind: Kind, base: Base, readings: seq<Sample>)
    requires readings != []
    ensures Stored(kind, base, readings)
            == (if kind == Counter then StoredOne(kind, base, readings[0]) else [])
              + Stored(kind, Base(0.0, 0), readings)
  {
    if kind == Counter {
      var rest := Rates(Base(readings[0].val, readings[0].at), readings[1..]);
      assert RateOf(Base(0.0, 0), readings[0].at, readings[0].val).None?;
      assert [] + rest == rest;
    }
  }

  /* ---------- whole stores side by side ---------- */

  function Bare(ins: Instrument): Instrument {
    ins.(base := Base(0.0, 0))
  }

  /** Two instances seen at one time with the same series, their gauges holding the same. */
  ghost predicate Alike(a: InstanceSeries, b: InstanceSeries, catalog: seq<SeriesDef>) {
    && a.lastAt == b.lastAt && a.byKey.Keys == b.byKey.Keys
    && forall d :: 0 <= d < |catalog| && catalog[d].kind == Gauge ==> SameGauge(a, b, catalog[d].key)
  }

  ghost predicate SameGauge(a: InstanceSeries, b: InstanceSeries, k: string) {
    Bare(Charts(a, k)) == Bare(Charts(b, k))
  }

  ghost predicate AllAlike(a: map<string, InstanceSeries>, b: map<string, InstanceSeries>, catalog: seq<SeriesDef>) {
    a.Keys == b.Keys && forall n :: n in a ==> Alike(a[n], b[n], catalog)
  }

  /** What a restart returns is alike what it was taken from. */
  lemma ReturnedAlike(r: map<string, InstanceSeries>, instances: map<string, InstanceSeries>, catalog: seq<SeriesDef>)
    requires Returned(r, instances)
    ensures AllAlike(r, instances, catalog)
  {
  }

  lemma {:induction false} SweptKeys(a: InstanceSeries, b: InstanceSeries, catalog: seq<SeriesDef>, at: int,
                                     values: map<string, real>, l: Limits)
    requires Usable(l) && a.byKey.Keys == b.byKey.Keys
    ensures SweepAll(a, catalog, at, values, l).byKey.Keys == SweepAll(b, catalog, at, values, l).byKey.Keys
    decreases |catalog|
  {
    if catalog != [] { SweptKeys(a, b, catalog[..|catalog| - 1], at, values, l); }
  }

  lemma SweptAlike(a: InstanceSeries, b: InstanceSeries, catalog: seq<SeriesDef>, r: Reading, l: Limits)
    requires Usable(l) && UniqueKeys(catalog) && Alike(a, b, catalog)
    ensures Alike(SweepAll(a, catalog, r.at, r.values, l), SweepAll(b, catalog, r.at, r.values, l), catalog)
  {
    SweepStamps(a, catalog, r.at, r.values, l);
    SweepStamps(b, catalog, r.at, r.values, l);
    SweptKeys(a, b, catalog, r.at, r.values, l);
    forall d | 0 <= d < |catalog| && catalog[d].kind == Gauge
      ensures SameGauge(SweepAll(a, catalog, r.at, r.values, l), SweepAll(b, catalog, r.at, r.values, l),
                        catalog[d].key)
    {
      SweepTouches(a, catalog, d, r.at, r.values, l);
      SweepTouches(b, catalog, d, r.at, r.values, l);
      assert SameGauge(a, b, catalog[d].key);
    }
  }

  /** The instances that may go are the same in either. */
  lemma LeastAlike(a: map<string, InstanceSeries>, b: map<string, InstanceSeries>, catalog: seq<SeriesDef>,
                   victim: string)
    requires AllAlike(a, b, catalog) && LeastRecent(victim, b)
    ensures LeastRecent(victim, a)
  {
    assert forall n :: n in a ==> a[n].lastAt == b[n].lastAt;
    assert |a| == |a.Keys| == |b.Keys| == |b|;
    if Unshadowed(a) { assert Unshadowed(b); }
  }

  lemma RoomAlike(a: map<string, InstanceSeries>, b: map<string, InstanceSeries>, roomB: map<string, InstanceSeries>,
                  catalog: seq<SeriesDef>, max: int) returns (room: map<string, InstanceSeries>)
    requires AllAlike(a, b, catalog) && MadeRoom(b, roomB, max)
    ensures MadeRoom(a, room, max) && AllAlike(room, roomB, catalog)
  {
    assert |a| == |a.Keys| == |b.Keys| == |b|;
    if |b| < max {
      room := a;
    } else {
      var victim :| LeastRecent(victim, b) && roomB == b - {victim};
      LeastAlike(a, b, catalog, victim);
      room := a - {victim};
    }
  }

  lemma PutAlike(a: map<string, InstanceSeries>, b: map<string, InstanceSeries>, n: string, x: InstanceSeries,
                 y: InstanceSeries,
                 catalog: seq<SeriesDef>)
    requires AllAlike(a, b, catalog) && Alike(x, y, catalog)
    ensures AllAlike(a[n := x], b[n := y], catalog)
  {
    var a1, b1 := a[n := x], b[n := y];
    forall m | m in a1 ensures Alike(a1[m], b1[m], catalog) {
      if m != n { assert Alike(a[m], b[m], catalog); }
    }
  }

  lemma RevisitedAlike(a: map<string, InstanceSeries>, b: map<string, InstanceSeries>, v: Visit,
                       catalog: seq<SeriesDef>, l: Limits)
    requires Usable(l) && UniqueKeys(catalog) && AllAlike(a, b, catalog) && v.instance in b
    ensures AllAlike(a[v.instance := SweepAll(a[v.instance], catalog, v.reading.at, v.reading.values, l)],
                     b[v.instance := SweepAll(b[v.instance], catalog, v.reading.at, v.reading.values, l)], catalog)
  {
    SweptAlike(a[v.instance], b[v.instance], catalog, v.reading, l);
    PutAlike(a, b, v.instance, SweepAll(a[v.instance], catalog, v.reading.at, v.reading.values, l),
             SweepAll(b[v.instance], catalog, v.reading.at, v.reading.values, l), catalog);
  }

  lemma AdmittedAlike(a: map<string, InstanceSeries>, b: map<string, InstanceSeries>, n: string, next: InstanceSeries,
                      catalog: seq<SeriesDef>)
    requires AllAlike(a, b, catalog)
    ensures AllAlike(a[n := next], b[n := next], catalog)
  {
    assert Alike(next, next, catalog) by {
      assert forall d :: 0 <= d < |catalog| ==> SameGauge(next, next, catalog[d].key);
    }
    PutAlike(a, b, n, next, next, catalog);
  }

  /** Whatever one store may do on a sweep, a store alike may do too, and stay alike. */
  lemma ObservedAlike(a: map<string, InstanceSeries>, b: map<string, InstanceSeries>, b1: map<string, InstanceSeries>,
                      v: Visit, catalog: seq<SeriesDef>, l: Limits) returns (a1: map<string, InstanceSeries>)
    requires Usable(l) && UniqueKeys(catalog) && AllAlike(a, b, catalog)
             && Observed(b, b1, v.instance, catalog, v.reading, l)
    ensures Observed(a, a1, v.instance, catalog, v.reading, l) && AllAlike(a1, b1, catalog)
  {
    if v.instance in b {
      RevisitedAlike(a, b, v, catalog, l);
      a1 := a[v.instance := SweepAll(a[v.instance], catalog, v.reading.at, v.reading.values, l)];
    } else {
      var next := SweepAll(NEW_INSTANCE, catalog, v.reading.at, v.reading.values, l);
      var roomB :| MadeRoom(b, roomB, l.maxInstances) && b1 == roomB[v.instance := next];
      var room := RoomAlike(a, b, roomB, catalog, l.maxInstances);
      AdmittedAlike(room, roomB, v.instance, next, catalog);
      a1 := room[v.instance := next];
    }
  }

  ghost predicate RunFrom(start: map<string, InstanceSeries>, states: seq<map<string, InstanceSeries>>,
                          visits: seq<Visit>, catalog: seq<SeriesDef>, l: Limits)
    requires Usable(l)
  {
    && |states| == |visits| + 1 && states[0] == start
    && forall i :: 0 <= i < |visits|
         ==> Observed(states[i], states[i + 1], visits[i].instance, catalog, visits[i].reading, l)
  }

  ghost predicate AlikeThroughout(a: seq<map<string, InstanceSeries>>, b: seq<map<string, InstanceSeries>>,
                                  catalog: seq<SeriesDef>) {
    |a| == |b| && forall i :: 0 <= i < |a| ==> AllAlike(a[i], b[i], catalog)
  }

  lemma RunFront(start: map<string, InstanceSeries>, states: seq<map<string, InstanceSeries>>, visits: seq<Visit>,
                 catalog: seq<SeriesDef>, l: Limits)
    requires Usable(l) && visits != [] && RunFrom(start, states, visits, catalog, l)
    ensures var n := |visits| - 1;
            && RunFrom(start, states[..n + 1], visits[..n], catalog, l)
            && Observed(states[n], states[n + 1], visits[n].instance, catalog, visits[n].reading, l)
  {
  }

  lemma RunPush(start: map<string, InstanceSeries>, states: seq<map<string, InstanceSeries>>, visits: seq<Visit>,
                v: Visit, next: map<string, InstanceSeries>, catalog: seq<SeriesDef>, l: Limits)
    requires Usable(l) && RunFrom(start, states, visits, catalog, l)
    requires Observed(states[|visits|], next, v.instance, catalog, v.reading, l)
    ensures RunFrom(start, states + [next], visits + [v], catalog, l)
  {
  }

  lemma AlikePush(a: seq<map<string, InstanceSeries>>, b: seq<map<string, InstanceSeries>>,
                  x: map<string, InstanceSeries>,
                  y: map<string, InstanceSeries>, catalog: seq<SeriesDef>)
    requires AlikeThroughout(a, b, catalog) && AllAlike(x, y, catalog)
    ensures AlikeThroughout(a + [x], b + [y], catalog)
  {
  }

  /** Any run of one store is matched, state by state, by a run of a store alike. */
  lemma {:induction false} RunAlike(a: map<string, InstanceSeries>, b: map<string, InstanceSeries>,
                                    states: seq<map<string, InstanceSeries>>,
                                    visits: seq<Visit>, catalog: seq<SeriesDef>, l: Limits)
    returns (matched: seq<map<string, InstanceSeries>>)
    requires Usable(l) && UniqueKeys(catalog) && AllAlike(a, b, catalog) && RunFrom(b, states, visits, catalog, l)
    ensures RunFrom(a, matched, visits, catalog, l) && AlikeThroughout(matched, states, catalog)
    decreases |visits|
  {
    if visits == [] {
      matched := [a];
    } else {
      var n := |visits| - 1;
      RunFront(b, states, visits, catalog, l);
      var before := RunAlike(a, b, states[..n + 1], visits[..n], catalog, l);
      assert visits == visits[..n] + [visits[n]] && states == states[..n + 1] + [states[n + 1]];
      matched := RunAlikeNext(a, before, states[..n + 1], visits[..n], visits[n], states[n + 1], catalog, l);
    }
  }

  lemma {:induction false} RunAlikeNext(a: map<string, InstanceSeries>, before: seq<map<string, InstanceSeries>>,
                                        states: seq<map<string, InstanceSeries>>, visits: seq<Visit>, v: Visit,
                                        b1: map<string, InstanceSeries>, catalog: seq<SeriesDef>, l: Limits)
    returns (matched: seq<map<string, InstanceSeries>>)
    requires Usable(l) && UniqueKeys(catalog)
    requires RunFrom(a, before, visits, catalog, l) && AlikeThroughout(before, states, catalog)
    requires Observed(states[|visits|], b1, v.instance, catalog, v.reading, l)
    ensures RunFrom(a, matched, visits + [v], catalog, l) && AlikeThroughout(matched, states + [b1], catalog)
  {
    var next := ObservedAlike(before[|visits|], states[|visits|], b1, v, catalog, l);
    matched := before + [next];
    RunPush(a, before, visits, v, next, catalog, l);
    AlikePush(before, states, next, b1, catalog);
  }

  lemma AlikeReversed(a: map<string, InstanceSeries>, b: map<string, InstanceSeries>, catalog: seq<SeriesDef>)
    requires AllAlike(a, b, catalog)
    ensures AllAlike(b, a, catalog)
  {
    forall n | n in b ensures Alike(b[n], a[n], catalog) {
      assert Alike(a[n], b[n], catalog);
      assert forall d :: 0 <= d < |catalog| && catalog[d].kind == Gauge ==> SameGauge(a[n], b[n], catalog[d].key);
    }
  }

  ghost predicate Matches(a: map<string, InstanceSeries>, b: map<string, InstanceSeries>, visits: seq<Visit>,
                          catalog: seq<SeriesDef>, l: Limits)
    requires Usable(l)
  {
    forall states :: RunFrom(b, states, visits, catalog, l) ==>
      exists matched :: RunFrom(a, matched, visits, catalog, l) && AlikeThroughout(matched, states, catalog)
  }

  /** After an exact round trip every run goes on as it would have without the restart, and
      no other way: the same instances are tracked with the same recency, the same are
      evicted, and every gauge has the same window, rollup and open bucket throughout. */
  lemma GaugesContinue(instances: map<string, InstanceSeries>, records: seq<Persisted>, keep: set<string>,
                       visits: seq<Visit>, catalog: seq<SeriesDef>, l: Limits)
    requires Usable(l) && UniqueKeys(catalog) && Exported(instances, records) && Complete(instances, catalog)
    requires |instances| <= l.maxInstances && AllFit(instances, l)
             && MostRecent(keep, LastSeen(records), l.maxInstances)
    requires AllRestorable(instances)
    ensures var r := ImportAll(map[], records, keep, catalog, l);
            Matches(r, instances, visits, catalog, l) && Matches(instances, r, visits, catalog, l)
  {
    var r := ImportAll(map[], records, keep, catalog, l);
    RoundTripIff(instances, records, keep, catalog, l);
    ReturnedAlike(r, instances, catalog);
    AlikeReversed(r, instances, catalog);
    forall states | RunFrom(instances, states, visits, catalog, l)
      ensures exists matched :: RunFrom(r, matched, visits, catalog, l) && AlikeThroughout(matched, states, catalog)
    {
      var matched := RunAlike(r, instances, states, visits, catalog, l);
    }
    forall states | RunFrom(r, states, visits, catalog, l)
      ensures exists matched :: RunFrom(instances, matched, visits, catalog, l)
                && AlikeThroughout(matched, states, catalog)
    {
      var matched := RunAlike(instances, r, states, visits, catalog, l);
    }
  }
}
