/** The store of instruments by instance, its instance cap, and its snapshot. */
module MetricsStore {
  import opened Prelude
  import opened Counting
  import opened Lex
  import opened Ring
  import opened Rollup
  import opened Metrics

  datatype InstanceSeries = InstanceSeries(byKey: map<string, Instrument>, lastAt: int)

  const NEW_INSTANCE := InstanceSeries(map[], 0)

  predicate Charted(catalog: seq<SeriesDef>, key: string) {
    exists i :: 0 <= i < |catalog| && catalog[i].key == key
  }

  /* ---------- one sweep ---------- */

  function Sweep(inst: InstanceSeries, def: SeriesDef, at: int, values: map<string, real>, l: Limits): InstanceSeries
    requires Usable(l)
  {
    if def.key !in values then inst
    else
      var ins := if def.key in inst.byKey then inst.byKey[def.key] else NEW_INSTRUMENT;
      inst.(byKey := inst.byKey[def.key := Ingest(ins, def.kind, Sample(at, values[def.key]), l)])
  }

  function SweepAll(inst: InstanceSeries, catalog: seq<SeriesDef>, at: int, values: map<string, real>,
                    l: Limits): InstanceSeries
    requires Usable(l)
  {
    if catalog == [] then inst.(lastAt := at)
    else
      var n := |catalog| - 1;
      Sweep(SweepAll(inst, catalog[..n], at, values, l), catalog[n], at, values, l)
  }

  /* ---------- the snapshot ---------- */

  datatype Persisted = Persisted(instance: string, series: string, lastAt: int, raw: seq<Sample>,
                                 rollups: seq<Bucket>, open: Bucket)

  function RecordOf(instances: map<string, InstanceSeries>, instance: string, series: string): Persisted
    requires instance in instances && series in instances[instance].byKey
  {
    var ins := instances[instance].byKey[series];
    Persisted(instance, series, instances[instance].lastAt, ins.raw, ins.roll, ins.open)
  }

  ghost predicate IsRecord(instances: map<string, InstanceSeries>, p: Persisted) {
    && p.instance in instances && p.series in instances[p.instance].byKey
    && p == RecordOf(instances, p.instance, p.series)
  }

  predicate RecordLess(a: Persisted, b: Persisted) {
    if a.instance != b.instance then Less(a.instance, b.instance) else Less(a.series, b.series)
  }

  /** The snapshot holds one record for every instrument and nothing else, by instance
      and then by series. */
  ghost predicate Exported(instances: map<string, InstanceSeries>, records: seq<Persisted>) {
    && (forall i, j :: 0 <= i < j < |records| ==> RecordLess(records[i], records[j]))
    && (forall i :: 0 <= i < |records| ==> IsRecord(instances, records[i]))
    && (forall instance, series :: instance in instances && series in instances[instance].byKey ==>
          RecordOf(instances, instance, series) in records)
  }

  /** When each instance was last observed, according to the records; the time zero, like
      any time before it, never counts as an observation. */
  function LastSeen(records: seq<Persisted>): map<string, int> {
    if records == [] then map[]
    else
      var before, p := LastSeen(records[..|records| - 1]), records[|records| - 1];
      if p.lastAt > (if p.instance in before then before[p.instance] else 0) then before[p.instance := p.lastAt]
      else before
  }

  /** A choice of at most max instances, none of them seen before a rejected one. */
  ghost predicate MostRecent(keep: set<string>, last: map<string, int>, max: nat) {
    && keep <= last.Keys
    && |keep| == (if |last| <= max then |last| else max)
    && forall k, d :: k in keep && d in last && d !in keep ==> last[k] >= last[d]
  }

  function PushAll<T>(window: seq<T>, items: seq<T>, cap: nat): seq<T>
    decreases |items|
  {
    if items == [] then window else PushAll(Window(window + [items[0]], cap), items[1..], cap)
  }

  function ImportOne(instances: map<string, InstanceSeries>, p: Persisted, keep: set<string>,
                     catalog: seq<SeriesDef>, l: Limits): map<string, InstanceSeries>
    requires Usable(l)
  {
    if p.instance !in keep || !Charted(catalog, p.series) then instances
    else
      var inst := if p.instance in instances then instances[p.instance] else NEW_INSTANCE;
      var ins := Instrument(PushAll([], p.raw, RawCap(l)), PushAll([], p.rollups, RollCap(l)), p.open, Base(0.0, 0));
      instances[p.instance := InstanceSeries(inst.byKey[p.series := ins],
                                             if p.lastAt > inst.lastAt then p.lastAt else inst.lastAt)]
  }

  function ImportAll(instances: map<string, InstanceSeries>, records: seq<Persisted>, keep: set<string>,
                     catalog: seq<SeriesDef>, l: Limits): map<string, InstanceSeries>
    requires Usable(l)
  {
    if records == [] then instances
    else
      var n := |records| - 1;
      ImportOne(ImportAll(instances, records[..n], keep, catalog, l), records[n], keep, catalog, l)
  }

  /** at is the latest time among these records of the instance; time zero stands for none. */
  ghost predicate NewestAt(at: int, records: seq<Persisted>, instance: string) {
    && at >= 0
    && (forall i :: 0 <= i < |records| && records[i].instance == instance ==> records[i].lastAt <= at)
    && (at > 0 ==> exists i :: 0 <= i < |records| && records[i].instance == instance && records[i].lastAt == at)
  }

  lemma NewestNext(at: int, front: seq<Persisted>, p: Persisted, instance: string)
    requires NewestAt(at, front, instance)
    ensures NewestAt(if p.instance == instance && p.lastAt > at then p.lastAt else at, front + [p], instance)
  {
    var all := front + [p];
    assert all[|front|] == p;
    if at > 0 {
      var i :| 0 <= i < |front| && front[i].instance == instance && front[i].lastAt == at;
      assert all[i] == front[i];
    }
  }

  /** An instance counts as seen exactly when some record of it has a time, and then since the latest. */
  lemma {:induction false} LastSeenMeans(records: seq<Persisted>, instance: string)
    ensures var last := LastSeen(records);
            && NewestAt(if instance in last then last[instance] else 0, records, instance)
            && (instance in last ==> last[instance] > 0)
    decreases |records|
  {
    if records != [] {
      var front, p := records[..|records| - 1], records[|records| - 1];
      LastSeenMeans(front, instance);
      var last := LastSeen(front);
      NewestNext(if instance in last then last[instance] else 0, front, p, instance);
      assert records == front + [p];
    }
  }

  /** The records an import keeps of one instance. */
  ghost function ChartedOf(records: seq<Persisted>, keep: set<string>, catalog: seq<SeriesDef>): seq<Persisted> {
    if records == [] then []
    else
      var p := records[|records| - 1];
      ChartedOf(records[..|records| - 1], keep, catalog)
      + (if p.instance in keep && Charted(catalog, p.series) then [p] else [])
  }

  /** Whatever the records say, each instance an import leaves was last observed at the latest
      time its charted records give. */
  lemma {:induction false} ImportRecency(records: seq<Persisted>, keep: set<string>, catalog: seq<SeriesDef>, l: Limits,
                                         instance: string)
    requires Usable(l)
    ensures var r, charted := ImportAll(map[], records, keep, catalog, l), ChartedOf(records, keep, catalog);
            NewestAt(if instance in r then r[instance].lastAt else 0, charted, instance)
    decreases |records|
  {
    if records != [] {
      var front, p := records[..|records| - 1], records[|records| - 1];
      ImportRecency(front, keep, catalog, l, instance);
      var before := ImportAll(map[], front, keep, catalog, l);
      if p.instance in keep && Charted(catalog, p.series) {
        NewestNext(if instance in before then before[instance].lastAt else 0, ChartedOf(front, keep, catalog), p,
                   instance);
      } else {
        assert ChartedOf(front, keep, catalog) + [] == ChartedOf(front, keep, catalog);
      }
    }
  }

  /* ---------- the round trip ---------- */

  lemma {:induction false} PushAllWindow<T>(window: seq<T>, items: seq<T>, cap: nat)
    requires |window| <= cap
    ensures PushAll(window, items, cap) == Window(window + items, cap)
    decreases |items|
  {
    if items == [] {
      assert window + [] == window;
    } else {
      PushAllWindow(Window(window + [items[0]], cap), items[1..], cap);
      var w := window + [items[0]];
      assert w + items[1..] == window + items;
      WindowRest(w, items[1..], cap);
    }
  }

  lemma WindowRest<T>(a: seq<T>, b: seq<T>, cap: nat)
    ensures Window(Window(a, cap) + b, cap) == Window(a + b, cap)
  {
    if |a| > cap {
      assert Window(a, cap) + b == (a + b)[|a| - cap..];
    }
  }

  /** What one instrument becomes when restored under other limits. */
  function Restored(ins: Instrument, l: Limits): Instrument
    requires Usable(l)
  {
    Instrument(Window(ins.raw, RawCap(l)), Window(ins.roll, RollCap(l)), ins.open, Base(0.0, 0))
  }

  function Lookup(instances: map<string, InstanceSeries>, instance: string, series: string): Option<Instrument> {
    if instance in instances && series in instances[instance].byKey then Some(instances[instance].byKey[series])
    else None
  }

  predicate Recorded(records: seq<Persisted>, instance: string, series: string) {
    exists i :: 0 <= i < |records| && records[i].instance == instance && records[i].series == series
  }

  predicate Tracked(records: seq<Persisted>, instance: string) {
    exists i :: 0 <= i < |records| && records[i].instance == instance
  }

  lemma RecordedNext(front: seq<Persisted>, p: Persisted, instance: string, series: string)
    ensures Recorded(front + [p], instance, series)
            <==> Recorded(front, instance, series) || (p.instance == instance && p.series == series)
    ensures Tracked(front + [p], instance) <==> Tracked(front, instance) || p.instance == instance
  {
    var records := front + [p];
    assert records[|front|] == p;
    assert forall i :: 0 <= i < |front| ==> records[i] == front[i];
  }

  lemma ImportOnePoint(instances: map<string, InstanceSeries>, p: Persisted, keep: set<string>, catalog: seq<SeriesDef>,
                       l: Limits, instance: string, series: string)
    requires Usable(l)
    ensures Lookup(ImportOne(instances, p, keep, catalog, l), instance, series)
            == if p.instance == instance && p.series == series && instance in keep && Charted(catalog, series)
               then Some(Restored(Instrument(p.raw, p.rollups, p.open, Base(0.0, 0)), l))
               else Lookup(instances, instance, series)
  {
    PushAllWindow([], p.raw, RawCap(l));
    PushAllWindow([], p.rollups, RollCap(l));
    assert [] + p.raw == p.raw && [] + p.rollups == p.rollups;
  }

  ghost predicate AllRecords(instances: map<string, InstanceSeries>, records: seq<Persisted>) {
    forall i :: 0 <= i < |records| ==> IsRecord(instances, records[i])
  }

  ghost function Kept(instances: map<string, InstanceSeries>, records: seq<Persisted>, keep: set<string>,
                      catalog: seq<SeriesDef>, l: Limits, instance: string, series: string): Option<Instrument>
    requires Usable(l)
  {
    if instance in keep && Charted(catalog, series) && Recorded(records, instance, series)
      && Lookup(instances, instance, series).Some?
    then Some(Restored(Lookup(instances, instance, series).value, l)) else None
  }

  /** Instrument by instrument, an import into an empty store restores exactly the
      charted instruments of the instances it keeps. */
  lemma {:induction false} ImportRestores(instances: map<string, InstanceSeries>, records: seq<Persisted>,
                                          keep: set<string>,
                                          catalog: seq<SeriesDef>, l: Limits, instance: string, series: string)
    requires Usable(l) && AllRecords(instances, records)
    ensures Lookup(ImportAll(map[], records, keep, catalog, l), instance, series)
            == Kept(instances, records, keep, catalog, l, instance, series)
    decreases |records|
  {
    if records != [] {
      var n := |records| - 1;
      var front, p := records[..n], records[n];
      assert IsRecord(instances, p);
      assert forall i :: 0 <= i < n ==> front[i] == records[i];
      ImportRestores(instances, front, keep, catalog, l, instance, series);
      ImportOnePoint(ImportAll(map[], front, keep, catalog, l), p, keep, catalog, l, instance, series);
      assert records == front + [p];
      RecordedNext(front, p, instance, series);
    }
  }

  /** A restored instance has at least one instrument and its recency. */
  ghost predicate Sound(r: map<string, InstanceSeries>, instances: map<string, InstanceSeries>) {
    forall n :: n in r ==> r[n].byKey != map[] && n in instances && r[n].lastAt == instances[n].lastAt
  }

  lemma {:induction false} ImportSound(instances: map<string, InstanceSeries>, records: seq<Persisted>,
                                       keep: set<string>, catalog: seq<SeriesDef>, l: Limits)
    requires Usable(l) && AllRecords(instances, records)
    requires forall n :: n in keep && n in instances ==> instances[n].lastAt > 0
    ensures Sound(ImportAll(map[], records, keep, catalog, l), instances)
    decreases |records|
  {
    if records != [] {
      var n := |records| - 1;
      var front, p := records[..n], records[n];
      assert IsRecord(instances, p);
      assert forall i :: 0 <= i < n ==> front[i] == records[i];
      ImportSound(instances, front, keep, catalog, l);
      var before := ImportAll(map[], front, keep, catalog, l);
      var r := ImportOne(before, p, keep, catalog, l);
      if p.instance in keep && Charted(catalog, p.series) {
        assert p.series in r[p.instance].byKey;
      }
    }
  }

  /** LastSeen finds every instance that has a record and was observed after time zero. */
  lemma {:induction false} LastSeenExact(instances: map<string, InstanceSeries>, records: seq<Persisted>,
                                         instance: string)
    requires AllRecords(instances, records)
    ensures instance in LastSeen(records)
            <==> Tracked(records, instance) && instance in instances && instances[instance].lastAt > 0
    ensures instance in LastSeen(records) ==> LastSeen(records)[instance] == instances[instance].lastAt
    decreases |records|
  {
    if records != [] {
      var n := |records| - 1;
      var front, p := records[..n], records[n];
      assert IsRecord(instances, p);
      assert forall i :: 0 <= i < n ==> front[i] == records[i];
      LastSeenExact(instances, front, instance);
      assert records == front + [p];
      RecordedNext(front, p, instance, p.series);
    }
  }

  ghost predicate Complete(instances: map<string, InstanceSeries>, catalog: seq<SeriesDef>) {
    forall n, k :: n in instances && k in instances[n].byKey ==> Charted(catalog, k)
  }

  ghost predicate Fits(ins: Instrument, l: Limits)
    requires Usable(l)
  {
    |ins.raw| <= RawCap(l) && |ins.roll| <= RollCap(l)
  }

  predicate Restorable(inst: InstanceSeries) {
    inst.byKey != map[] && inst.lastAt > 0
  }

  ghost function Clamp(instances: map<string, InstanceSeries>, keep: set<string>, catalog: seq<SeriesDef>, l: Limits,
                       n: string, k: string): Option<Instrument>
    requires Usable(l)
  {
    if n in keep && Charted(catalog, k) && Lookup(instances, n, k).Some?
    then Some(Restored(Lookup(instances, n, k).value, l)) else None
  }

  ghost predicate Clamped(r: map<string, InstanceSeries>, instances: map<string, InstanceSeries>, keep: set<string>,
                          catalog: seq<SeriesDef>, l: Limits)
    requires Usable(l)
  {
    forall n, k :: Lookup(r, n, k) == Clamp(instances, keep, catalog, l, n, k)
  }

  /** A restart under other bounds: the instances kept are the most recently observed of
      those with something to restore; each kept instance is back with its recency, and
      each charted instrument with the newest part of its window and an empty baseline. */
  lemma ImportClamps(instances: map<string, InstanceSeries>, records: seq<Persisted>, keep: set<string>,
                     catalog: seq<SeriesDef>, l: Limits)
    requires Usable(l) && Exported(instances, records)
    requires MostRecent(keep, LastSeen(records), l.maxInstances)
    ensures var r := ImportAll(map[], records, keep, catalog, l);
            && Clamped(r, instances, keep, catalog, l)
            && Sound(r, instances)
            && r.Keys <= keep && |r| <= l.maxInstances
    ensures forall n :: n in LastSeen(records) <==> n in instances && Restorable(instances[n])
    ensures forall k, d :: k in keep && d in LastSeen(records) && d !in keep
              ==> instances[k].lastAt >= instances[d].lastAt
  {
    var r := ImportAll(map[], records, keep, catalog, l);
    forall n, k ensures Lookup(r, n, k) == Clamp(instances, keep, catalog, l, n, k) {
      ImportRestores(instances, records, keep, catalog, l, n, k);
      if Lookup(instances, n, k).Some? { RecordFound(instances, records, n, k); }
    }
    forall n
      ensures n in LastSeen(records) <==> n in instances && Restorable(instances[n])
      ensures n in LastSeen(records) ==> LastSeen(records)[n] == instances[n].lastAt
    {
      SeenIsRestorable(instances, records, n);
    }
    ImportSound(instances, records, keep, catalog, l);
    forall n | n in r ensures n in keep {
      var k :| k in r[n].byKey;
      assert Lookup(r, n, k).Some?;
    }
    SubsetCount(r.Keys, keep);
  }

  lemma SeenIsRestorable(instances: map<string, InstanceSeries>, records: seq<Persisted>, n: string)
    requires Exported(instances, records)
    ensures n in LastSeen(records) <==> n in instances && Restorable(instances[n])
    ensures n in LastSeen(records) ==> LastSeen(records)[n] == instances[n].lastAt
  {
    LastSeenExact(instances, records, n);
    if n in instances && instances[n].byKey != map[] {
      var k :| k in instances[n].byKey;
      RecordFound(instances, records, n, k);
    }
    if Tracked(records, n) {
      var i :| 0 <= i < |records| && records[i].instance == n;
      assert IsRecord(instances, records[i]);
    }
  }

  lemma RecordFound(instances: map<string, InstanceSeries>, records: seq<Persisted>, n: string, k: string)
    requires Exported(instances, records) && n in instances && k in instances[n].byKey
    ensures Recorded(records, n, k) && Tracked(records, n)
  {
    assert RecordOf(instances, n, k) in records;
  }

  /** What a restart under unchanged bounds and an unchanged catalog must bring back:
      everything but the counter baselines. */
  ghost predicate Returned(r: map<string, InstanceSeries>, instances: map<string, InstanceSeries>) {
    && r.Keys == instances.Keys
    && forall n :: n in r ==>
         && r[n].lastAt == instances[n].lastAt && r[n].byKey.Keys == instances[n].byKey.Keys
         && forall k :: k in r[n].byKey ==> r[n].byKey[k] == instances[n].byKey[k].(base := Base(0.0, 0))
  }

  /** The round trip is exact if and only if every instance has an instrument and was
      observed after time zero; an instance that fails this is forgotten. */
  lemma RoundTripIff(instances: map<string, InstanceSeries>, records: seq<Persisted>, keep: set<string>,
                     catalog: seq<SeriesDef>, l: Limits)
    requires Usable(l) && Exported(instances, records) && Complete(instances, catalog) && |instances| <= l.maxInstances
    requires AllFit(instances, l)
    requires MostRecent(keep, LastSeen(records), l.maxInstances)
    ensures Returned(ImportAll(map[], records, keep, catalog, l), instances)
            <==> AllRestorable(instances)
  {
    var r, last := ImportAll(map[], records, keep, catalog, l), LastSeen(records);
    ImportClamps(instances, records, keep, catalog, l);
    assert last.Keys <= instances.Keys;
    AllKept(instances, keep, last, l.maxInstances);
    if AllRestorable(instances) {
      assert keep == instances.Keys;
      ReturnedWhole(r, instances, keep, catalog, l);
    }
    if Returned(r, instances) {
      ReturnedRestorable(r, instances, keep, last);
    }
  }

  ghost predicate AllRestorable(instances: map<string, InstanceSeries>) {
    forall n :: n in instances ==> Restorable(instances[n])
  }

  lemma ReturnedRestorable(r: map<string, InstanceSeries>, instances: map<string, InstanceSeries>, keep: set<string>,
                           last: map<string, int>)
    requires Returned(r, instances) && r.Keys <= keep && keep <= last.Keys
    requires forall n :: n in last <==> n in instances && Restorable(instances[n])
    ensures AllRestorable(instances)
  {
  }

  lemma AllKept(instances: map<string, InstanceSeries>, keep: set<string>, last: map<string, int>, max: nat)
    requires last.Keys <= instances.Keys && |instances| <= max && MostRecent(keep, last, max)
    ensures keep == last.Keys
  {
    SubsetCount(last.Keys, instances.Keys);
    SubsetCount(keep, last.Keys);
  }

  ghost predicate AllFit(instances: map<string, InstanceSeries>, l: Limits)
    requires Usable(l)
  {
    forall n, k :: n in instances && k in instances[n].byKey ==> Fits(instances[n].byKey[k], l)
  }

  lemma ReturnedWhole(r: map<string, InstanceSeries>, instances: map<string, InstanceSeries>, keep: set<string>,
                      catalog: seq<SeriesDef>, l: Limits)
    requires Usable(l) && Clamped(r, instances, keep, catalog, l) && Sound(r, instances) && Complete(instances, catalog)
    requires AllFit(instances, l) && keep == instances.Keys && forall n :: n in instances
                                                                 ==> instances[n].byKey != map[]
    ensures Returned(r, instances)
  {
    forall n | n in instances ensures n in r && r[n].byKey.Keys == instances[n].byKey.Keys {
      forall k ensures Lookup(r, n, k).Some? <==> Lookup(instances, n, k).Some? {
        assert Lookup(r, n, k) == Clamp(instances, keep, catalog, l, n, k);
      }
      RestoredKeys(r, instances, n);
    }
    forall n, k | n in r && k in r[n].byKey ensures r[n].byKey[k] == instances[n].byKey[k].(base := Base(0.0, 0)) {
      ReturnedOne(r, instances, keep, catalog, l, n, k);
    }
  }

  lemma ReturnedOne(r: map<string, InstanceSeries>, instances: map<string, InstanceSeries>, keep: set<string>,
                    catalog: seq<SeriesDef>, l: Limits, n: string, k: string)
    requires Usable(l) && Clamped(r, instances, keep, catalog, l) && AllFit(instances, l) && n in r && k in r[n].byKey
    ensures n in instances && k in instances[n].byKey && r[n].byKey[k] == instances[n].byKey[k].(base := Base(0.0, 0))
  {
    assert Lookup(r, n, k) == Clamp(instances, keep, catalog, l, n, k);
    assert Fits(instances[n].byKey[k], l);
  }

  lemma RestoredKeys(r: map<string, InstanceSeries>, instances: map<string, InstanceSeries>, n: string)
    requires n in instances && instances[n].byKey != map[]
    requires forall k :: Lookup(r, n, k).Some? <==> Lookup(instances, n, k).Some?
    ensures n in r && r[n].byKey.Keys == instances[n].byKey.Keys
  {
    var k :| k in instances[n].byKey;
    assert Lookup(instances, n, k).Some?;
    forall k ensures k in r[n].byKey <==> k in instances[n].byKey {
      assert Lookup(r, n, k).Some? <==> Lookup(instances, n, k).Some?;
    }
  }

  /** After a restart the first sweep of a counter series appends nothing. */
  lemma {:induction false} FirstSweepAppendsNothing(inst: InstanceSeries, catalog: seq<SeriesDef>, at: int,
                                                    values: map<string, real>, l: Limits, k: string)
    requires Usable(l)
    requires k in inst.byKey && inst.byKey[k].base.prevAt == 0
    requires forall i :: 0 <= i < |catalog| && catalog[i].key == k ==> catalog[i].kind == Counter
    ensures var r := SweepAll(inst, catalog, at, values, l);
            && k in r.byKey && r.byKey[k].(base := inst.byKey[k].base) == inst.byKey[k]
            && r.byKey[k].base.prevAt in {0, at}
    decreases |catalog|
  {
    if catalog != [] {
      FirstSweepAppendsNothing(inst, catalog[..|catalog| - 1], at, values, l, k);
    }
  }

  /* ---------- whole sequences of sweeps ---------- */

  datatype Reading = Reading(at: int, values: map<string, real>)

  function SweepRun(inst: InstanceSeries, catalog: seq<SeriesDef>, sweeps: seq<Reading>, l: Limits): InstanceSeries
    requires Usable(l)
    decreases |sweeps|
  {
    if sweeps == [] then inst
    else SweepRun(SweepAll(inst, catalog, sweeps[0].at, sweeps[0].values, l), catalog, sweeps[1..], l)
  }

  /** The readings one series had, in order; a sweep that did not report it leaves a gap. */
  function ReadingsOf(sweeps: seq<Reading>, k: string): seq<Sample>
    decreases |sweeps|
  {
    if sweeps == [] then []
    else
      (if k in sweeps[0].values then [Sample(sweeps[0].at, sweeps[0].values[k])] else [])
      + ReadingsOf(sweeps[1..], k)
  }

  function Charts(inst: InstanceSeries, k: string): Instrument {
    if k in inst.byKey then inst.byKey[k] else NEW_INSTRUMENT
  }

  ghost predicate UniqueKeys(catalog: seq<SeriesDef>) {
    forall i, j :: 0 <= i < j < |catalog| ==> catalog[i].key != catalog[j].key
  }

  lemma {:induction false} SweepTouches(inst: InstanceSeries, catalog: seq<SeriesDef>, d: nat, at: int,
                                        values: map<string, real>, l: Limits)
    requires Usable(l) && UniqueKeys(catalog) && d < |catalog|
    ensures var k := catalog[d].key;
            Charts(SweepAll(inst, catalog, at, values, l), k)
            == if k in values then Ingest(Charts(inst, k), catalog[d].kind, Sample(at, values[k]), l)
              else Charts(inst, k)
    decreases |catalog|
  {
    var n := |catalog| - 1;
    if d < n {
      SweepTouches(inst, catalog[..n], d, at, values, l);
    } else {
      SweepSkips(inst, catalog[..n], catalog[n].key, at, values, l);
    }
  }

  lemma {:induction false} SweepSkips(inst: InstanceSeries, catalog: seq<SeriesDef>, k: string, at: int,
                                      values: map<string, real>, l: Limits)
    requires Usable(l) && forall i :: 0 <= i < |catalog| ==> catalog[i].key != k
    ensures Charts(SweepAll(inst, catalog, at, values, l), k) == Charts(inst, k)
    decreases |catalog|
  {
    if catalog != [] {
      SweepSkips(inst, catalog[..|catalog| - 1], k, at, values, l);
    }
  }

  lemma {:induction false} SweepRunIngests(inst: InstanceSeries, catalog: seq<SeriesDef>, d: nat, sweeps: seq<Reading>,
                                           l: Limits)
    requires Usable(l) && UniqueKeys(catalog) && d < |catalog|
    ensures Charts(SweepRun(inst, catalog, sweeps, l), catalog[d].key)
            == IngestAll(Charts(inst, catalog[d].key), catalog[d].kind, ReadingsOf(sweeps, catalog[d].key), l)
    decreases |sweeps|
  {
    if sweeps != [] {
      var k, s, rest := catalog[d].key, sweeps[0], ReadingsOf(sweeps[1..], catalog[d].key);
      var next := SweepAll(inst, catalog, s.at, s.values, l);
      SweepTouches(inst, catalog, d, s.at, s.values, l);
      SweepRunIngests(next, catalog, d, sweeps[1..], l);
      if k in s.values {
        assert ([Sample(s.at, s.values[k])] + rest)[1..] == rest;
      } else {
        assert [] + rest == rest;
      }
    }
  }

  /** However its series are interleaved, an instance's instrument stands for exactly the
      samples that series stored since the instance was admitted. */
  lemma SweepRunExact(catalog: seq<SeriesDef>, d: nat, sweeps: seq<Reading>, l: Limits)
    requires Usable(l) && UniqueKeys(catalog) && d < |catalog|
    ensures StandsFor(Charts(SweepRun(NEW_INSTANCE, catalog, sweeps, l), catalog[d].key),
                      Stored(catalog[d].kind, Base(0.0, 0), ReadingsOf(sweeps, catalog[d].key)), l)
  {
    SweepRunIngests(NEW_INSTANCE, catalog, d, sweeps, l);
    InstrumentExact(catalog[d].kind, ReadingsOf(sweeps, catalog[d].key), l);
  }

  /* ---------- the instance cap over a run ---------- */

  ghost predicate Least(victim: string, instances: map<string, InstanceSeries>) {
    victim in instances && forall n :: n in instances ==> instances[victim].lastAt <= instances[n].lastAt
  }

  /** No instance has the empty name, or it is not the one that should go. */
  ghost predicate Unshadowed(instances: map<string, InstanceSeries>) {
    "" in instances && |instances| > 1 ==>
      exists n :: n in instances && n != "" && instances[n].lastAt <= instances[""].lastAt
  }

  ghost predicate LeastRecent(victim: string, instances: map<string, InstanceSeries>) {
    victim in instances && (Unshadowed(instances) ==> Least(victim, instances))
  }

  /** The instance the eviction loop ends with, for one order of the map. The empty name
      doubles as its mark for nothing found yet. */
  function Victim(order: seq<string>, instances: map<string, InstanceSeries>): string
    requires forall i :: 0 <= i < |order| ==> order[i] in instances
  {
    if order == [] then ""
    else
      var v, n := Victim(order[..|order| - 1], instances), order[|order| - 1];
      if v == "" || v !in instances || instances[n].lastAt < instances[v].lastAt then n else v
  }

  /** Room for one more: nothing changes below the cap, one least recent instance goes at it. */
  ghost predicate MadeRoom(before: map<string, InstanceSeries>, after: map<string, InstanceSeries>, max: int) {
    if |before| < max then after == before
    else exists victim :: LeastRecent(victim, before) && after == before - {victim}
  }

  /** The effect of one sweep of one instance on the store. */
  ghost predicate Observed(before: map<string, InstanceSeries>, after: map<string, InstanceSeries>, instance: string,
                           catalog: seq<SeriesDef>, r: Reading, l: Limits)
    requires Usable(l)
  {
    if instance in before then after == before[instance := SweepAll(before[instance], catalog, r.at, r.values, l)]
    else exists room :: MadeRoom(before, room, l.maxInstances)
                        && after == room[instance := SweepAll(NEW_INSTANCE, catalog, r.at, r.values, l)]
  }

  lemma {:induction false} SweepStamps(inst: InstanceSeries, catalog: seq<SeriesDef>, at: int,
                                       values: map<string, real>, l: Limits)
    requires Usable(l)
    ensures SweepAll(inst, catalog, at, values, l).lastAt == at
    decreases |catalog|
  {
    if catalog != [] {
      SweepStamps(inst, catalog[..|catalog| - 1], at, values, l);
    }
  }

  datatype Visit = Visit(instance: string, reading: Reading)

  /** The last time of every instance ever observed, evicted or not. */
  function EverSeen(visits: seq<Visit>): map<string, int> {
    if visits == [] then map[]
    else var v := visits[|visits| - 1]; EverSeen(visits[..|visits| - 1])[v.instance := v.reading.at]
  }

  ghost predicate Run(states: seq<map<string, InstanceSeries>>, visits: seq<Visit>, catalog: seq<SeriesDef>, l: Limits)
    requires Usable(l)
  {
    && |states| == |visits| + 1 && states[0] == map[]
    && forall i :: 0 <= i < |visits|
         ==> Observed(states[i], states[i + 1], visits[i].instance, catalog, visits[i].reading, l)
  }

  ghost predicate Recent(instances: map<string, InstanceSeries>, seen: map<string, int>, max: nat) {
    && MostRecent(instances.Keys, seen, max)
    && forall n :: n in instances ==> instances[n].lastAt == seen[n]
  }

  lemma ObservedRecent(before: map<string, InstanceSeries>, after: map<string, InstanceSeries>, seen: map<string, int>,
                       v: Visit, catalog: seq<SeriesDef>, l: Limits)
    requires Usable(l) && Observed(before, after, v.instance, catalog, v.reading, l)
    requires Recent(before, seen, l.maxInstances) && Unshadowed(before)
    requires forall n :: n in seen ==> seen[n] <= v.reading.at
    ensures Recent(after, seen[v.instance := v.reading.at], l.maxInstances)
  {
    var n := v.instance;
    SweepStamps(if n in before then before[n] else NEW_INSTANCE, catalog, v.reading.at, v.reading.values, l);
    if n in before {
      var next := SweepAll(before[n], catalog, v.reading.at, v.reading.values, l);
      RevisitedRecent(before, seen, n, next, l.maxInstances);
    } else {
      var next := SweepAll(NEW_INSTANCE, catalog, v.reading.at, v.reading.values, l);
      var room :| MadeRoom(before, room, l.maxInstances) && after == room[n := next];
      SubsetCount(before.Keys, seen.Keys);
      if |before| < l.maxInstances {
        AdmittedRecent(before, seen, n, next, l.maxInstances);
      } else {
        var victim :| LeastRecent(victim, before) && room == before - {victim};
        ReplacedRecent(before, seen, n, next, victim, l.maxInstances);
      }
    }
  }

  lemma RevisitedRecent(before: map<string, InstanceSeries>, seen: map<string, int>, n: string, next: InstanceSeries,
                        max: nat)
    requires Recent(before, seen, max) && n in before && forall m :: m in seen ==> seen[m] <= next.lastAt
    ensures Recent(before[n := next], seen[n := next.lastAt], max)
  {
    assert before[n := next].Keys == before.Keys && seen[n := next.lastAt].Keys == seen.Keys;
    assert |seen[n := next.lastAt].Keys| == |seen.Keys|;
  }

  lemma AdmittedRecent(before: map<string, InstanceSeries>, seen: map<string, int>, n: string, next: InstanceSeries,
                       max: nat)
    requires Recent(before, seen, max) && n !in before && |before| < max
    ensures Recent(before[n := next], seen[n := next.lastAt], max)
  {
    SubsetCount(before.Keys, seen.Keys);
    assert |before.Keys| == |before| && |seen.Keys| == |seen|;
    assert before.Keys == seen.Keys;
    assert before[n := next].Keys == before.Keys + {n};
    assert seen[n := next.lastAt].Keys == seen.Keys + {n};
    assert |seen[n := next.lastAt].Keys| == |seen.Keys| + 1;
  }

  lemma ReplacedRecent(before: map<string, InstanceSeries>, seen: map<string, int>, n: string, next: InstanceSeries,
                       victim: string, max: nat)
    requires Recent(before, seen, max) && n !in before && |before| >= max && Unshadowed(before)
             && LeastRecent(victim, before)
    requires forall m :: m in seen ==> seen[m] <= next.lastAt
    ensures Recent((before - {victim})[n := next], seen[n := next.lastAt], max)
  {
    assert |before.Keys| == |before|;
    MostRecentReplaced(before.Keys, seen, n, next.lastAt, victim, max);
    assert (before - {victim})[n := next].Keys == before.Keys - {victim} + {n};
  }

  lemma MostRecentReplaced(keep: set<string>, seen: map<string, int>, n: string, at: int, victim: string, max: nat)
    requires MostRecent(keep, seen, max) && n !in keep && |keep| >= max && victim in keep
    requires forall k :: k in keep ==> seen[victim] <= seen[k]
    requires forall m :: m in seen ==> seen[m] <= at
    ensures MostRecent(keep - {victim} + {n}, seen[n := at], max)
  {
    var keep', seen' := keep - {victim} + {n}, seen[n := at];
    assert |keep'| == |keep|;
    assert seen'.Keys == seen.Keys + {n};
    assert |seen.Keys| == |seen| && |seen'.Keys| == |seen'|;
    SubsetCount(seen.Keys, seen'.Keys);
    SubsetCount(keep, seen.Keys);
  }

  /** Over any run with a clock that never goes back, in which the empty name never hides
      who should go, the store tracks the most recently observed instances of all it was
      ever shown, as many of them as the cap allows. */
  lemma {:induction false} RunRecent(states: seq<map<string, InstanceSeries>>, visits: seq<Visit>,
                                     catalog: seq<SeriesDef>, l: Limits)
    requires Usable(l) && Run(states, visits, catalog, l)
    requires forall i :: 0 <= i < |visits| ==> Unshadowed(states[i])
    requires forall i, j :: 0 <= i < j < |visits| ==> visits[i].reading.at <= visits[j].reading.at
    ensures Recent(states[|visits|], EverSeen(visits), l.maxInstances)
    decreases |visits|
  {
    if visits != [] {
      var n := |visits| - 1;
      RunRecent(states[..n + 1], visits[..n], catalog, l);
      SeenBefore(visits, n);
      ObservedRecent(states[n], states[n + 1], EverSeen(visits[..n]), visits[n], catalog, l);
    }
  }

  lemma SeenBefore(visits: seq<Visit>, n: nat)
    requires n < |visits| && forall i, j :: 0 <= i < j < |visits| ==> visits[i].reading.at <= visits[j].reading.at
    ensures forall m :: m in EverSeen(visits[..n]) ==> EverSeen(visits[..n])[m] <= visits[n].reading.at
  {
    EverSeenFrom(visits[..n]);
    forall m | m in EverSeen(visits[..n]) ensures EverSeen(visits[..n])[m] <= visits[n].reading.at {
      assert SeenAt(visits[..n], m, EverSeen(visits[..n])[m]);
      var i :| 0 <= i < n && visits[..n][i].instance == m && visits[..n][i].reading.at == EverSeen(visits[..n])[m];
      assert visits[..n][i] == visits[i];
    }
  }

  predicate SeenAt(visits: seq<Visit>, n: string, at: int) {
    exists i :: 0 <= i < |visits| && visits[i].instance == n && visits[i].reading.at == at
  }

  lemma {:induction false} EverSeenFrom(visits: seq<Visit>)
    ensures forall n :: n in EverSeen(visits) ==> SeenAt(visits, n, EverSeen(visits)[n])
    decreases |visits|
  {
    if visits != [] {
      var front, v := visits[..|visits| - 1], visits[|visits| - 1];
      EverSeenFrom(front);
      forall n | n in EverSeen(visits) ensures SeenAt(visits, n, EverSeen(visits)[n]) {
        if n != v.instance {
          assert EverSeen(visits) == EverSeen(front)[v.instance := v.reading.at];
          assert SeenAt(front, n, EverSeen(front)[n]);
          var i :| 0 <= i < |front| && front[i].instance == n && front[i].reading.at == EverSeen(front)[n];
          assert visits[i] == front[i];
        }
      }
    }
  }
}
