/** The store of instruments by instance, as the methods that keep it. */
module MetricsWindow {
  import opened Counting
  import opened Lex
  import opened Ring
  import opened Rollup
  import opened Metrics
  import opened MetricsStore
  import opened MetricsRuns

  /* ---------- loops over part of the data ---------- */

  lemma SweepNext(inst: InstanceSeries, catalog: seq<SeriesDef>, i: nat, at: int, values: map<string, real>, l: Limits)
    requires Usable(l) && i < |catalog|
    ensures SweepAll(inst, catalog[..i + 1], at, values, l)
            == Sweep(SweepAll(inst, catalog[..i], at, values, l), catalog[i], at, values, l)
  {
    assert catalog[..i + 1][..i] == catalog[..i];
  }

  lemma ImportNext(instances: map<string, InstanceSeries>, records: seq<Persisted>, i: nat, keep: set<string>,
                   catalog: seq<SeriesDef>, l: Limits)
    requires Usable(l) && i < |records|
    ensures ImportAll(instances, records[..i + 1], keep, catalog, l)
            == ImportOne(ImportAll(instances, records[..i], keep, catalog, l), records[i], keep, catalog, l)
  {
    assert records[..i + 1][..i] == records[..i];
  }

  lemma NothingImported(instances: map<string, InstanceSeries>, records: seq<Persisted>, keep: set<string>,
                        catalog: seq<SeriesDef>, l: Limits)
    requires Usable(l) && records == []
    ensures ImportAll(instances, records, keep, catalog, l) == instances
  {
  }

  lemma LastSeenNext(records: seq<Persisted>, i: nat)
    requires i < |records|
    ensures var before, p := LastSeen(records[..i]), records[i];
            LastSeen(records[..i + 1])
            == if p.lastAt > (if p.instance in before then before[p.instance] else 0)
               then before[p.instance := p.lastAt]
               else before
  {
    assert records[..i + 1][..i] == records[..i];
  }

  lemma PushNext<T>(window: seq<T>, items: seq<T>, i: nat, cap: nat)
    requires i < |items| && |window| <= cap
    ensures PushAll(window, items[..i + 1], cap) == Window(PushAll(window, items[..i], cap) + [items[i]], cap)
  {
    PushAllWindow(window, items[..i], cap);
    PushAllWindow(window, items[..i + 1], cap);
    TakeNext(window, items, i);
    WindowOfWindow(window + items[..i], cap, items[i]);
  }

  lemma TakeNext<T>(front: seq<T>, items: seq<T>, i: nat)
    requires i < |items|
    ensures front + items[..i + 1] == (front + items[..i]) + [items[i]]
  {
  }

  /* ---------- the snapshot, record by record ---------- */

  ghost predicate RecordsSorted(records: seq<Persisted>) {
    forall i, j :: 0 <= i < j < |records| ==> RecordLess(records[i], records[j])
  }

  /** The records cover the instances before the current one and some of its series. */
  ghost predicate CoversPart(instances: map<string, InstanceSeries>, records: seq<Persisted>, done: set<string>,
                         current: string, series: set<string>)
  {
    && AllRecords(instances, records)
    && (forall i :: 0 <= i < |records| ==>
          records[i].instance in done || (records[i].instance == current && records[i].series in series))
    && (forall n, k :: n in instances && k in instances[n].byKey && (n in done || (n == current && k in series)) ==>
          RecordOf(instances, n, k) in records)
  }

  lemma RecordAdded(instances: map<string, InstanceSeries>, records: seq<Persisted>, done: set<string>,
                    n: string, series: set<string>, k: string)
    requires n in instances && k in instances[n].byKey
    requires CoversPart(instances, records, done, n, series) && RecordsSorted(records)
    requires forall d :: d in done ==> Less(d, n)
    requires forall s :: s in series ==> Less(s, k)
    ensures CoversPart(instances, records + [RecordOf(instances, n, k)], done, n, series + {k})
    ensures RecordsSorted(records + [RecordOf(instances, n, k)])
  {
    var p := RecordOf(instances, n, k);
    assert IsRecord(instances, p);
    LessTotal(n, n);
    forall m, s | m in instances && s in instances[m].byKey && (m in done || (m == n && s in series + {k}))
      ensures RecordOf(instances, m, s) in records + [p]
    {
      if m in done || s in series { assert RecordOf(instances, m, s) in records; }
    }
  }

  /* ---------- bounds every method keeps ---------- */

  ghost predicate InBounds(inst: InstanceSeries, catalog: seq<SeriesDef>, l: Limits)
    requires Usable(l)
  {
    forall k :: k in inst.byKey ==> Charted(catalog, k) && Fits(inst.byKey[k], l)
  }

  ghost predicate WithinBounds(instances: map<string, InstanceSeries>, catalog: seq<SeriesDef>, l: Limits)
    requires Usable(l)
  {
    forall n :: n in instances ==> InBounds(instances[n], catalog, l)
  }

  /** Only charted series are recorded, and no ring grows past its capacity. */
  lemma {:induction false} SweepInBounds(inst: InstanceSeries, catalog: seq<SeriesDef>, n: nat, at: int,
                                         values: map<string, real>, l: Limits)
    requires Usable(l) && InBounds(inst, catalog, l) && n <= |catalog|
    ensures InBounds(SweepAll(inst, catalog[..n], at, values, l), catalog, l)
    decreases n
  {
    if n > 0 {
      SweepNext(inst, catalog, n - 1, at, values, l);
      SweepInBounds(inst, catalog, n - 1, at, values, l);
      assert catalog[n - 1].key == catalog[n - 1].key;
      assert Charted(catalog, catalog[n - 1].key);
    }
  }

  lemma RecordedInBounds(inst: InstanceSeries, catalog: seq<SeriesDef>, at: int, values: map<string, real>, l: Limits)
    requires Usable(l) && InBounds(inst, catalog, l)
    ensures InBounds(SweepAll(inst, catalog, at, values, l), catalog, l)
  {
    SweepInBounds(inst, catalog, |catalog|, at, values, l);
    assert catalog[..|catalog|] == catalog;
  }

  lemma {:induction false} ImportInBounds(instances: map<string, InstanceSeries>, records: seq<Persisted>,
                                          keep: set<string>, catalog: seq<SeriesDef>, l: Limits)
    requires Usable(l) && WithinBounds(instances, catalog, l)
    ensures WithinBounds(ImportAll(instances, records, keep, catalog, l), catalog, l)
    ensures ImportAll(instances, records, keep, catalog, l).Keys <= instances.Keys + keep
    decreases |records|
  {
    if records != [] {
      var n := |records| - 1;
      var p := records[n];
      ImportInBounds(instances, records[..n], keep, catalog, l);
      PushAllWindow([], p.raw, RawCap(l));
      PushAllWindow([], p.rollups, RollCap(l));
    }
  }

  /* ---------- the store ---------- */

  lemma MostRecentLeft(left: set<string>, last: map<string, int>)
    requires left != {} && left <= last.Keys
    ensures exists k :: k in left && forall d :: d in left ==> last[d] <= last[k]
    decreases |left|
  {
    var k :| k in left;
    var rest := left - {k};
    if rest != {} {
      MostRecentLeft(rest, last);
      var m :| m in rest && forall d :: d in rest ==> last[d] <= last[m];
      var best := if last[m] < last[k] then k else m;
      assert forall d :: d in left ==> d == k || d in rest;
      assert forall d :: d in left ==> last[d] <= last[best];
    } else {
      assert forall d :: d in left ==> d == k || d in rest;
      assert forall d :: d in left ==> last[d] <= last[k];
    }
  }

  /** Import's first pass: when each instance was last observed. */
  method Recency(records: seq<Persisted>) returns (last: map<string, int>)
    ensures last == LastSeen(records)
  {
    last := map[];
    for i := 0 to |records|
      invariant last == LastSeen(records[..i])
    {
      LastSeenNext(records, i);
      var p := records[i];
      if p.lastAt > (if p.instance in last then last[p.instance] else 0) {
        last := last[p.instance := p.lastAt];
      }
    }
    assert records[..|records|] == records;
  }

  /** Sorting names by recency and cutting: names seen at the same moment come in any order. */
  method Newest(last: map<string, int>, max: nat) returns (keep: set<string>)
    ensures MostRecent(keep, last, max)
  {
    keep := {};
    var left := last.Keys;
    while left != {} && |keep| < max
      invariant keep !! left && keep + left == last.Keys && |keep| <= max
      invariant forall k, d :: k in keep && d in left ==> last[d] <= last[k]
      decreases |left|
    {
      MostRecentLeft(left, last);
      var k :| k in left && forall d :: d in left ==> last[d] <= last[k];
      keep := keep + {k};
      left := left - {k};
    }
    assert |last.Keys| == |keep| + |left|;
  }

  /** One instrument restored by pushing what was persisted through rings of today's size. */
  method Rebuild(p: Persisted, l: Limits) returns (ins: Instrument)
    requires Usable(l)
    ensures ins == Instrument(PushAll([], p.raw, RawCap(l)), PushAll([], p.rollups, RollCap(l)), p.open, Base(0.0, 0))
  {
    var cell := new InstrumentCell(l);
    for i := 0 to |p.raw|
      invariant cell.Valid() && cell.Sized(l) && fresh(cell.raw) && fresh(cell.raw.buf) && fresh(cell.roll)
                && fresh(cell.roll.buf)
      invariant cell.raw.Contents() == PushAll([], p.raw[..i], RawCap(l))
      invariant cell.roll.Contents() == []
    {
      PushNext([], p.raw, i, RawCap(l));
      cell.raw.Push(p.raw[i]);
    }
    assert p.raw[..|p.raw|] == p.raw;
    for i := 0 to |p.rollups|
      invariant cell.Valid() && cell.Sized(l) && fresh(cell.raw) && fresh(cell.raw.buf) && fresh(cell.roll)
                && fresh(cell.roll.buf)
      invariant cell.raw.Contents() == PushAll([], p.raw, RawCap(l))
      invariant cell.roll.Contents() == PushAll([], p.rollups[..i], RollCap(l))
    {
      PushNext([], p.rollups, i, RollCap(l));
      cell.roll.Push(p.rollups[i]);
    }
    assert p.rollups[..|p.rollups|] == p.rollups;
    var raw := cell.raw.Each();
    var roll := cell.roll.Each();
    ins := Instrument(raw, roll, p.open, Base(0.0, 0));
  }

  /* ---------- point-in-time readings ---------- */

  datatype Instant = Instant(at: int, value: real)

  /** The latest claim of each key after one more sweep. */
  function Latest(before: map<string, Instant>, keys: seq<string>, at: int,
                  readings: map<string, real>): map<string, Instant> {
    if keys == [] then before
    else
      var n := |keys| - 1;
      var some := Latest(before, keys[..n], at, readings);
      if keys[n] in readings then some[keys[n] := Instant(at, readings[keys[n]])] else some
  }

  /** A key reported now has its reading and this time; any other keeps its last claim and
      the time of that claim. */
  lemma {:induction false} LatestMeans(before: map<string, Instant>, keys: seq<string>, at: int,
                                       readings: map<string, real>, k: string)
    ensures k in Latest(before, keys, at, readings) <==> k in before || (k in keys && k in readings)
    ensures k in Latest(before, keys, at, readings) ==>
              Latest(before, keys, at, readings)[k] == if k in keys && k in readings then Instant(at, readings[k])
                else before[k]
    decreases |keys|
  {
    if keys != [] {
      var n := |keys| - 1;
      LatestMeans(before, keys[..n], at, readings, k);
      assert keys == keys[..n] + [keys[n]];
    }
  }

  /** The instance's claims are the latest, from none if it had made none; of the others,
      those still held keep theirs. */
  ghost predicate Claims(before: map<string, map<string, Instant>>, after: map<string, map<string, Instant>>,
                         instance: string, held: set<string>, keys: seq<string>, at: int, readings: map<string, real>)
  {
    && instance in after
    && after[instance] == Latest(if instance in before then before[instance] else map[], keys, at, readings)
    && forall n :: n != instance ==>
         && (n in after <==> n in before && n in held)
         && (n in after ==> after[n] == before[n])
  }

  class Store {
    const catalog: seq<SeriesDef>
    const instantKeys: seq<string>
    const limits: Limits
    var instances: map<string, InstanceSeries>
    var instants: map<string, map<string, Instant>>

    ghost predicate Valid()
      reads this
    {
      && Usable(limits) && |instances| <= limits.maxInstances && WithinBounds(instances, catalog, limits)
      && instants.Keys <= instances.Keys
    }

    constructor (catalog: seq<SeriesDef>, instantKeys: seq<string>, limits: Limits)
      requires limits.rollupEvery <= 0 || limits.rollupEvery >= SECOND
      ensures Valid() && instances == map[] && instants == map[]
      ensures this.limits == WithDefaults(limits) && this.catalog == catalog && this.instantKeys == instantKeys
    {
      this.catalog, this.instantKeys := catalog, instantKeys;
      this.limits := WithDefaults(limits);
      instances, instants := map[], map[];
    }

    /** The eviction loop, over whatever order the map yields. */
    method Oldest() returns (oldest: string)
      requires instances != map[]
      ensures LeastRecent(oldest, instances)
    {
      var names := AnyOrder(instances.Keys);
      assert forall i :: 0 <= i < |names| ==> names[i] in Elements(names);
      oldest := "";
      var oldestAt := 0;
      for i := 0 to |names|
        invariant oldest == Victim(names[..i], instances)
        invariant oldest != "" ==> oldest in instances && oldestAt == instances[oldest].lastAt
      {
        var name := names[i];
        assert names[..i + 1][..i] == names[..i];
        if oldest == "" || instances[name].lastAt < oldestAt {
          oldest, oldestAt := name, instances[name].lastAt;
        }
      }
      assert names[..|names|] == names;
      EveryOrderLeast(names, instances);
    }

    /** Afterwards there is room; at the cap it is made by one instance alone. */
    method EvictFor()
      requires Valid()
      modifies this`instances, this`instants
      ensures Valid() && |instances| < limits.maxInstances
      ensures MadeRoom(old(instances), instances, limits.maxInstances)
      ensures instances.Keys <= old(instances).Keys
      ensures instants == map n | n in old(instants) && n in instances :: old(instants)[n]
    {
      if |instances| < limits.maxInstances { return; }
      var oldest := Oldest();
      DropCount(instances, oldest);
      instances, instants := instances - {oldest}, instants - {oldest};
    }

    /** The part of Observe that records one sweep's values, series by series. */
    method Record(found: InstanceSeries, at: int, values: map<string, real>) returns (inst: InstanceSeries)
      requires Usable(limits)
      ensures inst == SweepAll(found, catalog, at, values, limits)
    {
      inst := found.(lastAt := at);
      for i := 0 to |catalog|
        invariant inst == SweepAll(found, catalog[..i], at, values, limits)
      {
        SweepNext(found, catalog, i, at, values, limits);
        var def := catalog[i];
        if def.key in values {
          var ins := if def.key in inst.byKey then inst.byKey[def.key] else NEW_INSTRUMENT;
          inst := inst.(byKey := inst.byKey[def.key := Ingest(ins, def.kind, Sample(at, values[def.key]), limits)]);
        }
      }
      assert catalog[..|catalog|] == catalog;
    }

    /** The part of Observe that overwrites one instance's point-in-time claims. */
    method Claim(before: map<string, Instant>, at: int, readings: map<string, real>)
      returns (claims: map<string, Instant>)
      ensures claims == Latest(before, instantKeys, at, readings)
    {
      claims := before;
      for i := 0 to |instantKeys|
        invariant claims == Latest(before, instantKeys[..i], at, readings)
      {
        assert instantKeys[..i + 1][..i] == instantKeys[..i];
        if instantKeys[i] in readings { claims := claims[instantKeys[i] := Instant(at, readings[instantKeys[i]])]; }
      }
      assert instantKeys[..|instantKeys|] == instantKeys;
    }

    method ClaimNow(instance: string, at: int, readings: map<string, real>)
      modifies this`instants
      ensures instants == old(instants)[instance := Latest(if instance in old(instants) then old(instants)[instance]
                                                           else map[], instantKeys, at, readings)]
    {
      var claims := Claim(if instance in instants then instants[instance] else map[], at, readings);
      instants := instants[instance := claims];
    }

    /** Observe: one sweep of one instance. Its series gain a sample each; its point-in-time
        claims are overwritten, from nothing if it was not held before. */
    method Observe(instance: string, at: int, values: map<string, real>, readings: map<string, real>)
      requires Valid()
      modifies this`instances, this`instants
      ensures Valid() && instance in instances
      ensures Observed(old(instances), instances, instance, catalog, Reading(at, values), limits)
      ensures instance in instants && instants[instance]
              == Latest(if instance in old(instants) then old(instants)[instance] else map[], instantKeys, at, readings)
      ensures forall n :: n != instance ==>
                && (n in instants <==> n in old(instants) && n in instances)
                && (n in instants ==> instants[n] == old(instants)[n])
    {
      if instance !in instances {
        EvictFor();
      }
      ClaimNow(instance, at, readings);
      var found := if instance in instances then instances[instance] else NEW_INSTANCE;
      var inst := Record(found, at, values);
      RecordedInBounds(found, catalog, at, values, limits);
      PutCount(instances, instance, inst);
      instances := instances[instance := inst];
    }

    /** Export: one record for every instrument. */
    method Export() returns (records: seq<Persisted>)
      ensures Exported(instances, records)
    {
      records := [];
      var names := SortKeys(instances.Keys);
      SortedDistinct(names);
      for i := 0 to |names|
        invariant CoversPart(instances, records, Elements(names[..i]), "", {}) && RecordsSorted(records)
      {
        var n := names[i];
        assert n in Elements(names);
        ElementsNext(names, i);
        var keys := SortKeys(instances[n].byKey.Keys);
        SortedDistinct(keys);
        for j := 0 to |keys|
          invariant CoversPart(instances, records, Elements(names[..i]), n, Elements(keys[..j]))
                    && RecordsSorted(records)
        {
          assert keys[j] in Elements(keys);
          ElementsNext(keys, j);
          RecordAdded(instances, records, Elements(names[..i]), n, Elements(keys[..j]), keys[j]);
          records := records + [RecordOf(instances, n, keys[j])];
        }
        assert keys[..|keys|] == keys;
      }
      assert names[..|names|] == names;
    }

    /** Folds the records of a most recent choice of instances; the bounds hold afterwards. */
    method Import(records: seq<Persisted>) returns (ghost keep: set<string>)
      requires Valid()
      modifies this`instances
      ensures old(instances) == map[] ==> Valid()
      ensures MostRecent(keep, LastSeen(records), limits.maxInstances)
      ensures instances == ImportAll(old(instances), records, keep, catalog, limits)
    {
      var last := Recency(records);
      var kept := Newest(last, limits.maxInstances);
      keep := kept;
      NothingImported(instances, records[..0], kept, catalog, limits);
      for i := 0 to |records|
        invariant instances == ImportAll(old(instances), records[..i], kept, catalog, limits)
      {
        ImportNext(old(instances), records, i, kept, catalog, limits);
        var p := records[i];
        if p.instance in kept && Charted(catalog, p.series) {
          var inst := if p.instance in instances then instances[p.instance] else NEW_INSTANCE;
          if p.lastAt > inst.lastAt { inst := inst.(lastAt := p.lastAt); }
          var ins := Rebuild(p, limits);
          instances := instances[p.instance := inst.(byKey := inst.byKey[p.series := ins])];
        }
      }
      assert records[..|records|] == records;
      ImportInBounds(old(instances), records, kept, catalog, limits);
      if old(instances) == map[] {
        SubsetCount(instances.Keys, kept);
        assert |instances.Keys| == |instances|;
      }
    }
  }

  /** A restart under the same catalog and bounds: what Export wrote and Import read back
      is the whole window without its counter baselines, exactly when every instance has
      an instrument and was observed after time zero. */
  method Restart(store: Store) returns (instances: map<string, InstanceSeries>)
    requires store.Valid()
    ensures Returned(instances, store.instances)
            <==> AllRestorable(store.instances)
  {
    assert Complete(store.instances, store.catalog) && AllFit(store.instances, store.limits) by {
      assert forall n :: n in store.instances ==> InBounds(store.instances[n], store.catalog, store.limits);
    }
    var records := store.Export();
    var next := new Store(store.catalog, store.instantKeys, store.limits);
    var keep := next.Import(records);
    instances := next.instances;
    RoundTripIff(store.instances, records, keep, store.catalog, store.limits);
  }
}
