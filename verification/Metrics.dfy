/** The bounded metrics window: instruments over two rings, the instance cap, and the
    snapshot that carries the window across a restart. */
module Metrics {
  import opened Prelude
  import opened Ring
  import opened Rollup

  /* ---------- bounds ---------- */

  const SECOND := 1_000_000_000
  const MINUTE := 60 * SECOND
  const HOUR := 60 * MINUTE

  /** Durations in nanoseconds. */
  datatype Limits = Limits(interval: int, rawWindow: int, retention: int, rollupEvery: int, maxInstances: int)

  /** What is positive is kept; the rest becomes ten seconds, six hours, seven days, five
      minutes and eight instances. */
  function WithDefaults(l: Limits): (d: Limits)
    ensures d.interval == if l.interval > 0 then l.interval else 10_000_000_000
    ensures d.rawWindow == if l.rawWindow > 0 then l.rawWindow else 21_600_000_000_000
    ensures d.retention == if l.retention > 0 then l.retention else 604_800_000_000_000
    ensures d.rollupEvery == if l.rollupEvery > 0 then l.rollupEvery else 300_000_000_000
    ensures d.maxInstances == if l.maxInstances > 0 then l.maxInstances else 8
  {
    Limits(if l.interval <= 0 then 10 * SECOND else l.interval,
           if l.rawWindow <= 0 then 6 * HOUR else l.rawWindow,
           if l.retention <= 0 then 7 * 24 * HOUR else l.retention,
           if l.rollupEvery <= 0 then 5 * MINUTE else l.rollupEvery,
           if l.maxInstances <= 0 then 8 else l.maxInstances)
  }

  /** Limits as a store holds them. A rollup bucket narrower than a second would make the
      source divide by zero. */
  predicate Usable(l: Limits) {
    l.interval > 0 && l.rawWindow > 0 && l.retention > 0 && l.rollupEvery >= SECOND && l.maxInstances > 0
  }

  function AtLeastOne(n: int): (c: nat)
    ensures c >= 1
  {
    if n < 1 then 1 else n
  }

  function RawCap(l: Limits): (c: nat)
    requires Usable(l)
    ensures c >= 1
  {
    AtLeastOne(l.rawWindow / l.interval)
  }

  function RollCap(l: Limits): (c: nat)
    requires Usable(l)
    ensures c >= 1
  {
    AtLeastOne(l.retention / l.rollupEvery)
  }

  function Width(l: Limits): (w: int)
    requires Usable(l)
    ensures w > 0
  {
    l.rollupEvery / SECOND
  }

  /** Each ring spans its own window: the most readings whose intervals fit the raw window,
      the most buckets that fit the retention, and never fewer than one. */
  lemma RingsSpan(l: Limits)
    requires Usable(l)
    ensures RawCap(l) == 1 || RawCap(l) * l.interval <= l.rawWindow
    ensures (RawCap(l) + 1) * l.interval > l.rawWindow
    ensures RollCap(l) == 1 || RollCap(l) * l.rollupEvery <= l.retention
    ensures (RollCap(l) + 1) * l.rollupEvery > l.retention
    ensures Width(l) * SECOND <= l.rollupEvery < (Width(l) + 1) * SECOND
  {
    Fitting(l.rawWindow, l.interval);
    Fitting(l.retention, l.rollupEvery);
  }

  lemma Fitting(window: int, step: int)
    requires window > 0 && step > 0
    ensures var c := AtLeastOne(window / step); (c == 1 || c * step <= window) && (c + 1) * step > window
  {
    var q := window / step;
    assert window == step * q + window % step;
    assert step * (q + 1) == step * q + step;
    assert (q + 1) * step == step * (q + 1) && q * step == step * q;
  }

  datatype Kind = Gauge | Counter

  datatype SeriesDef = SeriesDef(key: string, kind: Kind)

  /* ---------- one instrument ---------- */

  /** An instrument as a value: what its rings retain, the open bucket, the counter base. */
  datatype Instrument = Instrument(raw: seq<Sample>, roll: seq<Bucket>, open: Bucket, base: Base)

  const NEW_INSTRUMENT := Instrument([], [], NO_BUCKET, Base(0.0, 0))

  function AppendTo(ins: Instrument, s: Sample, l: Limits): Instrument
    requires Usable(l)
  {
    var rolled := Roll(Rolled(ins.roll, ins.open), s, Width(l));
    ins.(raw := Window(ins.raw + [s], RawCap(l)), roll := Window(rolled.closed, RollCap(l)), open := rolled.open)
  }

  /** One reading: a gauge is stored as reported, a counter as the rate it yields. */
  function Ingest(ins: Instrument, kind: Kind, s: Sample, l: Limits): Instrument
    requires Usable(l)
  {
    if kind == Gauge then AppendTo(ins, s, l)
    else
      var rate := RateOf(ins.base, s.at, s.val);
      var rebased := ins.(base := Base(s.val, s.at));
      if rate.Some? then AppendTo(rebased, Sample(s.at, rate.value), l) else rebased
  }

  function IngestAll(ins: Instrument, kind: Kind, readings: seq<Sample>, l: Limits): Instrument
    requires Usable(l)
    decreases |readings|
  {
    if readings == [] then ins else IngestAll(Ingest(ins, kind, readings[0], l), kind, readings[1..], l)
  }

  /** What an instrument stands for: the newest samples, the newest closed buckets of all
      samples ever stored, and the bucket still open. */
  ghost predicate StandsFor(ins: Instrument, samples: seq<Sample>, l: Limits)
    requires Usable(l)
  {
    var rolled := RollAll(samples, Width(l));
    && ins.raw == Window(samples, RawCap(l))
    && ins.roll == Window(rolled.closed, RollCap(l))
    && ins.open == rolled.open
  }

  lemma AppendStands(ins: Instrument, samples: seq<Sample>, s: Sample, l: Limits)
    requires Usable(l) && StandsFor(ins, samples, l)
    ensures StandsFor(AppendTo(ins, s, l), samples + [s], l)
  {
    var r := RollAll(samples, Width(l));
    RollLast(samples, s, Width(l));
    WindowOfWindow(samples, RawCap(l), s);
    if r.open.count > 0 && r.open.start != StartOf(s.at, Width(l)) {
      WindowOfWindow(r.closed, RollCap(l), r.open);
    } else {
      assert Window(ins.roll, RollCap(l)) == ins.roll;
    }
  }

  /** What the readings of an instrument store as samples. */
  function Stored(kind: Kind, base: Base, readings: seq<Sample>): seq<Sample> {
    if kind == Gauge then readings else Rates(base, readings)
  }

  lemma {:induction false} IngestStands(ins: Instrument, kind: Kind, samples: seq<Sample>, readings: seq<Sample>,
                                        l: Limits)
    requires Usable(l) && StandsFor(ins, samples, l)
    ensures StandsFor(IngestAll(ins, kind, readings, l), samples + Stored(kind, ins.base, readings), l)
    decreases |readings|
  {
    if readings == [] {
      assert samples + [] == samples;
    } else {
      var more := StoredOne(kind, ins.base, readings[0]);
      var next := Ingest(ins, kind, readings[0], l);
      IngestOne(ins, kind, samples, readings[0], l);
      IngestStands(next, kind, samples + more, readings[1..], l);
      StoredNext(kind, ins, readings, l);
      Regroup(samples, more, Stored(kind, next.base, readings[1..]));
      assert IngestAll(next, kind, readings[1..], l) == IngestAll(ins, kind, readings, l);
    }
  }

  lemma Regroup<T>(a: seq<T>, b: seq<T>, c: seq<T>)
    ensures (a + b) + c == a + (b + c)
  {
  }

  /** What one reading stores, if anything. */
  function StoredOne(kind: Kind, base: Base, s: Sample): seq<Sample> {
    if kind == Gauge then [s]
    else
      var rate := RateOf(base, s.at, s.val);
      if rate.Some? then [Sample(s.at, rate.value)] else []
  }

  lemma IngestOne(ins: Instrument, kind: Kind, samples: seq<Sample>, s: Sample, l: Limits)
    requires Usable(l) && StandsFor(ins, samples, l)
    ensures StandsFor(Ingest(ins, kind, s, l), samples + StoredOne(kind, ins.base, s), l)
  {
    if kind == Gauge {
      AppendStands(ins, samples, s, l);
    } else {
      var rebased, rate := ins.(base := Base(s.val, s.at)), RateOf(ins.base, s.at, s.val);
      if rate.Some? {
        AppendStands(rebased, samples, Sample(s.at, rate.value), l);
      } else {
        assert samples + [] == samples;
      }
    }
  }

  lemma StoredNext(kind: Kind, ins: Instrument, readings: seq<Sample>, l: Limits)
    requires Usable(l) && readings != []
    ensures Stored(kind, ins.base, readings)
            == StoredOne(kind, ins.base, readings[0])
              + Stored(kind, Ingest(ins, kind, readings[0], l).base, readings[1..])
  {
    if kind == Gauge {
      assert readings == [readings[0]] + readings[1..];
    } else {
      var rest := Rates(Base(readings[0].val, readings[0].at), readings[1..]);
      assert [] + rest == rest;
    }
  }

  /** After any readings a new instrument retains the newest samples those readings
      stored and the newest buckets of their exact rollup. */
  lemma InstrumentExact(kind: Kind, readings: seq<Sample>, l: Limits)
    requires Usable(l)
    ensures StandsFor(IngestAll(NEW_INSTRUMENT, kind, readings, l), Stored(kind, Base(0.0, 0), readings), l)
  {
    IngestStands(NEW_INSTRUMENT, kind, [], readings, l);
    assert [] + Stored(kind, Base(0.0, 0), readings) == Stored(kind, Base(0.0, 0), readings);
  }

  /** The statistics of an instrument are the minimum, maximum and mean of the samples its
      retained buckets stand for, the newest of all it stored; the mean is between the extremes. */
  lemma StatsExact(ins: Instrument, samples: seq<Sample>, l: Limits)
    requires Usable(l) && StandsFor(ins, samples, l) && samples != []
    ensures var st := FoldBuckets(Buckets(Rolled(ins.roll, ins.open)));
            exists m :: 0 <= m < |samples|
                        && RollAll(samples[m..], Width(l)) == Rolled(ins.roll, ins.open)
                        && Summarizes(st, Vals(samples[m..]))
                        && st.min <= st.sum / (st.count as real) <= st.max
  {
    WindowStatsExact(samples, Width(l), RollCap(l));
    var r := RollAll(samples, Width(l));
    var st := FoldBuckets(Buckets(Rolled(ins.roll, ins.open)));
    var m :| 0 <= m < |samples|
             && RollAll(samples[m..], Width(l)) == Rolled(Window(r.closed, RollCap(l)), r.open)
             && Summarizes(st, Vals(samples[m..]));
    MeanBetween(Vals(samples[m..]));
  }

  /** The instrument over its rings. */
  class InstrumentCell {
    const raw: Ring<Sample>
    const roll: Ring<Bucket>
    var open: Bucket
    var prev: real
    var prevAt: int

    ghost predicate Valid()
      reads this, raw, raw.buf, roll, roll.buf
    {
      raw.Valid() && roll.Valid()
    }

    ghost function Held(): Instrument
      requires Valid()
      reads this, raw, raw.buf, roll, roll.buf
    {
      Instrument(raw.Contents(), roll.Contents(), open, Base(prev, prevAt))
    }

    ghost predicate Sized(l: Limits)
      requires Usable(l)
      reads raw, roll
    {
      raw.buf.Length == RawCap(l) && roll.buf.Length == RollCap(l)
    }

    constructor (l: Limits)
      requires Usable(l)
      ensures Valid() && Sized(l) && Held() == NEW_INSTRUMENT
      ensures fresh(raw) && fresh(raw.buf) && fresh(roll) && fresh(roll.buf)
    {
      raw := new Ring<Sample>(l.rawWindow / l.interval);
      roll := new Ring<Bucket>(l.retention / l.rollupEvery);
      open := NO_BUCKET;
      prev, prevAt := 0.0, 0;
    }

    /** Both rings and the open bucket agree with the value-level instrument. */
    method Append(at: int, value: real, l: Limits)
      requires Usable(l) && Valid() && Sized(l)
      modifies this`open, raw, raw.buf, roll, roll.buf
      ensures Valid() && Sized(l) && raw.buf == old(raw.buf) && roll.buf == old(roll.buf)
      ensures Held() == AppendTo(old(Held()), Sample(at, value), l)
    {
      ghost var before := Held();
      raw.Push(Sample(at, value));
      var start := StartOf(at, l.rollupEvery / SECOND);
      if open.count > 0 && open.start != start {
        roll.Push(open);
        open := NO_BUCKET;
      } else {
        assert Window(before.roll, RollCap(l)) == before.roll;
      }
      Fill(start, value);
    }

    /** The open bucket takes one value; an empty one starts at the given place. */
    method Fill(start: int, value: real)
      modifies this`open
      ensures open == if old(open).count == 0 then Bucket(start, value, value, value, 1) else Widen(old(open), value)
    {
      if open.count == 0 {
        open := Bucket(start, value, value, 0.0, 0);
      } else {
        if value < open.min { open := open.(min := value); }
        if value > open.max { open := open.(max := value); }
      }
      open := open.(sum := open.sum + value, count := open.count + 1);
    }

    /** The part of Store.Observe that concerns one series. */
    method Observe(kind: Kind, at: int, value: real, l: Limits)
      requires Usable(l) && Valid() && Sized(l)
      modifies this, raw, raw.buf, roll, roll.buf
      ensures Valid() && Sized(l) && raw.buf == old(raw.buf) && roll.buf == old(roll.buf)
      ensures Held() == Ingest(old(Held()), kind, Sample(at, value), l)
    {
      if kind == Counter {
        var before, beforeAt := prev, prevAt;
        prev, prevAt := value, at;
        if beforeAt == 0 || at <= beforeAt || value < before { return; }
        Append(at, (value - before) / ((at - beforeAt) as real), l);
      } else {
        Append(at, value, l);
      }
    }

    /** SeriesStats for this instrument: the newest raw value and the fold of its buckets. */
    method Stats() returns (latest: Option<real>, st: Summary)
      requires Valid()
      ensures latest == if Held().raw == [] then None else Some(Held().raw[|Held().raw| - 1].val)
      ensures st == FoldBuckets(Buckets(Rolled(Held().roll, open)))
    {
      var last := raw.Last();
      latest := if last.Some? then Some(last.value.val) else None;
      var buckets := roll.Each();
      st := Summary(0.0, 0.0, 0.0, 0);
      for i := 0 to |buckets|
        invariant st == FoldBuckets(buckets[..i])
      {
        assert buckets[..i + 1][..i] == buckets[..i];
        st := FoldBucket(st, buckets[i]);
      }
      assert buckets[..|buckets|] == buckets;
      ghost var all := Buckets(Rolled(buckets, open));
      if open.count > 0 {
        assert all[..|buckets|] == buckets;
      } else {
        assert all == buckets;
      }
      st := FoldBucket(st, open);
    }
  }
}
