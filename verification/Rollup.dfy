/** Samples, the buckets they roll up into, and the rates counters turn into. */
module Rollup {
  import opened Prelude
  import opened Ring

  datatype Sample = Sample(at: int, val: real)

  datatype Bucket = Bucket(start: int, min: real, max: real, sum: real, count: nat)

  const NO_BUCKET := Bucket(0, 0.0, 0.0, 0.0, 0)

  /* ---------- appending ---------- */

  /** The remainder as the source computes it, of the sign of the dividend. */
  function Rem(a: int, b: int): int
    requires b > 0
  {
    if a >= 0 then a % b else -((-a) % b)
  }

  function StartOf(at: int, width: int): int
    requires width > 0
  {
    at - Rem(at, width)
  }

  function Widen(b: Bucket, val: real): Bucket {
    Bucket(b.start, if val < b.min then val else b.min, if val > b.max then val else b.max,
           b.sum + val, b.count + 1)
  }

  /** The buckets closed so far and the one being filled. */
  datatype Rolled = Rolled(closed: seq<Bucket>, open: Bucket)

  /** append, on the rollup tier, with every closed bucket kept. */
  function Roll(r: Rolled, s: Sample, width: int): Rolled
    requires width > 0
  {
    var start := StartOf(s.at, width);
    var first := Bucket(start, s.val, s.val, s.val, 1);
    if r.open.count == 0 then Rolled(r.closed, first)
    else if r.open.start != start then Rolled(r.closed + [r.open], first)
    else Rolled(r.closed, Widen(r.open, s.val))
  }

  function RollAll(samples: seq<Sample>, width: int): Rolled
    requires width > 0
  {
    if samples == [] then Rolled([], NO_BUCKET)
    else Roll(RollAll(samples[..|samples| - 1], width), samples[|samples| - 1], width)
  }

  /** Every bucket, the open one last. */
  function Buckets(r: Rolled): seq<Bucket> {
    r.closed + (if r.open.count > 0 then [r.open] else [])
  }

  /* ---------- aggregates ---------- */

  function Sum(vals: seq<real>): real {
    if vals == [] then 0.0 else Sum(vals[..|vals| - 1]) + vals[|vals| - 1]
  }

  function Min(vals: seq<real>): real
    requires vals != []
  {
    var n := |vals| - 1;
    if n == 0 then vals[0] else if vals[n] < Min(vals[..n]) then vals[n] else Min(vals[..n])
  }

  function Max(vals: seq<real>): real
    requires vals != []
  {
    var n := |vals| - 1;
    if n == 0 then vals[0] else if vals[n] > Max(vals[..n]) then vals[n] else Max(vals[..n])
  }

  /** Min and Max are attained and bound every value. */
  lemma {:induction false} MinMaxBound(vals: seq<real>)
    requires vals != []
    ensures Min(vals) in vals && Max(vals) in vals
    ensures forall v :: v in vals ==> Min(vals) <= v <= Max(vals)
  {
    var n := |vals| - 1;
    if n > 0 {
      MinMaxBound(vals[..n]);
      assert forall v :: v in vals ==> v == vals[n] || v in vals[..n];
      assert forall v :: v in vals[..n] ==> v in vals;
    } else {
      assert vals == [vals[0]];
    }
  }

  /** The bucket that aggregates exactly these values. */
  function BucketOf(start: int, vals: seq<real>): Bucket
    requires vals != []
  {
    Bucket(start, Min(vals), Max(vals), Sum(vals), |vals|)
  }

  /** The values of the samples in one interval, in order. */
  function InInterval(samples: seq<Sample>, start: int, width: int): seq<real>
    requires width > 0
  {
    if samples == [] then []
    else
      var n := |samples| - 1;
      InInterval(samples[..n], start, width)
      + (if StartOf(samples[n].at, width) == start then [samples[n].val] else [])
  }

  ghost predicate TimesNotDecreasing(samples: seq<Sample>) {
    forall i, j :: 0 <= i < j < |samples| ==> samples[i].at <= samples[j].at
  }

  ghost predicate StartsIncrease(buckets: seq<Bucket>) {
    forall i, j :: 0 <= i < j < |buckets| ==> buckets[i].start < buckets[j].start
  }

  ghost predicate Aggregates(b: Bucket, samples: seq<Sample>, width: int)
    requires width > 0
  {
    InInterval(samples, b.start, width) != [] && b == BucketOf(b.start, InInterval(samples, b.start, width))
  }

  lemma TimesMonotone(w: int, x: int, y: int)
    requires w > 0 && x <= y
    ensures w * x <= w * y
  {
  }

  lemma FloorMonotone(a: nat, b: nat, width: int)
    requires width > 0 && a <= b
    ensures 0 <= a - a % width <= b - b % width
    ensures a - a % width <= a < a - a % width + width
  {
    var p, q := a / width, b / width;
    assert a == width * p + a % width && b == width * q + b % width;
    assert width * (q + 1) == width * q + width;
    if p > q {
      TimesMonotone(width, q + 1, p);
      assert false;
    }
    TimesMonotone(width, p, q);
    TimesMonotone(width, 0, p);
  }

  lemma DivMod(a: nat, width: int)
    requires width > 0
    ensures a - a % width == width * (a / width) && (width * (a / width)) % width == 0
  {
    var q := a / width;
    assert a == width * q + a % width;
    MultipleOf(width, q);
  }

  lemma {:induction false} MultipleOf(width: int, q: nat)
    requires width > 0
    ensures (width * q) % width == 0 && (width * q) / width == q
    decreases q
  {
    if q > 0 {
      MultipleOf(width, q - 1);
      assert width * q == width * (q - 1) + width;
      ModStep(width * (q - 1), width);
    } else {
      assert width * q == 0;
    }
  }

  lemma ModStep(x: nat, width: int)
    requires width > 0
    ensures (x + width) % width == x % width && (x + width) / width == x / width + 1
  {
    var q, r := x / width, x % width;
    assert x + width == width * (q + 1) + r by { assert width * (q + 1) == width * q + width; }
    QuotientIs(x + width, width, q + 1, r);
  }

  lemma QuotientIs(x: nat, width: int, q: nat, r: nat)
    requires width > 0 && x == width * q + r && r < width
    ensures x / width == q && x % width == r
  {
    var d := x / width;
    assert x == width * d + x % width;
    if d < q { Apart(width, d, q); }
    if d > q { Apart(width, q, d); }
  }

  /** A bucket starts at a multiple of the width. From time zero on that is the last one not
      after the sample, before it the first one not before. */
  lemma StartMeans(at: int, width: int)
    requires width > 0
    ensures StartOf(at, width) % width == 0
    ensures at >= 0 ==> 0 <= StartOf(at, width) <= at < StartOf(at, width) + width
    ensures at < 0 ==> StartOf(at, width) - width < at <= StartOf(at, width) <= 0
  {
    var a := if at >= 0 then at else -at;
    FloorMonotone(a, a, width);
    DivMod(a, width);
    if at < 0 { NegatedMultiple(a - a % width, width); }
  }

  lemma NegatedMultiple(m: int, width: int)
    requires width > 0 && m % width == 0
    ensures (-m) % width == 0
  {
    var n := -m;
    var q, d, r := m / width, n / width, n % width;
    assert m == width * q && n == width * d + r;
    assert width * (q + d) == width * q + width * d;
    if q + d > 0 { TimesMonotone(width, 1, q + d); }
    if q + d < 0 { TimesMonotone(width, q + d, -1); }
  }

  /** Two samples share a bucket exactly when their times divide alike, the remainder having
      the sign of the time. */
  lemma SharedIff(a: int, b: int, width: int)
    requires width > 0
    ensures a >= 0 && b >= 0 ==> (StartOf(a, width) == StartOf(b, width) <==> a / width == b / width)
    ensures a < 0 && b < 0 ==> (StartOf(a, width) == StartOf(b, width) <==> (-a) / width == (-b) / width)
    ensures a < 0 <= b ==> (StartOf(a, width) == StartOf(b, width) <==> -width < a && b < width)
  {
    var x, y := if a >= 0 then a else -a, if b >= 0 then b else -b;
    DivMod(x, width);
    DivMod(y, width);
    if x / width < y / width { Apart(width, x / width, y / width); }
    if y / width < x / width { Apart(width, y / width, x / width); }
    if a < 0 <= b {
      StartMeans(a, width);
      StartMeans(b, width);
      FloorMonotone(0, x, width);
      FloorMonotone(0, y, width);
      if -width < a { QuotientIs(x, width, 0, x); }
      if b < width { QuotientIs(y, width, 0, y); }
    }
  }

  lemma Apart(width: int, p: int, q: int)
    requires width > 0 && p < q
    ensures width * p + width <= width * q
  {
    TimesMonotone(width, p + 1, q);
    assert width * (p + 1) == width * p + width;
  }

  /** Starts follow times. */
  lemma StartMonotone(a: int, b: int, width: int)
    requires width > 0 && a <= b
    ensures StartOf(a, width) <= StartOf(b, width)
  {
    if a >= 0 {
      FloorMonotone(a, b, width);
    } else if b < 0 {
      FloorMonotone(-b, -a, width);
    } else {
      FloorMonotone(0, -a, width);
      FloorMonotone(0, b, width);
    }
  }

  lemma {:induction false} EmptyInterval(samples: seq<Sample>, start: int, width: int)
    requires width > 0 && forall i :: 0 <= i < |samples| ==> StartOf(samples[i].at, width) != start
    ensures InInterval(samples, start, width) == []
  {
    if samples != [] { EmptyInterval(samples[..|samples| - 1], start, width); }
  }

  /** Adding one value to a bucket's values widens the bucket. */
  lemma WidenAggregates(start: int, vals: seq<real>, v: real)
    requires vals != []
    ensures BucketOf(start, vals + [v]) == Widen(BucketOf(start, vals), v)
  {
    assert (vals + [v])[..|vals|] == vals;
  }

  ghost predicate Covers(buckets: seq<Bucket>, samples: seq<Sample>, width: int)
    requires width > 0
  {
    forall i :: 0 <= i < |samples|
      ==> exists k :: 0 <= k < |buckets| && buckets[k].start == StartOf(samples[i].at, width)
  }

  /** Bucket starts strictly increase, each bucket is the minimum, maximum, sum and count
      of precisely the samples in its interval, and every sample is in one. */
  ghost predicate Exact(buckets: seq<Bucket>, samples: seq<Sample>, width: int)
    requires width > 0
  {
    && StartsIncrease(buckets)
    && Covers(buckets, samples, width)
    && forall k :: 0 <= k < |buckets| ==> Aggregates(buckets[k], samples, width)
  }

  /** For non-decreasing sweep times the rollup is exact. */
  lemma {:induction false} RollupExact(samples: seq<Sample>, width: int)
    requires width > 0 && TimesNotDecreasing(samples)
    ensures Exact(Buckets(RollAll(samples, width)), samples, width)
    ensures samples != [] ==>
              && RollAll(samples, width).open.count > 0
              && RollAll(samples, width).open.start == StartOf(samples[|samples| - 1].at, width)
    decreases |samples|
  {
    if |samples| == 1 {
      assert samples == [samples[0]];
      RollFirstExact(samples[0], width);
    } else if samples != [] {
      var n := |samples| - 1;
      RollupExact(samples[..n], width);
      RollupStep(samples, width);
    }
  }

  /** The interval of a bucket, by its bounds: a multiple of the width and what follows it up
      to the next; before time zero what precedes it, and around zero both. */
  predicate Belongs(at: int, start: int, width: int)
    requires width > 0
  {
    && start % width == 0
    && (if start > 0 then start <= at < start + width
        else if start == 0 then -width < at < width
        else start - width < at <= start)
  }

  lemma NearMultiples(a: int, b: int, width: int)
    requires width > 0 && a % width == 0 && b % width == 0 && -width < a - b < width
    ensures a == b
  {
    var p, q := a / width, b / width;
    assert a == width * p && b == width * q;
    if p < q { Apart(width, p, q); }
    if q < p { Apart(width, q, p); }
  }

  lemma BelongsNear(at: int, a: int, b: int, width: int)
    requires width > 0 && Belongs(at, a, width) && b % width == 0
    requires if at >= 0 then 0 <= b <= at < b + width else b - width < at <= b <= 0
    ensures a == b
  {
    if a == 0 {
      ZeroMultiple(b, width);
    } else {
      NearMultiples(a, b, width);
    }
  }

  lemma ZeroMultiple(b: int, width: int)
    requires width > 0 && b % width == 0 && -width < b < width
    ensures b == 0
  {
    NearMultiples(b, 0, width);
  }

  lemma BelongsIff(at: int, start: int, width: int)
    requires width > 0
    ensures StartOf(at, width) == start <==> Belongs(at, start, width)
  {
    StartMeans(at, width);
    if Belongs(at, start, width) { BelongsNear(at, start, StartOf(at, width), width); }
  }

  function ValuesIn(samples: seq<Sample>, start: int, width: int): seq<real>
    requires width > 0
  {
    if samples == [] then []
    else
      var n := |samples| - 1;
      ValuesIn(samples[..n], start, width) + (if Belongs(samples[n].at, start, width) then [samples[n].val] else [])
  }

  lemma {:induction false} IntervalValues(samples: seq<Sample>, start: int, width: int)
    requires width > 0
    ensures InInterval(samples, start, width) == ValuesIn(samples, start, width)
    decreases |samples|
  {
    if samples != [] {
      IntervalValues(samples[..|samples| - 1], start, width);
      BelongsIff(samples[|samples| - 1].at, start, width);
    }
  }

  /** So each bucket is the minimum, maximum, sum and count of precisely the samples between
      its bounds. */
  lemma RollupIntervals(samples: seq<Sample>, width: int)
    requires width > 0 && TimesNotDecreasing(samples)
    ensures var buckets := Buckets(RollAll(samples, width));
            && StartsIncrease(buckets)
            && (forall k :: 0 <= k < |buckets| ==>
                  var vals := ValuesIn(samples, buckets[k].start, width);
                  && vals != [] && buckets[k].count == |vals| && buckets[k].sum == Sum(vals)
                  && buckets[k].min == Min(vals) && buckets[k].max == Max(vals))
            && forall i :: 0 <= i < |samples|
                 ==> exists k :: 0 <= k < |buckets| && Belongs(samples[i].at, buckets[k].start, width)
  {
    var buckets := Buckets(RollAll(samples, width));
    RollupExact(samples, width);
    forall k | 0 <= k < |buckets|
      ensures var vals := ValuesIn(samples, buckets[k].start, width);
              && vals != [] && buckets[k] == BucketOf(buckets[k].start, vals)
    {
      assert Aggregates(buckets[k], samples, width);
      IntervalValues(samples, buckets[k].start, width);
    }
    forall i | 0 <= i < |samples|
      ensures exists k :: 0 <= k < |buckets| && Belongs(samples[i].at, buckets[k].start, width)
    {
      var k :| 0 <= k < |buckets| && buckets[k].start == StartOf(samples[i].at, width);
      BelongsIff(samples[i].at, buckets[k].start, width);
    }
  }

  lemma RollupStep(samples: seq<Sample>, width: int)
    requires width > 0 && TimesNotDecreasing(samples) && |samples| > 1
    requires var n := |samples| - 1; var r := RollAll(samples[..n], width);
             Exact(Buckets(r), samples[..n], width) && r.open.count > 0
               && r.open.start == StartOf(samples[n - 1].at, width)
    ensures var r := RollAll(samples, width);
            Exact(Buckets(r), samples, width) && r.open.count > 0
              && r.open.start == StartOf(samples[|samples| - 1].at, width)
  {
    var n := |samples| - 1;
    var r := RollAll(samples[..n], width);
    StartMonotone(samples[n - 1].at, samples[n].at, width);
    BucketsNext(r, samples[n], width);
    assert RollAll(samples, width) == Roll(r, samples[n], width);
    var before := Buckets(r);
    if before[|before| - 1].start == StartOf(samples[n].at, width) {
      RollWidens(samples, width, before);
    } else {
      RollOpens(samples, width, before);
    }
  }

  lemma BucketsNext(r: Rolled, s: Sample, width: int)
    requires width > 0 && r.open.count > 0
    ensures var before := Buckets(r); var last := |before| - 1; var start := StartOf(s.at, width);
            && before[last] == r.open
            && Buckets(Roll(r, s, width)) ==
                 (if r.open.start == start then before[..last] + [Widen(r.open, s.val)]
                  else before + [Bucket(start, s.val, s.val, s.val, 1)])
  {
  }

  lemma RollFirstExact(s: Sample, width: int)
    requires width > 0
    ensures var b := Buckets(RollAll([s], width));
            b == [Bucket(StartOf(s.at, width), s.val, s.val, s.val, 1)] && Aggregates(b[0], [s], width)
            && RollAll([s], width).open == b[0]
  {
    assert [s][..0] == [];
    assert InInterval([s], StartOf(s.at, width), width) == [s.val];
    assert [s.val][..0] == [];
    assert Sum([s.val]) == Sum([]) + s.val;
  }

  lemma IntervalNext(samples: seq<Sample>, start: int, width: int)
    requires width > 0 && samples != []
    ensures var n := |samples| - 1;
            InInterval(samples, start, width)
            == if StartOf(samples[n].at, width) == start then InInterval(samples[..n], start, width) + [samples[n].val]
               else InInterval(samples[..n], start, width)
  {
    var n := |samples| - 1;
    assert InInterval(samples[..n], start, width) + [] == InInterval(samples[..n], start, width);
  }

  lemma AggregatesKept(b: Bucket, samples: seq<Sample>, width: int)
    requires width > 0 && samples != [] && Aggregates(b, samples[..|samples| - 1], width)
    requires StartOf(samples[|samples| - 1].at, width) != b.start
    ensures Aggregates(b, samples, width)
  {
    IntervalNext(samples, b.start, width);
  }

  lemma AggregatesWidened(b: Bucket, samples: seq<Sample>, width: int)
    requires width > 0 && samples != [] && Aggregates(b, samples[..|samples| - 1], width)
    requires StartOf(samples[|samples| - 1].at, width) == b.start
    ensures Aggregates(Widen(b, samples[|samples| - 1].val), samples, width)
  {
    IntervalNext(samples, b.start, width);
    WidenAggregates(b.start, InInterval(samples[..|samples| - 1], b.start, width), samples[|samples| - 1].val);
  }

  lemma AggregatesFirst(samples: seq<Sample>, width: int)
    requires width > 0 && samples != []
    requires forall i :: 0 <= i < |samples| - 1
               ==> StartOf(samples[i].at, width) != StartOf(samples[|samples| - 1].at, width)
    ensures var s := samples[|samples| - 1];
            Aggregates(Bucket(StartOf(s.at, width), s.val, s.val, s.val, 1), samples, width)
  {
    var s := samples[|samples| - 1];
    var start := StartOf(s.at, width);
    EmptyInterval(samples[..|samples| - 1], start, width);
    IntervalNext(samples, start, width);
    assert InInterval(samples, start, width) == [s.val];
    assert [s.val][..0] == [];
    assert Sum([s.val]) == Sum([]) + s.val;
  }

  lemma RollWidens(samples: seq<Sample>, width: int, before: seq<Bucket>)
    requires width > 0 && samples != [] && before != [] && Exact(before, samples[..|samples| - 1], width)
    requires before[|before| - 1].start == StartOf(samples[|samples| - 1].at, width)
    ensures Exact(before[..|before| - 1] + [Widen(before[|before| - 1], samples[|samples| - 1].val)], samples, width)
  {
    var last, s := |before| - 1, samples[|samples| - 1];
    var after := before[..last] + [Widen(before[last], s.val)];
    forall k | 0 <= k < |after| ensures Aggregates(after[k], samples, width) && after[k].start == before[k].start {
      if k < last {
        assert before[k].start < before[last].start;
        AggregatesKept(before[k], samples, width);
      } else {
        AggregatesWidened(before[last], samples, width);
      }
    }
    CoversNext(samples, width, before, after);
  }

  lemma RollOpens(samples: seq<Sample>, width: int, before: seq<Bucket>)
    requires width > 0 && samples != [] && before != [] && Exact(before, samples[..|samples| - 1], width)
    requires before[|before| - 1].start < StartOf(samples[|samples| - 1].at, width)
    ensures var s := samples[|samples| - 1];
            Exact(before + [Bucket(StartOf(s.at, width), s.val, s.val, s.val, 1)], samples, width)
  {
    var n, s := |samples| - 1, samples[|samples| - 1];
    var start := StartOf(s.at, width);
    var after := before + [Bucket(start, s.val, s.val, s.val, 1)];
    forall k | 0 <= k < |before| ensures before[k].start < start {
      assert before[k].start <= before[|before| - 1].start;
    }
    forall i | 0 <= i < n ensures StartOf(samples[i].at, width) != start {
      assert samples[..n][i] == samples[i];
      var k :| 0 <= k < |before| && before[k].start == StartOf(samples[..n][i].at, width);
    }
    AggregatesFirst(samples, width);
    forall k | 0 <= k < |after| ensures Aggregates(after[k], samples, width) {
      if k < |before| { AggregatesKept(before[k], samples, width); }
    }
    CoversNext(samples, width, before, after);
  }

  lemma CoversNext(samples: seq<Sample>, width: int, before: seq<Bucket>, after: seq<Bucket>)
    requires width > 0 && samples != [] && Covers(before, samples[..|samples| - 1], width)
    requires |before| <= |after| && forall k :: 0 <= k < |before| ==> after[k].start == before[k].start
    requires after != [] && after[|after| - 1].start == StartOf(samples[|samples| - 1].at, width)
    ensures Covers(after, samples, width)
  {
    var n := |samples| - 1;
    forall i | 0 <= i < |samples|
      ensures exists k :: 0 <= k < |after| && after[k].start == StartOf(samples[i].at, width) {
      if i < n {
        assert samples[..n][i] == samples[i];
        var k :| 0 <= k < |before| && before[k].start == StartOf(samples[..n][i].at, width);
        assert after[k].start == before[k].start;
      } else {
        assert after[|after| - 1].start == StartOf(samples[n].at, width);
      }
    }
  }

  /* ---------- what a bounded ring of buckets still stands for ---------- */

  function Counts(buckets: seq<Bucket>): nat {
    if buckets == [] then 0 else Counts(buckets[..|buckets| - 1]) + buckets[|buckets| - 1].count
  }

  lemma {:induction false} RollCounts(samples: seq<Sample>, width: int)
    requires width > 0
    ensures Counts(RollAll(samples, width).closed) + RollAll(samples, width).open.count == |samples|
    ensures samples != [] ==> RollAll(samples, width).open.count > 0
  {
    if samples != [] {
      var n := |samples| - 1;
      var r := RollAll(samples[..n], width);
      RollCounts(samples[..n], width);
      assert (r.closed + [r.open])[..|r.closed|] == r.closed;
    }
  }

  lemma {:induction false} CountsPrefix(buckets: seq<Bucket>, k: nat)
    requires k <= |buckets|
    ensures Counts(buckets[..k]) <= Counts(buckets)
    decreases |buckets|
  {
    if k < |buckets| {
      CountsPrefix(buckets[..|buckets| - 1], k);
      assert buckets[..|buckets| - 1][..k] == buckets[..k];
    } else {
      assert buckets[..k] == buckets;
    }
  }

  lemma RollLast(samples: seq<Sample>, s: Sample, width: int)
    requires width > 0
    ensures RollAll(samples + [s], width) == Roll(RollAll(samples, width), s, width)
  {
    assert (samples + [s])[..|samples|] == samples;
  }

  lemma RollDropped(r: Rolled, s: Sample, width: int, k: nat)
    requires width > 0 && k <= |r.closed|
    ensures k <= |Roll(r, s, width).closed|
    ensures Roll(Rolled(r.closed[k..], r.open), s, width)
            == Rolled(Roll(r, s, width).closed[k..], Roll(r, s, width).open)
  {
    assert (r.closed + [r.open])[k..] == r.closed[k..] + [r.open];
  }

  lemma RollNext(front: seq<Sample>, s: Sample, width: int, m: nat, k: nat)
    requires width > 0 && m <= |front|
    requires var f := RollAll(front, width);
             k <= |f.closed| && RollAll(front[m..], width) == Rolled(f.closed[k..], f.open)
    ensures var r := RollAll(front + [s], width);
            k <= |r.closed| && RollAll((front + [s])[m..], width) == Rolled(r.closed[k..], r.open)
  {
    assert (front + [s])[m..] == front[m..] + [s];
    RollLast(front, s, width);
    RollLast(front[m..], s, width);
    RollDropped(RollAll(front, width), s, width, k);
  }

  ghost predicate Drops(samples: seq<Sample>, width: int, k: nat)
    requires width > 0 && k <= |RollAll(samples, width).closed|
  {
    var r := RollAll(samples, width);
    var m := Counts(r.closed[..k]);
    m <= |samples| && RollAll(samples[m..], width) == Rolled(r.closed[k..], r.open)
  }

  /** When a sample has just closed the last bucket, all earlier samples are in closed
      buckets and only that sample is open. */
  lemma AllClosed(front: seq<Sample>, s: Sample, width: int)
    requires width > 0
    requires RollAll(front + [s], width).closed == RollAll(front, width).closed + [RollAll(front, width).open]
    ensures Drops(front + [s], width, |RollAll(front, width).closed| + 1)
  {
    var f, r := RollAll(front, width), RollAll(front + [s], width);
    RollLast(front, s, width);
    CountsAll(front, width);
    RollCloses(f, s, width);
    LastOnly(front, s);
    DropsAll(front + [s], width);
  }

  lemma DropsAll(samples: seq<Sample>, width: int)
    requires width > 0
    requires var r := RollAll(samples, width);
             Counts(r.closed) <= |samples| && RollAll(samples[Counts(r.closed)..], width) == Rolled([], r.open)
    ensures Drops(samples, width, |RollAll(samples, width).closed|)
  {
    var r := RollAll(samples, width);
    assert r.closed[..|r.closed|] == r.closed && r.closed[|r.closed|..] == [];
  }

  lemma LastOnly(front: seq<Sample>, s: Sample)
    ensures (front + [s])[|front|..] == [s]
  {
  }

  lemma RollCloses(f: Rolled, s: Sample, width: int)
    requires width > 0 && Roll(f, s, width).closed == f.closed + [f.open]
    ensures RollAll([s], width) == Rolled([], Roll(f, s, width).open)
  {
    RollLast([], s, width);
    assert [] + [s] == [s];
    assert |Roll(f, s, width).closed| == |f.closed| + 1;
  }

  lemma CountsAll(samples: seq<Sample>, width: int)
    requires width > 0
    ensures var f := RollAll(samples, width); Counts(f.closed + [f.open]) == |samples|
  {
    var f := RollAll(samples, width);
    RollCounts(samples, width);
    assert (f.closed + [f.open])[..|f.closed|] == f.closed;
  }

  lemma DropsNext(front: seq<Sample>, s: Sample, width: int, k: nat)
    requires width > 0 && k <= |RollAll(front, width).closed| && Drops(front, width, k)
    ensures k <= |RollAll(front + [s], width).closed| && Drops(front + [s], width, k)
  {
    var f := RollAll(front, width);
    RollLast(front, s, width);
    RollNext(front, s, width, Counts(f.closed[..k]), k);
    assert RollAll(front + [s], width).closed[..k] == f.closed[..k];
  }

  /** Dropping the oldest closed buckets is dropping the oldest samples: what remains is
      the rollup of the remaining samples. */
  lemma {:induction false} DroppedBucketsAreSamples(samples: seq<Sample>, width: int, k: nat)
    requires width > 0 && k <= |RollAll(samples, width).closed|
    ensures Drops(samples, width, k)
    decreases |samples|
  {
    if samples == [] {
      assert RollAll(samples, width).closed[..0] == [];
    } else {
      var front, s := samples[..|samples| - 1], samples[|samples| - 1];
      assert samples == front + [s];
      RollLast(front, s, width);
      if k <= |RollAll(front, width).closed| {
        DroppedBucketsAreSamples(front, width, k);
        DropsNext(front, s, width, k);
      } else {
        AllClosed(front, s, width);
      }
    }
  }

  /* ---------- statistics ---------- */

  datatype Summary = Summary(min: real, max: real, sum: real, count: nat)

  /** One step of SeriesStats' fold. */
  function FoldBucket(st: Summary, b: Bucket): Summary {
    if b.count == 0 then st
    else Summary(if st.count == 0 || b.min < st.min then b.min else st.min,
                 if st.count == 0 || b.max > st.max then b.max else st.max,
                 st.sum + b.sum, st.count + b.count)
  }

  function FoldBuckets(buckets: seq<Bucket>): Summary {
    if buckets == [] then Summary(0.0, 0.0, 0.0, 0)
    else FoldBucket(FoldBuckets(buckets[..|buckets| - 1]), buckets[|buckets| - 1])
  }

  function Vals(samples: seq<Sample>): (v: seq<real>)
    ensures |v| == |samples|
  {
    if samples == [] then [] else Vals(samples[..|samples| - 1]) + [samples[|samples| - 1].val]
  }

  /** What the fold yields over all buckets of some samples. */
  ghost predicate Summarizes(st: Summary, vals: seq<real>) {
    && st.count == |vals|
    && st.sum == Sum(vals)
    && (vals != [] ==> st.min == Min(vals) && st.max == Max(vals))
  }

  lemma FoldBoth(a: Summary, b: Bucket, s: Sample)
    requires b.count > 0
    ensures FoldBucket(a, Widen(b, s.val)) == FoldBucket(FoldBucket(a, b), Bucket(b.start, s.val, s.val, s.val, 1))
  {
  }

  lemma FoldOne(st: Summary, vals: seq<real>, v: real, start: int)
    requires Summarizes(st, vals)
    ensures Summarizes(FoldBucket(st, Bucket(start, v, v, v, 1)), vals + [v])
  {
    assert (vals + [v])[..|vals|] == vals;
  }

  /** Folding the buckets summarises exactly the samples rolled into them, whatever the
      order of their times. */
  lemma {:induction false} FoldExact(samples: seq<Sample>, width: int)
    requires width > 0
    ensures Summarizes(FoldBuckets(Buckets(RollAll(samples, width))), Vals(samples))
    decreases |samples|
  {
    if samples != [] {
      var n := |samples| - 1;
      var f, s := RollAll(samples[..n], width), samples[n];
      var start := StartOf(s.at, width);
      FoldExact(samples[..n], width);
      FoldOne(FoldBuckets(Buckets(f)), Vals(samples[..n]), s.val, start);
      RollCounts(samples[..n], width);
      if f.open.count > 0 && f.open.start == start {
        FoldBoth(FoldBuckets(f.closed), f.open, s);
        assert (f.closed + [f.open])[..|f.closed|] == f.closed;
        assert (f.closed + [Widen(f.open, s.val)])[..|f.closed|] == f.closed;
      } else {
        var b := Buckets(RollAll(samples, width));
        assert b[..|b| - 1] == Buckets(f);
      }
    }
  }

  lemma {:induction false} MeanBound(vals: seq<real>, lo: real, hi: real)
    requires forall v :: v in vals ==> lo <= v <= hi
    ensures lo * (|vals| as real) <= Sum(vals) <= hi * (|vals| as real)
  {
    if vals != [] {
      var n := |vals| - 1;
      assert forall v :: v in vals[..n] ==> v in vals;
      MeanBound(vals[..n], lo, hi);
      assert vals[n] in vals && Sum(vals) == Sum(vals[..n]) + vals[n];
      OneMore(lo, n);
      OneMore(hi, n);
    } else {
      assert lo * 0.0 == 0.0 && hi * 0.0 == 0.0;
    }
  }

  lemma OneMore(x: real, n: nat)
    ensures x * ((n + 1) as real) == x * (n as real) + x
  {
    var m := n as real;
    assert (n + 1) as real == m + 1.0;
    assert x * (m + 1.0) == x * m + x;
  }

  /** The mean lies between the extremes. */
  lemma MeanBetween(vals: seq<real>)
    requires vals != []
    ensures Min(vals) <= Sum(vals) / (|vals| as real) <= Max(vals)
  {
    MinMaxBound(vals);
    MeanBound(vals, Min(vals), Max(vals));
    DivideBetween(Min(vals), Max(vals), Sum(vals), |vals| as real);
  }

  lemma ScaleBack(x: real, y: real, n: real)
    requires n > 0.0 && x * n <= y * n
    ensures x <= y
  {
    assert (y - x) * n == y * n - x * n;
  }

  lemma DivideBetween(lo: real, hi: real, sum: real, n: real)
    requires n > 0.0 && lo * n <= sum <= hi * n
    ensures lo <= sum / n <= hi
  {
    var mean := sum / n;
    assert mean * n == sum;
    ScaleBack(lo, mean, n);
    ScaleBack(mean, hi, n);
  }

  /** The statistics over a bounded ring: they are the minimum, maximum and mean of a
      suffix of the samples, the very samples the retained buckets stand for. */
  lemma {:induction false} WindowStatsExact(samples: seq<Sample>, width: int, cap: nat)
    requires width > 0 && samples != []
    ensures var r := RollAll(samples, width);
            exists m :: 0 <= m < |samples|
                        && RollAll(samples[m..], width) == Rolled(Window(r.closed, cap), r.open)
                        && Summarizes(FoldBuckets(Buckets(Rolled(Window(r.closed, cap), r.open))), Vals(samples[m..]))
  {
    var r := RollAll(samples, width);
    var k := |r.closed| - |Window(r.closed, cap)|;
    assert Window(r.closed, cap) == r.closed[k..];
    var m := Counts(r.closed[..k]);
    DroppedBucketsAreSamples(samples, width, k);
    RollCounts(samples, width);
    CountsPrefix(r.closed, k);
    FoldExact(samples[m..], width);
  }

  /* ---------- counters ---------- */

  /** The previous cumulative value and its time; time 0 means none was seen. */
  datatype Base = Base(prev: real, prevAt: int)

  /** The rate one cumulative reading yields, if it yields one. */
  function RateOf(base: Base, at: int, value: real): Option<real> {
    if base.prevAt == 0 || at <= base.prevAt || value < base.prev then None
    else Some((value - base.prev) / ((at - base.prevAt) as real))
  }

  /** A counter's readings, as samples of its cumulative value. */
  function Rates(base: Base, readings: seq<Sample>): seq<Sample>
    decreases |readings|
  {
    if readings == [] then []
    else
      var s := readings[0];
      var rate := RateOf(base, s.at, s.val);
      (if rate.Some? then [Sample(s.at, rate.value)] else []) + Rates(Base(s.val, s.at), readings[1..])
  }

  /** A stretch with a base, an advancing clock and no reset. */
  ghost predicate Steady(base: Base, readings: seq<Sample>)
    decreases |readings|
  {
    readings == [] ||
    (base.prevAt != 0 && readings[0].at > base.prevAt && readings[0].val >= base.prev
     && Steady(Base(readings[0].val, readings[0].at), readings[1..]))
  }

  /** Each rate times the time it covers, summed. */
  ghost function Covered(base: Base, readings: seq<Sample>, rates: seq<Sample>): real
    requires |rates| == |readings|
    decreases |readings|
  {
    if readings == [] then 0.0
    else rates[0].val * ((readings[0].at - base.prevAt) as real)
         + Covered(Base(readings[0].val, readings[0].at), readings[1..], rates[1..])
  }

  lemma RateTimesElapsed(base: Base, at: int, value: real)
    requires RateOf(base, at, value).Some?
    ensures RateOf(base, at, value).value * ((at - base.prevAt) as real) == value - base.prev
    ensures RateOf(base, at, value).value >= 0.0
  {
    var d, e := value - base.prev, (at - base.prevAt) as real;
    assert e > 0.0;
    assert (d / e) * e == d;
  }

  /** No reading ever yields a negative rate. */
  lemma {:induction false} RatesNotNegative(base: Base, readings: seq<Sample>)
    ensures forall i :: 0 <= i < |Rates(base, readings)| ==> Rates(base, readings)[i].val >= 0.0
    decreases |readings|
  {
    if readings != [] {
      var s := readings[0];
      if RateOf(base, s.at, s.val).Some? { RateTimesElapsed(base, s.at, s.val); }
      RatesNotNegative(Base(s.val, s.at), readings[1..]);
    }
  }

  /** Over a steady stretch every reading yields a rate, and the rates times the elapsed
      time sum to the last cumulative value minus the first: nothing is lost. */
  lemma {:induction false} RatesTelescope(base: Base, readings: seq<Sample>)
    requires Steady(base, readings)
    ensures |Rates(base, readings)| == |readings|
    ensures readings != []
            ==> Covered(base, readings, Rates(base, readings)) == readings[|readings| - 1].val - base.prev
    decreases |readings|
  {
    if readings != [] {
      var s, rest := readings[0], readings[1..];
      RateTimesElapsed(base, s.at, s.val);
      RatesTelescope(Base(s.val, s.at), rest);
      assert Rates(base, readings)[1..] == Rates(Base(s.val, s.at), rest);
      if rest != [] { assert rest[|rest| - 1] == readings[|readings| - 1]; }
    }
  }

  /** A first sight, a clock that did not advance and a reset store nothing; whatever
      follows is measured from that reading alone. */
  lemma Rebases(base: Base, s: Sample, rest: seq<Sample>)
    requires base.prevAt == 0 || s.at <= base.prevAt || s.val < base.prev
    ensures Rates(base, [s] + rest) == Rates(Base(s.val, s.at), rest)
  {
    assert ([s] + rest)[1..] == rest;
  }
}
