/** How the render handler of matecarbon chooses the step of a query, puts the
    sparse samples of a series on a grid, and trims or pads the grid so that
    every series lines up with the request. */
module Grid {
  import opened Text

  /** Time in seconds; a value may itself be no number. */
  datatype Sample<V> = Sample(time: real, value: V)

  /** A slot without a sample holds NaN in Go and None here. */
  datatype Outcome<V> =
    | Skipped
    | Panic
    | Series(start: int, stop: int, step: int, values: seq<Option<V>>)

  // ----- conversions and divisions -----

  /** Go's conversion to an integer cuts towards zero. */
  function Trunc(x: real): int { if x >= 0.0 then x.Floor else -(-x).Floor }

  /** math.Ceil of the quotient of two integers. */
  function CeilDiv(a: int, b: int): int
    requires b > 0
  {
    -((-a) / b)
  }

  function Ceil(x: real): int { -(-x).Floor }

  /** Go's integer division cuts towards zero. */
  function TruncDiv(a: int, b: int): int
    requires b > 0
  {
    if a >= 0 then a / b else -(-a / b)
  }

  lemma CeilDivIsLeast(a: int, b: int)
    requires b > 0
    ensures CeilDiv(a, b) * b >= a > (CeilDiv(a, b) - 1) * b
  {
    DivBounds(-a, b);
    assert (CeilDiv(a, b) - 1) * b == -((-a) / b) * b - b;
  }

  lemma DivBounds(a: int, b: int)
    requires b > 0
    ensures (a / b) * b <= a < (a / b) * b + b
  {
    assert a == (a / b) * b + a % b;
  }

  // ----- the step -----

  const DEFAULT_MAX_DATA_POINTS := 1024

  function MaxDataPoints(requested: nat): nat { if requested == 0 then DEFAULT_MAX_DATA_POINTS else requested }

  /** The step of a query over `range` seconds. */
  function StepOf(range: real, requested: nat, flush: real): real
    requires flush > 0.0
  {
    var multiple := Ceil(range / MaxDataPoints(requested) as real / flush) as real * flush;
    if multiple > flush then multiple else flush
  }

  predicate IsEnough(step: real, range: real, points: nat) { step * points as real >= range }

  lemma DivLe(x: real, y: real, z: real)
    requires y > 0.0
    ensures x / y <= z <==> x <= z * y
  {
    var q := x / y;
    assert q * y == x;
    if q <= z { assert (z - q) * y >= 0.0; } else { assert (q - z) * y > 0.0; }
  }

  lemma MulLe(x: real, y: real, z: real)
    requires z > 0.0
    ensures x * z <= y * z <==> x <= y
  {
    if x <= y { assert (y - x) * z >= 0.0; } else { assert (x - y) * z > 0.0; }
  }

  lemma CeilLe(x: real, n: int)
    ensures Ceil(x) <= n <==> x <= n as real
  {
  }

  function Multiple(flush: real, n: int): real { n as real * flush }

  /** A multiple of the flush interval is enough exactly from the quotient
      on. */
  lemma EnoughFrom(range: real, points: nat, flush: real, n: int)
    requires flush > 0.0 && points > 0
    ensures IsEnough(Multiple(flush, n), range, points) <==> Ceil(range / points as real / flush) <= n
  {
    var p := points as real;
    CeilLe(range / p / flush, n);
    DivLe(range / p, flush, n as real);
    DivLe(range, p, n as real * flush);
  }

  /** The chosen step is the smallest positive multiple of the flush interval
      that covers the range with the wanted number of points. */
  lemma StepIsLeast(range: real, requested: nat, flush: real) returns (n: int)
    requires flush > 0.0
    ensures n >= 1 && StepOf(range, requested, flush) == Multiple(flush, n)
    ensures forall m: int | m >= 1 ::
              IsEnough(Multiple(flush, m), range, if requested == 0 then 1024 else requested) <==> m >= n
  {
    var points := if requested == 0 then 1024 else requested;
    var c := Ceil(range / points as real / flush);
    n := if c > 1 then c else 1;
    MulLe(c as real, 1.0, flush);
    forall m: int | m >= 1 ensures IsEnough(Multiple(flush, m), range, points) <==> m >= n {
      EnoughFrom(range, points, flush, m);
    }
  }

  /** A grid as long as the request has at most one point more than wanted. */
  lemma PointsAreBounded(range: int, requested: nat, flush: real, d: int)
    requires flush > 0.0 && range >= 0 && StepOf(range as real, requested, flush) == d as real
    ensures d > 0 && range / d + 1 <= (if requested == 0 then 1024 else requested) + 1
  {
    var points := if requested == 0 then 1024 else requested;
    var n := StepIsLeast(range as real, requested, flush);
    MulLe(1.0, n as real, flush);
    assert IsEnough(d as real, range as real, points);
    RealOfProduct(d, points);
    QuotientBound(range, d, points);
  }

  lemma QuotientBound(range: int, d: int, points: nat)
    requires d > 0 && range <= d * points
    ensures range / d <= points
  {
    DivBounds(range, d);
    assert (points + 1) * d == d * points + d;
    if range / d > points { MulMonotone(points + 1, range / d, d); }
  }

  lemma MulMonotone(x: int, y: int, z: int)
    requires x <= y && z >= 0
    ensures x * z <= y * z
  {
    assert (y - x) * z >= 0;
  }

  lemma {:induction false} RealOfProduct(x: int, n: nat)
    ensures x as real * n as real == (x * n) as real
  {
    if n > 0 {
      RealOfProduct(x, n - 1);
      assert x * n == x * (n - 1) + x;
      assert x as real * n as real == x as real * (n - 1) as real + x as real;
    }
  }

  // ----- the grid -----

  function GridTime(start: real, step: real, i: nat): real { start + i as real * step }

  /** Where the run of samples with time `t` that starts at `j` ends. */
  function RunEnd<V>(samples: seq<Sample<V>>, j: nat, t: real): (k: nat)
    requires j <= |samples|
    ensures j <= k <= |samples| && (k < |samples| ==> samples[k].time != t)
    ensures forall q | j <= q < k :: samples[q].time == t
    decreases |samples| - j
  {
    if j < |samples| && samples[j].time == t then RunEnd(samples, j + 1, t) else j
  }

  /** The slots `i` to `n`, when the first `j` samples have been used up. */
  function Fill<V>(samples: seq<Sample<V>>, start: real, step: real, i: nat, n: nat, j: nat): (r: seq<Option<V>>)
    requires i <= n && j <= |samples|
    ensures |r| == n - i
    decreases n - i
  {
    if i == n then []
    else
      var k := RunEnd(samples, j, GridTime(start, step, i));
      [if k == j then None else Some(samples[k - 1].value)] + Fill(samples, start, step, i + 1, n, k)
  }

  /** The loop that fills the grid. */
  method FillGrid<V>(samples: seq<Sample<V>>, start: real, step: real, n: nat) returns (values: array<Option<V>>)
    ensures fresh(values) && values[..] == Fill(samples, start, step, 0, n, 0)
  {
    hide GridTime, Fill;
    values := new Option<V>[n](_ => None);
    var i, j := 0, 0;
    ghost var goal := Fill(samples, start, step, 0, n, 0);
    while i < n
      invariant i <= n && j <= |samples| && Fill(samples, start, step, i, n, j) == goal[i..]
      invariant forall p | 0 <= p < i :: values[p] == goal[p]
    {
      values[i] := None;
      var t := GridTime(start, step, i);
      ghost var j0 := j;
      while j < |samples|
        invariant j0 <= j <= |samples| && RunEnd(samples, j, t) == RunEnd(samples, j0, t)
        invariant values[i] == if j == j0 then None else Some(samples[j - 1].value)
        invariant forall p | 0 <= p < i :: values[p] == goal[p]
      {
        if t != samples[j].time {
          break;
        }
        values[i] := Some(samples[j].value);
        j := j + 1;
      }
      FillStep(samples, start, step, i, n, j0, goal[i..]);
      i := i + 1;
    }
  }

  lemma FillStep<V>(samples: seq<Sample<V>>, start: real, step: real, i: nat, n: nat, j: nat, s: seq<Option<V>>)
    requires i < n && j <= |samples| && s == Fill(samples, start, step, i, n, j)
    ensures var k := RunEnd(samples, j, GridTime(start, step, i));
            s[0] == (if k == j then None else Some(samples[k - 1].value)) && s[1..] == Fill(samples, start, step, i + 1, n, k)
  {
  }

  predicate Sorted<V>(samples: seq<Sample<V>>) {
    forall p, q | 0 <= p < q < |samples| :: samples[p].time <= samples[q].time
  }

  /** What was sampled at time `t`; of several samples the last counts. */
  function SampleAt<V>(samples: seq<Sample<V>>, t: real): Option<V> {
    if samples == [] then None
    else
      var last := samples[|samples| - 1];
      if last.time == t then Some(last.value) else SampleAt(samples[..|samples| - 1], t)
  }

  lemma {:induction false} SampleAtIs<V>(samples: seq<Sample<V>>, t: real, k: nat)
    requires k <= |samples| && forall q | k <= q < |samples| :: samples[q].time != t
    ensures k > 0 && samples[k - 1].time == t ==> SampleAt(samples, t) == Some(samples[k - 1].value)
    ensures k == 0 ==> SampleAt(samples, t) == None
  {
    if |samples| > k { SampleAtIs(samples[..|samples| - 1], t, k); }
  }

  /** Time `t` is that of a slot from `i` on. */
  ghost predicate OnGrid(start: real, step: real, i: nat, t: real) {
    exists q: nat :: q >= i && t == GridTime(start, step, q)
  }

  lemma GridTimeGrows(start: real, step: real, p: nat, q: nat)
    requires step > 0.0
    ensures p < q ==> GridTime(start, step, p) < GridTime(start, step, q)
  {
    if p < q { MulLess(p as real, q as real, step); }
  }

  lemma MulLess(x: real, y: real, z: real)
    requires z > 0.0 && x < y
    ensures x * z < y * z
  {
    assert (y - x) * z > 0.0;
  }

  /** The samples from `k` on lie on later slots. */
  lemma RunIsWhole<V>(samples: seq<Sample<V>>, start: real, step: real, i: nat, j: nat, k: nat)
    requires step > 0.0 && Sorted(samples) && j <= |samples| && k == RunEnd(samples, j, GridTime(start, step, i))
    requires forall p | j <= p < |samples| :: OnGrid(start, step, i, samples[p].time)
    ensures forall p | k <= p < |samples| :: samples[p].time > GridTime(start, step, i) && OnGrid(start, step, i + 1, samples[p].time)
  {
    forall p | k <= p < |samples|
      ensures samples[p].time > GridTime(start, step, i) && OnGrid(start, step, i + 1, samples[p].time)
    {
      var q: nat :| q >= i && samples[k].time == GridTime(start, step, q);
      GridTimeGrows(start, step, i, q);
      var r: nat :| r >= i && samples[p].time == GridTime(start, step, r);
      assert samples[k].time <= samples[p].time;
    }
  }

  /** On a grid, every slot holds exactly the sample of its time. */
  lemma {:induction false} FillIsExact<V>(samples: seq<Sample<V>>, start: real, step: real, i: nat, n: nat, j: nat)
    requires step > 0.0 && Sorted(samples) && i <= n && j <= |samples|
    requires forall p | j <= p < |samples| :: OnGrid(start, step, i, samples[p].time)
    requires forall p | 0 <= p < j :: samples[p].time < GridTime(start, step, i)
    ensures forall k | 0 <= k < n - i :: Fill(samples, start, step, i, n, j)[k] == SampleAt(samples, GridTime(start, step, i + k))
    decreases n - i
  {
    hide SampleAt, OnGrid, Sorted, GridTime;
    if i < n {
      var t := GridTime(start, step, i);
      var k := RunEnd(samples, j, t);
      RunIsWhole(samples, start, step, i, j, k);
      SampleAtIs(samples, t, k);
      SampleAtIs(samples, t, if k == j then 0 else k);
      GridTimeGrows(start, step, i, i + 1);
      FillIsExact(samples, start, step, i + 1, n, k);
      forall q | 0 <= q < n - i
        ensures Fill(samples, start, step, i, n, j)[q] == SampleAt(samples, GridTime(start, step, i + q))
      {
        if q > 0 { assert i + q == i + 1 + (q - 1); }
      }
    }
  }

  /** A sample off the grid keeps itself and all samples after it out. */
  lemma {:induction false} OffGridSampleBlocks<V>(samples: seq<Sample<V>>, start: real, step: real, i: nat, n: nat, j: nat, b: nat)
    requires i <= n && j <= b < |samples| && !OnGrid(start, step, i, samples[b].time)
    ensures Fill(samples, start, step, i, n, j) == Fill(samples[..b], start, step, i, n, j)
    decreases n - i
  {
    if i < n {
      var t := GridTime(start, step, i);
      assert samples[b].time != t;
      RunBefore(samples, j, t, b);
      OffGridSampleBlocks(samples, start, step, i + 1, n, RunEnd(samples, j, t), b);
    }
  }

  lemma {:induction false} RunBefore<V>(samples: seq<Sample<V>>, j: nat, t: real, b: nat)
    requires j <= b < |samples| && samples[b].time != t
    ensures RunEnd(samples, j, t) == RunEnd(samples[..b], j, t) <= b
    decreases b - j
  {
    if j < b && samples[j].time == t { RunBefore(samples, j + 1, t, b); }
  }

  /** In any case the slots hold the samples before the first one off the
      grid. */
  lemma FillStopsOffGrid<V>(samples: seq<Sample<V>>, start: real, step: real, n: nat, b: nat)
    requires step > 0.0 && Sorted(samples) && b < |samples| && !OnGrid(start, step, 0, samples[b].time)
    requires forall p | 0 <= p < b :: OnGrid(start, step, 0, samples[p].time)
    ensures forall k | 0 <= k < n :: Fill(samples, start, step, 0, n, 0)[k] == SampleAt(samples[..b], GridTime(start, step, k))
  {
    hide OnGrid, GridTime, Fill;
    OffGridSampleBlocks(samples, start, step, 0, n, 0, b);
    FillIsExact(samples[..b], start, step, 0, n, 0);
    forall k | 0 <= k < n
      ensures Fill(samples, start, step, 0, n, 0)[k] == SampleAt(samples[..b], GridTime(start, step, k))
    {
      assert Fill(samples[..b], start, step, 0, n, 0)[k] == SampleAt(samples[..b], GridTime(start, step, 0 + k));
    }
  }

  // ----- alignment -----

  function Missing<V>(n: nat): seq<Option<V>> { seq(n, _ => None) }

  /** makeNanArr */
  method MakeNanArr<V>(count: nat) returns (arr: array<Option<V>>)
    ensures fresh(arr) && arr[..] == Missing(count)
  {
    arr := new Option<V>[count];
    for i := 0 to count
      invariant forall k | 0 <= k < i :: arr[k] == None
    {
      arr[i] := None;
    }
  }

  /** The start of a series and its slots from there on; None where Go
      panics. */
  function AlignStart<V>(metricStart: int, d: int, values: seq<Option<V>>, requestStart: int): Option<(int, seq<Option<V>>)>
    requires d > 0
  {
    if metricStart < requestStart then
      var n := CeilDiv(requestStart - metricStart, d);
      CeilDivIsLeast(requestStart - metricStart, d);
      if n > |values| then None else Some((metricStart + n * d, values[n..]))
    else
      var n := (metricStart - requestStart) / d;
      Some((metricStart - n * d, Missing(n) + values))
  }

  /** The end of a series and its slots up to there. */
  function AlignEnd<V>(metricEnd: int, d: int, values: seq<Option<V>>, requestStart: int, requestEnd: int): Option<(int, seq<Option<V>>)>
    requires d > 0
  {
    if metricEnd > requestEnd then
      var n := CeilDiv(metricEnd - requestEnd, d);
      CeilDivIsLeast(metricEnd - requestEnd, d);
      if |values| - n < 0 then None else Some((metricEnd - n * d, values[..|values| - n]))
    else
      var n := TruncDiv(requestEnd - requestStart, d) + 1 - |values|;
      if n < 0 then None else Some((metricEnd + n * d, values + Missing(n)))
  }

  function Count(start: real, end: real, step: real): int
    requires step > 0.0
  {
    Trunc((end - start) / step + 1.0)
  }

  /** What the handler makes of the samples of a series. A step below one
      second is cut to zero, by which it then divides. */
  function Align<V>(samples: seq<Sample<V>>, step: real, requestStart: int, requestEnd: int): Outcome<V>
    requires step > 0.0
  {
    if samples == [] then Skipped
    else
      var start, end := samples[0].time, samples[|samples| - 1].time;
      var count := Count(start, end, step);
      if count < 0 || Trunc(step) == 0 then Panic
      else
        match AlignStart(Trunc(start), Trunc(step), Fill(samples, start, step, 0, count, 0), requestStart)
        case None => Panic
        case Some((metricStart, values)) =>
          match AlignEnd(Trunc(end), Trunc(step), values, requestStart, requestEnd)
          case None => Panic
          case Some((metricEnd, values)) => Series(metricStart, metricEnd, Trunc(step), values)
  }

  method AlignSeries<V>(samples: seq<Sample<V>>, step: real, requestStart: int, requestEnd: int) returns (r: Outcome<V>)
    requires step > 0.0
    ensures r == Align(samples, step, requestStart, requestEnd)
    ensures samples != [] && step < 1.0 ==> r == Panic
  {
    hide Fill, GridTime;
    if |samples| == 0 {
      return Skipped;
    }
    var start, end := samples[0].time, samples[|samples| - 1].time;
    var count := Count(start, end, step);
    if count < 0 {
      return Panic;
    }
    var grid := FillGrid(samples, start, step, count);
    var values := grid[..];
    var metricStart, metricEnd, metricStep := Trunc(start), Trunc(end), Trunc(step);
    if metricStep == 0 {
      return Panic;
    }
    if metricStart < requestStart {
      var startStep := CeilDiv(requestStart - metricStart, metricStep);
      CeilDivIsLeast(requestStart - metricStart, metricStep);
      metricStart := metricStart + startStep * metricStep;
      if startStep > |values| {
        return Panic;
      }
      values := values[startStep..];
    } else {
      var startStep := (metricStart - requestStart) / metricStep;
      metricStart := metricStart - startStep * metricStep;
      var missing := MakeNanArr(startStep);
      values := missing[..] + values;
    }
    if metricEnd > requestEnd {
      var stopStep := CeilDiv(metricEnd - requestEnd, metricStep);
      CeilDivIsLeast(metricEnd - requestEnd, metricStep);
      metricEnd := metricEnd - stopStep * metricStep;
      if |values| - stopStep < 0 {
        return Panic;
      }
      values := values[..|values| - stopStep];
    } else {
      var stopStep := TruncDiv(requestEnd - requestStart, metricStep) + 1 - |values|;
      metricEnd := metricEnd + stopStep * metricStep;
      if stopStep < 0 {
        return Panic;
      }
      var missing := MakeNanArr(stopStep);
      values := values + missing[..];
    }
    return Series(metricStart, metricEnd, metricStep, values);
  }

  // ----- what alignment keeps -----

  /** The time of slot `k` on a grid of whole seconds. */
  function TimeAt(start: int, d: int, k: int): int { start + k * d }

  lemma TimeAtShift(start: int, d: int, m: int, k: int)
    ensures TimeAt(TimeAt(start, d, m), d, k) == TimeAt(start, d, m + k)
  {
    assert (m + k) * d == m * d + k * d;
  }

  lemma TimeAtGrows(start: int, d: int, p: int, q: int)
    requires d > 0
    ensures p < q <==> TimeAt(start, d, p) < TimeAt(start, d, q)
    ensures p < q ==> TimeAt(start, d, p) + d <= TimeAt(start, d, q)
  {
    if p < q {
      MulMonotone(p + 1, q, d);
      assert (p + 1) * d == p * d + d;
    } else {
      MulMonotone(q, p, d);
    }
  }

  /** The slots from `start` on hold exactly the samples of their times. */
  ghost predicate Exact<V>(values: seq<Option<V>>, samples: seq<Sample<V>>, start: int, d: int) {
    forall k | 0 <= k < |values| :: values[k] == SampleAt(samples, TimeAt(start, d, k) as real)
  }

  lemma {:induction false} NoSampleAt<V>(samples: seq<Sample<V>>, t: real)
    requires forall p | 0 <= p < |samples| :: samples[p].time != t
    ensures SampleAt(samples, t) == None
  {
    SampleAtIs(samples, t, 0);
  }

  /** All samples lie between the first slot and the slot before `n`. */
  predicate Spans<V>(samples: seq<Sample<V>>, start: int, d: int, n: nat) {
    forall p | 0 <= p < |samples| :: start as real <= samples[p].time <= TimeAt(start, d, n - 1) as real
  }

  /** The grid starts before the request: slots are cut off. */
  lemma TrimIsExact<V>(samples: seq<Sample<V>>, start: int, d: int, values: seq<Option<V>>, requestStart: int)
    requires d > 0 && Exact(values, samples, start, d) && start < requestStart
    ensures var r := AlignStart(start, d, values, requestStart);
            && (r.None? <==> TimeAt(start, d, |values|) < requestStart)
            && (r.Some? ==>
                && Exact(r.value.1, samples, r.value.0, d)
                && r.value.0 == requestStart + (start - requestStart) % d
                && TimeAt(r.value.0, d, |r.value.1|) == TimeAt(start, d, |values|))
  {
    hide SampleAt;
    var n := CeilDiv(requestStart - start, d);
    CeilDivIsLeast(requestStart - start, d);
    assert TimeAt(start, d, n) >= requestStart > TimeAt(start, d, n - 1) by { assert (n - 1) * d == n * d - d; }
    TimeAtGrows(start, d, |values|, n);
    TimeAtGrows(start, d, n - 1, |values|);
    PhaseOf(start, d, n, requestStart);
    if n <= |values| {
      TimeAtShift(start, d, n, |values| - n);
      forall k | 0 <= k < |values| - n
        ensures values[n..][k] == SampleAt(samples, TimeAt(TimeAt(start, d, n), d, k) as real)
      {
        TimeAtShift(start, d, n, k);
      }
    }
  }

  /** The grid starts in the request: missing values are put in front. */
  lemma PadIsExact<V>(samples: seq<Sample<V>>, start: int, d: int, values: seq<Option<V>>, requestStart: int)
    requires d > 0 && Exact(values, samples, start, d) && Spans(samples, start, d, |values|) && start >= requestStart
    ensures var r := AlignStart(start, d, values, requestStart);
            && (r.None? <==> TimeAt(start, d, |values|) < requestStart)
            && (r.Some? ==>
                && Exact(r.value.1, samples, r.value.0, d)
                && r.value.0 == requestStart + (start - requestStart) % d
                && TimeAt(r.value.0, d, |r.value.1|) == TimeAt(start, d, |values|))
  {
    hide SampleAt;
    var n := (start - requestStart) / d;
    DivBounds(start - requestStart, d);
    var first := TimeAt(start, d, -n);
    assert first == start - n * d by { assert (-n) * d == -(n * d); }
    PhaseOf(start, d, -n, requestStart);
    TimeAtShift(start, d, -n, n + |values|);
    TimeAtGrows(start, d, 0, |values|);
    forall k | 0 <= k < n + |values|
      ensures (Missing(n) + values)[k] == SampleAt(samples, TimeAt(first, d, k) as real)
    {
      TimeAtShift(start, d, -n, k);
      if k < n {
        TimeAtGrows(start, d, k - n, 0);
        NoSampleAt(samples, TimeAt(first, d, k) as real);
      }
    }
  }

  /** When the start lies beyond the grid, and where the aligned grid starts. */
  lemma StartIsExact<V>(samples: seq<Sample<V>>, start: int, d: int, values: seq<Option<V>>, requestStart: int)
    requires d > 0 && Exact(values, samples, start, d) && Spans(samples, start, d, |values|)
    ensures var r := AlignStart(start, d, values, requestStart);
            && (r.None? <==> TimeAt(start, d, |values|) < requestStart)
            && (r.Some? ==>
                && Exact(r.value.1, samples, r.value.0, d)
                && r.value.0 == requestStart + (start - requestStart) % d
                && TimeAt(r.value.0, d, |r.value.1|) == TimeAt(start, d, |values|))
  {
    hide AlignStart, Exact, Spans;
    if start < requestStart {
      TrimIsExact(samples, start, d, values, requestStart);
    } else {
      PadIsExact(samples, start, d, values, requestStart);
    }
  }

  /** Of the times of the grid, the first from `requestStart` on. */
  lemma PhaseOf(start: int, d: int, n: int, requestStart: int)
    requires d > 0 && requestStart <= TimeAt(start, d, n) < requestStart + d
    ensures TimeAt(start, d, n) == requestStart + (start - requestStart) % d
  {
    var r := TimeAt(start, d, n) - requestStart;
    ModUnique(start - requestStart, d, -n, r);
  }

  lemma ModUnique(x: int, d: int, q: int, r: int)
    requires d > 0 && 0 <= r < d && x == q * d + r
    ensures x % d == r && x / d == q
  {
    var q', r' := x / d, x % d;
    assert x == d * q' + r';
    assert (q - q') * d == r' - r;
    if q > q' { MulMonotone(1, q - q', d); } else if q < q' { MulMonotone(q - q', -1, d); }
  }

  lemma QuotientAtLeast(x: int, d: int, q: int)
    requires d > 0 && q * d <= x
    ensures q <= x / d
  {
    DivBounds(x, d);
    assert (x / d + 1) * d == (x / d) * d + d;
    if q > x / d { MulMonotone(x / d + 1, q, d); }
  }

  lemma EndIsExact<V>(
    samples: seq<Sample<V>>, first: int, end: int, d: int, values: seq<Option<V>>, requestStart: int, requestEnd: int)
    requires d > 0 && requestStart <= requestEnd && requestStart <= first < requestStart + d
    requires Exact(values, samples, first, d) && end == TimeAt(first, d, |values| - 1)
    requires forall p | 0 <= p < |samples| :: samples[p].time <= end as real
    ensures var r := AlignEnd(end, d, values, requestStart, requestEnd);
            && r.Some? && Exact(r.value.1, samples, first, d)
            && r.value.0 == TimeAt(first, d, |r.value.1| - 1)
            && |r.value.1| == (requestEnd - (if end <= requestEnd then requestStart else first)) / d + 1
  {
    hide SampleAt, TruncDiv;
    var last := |values| - 1;
    if end > requestEnd {
      CutBack(first, end, d, last, requestEnd);
      QuotientAtLeast(requestEnd - first, d, -1);
    } else {
      var n := (requestEnd - requestStart) / d + 1 - |values|;
      TruncDivIsDiv(requestEnd - requestStart, d);
      QuotientAtLeast(requestEnd - requestStart, d, last);
      TimeAtShift(first, d, last, n);
      forall k | |values| <= k < |values| + n
        ensures (values + Missing(n))[k] == SampleAt(samples, TimeAt(first, d, k) as real)
      {
        TimeAtGrows(first, d, last, k);
        NoSampleAt(samples, TimeAt(first, d, k) as real);
      }
    }
  }

  lemma TruncDivIsDiv(a: int, b: int)
    requires a >= 0 && b > 0
    ensures TruncDiv(a, b) == a / b
  {
  }

  /** Going back to the last time of the grid that is not after the request. */
  lemma CutBack(first: int, end: int, d: int, last: int, requestEnd: int)
    requires d > 0 && end == TimeAt(first, d, last) && end > requestEnd
    ensures var n := CeilDiv(end - requestEnd, d);
            n > 0 && last - n == (requestEnd - first) / d && end - n * d == TimeAt(first, d, last - n)
  {
    var n := CeilDiv(end - requestEnd, d);
    CeilDivIsLeast(end - requestEnd, d);
    assert n > 0 by { if n <= 0 { MulMonotone(n, 0, d); } }
    assert (last - n) * d == last * d - n * d;
    assert (n - 1) * d == n * d - d;
    ModUnique(requestEnd - first, d, last - n, requestEnd - TimeAt(first, d, last - n));
  }

  predicate IsWhole(x: real) { x == x.Floor as real }

  /** Samples at whole seconds on the grid that the first one starts. */
  ghost predicate Gridded<V>(samples: seq<Sample<V>>, step: real) {
    && samples != [] && IsWhole(step) && step >= 1.0 && Sorted(samples)
    && forall p | 0 <= p < |samples| :: IsWhole(samples[p].time) && OnGrid(samples[0].time, step, 0, samples[p].time)
  }

  lemma WholeGridTime(start: int, d: int, k: nat)
    ensures GridTime(start as real, d as real, k) == TimeAt(start, d, k) as real
  {
    RealOfProduct(d, k);
  }

  /** The grid ends with the last sample. */
  lemma CountIsExact<V>(samples: seq<Sample<V>>, step: real) returns (count: nat)
    requires Gridded(samples, step)
    ensures count >= 1 && count == Count(samples[0].time, samples[|samples| - 1].time, step)
    ensures TimeAt(samples[0].time.Floor, step.Floor, count - 1) == samples[|samples| - 1].time.Floor
  {
    hide Sorted, Trunc;
    var start, end := samples[0].time, samples[|samples| - 1].time;
    var q: nat :| end == GridTime(start, step, q);
    WholeGridTime(start.Floor, step.Floor, q);
    QuotientOf(end - start, step, q as real);
    TruncWhole(q + 1);
    count := q + 1;
  }

  lemma TruncWhole(n: nat)
    ensures Trunc(n as real) == n
  {
  }

  lemma QuotientOf(x: real, y: real, q: real)
    requires y > 0.0 && x == q * y
    ensures x / y == q
  {
    var r := x / y;
    assert r * y == x;
    if r < q { MulLess(r, q, y); } else if r > q { MulLess(q, r, y); }
  }

  /** The grid before alignment. */
  lemma GridIsExact<V>(samples: seq<Sample<V>>, step: real, count: nat)
    requires Gridded(samples, step) && count >= 1
    requires TimeAt(samples[0].time.Floor, step.Floor, count - 1) == samples[|samples| - 1].time.Floor
    ensures var values := Fill(samples, samples[0].time, step, 0, count, 0);
            && Exact(values, samples, samples[0].time.Floor, step.Floor)
            && Spans(samples, samples[0].time.Floor, step.Floor, count)
  {
    hide SampleAt, GridTime, OnGrid, Fill;
    var start := samples[0].time;
    FillIsExact(samples, start, step, 0, count, 0);
    forall k | 0 <= k < count
      ensures Fill(samples, start, step, 0, count, 0)[k] == SampleAt(samples, TimeAt(start.Floor, step.Floor, k) as real)
    {
      WholeGridTime(start.Floor, step.Floor, k);
      assert Fill(samples, start, step, 0, count, 0)[k] == SampleAt(samples, GridTime(start, step, 0 + k));
    }
  }

  /** After grid fill and alignment: the only panic is for series that end
      more than a step before the request; otherwise the first slot is the
      first time of the grid within the request, and every slot holds exactly
      the sample of its time. */
  lemma AlignIsExact<V>(samples: seq<Sample<V>>, step: real, requestStart: int, requestEnd: int)
    requires Gridded(samples, step) && requestStart <= requestEnd
    ensures var r := Align(samples, step, requestStart, requestEnd);
            var start, end, d := samples[0].time.Floor, samples[|samples| - 1].time.Floor, step.Floor;
            && (if end < requestStart - d then r == Panic else r.Series?)
            && (r.Series? ==>
                && r.step == d && r.start == requestStart + (start - requestStart) % d
                && r.stop == TimeAt(r.start, d, |r.values| - 1)
                && |r.values| == (requestEnd - (if end <= requestEnd then requestStart else r.start)) / d + 1
                && Exact(r.values, samples, r.start, d))
  {
    hide SampleAt, GridTime, OnGrid, Fill, Exact, Count, AlignStart, AlignEnd, TimeAt;
    var start, end, d := samples[0].time.Floor, samples[|samples| - 1].time.Floor, step.Floor;
    var count := CountIsExact(samples, step);
    GridIsExact(samples, step, count);
    var values := Fill(samples, samples[0].time, step, 0, count, 0);
    StartIsExact(samples, start, d, values, requestStart);
    TruncFloor(samples[0].time);
    TruncFloor(samples[|samples| - 1].time);
    TruncFloor(step);
    NextSlot(start, d, count);
    var s := AlignStart(start, d, values, requestStart);
    if s.Some? {
      var (first, kept) := s.value;
      NextSlot(first, d, |kept|);
      EndIsExact(samples, first, end, d, kept, requestStart, requestEnd);
    }
  }

  lemma NextSlot(start: int, d: int, n: int)
    ensures TimeAt(start, d, n) == TimeAt(start, d, n - 1) + d
  {
    assert (n - 1) * d == n * d - d;
  }

  lemma TruncFloor(x: real)
    requires IsWhole(x)
    ensures Trunc(x) == x.Floor
  {
    if x < 0.0 { assert -x == (-x.Floor) as real; }
  }

  /** Series line up in length with the request unless they are cut at the end
      and start too late in the first step of the request. */
  lemma LengthIsCommon<V>(samples: seq<Sample<V>>, step: real, requestStart: int, requestEnd: int)
    requires Gridded(samples, step) && requestStart <= requestEnd
    requires Align(samples, step, requestStart, requestEnd).Series?
    ensures var r := Align(samples, step, requestStart, requestEnd);
            var end, d := samples[|samples| - 1].time.Floor, step.Floor;
            |r.values| == (requestEnd - requestStart) / d + 1 <==>
            end <= requestEnd || r.start - requestStart <= (requestEnd - requestStart) % d
  {
    hide Align, Exact, Gridded, TimeAt;
    AlignIsExact(samples, step, requestStart, requestEnd);
    var d := step.Floor;
    GriddedStep(samples, step);
    var phase := Align(samples, step, requestStart, requestEnd).start - requestStart;
    var range := requestEnd - requestStart;
    ModRange(samples[0].time.Floor - requestStart, d);
    DivBounds(range, d);
    if phase <= range % d {
      ModUnique(range - phase, d, range / d, range % d - phase);
    } else {
      assert (range / d - 1) * d == (range / d) * d - d;
      ModUnique(range - phase, d, range / d - 1, range % d - phase + d);
    }
  }

  lemma ModRange(x: int, d: int)
    requires d > 0
    ensures 0 <= x % d < d
  {
  }

  lemma GriddedStep<V>(samples: seq<Sample<V>>, step: real)
    requires Gridded(samples, step)
    ensures samples != [] && step.Floor > 0
  {
  }

  // ----- conservation -----

  /** The values in the slots, in order. */
  function Kept<V>(values: seq<Option<V>>): seq<V> {
    if values == [] then []
    else
      var last := values[|values| - 1];
      Kept(values[..|values| - 1]) + if last.None? then [] else [last.value]
  }

  /** The values of the samples from `lo` to `hi`, in order. */
  function Between<V>(samples: seq<Sample<V>>, lo: int, hi: int): seq<V> {
    if samples == [] then []
    else
      var last := samples[|samples| - 1];
      Between(samples[..|samples| - 1], lo, hi) + if lo as real <= last.time <= hi as real then [last.value] else []
  }

  predicate Increasing<V>(samples: seq<Sample<V>>) {
    && (forall p, q | 0 <= p < q < |samples| :: samples[p].time < samples[q].time)
    && (forall p | 0 <= p < |samples| :: IsWhole(samples[p].time))
  }

  lemma {:induction false} BetweenNothing<V>(samples: seq<Sample<V>>, lo: int, hi: int)
    requires forall p | 0 <= p < |samples| :: !(lo as real <= samples[p].time <= hi as real)
    ensures Between(samples, lo, hi) == []
  {
    if samples != [] { BetweenNothing(samples[..|samples| - 1], lo, hi); }
  }

  lemma {:induction false} BetweenSplit<V>(samples: seq<Sample<V>>, lo: int, mid: int, hi: int)
    requires Increasing(samples) && lo <= mid <= hi + 1
    ensures Between(samples, lo, hi) == Between(samples, lo, mid - 1) + Between(samples, mid, hi)
  {
    if samples != [] {
      var last := samples[|samples| - 1];
      BetweenSplit(samples[..|samples| - 1], lo, mid, hi);
      if last.time.Floor < mid {
        BetweenNothing(samples, mid, hi);
        BetweenNothing(samples[..|samples| - 1], mid, hi);
      }
    }
  }

  lemma {:induction false} BetweenSame<V>(samples: seq<Sample<V>>, lo: int, hi: int, lo': int, hi': int)
    requires forall p | 0 <= p < |samples| ::
               lo as real <= samples[p].time <= hi as real <==> lo' as real <= samples[p].time <= hi' as real
    ensures Between(samples, lo, hi) == Between(samples, lo', hi')
  {
    if samples != [] {
      var last := samples[|samples| - 1];
      assert samples[|samples| - 1] == last;
      BetweenSame(samples[..|samples| - 1], lo, hi, lo', hi');
    }
  }

  /** One slot. */
  lemma {:induction false} SlotKeeps<V>(samples: seq<Sample<V>>, t: int, d: int)
    requires Increasing(samples) && d > 0
    requires forall p | 0 <= p < |samples| :: samples[p].time <= t as real || samples[p].time >= (t + d) as real
    ensures Between(samples, t, t + d - 1) == Kept([SampleAt(samples, t as real)])
  {
    assert forall v: Option<V> :: Kept([v]) == if v.None? then [] else [v.value];
    if samples != [] {
      var last := samples[|samples| - 1];
      SlotKeeps(samples[..|samples| - 1], t, d);
      if last.time <= t as real { BetweenNothing(samples[..|samples| - 1], t, t + d - 1); }
    }
  }

  /** Every sample lies on the grid through `start`, on either side of it. */
  ghost predicate OnLattice<V>(samples: seq<Sample<V>>, start: int, d: int) {
    forall p | 0 <= p < |samples| :: exists k: int :: samples[p].time == TimeAt(start, d, k) as real
  }

  lemma NothingBetween<V>(samples: seq<Sample<V>>, start: int, d: int, n: int)
    requires d > 0 && OnLattice(samples, start, d)
    ensures forall p | 0 <= p < |samples| ::
              samples[p].time <= TimeAt(start, d, n) as real || samples[p].time >= (TimeAt(start, d, n) + d) as real
  {
    forall p | 0 <= p < |samples|
      ensures samples[p].time <= TimeAt(start, d, n) as real || samples[p].time >= (TimeAt(start, d, n) + d) as real
    {
      var k: int :| samples[p].time == TimeAt(start, d, k) as real;
      TimeAtGrows(start, d, n, k);
    }
  }

  lemma {:induction false} SlotsKeep<V>(samples: seq<Sample<V>>, values: seq<Option<V>>, start: int, d: int)
    requires Increasing(samples) && d > 0 && OnLattice(samples, start, d) && Exact(values, samples, start, d)
    ensures Kept(values) == Between(samples, start, TimeAt(start, d, |values|) - 1)
  {
    hide OnLattice, Increasing, SampleAt;
    var n := |values| - 1;
    if n < 0 {
      BetweenNothing(samples, start, start - 1);
    } else {
      SlotsKeep(samples, values[..n], start, d);
      var t := TimeAt(start, d, n);
      NothingBetween(samples, start, d, n);
      SlotKeeps(samples, t, d);
      NextSlot(start, d, n + 1);
      TimeAtGrows(start, d, 0, n);
      BetweenSplit(samples, start, t, t + d - 1);
    }
  }

  /** A grid stays a grid when its start moves by whole steps. */
  lemma LatticeFrom<V>(samples: seq<Sample<V>>, step: real, requestStart: int)
    requires Gridded(samples, step)
    ensures var d := step.Floor;
            OnLattice(samples, requestStart + (samples[0].time.Floor - requestStart) % d, d)
  {
    var a, d := samples[0].time.Floor, step.Floor;
    var m := (a - requestStart) / d;
    var first := requestStart + (a - requestStart) % d;
    assert first == a - m * d;
    forall p | 0 <= p < |samples| ensures exists k: int :: samples[p].time == TimeAt(first, d, k) as real {
      var q: nat :| samples[p].time == GridTime(samples[0].time, step, q);
      WholeGridTime(a, d, q);
      assert TimeAt(first, d, q + m) == TimeAt(a, d, q) by { assert (q + m) * d == q * d + m * d; }
    }
  }

  /** Of a time on the grid: it lies in the request exactly if it has a slot. */
  lemma SlotsAreRequest(first: int, d: int, k: int, end: int, requestStart: int, requestEnd: int, n: int)
    requires d > 0 && requestStart <= first < requestStart + d && TimeAt(first, d, k) <= end
    requires n == (requestEnd - (if end <= requestEnd then requestStart else first)) / d + 1
    ensures requestStart <= TimeAt(first, d, k) <= requestEnd <==> first <= TimeAt(first, d, k) <= TimeAt(first, d, n) - 1
  {
    hide TimeAt;
    TimeAtGrows(first, d, k, 0);
    TimeAtGrows(first, d, k, n);
    TimeAtGrows(first, d, n, k);
    TimeAtZero(first, d, k);
    if end <= requestEnd {
      if k >= 0 { QuotientAtLeast(requestEnd - requestStart, d, k); }
    } else {
      DivBounds(requestEnd - first, d);
      if k * d <= requestEnd - first { QuotientAtLeast(requestEnd - first, d, k); } else { MulBound(k, (requestEnd - first) / d, d); }
    }
  }

  lemma TimeAtZero(start: int, d: int, k: int)
    ensures TimeAt(start, d, 0) == start && TimeAt(start, d, k) == start + k * d
  {
  }

  lemma MulBound(k: int, q: int, d: int)
    requires d > 0 && k * d > q * d
    ensures k >= q + 1
  {
    if k <= q { MulMonotone(k, q, d); }
  }

  /** Conservation: the slots hold every sample of the request once and in
      order, and no other. */
  lemma SamplesAreKept<V>(samples: seq<Sample<V>>, step: real, requestStart: int, requestEnd: int)
    requires Gridded(samples, step) && Increasing(samples) && requestStart <= requestEnd
    requires Align(samples, step, requestStart, requestEnd).Series?
    ensures Kept(Align(samples, step, requestStart, requestEnd).values) == Between(samples, requestStart, requestEnd)
  {
    hide Align, Exact, TimeAt, Kept, Between, GridTime, OnGrid;
    AlignIsExact(samples, step, requestStart, requestEnd);
    var r := Align(samples, step, requestStart, requestEnd);
    var first, d, n := r.start, step.Floor, |r.values|;
    var end := samples[|samples| - 1].time.Floor;
    LatticeFrom(samples, step, requestStart);
    ModRange(samples[0].time.Floor - requestStart, d);
    SlotsKeep(samples, r.values, first, d);
    forall p | 0 <= p < |samples|
      ensures first as real <= samples[p].time <= (TimeAt(first, d, n) - 1) as real <==>
              requestStart as real <= samples[p].time <= requestEnd as real
    {
      var k: int :| samples[p].time == TimeAt(first, d, k) as real;
      SlotsAreRequest(first, d, k, end, requestStart, requestEnd, n);
    }
    BetweenSame(samples, first, TimeAt(first, d, n) - 1, requestStart, requestEnd);
  }
}
