/** The history graph: where the curve is cut, how wide the trend is, and the one-line verdict. */
module MetricHistory {
  import opened Wrappers
  import opened OrderStatistics
  import opened Reals

  datatype Point = Point(time: real, value: real)

  // ---------------------------------------------------------------- segments

  function Deltas(points: seq<Point>): (d: seq<real>)
    ensures |points| > 0 ==> |d| == |points| - 1
  {
    if |points| < 2 then []
    else Deltas(points[..|points| - 1]) + [Gap(points[|points| - 2], points[|points| - 1])]
  }

  function Gap(p: Point, q: Point): real {
    q.time - p.time
  }

  /** The upper median of the gaps, 0 when there is none. */
  function MedianGap(points: seq<Point>): real {
    var d := Deltas(points);
    if d == [] then 0.0 else Sorted(d)[|d| / 2]
  }

  function GapLimit(points: seq<Point>, binSeconds: real): real {
    Max(binSeconds * 2.0 * 1000.0, MedianGap(points) * 2.5)
  }

  function Joined(segments: seq<seq<Point>>): seq<Point> {
    if segments == [] then [] else Joined(segments[..|segments| - 1]) + segments[|segments| - 1]
  }

  /** No gap above the limit inside a segment, and one above it at every cut. */
  ghost predicate CutAtGaps(segments: seq<seq<Point>>, limit: real) {
    && (forall i :: 0 <= i < |segments| ==> Unbroken(segments[i], limit))
    && (forall i :: 0 < i < |segments| ==> CutAt(segments, i, limit))
  }

  predicate CutAt(segments: seq<seq<Point>>, i: nat, limit: real)
    requires 0 < i < |segments|
  {
    CutBetween(segments[i - 1], segments[i], limit)
  }

  ghost predicate Unbroken(s: seq<Point>, limit: real) {
    s != [] && forall k :: 0 < k < |s| ==> JoinedAt(s, k, limit)
  }

  predicate JoinedAt(s: seq<Point>, k: nat, limit: real)
    requires 0 < k < |s|
  {
    Gap(s[k - 1], s[k]) <= limit
  }

  predicate CutBetween(s: seq<Point>, t: seq<Point>, limit: real) {
    s != [] && t != [] && Gap(s[|s| - 1], t[0]) > limit
  }

  lemma Pushed(segments: seq<seq<Point>>, s: seq<Point>, limit: real)
    requires CutAtGaps(segments, limit) && Unbroken(s, limit)
    requires segments != [] ==> CutBetween(segments[|segments| - 1], s, limit)
    ensures CutAtGaps(segments + [s], limit)
    ensures Joined(segments + [s]) == Joined(segments) + s
  {
    var out := segments + [s];
    assert out[..|segments|] == segments;
    forall i | 0 < i < |out| ensures CutAt(out, i, limit) {
      if i < |segments| {
        assert CutAt(segments, i, limit);
      }
    }
  }

  function Above(limit: real): real -> bool {
    x => x > limit
  }

  /** The points split into segments: nothing lost or moved, one segment more than there are long gaps. */
  method Split(points: seq<Point>, limit: real) returns (out: seq<seq<Point>>)
    ensures Joined(out) == points
    ensures CutAtGaps(out, limit)
  {
    out := [];
    var current := [];
    ghost var done: seq<Point> := [];
    var i := 0;
    while i < |points|
      invariant 0 <= i <= |points| && done == points[..i]
      invariant i == 0 ==> current == [] && out == []
      invariant i > 0 ==> SoFar(out, current, done, limit)
    {
      var p := points[i];
      if i > 0 {
        assert done[|done| - 1] == points[i - 1];
        NextPoint(out, current, done, p, limit);
      }
      if i > 0 && p.time - points[i - 1].time > limit {
        out := out + [current];
        current := [];
      }
      current := current + [p];
      done := done + [p];
      i := i + 1;
    }
    assert done == points;
    if current != [] {
      Pushed(out, current, limit);
      out := out + [current];
    }
  }

  /** The loop after the points `done`: the segments closed so far and the one being filled. */
  ghost predicate SoFar(out: seq<seq<Point>>, current: seq<Point>, done: seq<Point>, limit: real) {
    && done != []
    && CutAtGaps(out, limit) && Unbroken(current, limit)
    && Joined(out) + current == done && current[|current| - 1] == done[|done| - 1]
    && (out != [] ==> CutBetween(out[|out| - 1], current, limit))
  }

  lemma NextPoint(out: seq<seq<Point>>, current: seq<Point>, done: seq<Point>, p: Point, limit: real)
    requires SoFar(out, current, done, limit)
    ensures if p.time - done[|done| - 1].time > limit
            then SoFar(out + [current], [p], done + [p], limit)
            else SoFar(out, current + [p], done + [p], limit)
  {
    if p.time - done[|done| - 1].time > limit {
      Pushed(out, current, limit);
    } else {
      assert (current + [p])[..|current|] == current;
      UnbrokenFront(current + [p], limit);
      assert Joined(out) + (current + [p]) == done + [p];
    }
  }

  lemma {:induction false} LongGapsOf(a: seq<Point>, b: seq<Point>, limit: real)
    requires a != [] && b != []
    ensures CountWhere(Deltas(a + b), Above(limit)) ==
            CountWhere(Deltas(a), Above(limit)) + CountWhere(Deltas(b), Above(limit))
            + if CutBetween(a, b, limit) then 1 else 0
  {
    var ab := a + b;
    assert ab[..|ab| - 1] == a + b[..|b| - 1];
    if |b| == 1 {
      assert a + b[..0] == a;
    } else {
      LongGapsOf(a, b[..|b| - 1], limit);
    }
  }

  lemma {:induction false} NoLongGapInside(s: seq<Point>, limit: real)
    requires Unbroken(s, limit)
    ensures CountWhere(Deltas(s), Above(limit)) == 0
  {
    if |s| <= 1 {
    } else {
      UnbrokenFront(s, limit);
      NoLongGapInside(s[..|s| - 1], limit);
    }
  }

  lemma UnbrokenFront(s: seq<Point>, limit: real)
    requires |s| > 1
    ensures Unbroken(s, limit) <==> Unbroken(s[..|s| - 1], limit) && JoinedAt(s, |s| - 1, limit)
  {
    var front := s[..|s| - 1];
    forall k | 0 < k < |front| ensures JoinedAt(front, k, limit) <==> JoinedAt(s, k, limit) {}
  }

  lemma FrontCut(segments: seq<seq<Point>>, limit: real)
    requires CutAtGaps(segments, limit) && segments != []
    ensures CutAtGaps(segments[..|segments| - 1], limit)
  {
    var front := segments[..|segments| - 1];
    forall i | 0 < i < |front| ensures CutAt(front, i, limit) {
      assert CutAt(segments, i, limit);
    }
  }

  /** A split that cuts exactly at the long gaps has one segment more than there are of them. */
  lemma {:induction false} SegmentCount(segments: seq<seq<Point>>, limit: real)
    requires CutAtGaps(segments, limit) && segments != []
    ensures |segments| == 1 + CountWhere(Deltas(Joined(segments)), Above(limit))
  {
    var n := |segments| - 1;
    var front, last := segments[..n], segments[n];
    NoLongGapInside(last, limit);
    if n == 0 {
      assert Joined(segments) == last;
    } else {
      assert CutAt(segments, n, limit);
      FrontCut(segments, limit);
      SegmentCount(front, limit);
      LongGapsOf(Joined(front), last, limit);
    }
  }

  /** The limit follows the cadence of the points, so they never fall apart: at most ⌈(n - 1) / 2⌉ segments. */
  method Segments(points: seq<Point>, binSeconds: real) returns (out: seq<seq<Point>>)
    ensures Joined(out) == points
    ensures CutAtGaps(out, GapLimit(points, binSeconds))
    ensures |points| >= 2 && binSeconds >= 0.0 ==> |out| <= |points| / 2
  {
    out := Split(points, GapLimit(points, binSeconds));
    if |points| >= 2 && binSeconds >= 0.0 {
      SegmentCount(out, GapLimit(points, binSeconds));
      FewSegments(points, binSeconds);
    }
  }

  /** Long gaps are a minority, so n points give no more than ⌈(n - 1) / 2⌉ segments. */
  lemma FewSegments(points: seq<Point>, binSeconds: real)
    requires |points| >= 2 && binSeconds >= 0.0
    ensures 1 + CountWhere(Deltas(points), Above(GapLimit(points, binSeconds))) <= |points| / 2
  {
    var d, limit := Deltas(points), GapLimit(points, binSeconds);
    var s, m := Sorted(d), |d| / 2;
    SortedIsSorted(d);
    CountSorted(d, Above(limit));
    assert limit >= MedianGap(points);
    CountRest(s, m + 1, Above(limit));
  }

  // ---------------------------------------------------------------- the trend window

  /** `Math.round` */
  function Round(x: real): int {
    (x + 0.5).Floor
  }

  function TrendWindow(n: nat): (w: nat)
    ensures w % 2 == 1 && 3 <= w <= 15
  {
    var r := Round(n as real * 0.05);
    var odd := if r % 2 == 0 then r + 1 else r;
    var atLeast := if odd < 3 then 3 else odd;
    if atLeast > 15 then 15 else atLeast
  }

  // ---------------------------------------------------------------- the verdict

  datatype Direction = NoDirection | AtMost | AtLeast  // null, 'max', 'min'

  datatype Verdict = Worsening | BelowThreshold | High | Frequent | SomePeaks | Irregular | Stable

  function Breaches(threshold: real, direction: Direction): real -> bool {
    v => if direction.AtMost? then v >= threshold else v <= threshold
  }

  function Breaching(v: seq<real>, threshold: Option<real>, direction: Direction): nat {
    if threshold.None? || direction.NoDirection? then 0
    else CountWhere(v, Breaches(threshold.value, direction))
  }

  function Spread(v: seq<real>): real {
    SpreadOf(Median(v), Quantile(v, 0.25), Quantile(v, 0.75))
  }

  function SpreadOf(median: real, q1: real, q3: real): real {
    if median > 0.0 then (q3 - q1) / median else 0.0
  }

  function Cut(n: nat): (cut: nat)
    ensures cut <= n
  {
    (n as real * 0.75).Floor
  }

  /** The last quarter against the rest, once there are twelve values. */
  predicate GotWorse(v: seq<real>, direction: Direction) {
    var cut := Cut(|v|);
    |v| >= 12 && Worse(Median(v[0..cut]), Median(v[cut..|v|]), direction)
  }

  predicate Worse(before: real, recent: real, direction: Direction) {
    before > 0.0 && if direction.AtLeast? then recent < before * 0.65 else recent > before * 1.35
  }

  function VerdictOf(v: seq<real>, threshold: Option<real>, direction: Direction): Verdict {
    var percent := if v == [] then 0.0
                   else Breaching(v, threshold, direction) as real / |v| as real * 100.0;
    if GotWorse(v, direction) then Worsening
    else if percent >= 50.0 then (if direction.AtLeast? then BelowThreshold else High)
    else if percent >= 10.0 then Frequent
    else if percent > 0.0 then SomePeaks
    else if Spread(v) > 0.4 then Irregular
    else Stable
  }

  function ScaledThreshold(threshold: Option<real>, c: real): Option<real> {
    if threshold.None? then None else Some(Product(threshold.value, c))
  }

  /** The verdict does not depend on the unit: scaling the values and the threshold leaves it as it is. */
  lemma VerdictHasNoUnit(v: seq<real>, threshold: Option<real>, direction: Direction, c: real)
    requires c > 0.0
    ensures VerdictOf(Times(v, c), ScaledThreshold(threshold, c), direction) == VerdictOf(v, threshold, direction)
  {
    if threshold.Some? && !direction.NoDirection? {
      BreachesScale(v, threshold.value, direction, c);
    }
    SpreadScales(v, c);
    GotWorseScales(v, direction, c);
  }

  lemma {:induction false} BreachesScale(v: seq<real>, threshold: real, direction: Direction, c: real)
    requires c > 0.0
    ensures CountWhere(Times(v, c), Breaches(Product(threshold, c), direction)) ==
            CountWhere(v, Breaches(threshold, direction))
  {
    if v == [] {
    } else {
      var n := |v| - 1;
      assert Times(v, c)[..n] == Times(v[..n], c);
      BreachesScale(v[..n], threshold, direction, c);
    }
  }

  lemma SpreadScales(v: seq<real>, c: real)
    requires c > 0.0
    ensures Spread(Times(v, c)) == Spread(v)
  {
    MedianScales(v, c);
    QuantileScales(v, 0.25, c);
    QuantileScales(v, 0.75, c);
    SpreadOfScales(Median(v), Quantile(v, 0.25), Quantile(v, 0.75), c);
  }

  lemma SpreadOfScales(median: real, q1: real, q3: real, c: real)
    requires c > 0.0
    ensures SpreadOf(Product(median, c), Product(q1, c), Product(q3, c)) == SpreadOf(median, q1, q3)
  {
    if median > 0.0 {
      assert q3 * c - q1 * c == (q3 - q1) * c;
    }
  }

  lemma PartScales(v: seq<real>, from: nat, to: nat, c: real)
    requires c > 0.0 && from <= to <= |v|
    ensures Median(Times(v, c)[from..to]) == Product(Median(v[from..to]), c)
  {
    TimesSlice(v, from, to, c);
    MedianScales(v[from..to], c);
  }

  lemma TimesSlice(v: seq<real>, from: nat, to: nat, c: real)
    requires from <= to <= |v|
    ensures Times(v, c)[from..to] == Times(v[from..to], c)
  {
  }

  lemma GotWorseScales(v: seq<real>, direction: Direction, c: real)
    requires c > 0.0
    ensures GotWorse(Times(v, c), direction) == GotWorse(v, direction)
  {
    var cut := Cut(|v|);
    PartScales(v, 0, cut, c);
    PartScales(v, cut, |v|, c);
    WorseScales(Median(v[0..cut]), Median(v[cut..|v|]), direction, c);
  }

  lemma WorseScales(before: real, recent: real, direction: Direction, c: real)
    requires c > 0.0
    ensures Worse(Product(before, c), Product(recent, c), direction) == Worse(before, recent, direction)
  {
  }

  // ---------------------------------------------------------------- one spike and the verdict

  /** `n` values at `level`, but perhaps the one at `j`. */
  ghost predicate LevelBut(v: seq<real>, n: nat, j: int, level: real) {
    |v| == n && forall k :: 0 <= k < n && k != j ==> v[k] == level
  }

  lemma {:induction false} OneOutside(v: seq<real>, j: int, level: real)
    requires LevelBut(v, |v|, j, level)
    ensures Outside(v, level, level) <= 1
    ensures !(0 <= j < |v|) ==> Outside(v, level, level) == 0
  {
    if v == [] {
    } else {
      OneOutside(v[..|v| - 1], j, level);
    }
  }

  lemma MedianIsLevel(v: seq<real>, j: int, level: real)
    requires |v| >= 3 && LevelBut(v, |v|, j, level)
    ensures Median(v) == level
  {
    OneOutside(v, j, level);
    MedianInRange(v, level, level);
  }

  lemma QuantileIsLevel(v: seq<real>, j: int, level: real, q: real)
    requires |v| >= 5 && LevelBut(v, |v|, j, level) && 0.25 <= q <= 0.75
    ensures Quantile(v, q) == level
  {
    OneOutside(v, j, level);
    var n := |v| as real - 1.0;
    Rises(n, 0.25, q);
    Rises(n, q, 0.75);
    QuantileInRange(v, q, level, level);
  }

  lemma NeverWorse(v: seq<real>, j: int, level: real, direction: Direction)
    requires LevelBut(v, |v|, j, level)
    ensures !GotWorse(v, direction)
  {
    if |v| >= 12 {
      var cut := Cut(|v|);
      assert 3 <= cut <= |v| - 3;
      MedianIsLevel(v[0..cut], j, level);
      MedianIsLevel(v[cut..|v|], j - cut, level);
    }
  }

  /** The lengths at which one spike cannot change the verdict on a level series. */
  predicate SpikeProof(n: nat, level: real) {
    n <= 1 || n >= 5 || (level <= 0.0 && n != 2)
  }

  lemma LoneSpikeIsStable(v: seq<real>, n: nat, j: nat, level: real, direction: Direction)
    requires LevelBut(v, n, j, level) && SpikeProof(n, level)
    ensures VerdictOf(v, None, direction) == Stable
  {
    NeverWorse(v, j, level, direction);
    if n >= 3 {
      MedianIsLevel(v, j, level);
    }
    if n >= 5 {
      QuantileIsLevel(v, j, level, 0.25);
      QuantileIsLevel(v, j, level, 0.75);
    }
  }

  /** A spike in the last place, twenty times the level or high above zero. */
  function LastSpike(n: nat, level: real): (v: seq<real>)
    requires n > 0
    ensures LevelBut(v, n, n - 1, level) && v[n - 1] > level
    ensures level > 0.0 ==> v[n - 1] == 20.0 * level
  {
    seq(n, k => if k < n - 1 then level else if level > 0.0 then 20.0 * level else 1.0 - 2.0 * level)
  }

  /** Two points with a spike in the last place, or three or four with a positive level. */
  lemma ShortSeriesIsIrregular(n: nat, level: real, direction: Direction)
    requires !SpikeProof(n, level)
    ensures VerdictOf(LastSpike(n, level), None, direction) == Irregular
  {
    var v := LastSpike(n, level);
    SortingSortedChangesNothing(v);
    ShortSpread(v, n, level);
  }

  lemma ShortSpread(v: seq<real>, n: nat, level: real)
    requires !SpikeProof(n, level) && v == LastSpike(n, level) && Sorted(v) == v
    ensures Spread(v) > 0.4
  {
    var x := v[n - 1];
    var p, q := (n - 1) as real * 0.25, (n - 1) as real * 0.75;
    assert Rank(n, 0.25) == p && Rank(n, 0.75) == q;
    if n == 2 {
      assert p.Floor == 0 && q.Floor == 0;
      assert Median(v) == (level + x) / 2.0;
      RatioAbove((x - level) * 0.5, (level + x) / 2.0);
    } else {
      assert p.Floor == 0 && q.Floor == n - 2;
      assert Median(v) == level;
      RatioAbove((x - level) * (q - (n - 2) as real), level);
    }
  }

  lemma RatioAbove(a: real, b: real)
    requires b > 0.0 && a > 0.4 * b
    ensures a / b > 0.4
  {
  }

  /** One spike never changes the verdict on a level series, exactly at those lengths. */
  lemma OneSpikeIsStableExactly(n: nat, level: real, direction: Direction)
    ensures (forall v, j: nat :: j < n && LevelBut(v, n, j, level) ==> VerdictOf(v, None, direction) == Stable) <==>
            SpikeProof(n, level)
  {
    if SpikeProof(n, level) {
      forall v, j: nat | j < n && LevelBut(v, n, j, level) ensures VerdictOf(v, None, direction) == Stable {
        LoneSpikeIsStable(v, n, j, level, direction);
      }
    } else {
      ShortSeriesIsIrregular(n, level, direction);
      assert LevelBut(LastSpike(n, level), n, n - 1, level);
    }
  }
}
