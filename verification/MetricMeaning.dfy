/**
 What the texts and sizes of `MetricHistory` mean, by counts, medians and distances: which verdict a series
 gets, how far apart two points may be, and how wide the trend is.
 */
module MetricMeaning {
  import opened Wrappers
  import opened OrderStatistics
  import opened MetricHistory

  // ---------------------------------------------------------------- the verdict

  /** The places whose value is on the wrong side of the threshold, the threshold itself included. */
  function WrongSide(v: seq<real>, threshold: Option<real>, direction: Direction): set<int> {
    set i | 0 <= i < |v| && threshold.Some? &&
            ((direction.AtMost? && v[i] >= threshold.value) || (direction.AtLeast? && v[i] <= threshold.value))
  }

  lemma {:induction false} WrongSideIsCounted(v: seq<real>, threshold: Option<real>, direction: Direction)
    ensures Breaching(v, threshold, direction) == |WrongSide(v, threshold, direction)|
  {
    if v == [] || threshold.None? || direction.NoDirection? {
      assert WrongSide(v, threshold, direction) == {};
    } else {
      var n := |v| - 1;
      WrongSideIsCounted(v[..n], threshold, direction);
      var before := WrongSide(v[..n], threshold, direction);
      if Breaches(threshold.value, direction)(v[n]) {
        assert WrongSide(v, threshold, direction) == before + {n};
      } else {
        assert WrongSide(v, threshold, direction) == before;
      }
    }
  }

  /** Of twelve values or more, the median of the last quarter is more than 35 % worse than that of the rest. */
  predicate LastQuarterWorse(v: seq<real>, direction: Direction) {
    |v| >= 12 &&
    var before, recent := Median(v[..3 * |v| / 4]), Median(v[3 * |v| / 4..]);
    before > 0.0 &&
    match direction
    case AtLeast => recent < before * 0.65
    case _ => recent > before * 1.35
  }

  lemma QuarterCut(n: nat)
    ensures Cut(n) == 3 * n / 4
  {
    assert n as real * 0.75 == (3 * n) as real / 4.0;
    var q := 3 * n / 4;
    assert q as real <= (3 * n) as real / 4.0 < (q + 1) as real;
  }

  /** A share of `n` in percent reaches `p` exactly when the counts say so. */
  lemma ShareReaches(b: nat, n: nat, p: nat)
    requires n > 0
    ensures b as real / n as real * 100.0 >= p as real <==> 100 * b >= p * n
    ensures b as real / n as real * 100.0 > 0.0 <==> b > 0
  {
    var x, y := b as real, n as real;
    var share := x / y;
    assert share * y == x;
    assert (100 * b) as real == 100.0 * x && (p * n) as real == p as real * y;
    assert 100.0 * x == share * 100.0 * y;
    if share * 100.0 >= p as real {
      assert share * 100.0 * y >= p as real * y;
    } else {
      assert share * 100.0 * y < p as real * y;
    }
  }

  /**
   The text by what it tells: recent worsening first; then the share of values on the wrong side, half, a
   tenth or any; then a spread of the middle half above 40 % of a positive median; otherwise stable.
   */
  lemma VerdictMeans(v: seq<real>, threshold: Option<real>, direction: Direction)
    ensures var bad, n := |WrongSide(v, threshold, direction)|, |v|;
            VerdictOf(v, threshold, direction) ==
            if LastQuarterWorse(v, direction) then Worsening
            else if bad > 0 && 2 * bad >= n then (if direction.AtLeast? then BelowThreshold else High)
            else if bad > 0 && 10 * bad >= n then Frequent
            else if bad > 0 then SomePeaks
            else if Median(v) > 0.0 && Quantile(v, 0.75) - Quantile(v, 0.25) > Median(v) * 0.4 then Irregular
            else Stable
  {
    WrongSideIsCounted(v, threshold, direction);
    QuarterCut(|v|);
    assert v[0..Cut(|v|)] == v[..3 * |v| / 4] && v[Cut(|v|)..|v|] == v[3 * |v| / 4..];
    assert GotWorse(v, direction) <==> LastQuarterWorse(v, direction);
    if v != [] {
      var bad := |WrongSide(v, threshold, direction)|;
      ShareReaches(bad, |v|, 50);
      ShareReaches(bad, |v|, 10);
    } else {
      assert WrongSide(v, threshold, direction) == {};
    }
    SpreadExceeds(Quantile(v, 0.75) - Quantile(v, 0.25), Median(v));
  }

  lemma SpreadExceeds(d: real, m: real)
    ensures (if m > 0.0 then d / m else 0.0) > 0.4 <==> m > 0.0 && d > m * 0.4
  {
    if m > 0.0 {
      var r := d / m;
      assert r * m == d;
      if r > 0.4 {
        assert (r - 0.4) * m > 0.0;
      } else {
        assert (0.4 - r) * m >= 0.0;
      }
    }
  }

  // ---------------------------------------------------------------- the gap limit

  lemma {:induction false} DeltasAre(points: seq<Point>, i: nat)
    requires i + 1 < |points|
    ensures i < |Deltas(points)| && Deltas(points)[i] == points[i + 1].time - points[i].time
  {
    var front := points[..|points| - 1];
    if i + 1 < |points| - 1 {
      DeltasAre(front, i);
      assert front[i] == points[i] && front[i + 1] == points[i + 1];
    }
  }

  function Over(x: real): real -> bool {
    y => y > x
  }

  function Under(x: real): real -> bool {
    y => y < x
  }

  /** One of the gaps, with at most half of them below it and fewer than half above. */
  lemma MedianGapIsMiddle(points: seq<Point>)
    requires |points| >= 2
    ensures var d, m := Deltas(points), MedianGap(points);
            m in d && 2 * CountWhere(d, Under(m)) <= |d| && 2 * CountWhere(d, Over(m)) < |d|
  {
    var d := Deltas(points);
    var s, k := Sorted(d), |d| / 2;
    SortedIsSorted(d);
    assert s[k] in multiset(s);
    CountSorted(d, Under(s[k]));
    CountSorted(d, Over(s[k]));
    CountFront(s, k, Under(s[k]));
    CountRest(s, k + 1, Over(s[k]));
  }

  /** Two points are joined up to two bins, or two and a half usual gaps where that is more; times in milliseconds. */
  lemma GapLimitMeans(points: seq<Point>, binSeconds: real)
    ensures var limit, bins := GapLimit(points, binSeconds), 2000.0 * binSeconds;
            var usual := 2.5 * (if |points| < 2 then 0.0 else MedianGap(points));
            limit == if usual > bins then usual else bins
  {
    assert |points| < 2 ==> Deltas(points) == [];
  }

  // ---------------------------------------------------------------- the trend window

  /** Odd and from 3 to 15; between these, less than half a point below 5 % of the points and at most 1.5 above. */
  lemma TrendWindowMeans(n: nat)
    ensures var w, share := TrendWindow(n), n as real / 20.0;
            && w % 2 == 1 && 3 <= w <= 15
            && (w > 3 ==> w as real - 1.5 <= share)
            && (w < 15 ==> share < w as real + 0.5)
  {
    var r := Round(n as real * 0.05);
    assert r as real <= n as real * 0.05 + 0.5 < r as real + 1.0;
  }
}
