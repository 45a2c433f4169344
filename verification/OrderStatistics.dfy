/**
 The robust statistics of the history graphs: median, quantile and rolling median over real values, and
 how many bad values each of them can ignore.
 */
module OrderStatistics {
  import opened Order
  import opened Reals

  predicate Le(a: real, b: real) {
    a <= b
  }

  function Sorted(v: seq<real>): (s: seq<real>)
    ensures |s| == |v|
  {
    Sort(v, Le)
  }

  function Median(v: seq<real>): real {
    if v == [] then 0.0
    else
      var s, m := Sorted(v), |v| / 2;
      if |v| % 2 == 1 then s[m] else (s[m - 1] + s[m]) / 2.0
  }

  /** Linear interpolation at `pos` between the elements around it. */
  function At(s: seq<real>, pos: real): real
    requires 0.0 <= pos <= |s| as real - 1.0
  {
    var lo := pos.Floor;
    var next := if lo + 1 < |s| then lo + 1 else |s| - 1;
    Interpolate(s[lo], s[next] - s[lo], pos - lo as real)
  }

  function Interpolate(a: real, d: real, f: real): real {
    a + d * f
  }

  function Rank(n: nat, q: real): (pos: real)
    requires 0.0 <= q <= 1.0 && n > 0
    ensures 0.0 <= pos <= n as real - 1.0
  {
    Scaled(n as real - 1.0, q);
    Product(n as real - 1.0, q)
  }

  lemma Scaled(a: real, q: real)
    requires 0.0 <= q <= 1.0 && a >= 0.0
    ensures 0.0 <= Product(a, q) <= a
  {
    assert a * (1.0 - q) >= 0.0;
  }

  lemma Rises(d: real, x: real, y: real)
    requires d >= 0.0 && x <= y
    ensures Product(d, x) <= Product(d, y)
  {
    assert d * (y - x) >= 0.0;
  }

  function Quantile(v: seq<real>, q: real): real
    requires 0.0 <= q <= 1.0
  {
    if v == [] then 0.0 else At(Sorted(v), Rank(|v|, q))
  }

  function First(i: nat, half: nat): nat {
    if i < half then 0 else i - half
  }

  function End(n: nat, i: nat, half: nat): (to: nat)
    requires i < n
    ensures First(i, half) < to <= n
  {
    if i + half + 1 < n then i + half + 1 else n
  }

  function Window<T>(v: seq<T>, i: nat, half: nat): seq<T>
    requires i < |v|
  {
    v[First(i, half)..End(|v|, i, half)]
  }

  function RollingMedian(v: seq<real>, window: nat): (r: seq<real>)
    ensures |r| == |v|
  {
    if |v| < 3 || window < 3 then v
    else seq(|v|, i requires 0 <= i < |v| => Median(Window(v, i, window / 2)))
  }

  // ---------------------------------------------------------------- counting and sorting

  function CountWhere(v: seq<real>, p: real -> bool): nat {
    if v == [] then 0 else CountWhere(v[..|v| - 1], p) + if p(v[|v| - 1]) then 1 else 0
  }

  lemma {:induction false} CountInsert(s: seq<real>, x: real, p: real -> bool)
    ensures CountWhere(Insert(s, x, Le), p) == CountWhere(s, p) + if p(x) then 1 else 0
  {
    if s != [] && !Le(s[|s| - 1], x) {
      CountInsert(s[..|s| - 1], x, p);
    }
  }

  lemma {:induction false} CountSorted(v: seq<real>, p: real -> bool)
    ensures CountWhere(Sorted(v), p) == CountWhere(v, p)
  {
    if v == [] {
    } else {
      CountSorted(v[..|v| - 1], p);
      CountInsert(Sorted(v[..|v| - 1]), v[|v| - 1], p);
    }
  }

  lemma {:induction false} CountAdds(a: seq<real>, b: seq<real>, p: real -> bool)
    ensures CountWhere(a + b, p) == CountWhere(a, p) + CountWhere(b, p)
  {
    if b == [] {
      assert a + b == a;
    } else {
      CountAdds(a, b[..|b| - 1], p);
      assert (a + b)[..|a + b| - 1] == a + b[..|b| - 1];
    }
  }

  lemma {:induction false} CountBounds(v: seq<real>, p: real -> bool)
    ensures CountWhere(v, p) <= |v|
    ensures (forall k :: 0 <= k < |v| ==> !p(v[k])) ==> CountWhere(v, p) == 0
    ensures (forall k :: 0 <= k < |v| ==> p(v[k])) ==> CountWhere(v, p) == |v|
  {
    if v == [] {
    } else {
      CountBounds(v[..|v| - 1], p);
    }
  }

  lemma SortedIsSorted(v: seq<real>)
    ensures forall i, j :: 0 <= i <= j < |v| ==> Sorted(v)[i] <= Sorted(v)[j]
    ensures multiset(Sorted(v)) == multiset(v)
  {
    SortSorted(v, Le);
    SortContents(v, Le);
    assert SortedBy(Sorted(v), Le);
    forall i, j | 0 <= i <= j < |v| ensures Sorted(v)[i] <= Sorted(v)[j] {
      assert i < j ==> Le(Sorted(v)[i], Sorted(v)[j]);
    }
  }

  function In(lo: real, hi: real): real -> bool {
    x => lo <= x <= hi
  }

  /** How many values lie outside [lo, hi]. */
  function Outside(v: seq<real>, lo: real, hi: real): nat {
    CountBounds(v, In(lo, hi));
    |v| - CountWhere(v, In(lo, hi))
  }

  /** The k-th smallest value stays in [lo, hi] when no more than k values, at either end, are outside. */
  lemma RankInRange(v: seq<real>, lo: real, hi: real, k: nat)
    requires Outside(v, lo, hi) <= k < |v| - Outside(v, lo, hi)
    ensures lo <= Sorted(v)[k] <= hi
  {
    SortedIsSorted(v);
    CountSorted(v, In(lo, hi));
    RankInSorted(Sorted(v), lo, hi, k);
  }

  lemma RankInSorted(s: seq<real>, lo: real, hi: real, k: nat)
    requires NonDecreasing(s) && |s| - CountWhere(s, In(lo, hi)) <= k < CountWhere(s, In(lo, hi)) && k < |s|
    ensures lo <= s[k] <= hi
  {
    if s[k] < lo {
      CountRest(s, k + 1, In(lo, hi));
    }
    if s[k] > hi {
      CountFront(s, k, In(lo, hi));
    }
  }

  lemma CountRest(v: seq<real>, k: nat, p: real -> bool)
    requires k <= |v| && forall i :: 0 <= i < k ==> !p(v[i])
    ensures CountWhere(v, p) <= |v| - k
  {
    assert v == v[..k] + v[k..];
    CountAdds(v[..k], v[k..], p);
    CountBounds(v[..k], p);
    CountBounds(v[k..], p);
  }

  lemma CountFront(v: seq<real>, k: nat, p: real -> bool)
    requires k <= |v| && forall i :: k <= i < |v| ==> !p(v[i])
    ensures CountWhere(v, p) <= k
  {
    assert v == v[..k] + v[k..];
    CountAdds(v[..k], v[k..], p);
    CountBounds(v[..k], p);
    CountBounds(v[k..], p);
  }

  /** A median stays in any range that holds more than half of the values. */
  lemma MedianInRange(v: seq<real>, lo: real, hi: real)
    requires 2 * Outside(v, lo, hi) < |v|
    ensures lo <= Median(v) <= hi
  {
    RankInRange(v, lo, hi, |v| / 2);
    if |v| % 2 == 0 {
      RankInRange(v, lo, hi, |v| / 2 - 1);
    }
  }

  /** A quantile stays in any range that leaves out no more values than lie below its rank, nor above. */
  lemma QuantileInRange(v: seq<real>, q: real, lo: real, hi: real)
    requires 0.0 <= q <= 1.0 && v != []
    requires Outside(v, lo, hi) as real <= Rank(|v|, q) <= (|v| - 1 - Outside(v, lo, hi)) as real
    ensures lo <= Quantile(v, q) <= hi
  {
    var pos, out := Rank(|v|, q), Outside(v, lo, hi);
    var k := pos.Floor;
    RankInRange(v, lo, hi, k);
    if pos > k as real {
      RankInRange(v, lo, hi, k + 1);
    }
    AtInRange(Sorted(v), pos, k, lo, hi);
  }

  lemma AtInRange(s: seq<real>, pos: real, k: nat, lo: real, hi: real)
    requires 0.0 <= pos <= |s| as real - 1.0 && k == pos.Floor
    requires lo <= s[k] <= hi && (pos > k as real ==> lo <= s[k + 1] <= hi)
    ensures lo <= At(s, pos) <= hi
  {
    if pos > k as real {
      assert s[k] + (s[k + 1] - s[k]) == s[k + 1];
      StaysBetween(s[k], s[k + 1] - s[k], pos - k as real, lo, hi);
      assert At(s, pos) == Interpolate(s[k], s[k + 1] - s[k], pos - k as real);
    } else {
      var next := if k + 1 < |s| then k + 1 else |s| - 1;
      NoStep(s[k], s[next] - s[k]);
      assert At(s, pos) == Interpolate(s[k], s[next] - s[k], 0.0);
    }
  }

  lemma NoStep(a: real, d: real)
    ensures Interpolate(a, d, 0.0) == a
  {
  }

  lemma StaysBetween(a: real, d: real, f: real, lo: real, hi: real)
    requires lo <= a <= hi && lo <= a + d <= hi && 0.0 <= f <= 1.0
    ensures lo <= Interpolate(a, d, f) <= hi
  {
    if d >= 0.0 {
      Scaled(d, f);
    } else {
      Scaled(-d, f);
      var e := -d * f;
      assert d * f == -e;
      assert 0.0 <= e <= -d;
    }
  }

  // ---------------------------------------------------------------- quantiles

  lemma HalfQuantileIsMedian(v: seq<real>)
    ensures Quantile(v, 0.5) == Median(v)
  {
    if v != [] {
      var s, m, pos := Sorted(v), |v| / 2, Rank(|v|, 0.5);
      if |v| % 2 == 1 {
        assert |v| == 2 * m + 1 && pos == m as real;
      } else {
        assert |v| == 2 * m && pos == (m - 1) as real + 0.5;
        assert pos.Floor == m - 1;
      }
    }
  }

  lemma QuantileMonotone(v: seq<real>, q: real, r: real)
    requires 0.0 <= q <= r <= 1.0
    ensures Quantile(v, q) <= Quantile(v, r)
  {
    if v != [] {
      SortedIsSorted(v);
      Rises(|v| as real - 1.0, q, r);
      AtMonotone(Sorted(v), Rank(|v|, q), Rank(|v|, r));
    }
  }

  lemma AtMonotone(s: seq<real>, a: real, b: real)
    requires NonDecreasing(s) && 0.0 <= a <= b <= |s| as real - 1.0
    ensures At(s, a) <= At(s, b)
  {
    var i, j := a.Floor, b.Floor;
    if i == j {
      if i + 1 < |s| {
        Rises(s[i + 1] - s[i], a - i as real, b - i as real);
      }
    } else {
      AtInCell(s, a, i);
      AtInCell(s, b, j);
      assert s[i + 1] <= s[j];
    }
  }

  lemma AtInCell(s: seq<real>, a: real, i: nat)
    requires NonDecreasing(s) && 0.0 <= a <= |s| as real - 1.0 && i == a.Floor
    ensures s[i] <= At(s, a)
    ensures i + 1 < |s| ==> At(s, a) <= s[i + 1]
  {
    if i + 1 < |s| {
      StaysBetween(s[i], s[i + 1] - s[i], a - i as real, s[i], s[i + 1]);
    }
  }

  // ---------------------------------------------------------------- the rolling median

  function CountTrue(t: seq<bool>): nat {
    if t == [] then 0 else CountTrue(t[..|t| - 1]) + if t[|t| - 1] then 1 else 0
  }

  lemma {:induction false} TrustedAreCounted(v: seq<real>, trusted: seq<bool>, p: real -> bool)
    requires |v| == |trusted| && forall k :: 0 <= k < |v| && trusted[k] ==> p(v[k])
    ensures CountTrue(trusted) <= CountWhere(v, p)
  {
    if v == [] {
    } else {
      TrustedAreCounted(v[..|v| - 1], trusted[..|v| - 1], p);
    }
  }

  /**
   Where more than half of the window is trusted, the trend stays between the smallest and the largest
   trusted value of that window, whatever the other values are; truncated windows included.
   */
  lemma TrendIgnoresMinority(v: seq<real>, window: nat, i: nat, trusted: seq<bool>, lo: real, hi: real)
    requires |v| >= 3 && window >= 3 && i < |v| && |trusted| == |v|
    requires var w, t := Window(v, i, window / 2), Window(trusted, i, window / 2);
             2 * CountTrue(t) > |w| && forall k :: 0 <= k < |w| && t[k] ==> lo <= w[k] <= hi
    ensures lo <= RollingMedian(v, window)[i] <= hi
  {
    var w, t := Window(v, i, window / 2), Window(trusted, i, window / 2);
    TrustedAreCounted(w, t, In(lo, hi));
    MedianInRange(w, lo, hi);
  }

  lemma {:induction false} OneUntrusted(t: seq<bool>, j: int)
    requires forall k :: 0 <= k < |t| && k != j ==> t[k]
    ensures CountTrue(t) >= |t| - 1
    ensures !(0 <= j < |t|) ==> CountTrue(t) == |t|
  {
    if t == [] {
    } else {
      OneUntrusted(t[..|t| - 1], j);
    }
  }

  /** All `n` values lie in [lo, hi], but perhaps the one at `j`. */
  ghost predicate SpikedAt(v: seq<real>, n: nat, j: nat, lo: real, hi: real) {
    |v| == n && forall k :: 0 <= k < n && k != j ==> lo <= v[k] <= hi
  }

  /** The two-value window at an end of the series under a window of 3, or no trend at all. */
  predicate SpikeReaches(n: nat, window: nat, i: nat, j: nat) {
    if n < 3 || window < 3 then i == j
    else window == 3 && (i == 0 || i == n - 1) && i - 1 <= j <= i + 1
  }

  lemma LoneSpikeHidden(v: seq<real>, n: nat, window: nat, i: nat, j: nat, lo: real, hi: real)
    requires SpikedAt(v, n, j, lo, hi) && i < n && j < n && !SpikeReaches(n, window, i, j)
    ensures lo <= RollingMedian(v, window)[i] <= hi
  {
    if n >= 3 && window >= 3 {
      var half := window / 2;
      var trusted := seq(|v|, k => k != j);
      var from, to := First(i, half), End(|v|, i, half);
      var t := Window(trusted, i, half);
      assert forall k :: 0 <= k < |t| ==> t[k] == (from + k != j);
      OneUntrusted(t, j - from);
      assert |t| == to - from;
      var w := Window(v, i, half);
      assert forall k :: 0 <= k < |w| ==> w[k] == v[from + k];
      TrendIgnoresMinority(v, window, i, trusted, lo, hi);
    }
  }

  lemma MedianOfTwo(a: real, b: real)
    ensures Median([a, b]) == (a + b) / 2.0
  {
    assert [a, b][..1] == [a] && [a][..0] == [];
    assert Sorted([a]) == [a];
    assert Sorted([a, b]) == Insert([a], b, Le);
    assert Insert([], b, Le) == [b];
  }

  /** Nothing but `lo`, and a spike above every bound at `j`. */
  function Spike(n: nat, j: nat, lo: real, hi: real): (v: seq<real>)
    ensures lo <= hi ==> SpikedAt(v, n, j, lo, hi)
  {
    seq(n, k => if k == j then 2.0 * hi - lo + 1.0 else lo)
  }

  lemma SpikeShows(n: nat, window: nat, i: nat, j: nat, lo: real, hi: real)
    requires i < n && j < n && lo <= hi && SpikeReaches(n, window, i, j)
    ensures RollingMedian(Spike(n, j, lo, hi), window)[i] > hi
  {
    var v := Spike(n, j, lo, hi);
    if n >= 3 && window >= 3 {
      var from := First(i, 1);
      assert from <= j <= from + 1;
      assert Window(v, i, 1) == [v[from], v[from + 1]];
      MedianOfTwo(v[from], v[from + 1]);
      assert v[from] + v[from + 1] == 2.0 * hi + 1.0;
    }
  }

  /**
   "The median ignores a lone spike": whatever the spike, the trend at `i` stays between the other values,
   exactly when the spike does not reach it.
   */
  lemma SpikeIgnoredExactly(n: nat, window: nat, i: nat, j: nat, lo: real, hi: real)
    requires i < n && j < n && lo <= hi
    ensures (forall v :: SpikedAt(v, n, j, lo, hi) ==> lo <= RollingMedian(v, window)[i] <= hi) <==>
            !SpikeReaches(n, window, i, j)
  {
    if SpikeReaches(n, window, i, j) {
      SpikeShows(n, window, i, j, lo, hi);
      assert SpikedAt(Spike(n, j, lo, hi), n, j, lo, hi);
    } else {
      forall v | SpikedAt(v, n, j, lo, hi) ensures lo <= RollingMedian(v, window)[i] <= hi {
        LoneSpikeHidden(v, n, window, i, j, lo, hi);
      }
    }
  }

  predicate NonDecreasing(v: seq<real>) {
    forall i, j :: 0 <= i <= j < |v| ==> v[i] <= v[j]
  }

  lemma {:induction false} SortingSortedChangesNothing(v: seq<real>)
    requires NonDecreasing(v)
    ensures Sorted(v) == v
  {
    if v == [] {
    } else {
      var rest := v[..|v| - 1];
      SortingSortedChangesNothing(rest);
      assert v == rest + [v[|v| - 1]];
    }
  }

  lemma MedianOfSortedSlice(v: seq<real>, from: nat, to: nat)
    requires NonDecreasing(v) && from < to <= |v|
    ensures Median(v[from..to]) == Middle(v, from + to)
  {
    SortingSortedChangesNothing(v[from..to]);
  }

  /** A rising series has a rising trend, equal to it wherever an odd window is whole. */
  lemma TrendOfRisingSeries(v: seq<real>, window: nat)
    requires NonDecreasing(v) && window % 2 == 1
    ensures NonDecreasing(RollingMedian(v, window))
    ensures forall i :: window / 2 <= i < |v| - window / 2 ==> RollingMedian(v, window)[i] == v[i]
  {
    if |v| >= 3 && window >= 3 {
      var r, half := RollingMedian(v, window), window / 2;
      forall i, j | 0 <= i <= j < |v| ensures r[i] <= r[j] {
        TrendAt(v, window, i);
        TrendAt(v, window, j);
      }
      forall i | half <= i < |v| - half ensures r[i] == v[i] {
        TrendAt(v, window, i);
      }
    }
  }

  lemma TrendAt(v: seq<real>, window: nat, i: nat)
    requires NonDecreasing(v) && i < |v| && |v| >= 3 && window >= 3
    ensures RollingMedian(v, window)[i] == Middle(v, First(i, window / 2) + End(|v|, i, window / 2))
    ensures window % 2 == 1 && window / 2 <= i < |v| - window / 2 ==> RollingMedian(v, window)[i] == v[i]
  {
    MedianOfSortedSlice(v, First(i, window / 2), End(|v|, i, window / 2));
  }

  /** The median of a sorted slice whose bounds add up to `sum`. */
  function Middle(v: seq<real>, sum: nat): real
    requires 1 <= sum < 2 * |v|
  {
    (v[(sum - 1) / 2] + v[sum / 2]) / 2.0
  }

  // ---------------------------------------------------------------- scaling

  function Times(v: seq<real>, c: real): (r: seq<real>)
    ensures |r| == |v| && forall i :: 0 <= i < |v| ==> r[i] == Product(v[i], c)
  {
    seq(|v|, i requires 0 <= i < |v| => Product(v[i], c))
  }

  lemma {:induction false} InsertScales(s: seq<real>, x: real, c: real)
    requires c > 0.0
    ensures Insert(Times(s, c), Product(x, c), Le) == Times(Insert(s, x, Le), c)
  {
    if s == [] {
    } else {
      var n := |s| - 1;
      assert Le(Product(s[n], c), Product(x, c)) <==> Le(s[n], x);
      assert Times(s, c)[..n] == Times(s[..n], c);
      if !Le(s[n], x) {
        InsertScales(s[..n], x, c);
      }
    }
  }

  lemma {:induction false} SortedScales(v: seq<real>, c: real)
    requires c > 0.0
    ensures Sorted(Times(v, c)) == Times(Sorted(v), c)
  {
    if v == [] {
    } else {
      var n := |v| - 1;
      assert Times(v, c)[..n] == Times(v[..n], c);
      SortedScales(v[..n], c);
      InsertScales(Sorted(v[..n]), v[n], c);
    }
  }

  lemma MedianScales(v: seq<real>, c: real)
    requires c > 0.0
    ensures Median(Times(v, c)) == Product(Median(v), c)
  {
    SortedScales(v, c);
  }

  lemma QuantileScales(v: seq<real>, q: real, c: real)
    requires c > 0.0 && 0.0 <= q <= 1.0
    ensures Quantile(Times(v, c), q) == Product(Quantile(v, q), c)
  {
    if v != [] {
      SortedScales(v, c);
      var s, pos := Sorted(v), Rank(|v|, q);
      var lo := pos.Floor;
      var next := if lo + 1 < |s| then lo + 1 else |s| - 1;
      var a, b, f := s[lo], s[next], pos - lo as real;
      assert (b * c - a * c) * f == ((b - a) * f) * c;
    }
  }
}
