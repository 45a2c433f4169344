/**
 What the episodes of `Episodes` mean: which incidents share one, when they are disjoint, what their
 summed duration measures, and how it moves with the merge gap.
 */
module EpisodeMeaning {
  import opened Order
  import opened Episodes

  // ---------------------------------------------------------------- one pass, row by row

  lemma InitPrefix(b: seq<Span>, i: nat)
    requires i < |b| - 1
    ensures Init(b)[..i + 1] == b[..i + 1]
  {
  }

  /** The effect of one more row on a list of episodes. */
  function Extend(eps: seq<Span>, e: Span, opens: bool): (r: seq<Span>)
    ensures |r| == if eps == [] || opens then |eps| + 1 else |eps|
    ensures r != [] && Last(r).hi >= e.hi
  {
    if eps == [] || opens then eps + [e]
    else Init(eps) + [Span(Last(eps).lo, Max(Last(eps).hi, e.hi))]
  }

  lemma NewGroup(b: seq<Span>, gap: int)
    requires b != [] && IsNew(b, gap)
    ensures GroupRows(b, gap, Grp(b, gap)) == [Last(b)]
  {
    GroupNonEmpty(Init(b), gap, Grp(b, gap));
  }

  lemma {:induction false} EarlierEpisodesKept(b: seq<Span>, gap: int, n: nat)
    requires b != [] && n < GroupCount(b, gap)
    ensures n <= GroupCount(Init(b), gap) && EpisodesUpTo(b, gap, n) == EpisodesUpTo(Init(b), gap, n)
  {
    if n > 0 {
      EarlierEpisodesKept(b, gap, n - 1);
      assert GroupRows(b, gap, n) == GroupRows(Init(b), gap, n);
    }
  }

  lemma LastEpisode(b: seq<Span>, gap: int)
    requires b != [] && Ordered(b)
    ensures var n := GroupCount(b, gap);
            if IsNew(b, gap) then Episode(b, gap, n) == Last(b) && GroupCount(Init(b), gap) == n - 1
            else && GroupCount(Init(b), gap) == n
                 && var was := Episode(Init(b), gap, n);
                    Episode(b, gap, n) == Span(was.lo, Max(was.hi, Last(b).hi))
  {
    if IsNew(b, gap) {
      NewGroup(b, gap);
    }
  }

  /** The episodes taken row by row: an independent, one-pass form of the query. */
  function Folded(b: seq<Span>, gap: int): (eps: seq<Span>)
    ensures |eps| == GroupCount(b, gap)
    ensures b != [] ==> eps != []
  {
    if b == [] then [] else Extend(Folded(Init(b), gap), Last(b), IsNew(b, gap))
  }

  /** The window functions and the GROUP BY compute the one-pass form. */
  lemma {:induction false} SqlEpisodesAreFolded(b: seq<Span>, gap: int)
    requires Ordered(b)
    ensures SqlEpisodes(b, gap) == Folded(b, gap)
  {
    if b == [] {
    } else {
      SqlEpisodesAreFolded(Init(b), gap);
      LastEpisode(b, gap);
      EarlierEpisodesKept(b, gap, GroupCount(b, gap) - 1);
    }
  }

  /** A group keeps the order of its rows. */
  lemma GroupRowsOrdered(b: seq<Span>, gap: int, g: int)
    requires Ordered(b)
    ensures Ordered(GroupRows(b, gap, g))
    ensures forall r :: r in GroupRows(b, gap, g) ==> r in b
  {
    if b != [] {
      GroupRowsOrdered(Init(b), gap, g);
      var rest := GroupRows(Init(b), gap, g);
      forall i | 0 <= i < |rest| ensures rest[i].lo <= Last(b).lo {
        assert rest[i] in Init(b);
      }
    }
  }

  // ---------------------------------------------------------------- chains of short gaps

  /** Two incidents are near when the pause from the earlier one to the later is below the merge gap. */
  predicate Near(b: seq<Span>, gap: int, i: nat, j: nat)
    requires i < |b| && j < |b|
  {
    if i <= j then b[j].lo - b[i].hi < gap else b[i].lo - b[j].hi < gap
  }

  ghost predicate Chain(b: seq<Span>, gap: int, p: seq<nat>) {
    && p != []
    && (forall k :: 0 <= k < |p| ==> p[k] < |b|)
    && (forall k :: 0 <= k < |p| - 1 ==> Near(b, gap, p[k], p[k + 1]))
  }

  /** Some chain of near incidents leads from `i` to `j`. */
  ghost predicate Linked(b: seq<Span>, gap: int, i: nat, j: nat) {
    exists p: seq<nat> :: Chain(b, gap, p) && p[0] == i && Last(p) == j
  }

  /**
   No row opens a new group while an incident older than the previous row is still within the gap.
   This is the only situation in which looking at the previous row is not enough.
   */
  predicate NoReopen(b: seq<Span>, gap: int) {
    forall i, k :: 0 <= k < i < |b| ==> !Reopens(b, gap, i, k)
  }

  /** Row `i` opens a group although incident `k` is still within the gap. */
  predicate Reopens(b: seq<Span>, gap: int, i: int, k: int)
    requires 0 <= k < i < |b|
  {
    Opens(b, gap, i) && b[i].lo - b[k].hi < gap
  }

  /** No incident lies inside an earlier one. */
  predicate NonNested(b: seq<Span>) {
    forall i, j :: 0 <= i < j < |b| ==> b[i].hi <= b[j].hi
  }

  lemma NonNestedNeverReopens(b: seq<Span>, gap: int)
    requires NonNested(b)
    ensures NoReopen(b, gap)
  {
  }

  /** The group number a running maximum of the ends would give. */
  function MaxGrp(b: seq<Span>, gap: int): nat
    requires b != []
  {
    if |b| == 1 then 1
    else MaxGrp(Init(b), gap) + (if Last(b).lo - MaxHi(Init(b)) >= gap then 1 else 0)
  }

  function MaxGrpAt(b: seq<Span>, gap: int, i: nat): nat
    requires i < |b|
  {
    MaxGrp(b[..i + 1], gap)
  }

  lemma MaxGrpStep(b: seq<Span>, gap: int, i: nat)
    requires 0 < i < |b|
    ensures MaxGrpAt(b, gap, i) == MaxGrpAt(b, gap, i - 1) + (if b[i].lo - MaxHi(b[..i]) >= gap then 1 else 0)
  {
    assert Init(b[..i + 1]) == b[..i];
  }

  lemma {:induction false} MaxGrpMonotone(b: seq<Span>, gap: int, i: nat, j: nat)
    requires i <= j < |b|
    ensures MaxGrpAt(b, gap, i) <= MaxGrpAt(b, gap, j)
    decreases j
  {
    if i < j {
      MaxGrpMonotone(b, gap, i, j - 1);
      MaxGrpStep(b, gap, j);
    }
  }

  /** A pause below the gap is not cut anywhere between its two ends. */
  lemma {:induction false} NearSameGroup(b: seq<Span>, gap: int, i: nat, j: nat, m: nat)
    requires Ordered(b) && i <= m <= j < |b| && b[j].lo - b[i].hi < gap
    ensures MaxGrpAt(b, gap, i) == MaxGrpAt(b, gap, m)
    decreases m
  {
    if i < m {
      NearSameGroup(b, gap, i, j, m - 1);
      MaxGrpStep(b, gap, m);
      MaxHiBounds(b[..m]);
      assert b[..m][i] == b[i];
      assert b[m].lo <= b[j].lo;
    }
  }

  lemma {:induction false} ChainSameGroup(b: seq<Span>, gap: int, p: seq<nat>)
    requires Ordered(b) && Chain(b, gap, p)
    ensures MaxGrpAt(b, gap, p[0]) == MaxGrpAt(b, gap, Last(p))
    decreases |p|
  {
    if |p| <= 1 {
    } else {
      var q := Init(p);
      assert Near(b, gap, p[|p| - 2], p[|p| - 1]);
      ChainSameGroup(b, gap, q);
      var i, j := p[|p| - 2], p[|p| - 1];
      if i <= j { NearSameGroup(b, gap, i, j, j); } else { NearSameGroup(b, gap, j, i, i); }
    }
  }

  lemma LinkedSymmetric(b: seq<Span>, gap: int, i: nat, j: nat)
    requires Linked(b, gap, i, j)
    ensures Linked(b, gap, j, i)
  {
    var p: seq<nat> :| Chain(b, gap, p) && p[0] == i && Last(p) == j;
    var q: seq<nat> := seq(|p|, k requires 0 <= k < |p| => p[|p| - 1 - k]);
    forall k | 0 <= k < |q| - 1 ensures Near(b, gap, q[k], q[k + 1]) {
      assert Near(b, gap, p[|p| - 2 - k], p[|p| - 2 - k + 1]);
    }
    assert Chain(b, gap, q) && q[0] == j && Last(q) == i;
  }

  lemma LinkedSelf(b: seq<Span>, gap: int, i: nat)
    requires i < |b|
    ensures Linked(b, gap, i, i)
  {
    var p: seq<nat> := [i];
    assert Chain(b, gap, p) && p[0] == i && Last(p) == i;
  }

  lemma LinkedStep(b: seq<Span>, gap: int, i: nat, k: nat, j: nat)
    requires Linked(b, gap, i, k) && k < |b| && j < |b| && Near(b, gap, k, j)
    ensures Linked(b, gap, i, j)
  {
    var p: seq<nat> :| Chain(b, gap, p) && p[0] == i && Last(p) == k;
    var q := p + [j];
    assert Chain(b, gap, q) && q[0] == i && Last(q) == j;
  }

  /** Rows of one running-maximum group are linked by a chain. */
  lemma {:induction false} SameGroupLinked(b: seq<Span>, gap: int, i: nat, j: nat)
    requires Ordered(b) && i < |b| && j < |b|
    requires MaxGrpAt(b, gap, i) == MaxGrpAt(b, gap, j)
    ensures Linked(b, gap, i, j)
    decreases i + j, if i < j then 0 else 1
  {
    if i == j {
      LinkedSelf(b, gap, i);
    } else if i > j {
      SameGroupLinked(b, gap, j, i);
      LinkedSymmetric(b, gap, j, i);
    } else {
      MaxGrpStep(b, gap, j);
      MaxGrpMonotone(b, gap, i, j - 1);
      MaxHiBounds(b[..j]);
      var k :| 0 <= k < j && b[..j][k].hi == MaxHi(b[..j]);
      assert Near(b, gap, k, j);
      NearSameGroup(b, gap, k, j, j);
      SameGroupLinked(b, gap, i, k);
      LinkedStep(b, gap, i, k, j);
    }
  }

  lemma GrpStep(b: seq<Span>, gap: int, i: nat)
    requires 0 < i < |b|
    ensures GrpAt(b, gap, i) == GrpAt(b, gap, i - 1) + (if b[i].lo - b[i - 1].hi >= gap then 1 else 0)
  {
    assert Init(b[..i + 1]) == b[..i];
  }

  lemma {:induction false} GrpMonotone(b: seq<Span>, gap: int, i: nat, j: nat)
    requires i <= j < |b|
    ensures GrpAt(b, gap, i) <= GrpAt(b, gap, j)
    decreases j
  {
    if i < j {
      GrpMonotone(b, gap, i, j - 1);
      GrpStep(b, gap, j);
    }
  }

  lemma {:induction false} LagEqualsRunningMax(b: seq<Span>, gap: int, i: nat)
    requires NoReopen(b, gap) && i < |b|
    ensures GrpAt(b, gap, i) == MaxGrpAt(b, gap, i)
    decreases i
  {
    if i > 0 {
      LagEqualsRunningMax(b, gap, i - 1);
      GrpStep(b, gap, i);
      MaxGrpStep(b, gap, i);
      MaxHiBounds(b[..i]);
      assert b[..i][i - 1] == b[i - 1];
      var k :| 0 <= k < i && b[..i][k].hi == MaxHi(b[..i]);
      assert !Reopens(b, gap, i, k);
    }
  }

  lemma WithoutReopenGroupsAreChains(b: seq<Span>, gap: int, i: nat, j: nat)
    requires Ordered(b) && NoReopen(b, gap) && i < |b| && j < |b|
    ensures GrpAt(b, gap, i) == GrpAt(b, gap, j) <==> Linked(b, gap, i, j)
  {
    LagEqualsRunningMax(b, gap, i);
    LagEqualsRunningMax(b, gap, j);
    if MaxGrpAt(b, gap, i) == MaxGrpAt(b, gap, j) {
      SameGroupLinked(b, gap, i, j);
    } else if Linked(b, gap, i, j) {
      var p: seq<nat> :| Chain(b, gap, p) && p[0] == i && Last(p) == j;
      ChainSameGroup(b, gap, p);
    }
  }

  lemma ReopenSplitsAChain(b: seq<Span>, gap: int) returns (k: nat, i: nat)
    requires Ordered(b) && !NoReopen(b, gap)
    ensures k < i < |b| && Linked(b, gap, k, i) && GrpAt(b, gap, k) != GrpAt(b, gap, i)
  {
    i, k :| 0 <= k < i < |b| && Reopens(b, gap, i, k);
    GrpStep(b, gap, i);
    GrpMonotone(b, gap, k, i - 1);
    LinkedSelf(b, gap, k);
    LinkedStep(b, gap, k, k, i);
  }

  /** The lag-based groups are the chains of short gaps, exactly when `NoReopen` holds. */
  lemma LagGroupsAreChains(b: seq<Span>, gap: int)
    requires Ordered(b)
    ensures NoReopen(b, gap) <==>
            forall i: nat, j: nat :: i < |b| && j < |b| ==>
              (GrpAt(b, gap, i) == GrpAt(b, gap, j) <==> Linked(b, gap, i, j))
  {
    if NoReopen(b, gap) {
      forall i: nat, j: nat | i < |b| && j < |b|
        ensures GrpAt(b, gap, i) == GrpAt(b, gap, j) <==> Linked(b, gap, i, j)
      {
        WithoutReopenGroupsAreChains(b, gap, i, j);
      }
    } else {
      var k, i := ReopenSplitsAChain(b, gap);
    }
  }

  // ---------------------------------------------------------------- disjoint episodes

  ghost predicate Below(eps: seq<Span>, top: int) {
    forall k :: 0 <= k < |eps| ==> eps[k].lo <= eps[k].hi <= top
  }

  lemma BelowStep(eps: seq<Span>, e: Span, opens: bool, top: int)
    requires Below(eps, top) && e.lo <= e.hi && (eps != [] ==> Last(eps).lo <= e.lo)
    ensures Below(Extend(eps, e, opens), Max(top, e.hi))
    ensures Last(Extend(eps, e, opens)).lo <= e.lo
  {
  }

  lemma {:induction false} EpisodesBelowMax(b: seq<Span>, gap: int)
    requires Ordered(b) && b != []
    ensures Below(Folded(b, gap), MaxHi(b))
    ensures Last(Folded(b, gap)).lo <= Last(b).lo
    decreases |b|
  {
    if |b| > 1 {
      EpisodesBelowMax(Init(b), gap);
      assert Last(Init(b)).lo <= Last(b).lo;
      BelowStep(Folded(Init(b), gap), Last(b), IsNew(b, gap), MaxHi(Init(b)));
    } else {
      BelowStep([], Last(b), true, MaxHi(b));
    }
  }

  predicate Within(inner: Span, outer: Span) {
    outer.lo <= inner.lo && inner.hi <= outer.hi
  }

  /** Every incident lies inside the episode of its own group. */
  lemma {:induction false} IncidentInItsEpisode(b: seq<Span>, gap: int, i: nat)
    requires Ordered(b) && i < |b|
    ensures GrpAt(b, gap, i) <= GroupCount(b, gap)
    ensures Within(b[i], Folded(b, gap)[GrpAt(b, gap, i) - 1])
    decreases |b|
  {
    if i == |b| - 1 {
      LastRowCovered(b, gap);
      assert b[..i + 1] == b;
    } else {
      InitPrefix(b, i);
      IncidentInItsEpisode(Init(b), gap, i);
      var g := GrpAt(b, gap, i);
      assert g == GrpAt(Init(b), gap, i) && Init(b)[i] == b[i];
      RowStaysCovered(b, gap, b[i], g - 1);
    }
  }

  lemma LastRowCovered(b: seq<Span>, gap: int)
    requires Ordered(b) && b != []
    ensures Within(Last(b), Last(Folded(b, gap)))
  {
    if |b| > 1 {
      EpisodesBelowMax(Init(b), gap);
    }
  }

  lemma RowStaysCovered(b: seq<Span>, gap: int, r: Span, k: int)
    requires Ordered(b) && b != []
    requires 0 <= k < |Folded(Init(b), gap)| && Within(r, Folded(Init(b), gap)[k])
    ensures k < |Folded(b, gap)| && Within(r, Folded(b, gap)[k])
  {
    WithinStep(Folded(Init(b), gap), r, k, Last(b), IsNew(b, gap));
  }

  lemma WithinStep(eps: seq<Span>, r: Span, g: int, e: Span, opens: bool)
    requires 0 <= g < |eps| && Within(r, eps[g])
    ensures Within(r, Extend(eps, e, opens)[g])
  {
  }

  /** Ordered, pairwise at least `gap` apart. */
  ghost predicate Apart(eps: seq<Span>, gap: int) {
    && (forall k :: 0 <= k < |eps| ==> eps[k].lo <= eps[k].hi)
    && (forall j, k :: 0 <= j < k < |eps| ==> eps[j].hi + gap <= eps[k].lo)
  }

  lemma ApartStep(eps: seq<Span>, gap: int, e: Span, opens: bool)
    requires Apart(eps, gap) && eps != [] && e.lo <= e.hi
    requires opens ==> forall k :: 0 <= k < |eps| ==> eps[k].hi + gap <= e.lo
    ensures Apart(Extend(eps, e, opens), gap)
  {
  }

  lemma {:induction false} WithoutReopenApart(b: seq<Span>, gap: int)
    requires Ordered(b) && NoReopen(b, gap)
    ensures Apart(Folded(b, gap), gap)
    decreases |b|
  {
    if b == [] {
    } else {
      var eps := Folded(Init(b), gap);
      if eps != [] {
        NoReopenPrefix(b, gap);
        WithoutReopenApart(Init(b), gap);
        EpisodesBelowMax(Init(b), gap);
        if IsNew(b, gap) {
          NewRowIsClear(b, gap);
        }
        ApartStep(eps, gap, Last(b), IsNew(b, gap));
      }
    }
  }

  lemma NoReopenPrefix(b: seq<Span>, gap: int)
    requires b != [] && NoReopen(b, gap)
    ensures NoReopen(Init(b), gap)
  {
    forall i, k | 0 <= k < i < |Init(b)| ensures !Reopens(Init(b), gap, i, k) {
      assert !Reopens(b, gap, i, k);
    }
  }

  lemma NewRowIsClear(b: seq<Span>, gap: int)
    requires |b| > 1 && NoReopen(b, gap) && IsNew(b, gap)
    ensures MaxHi(Init(b)) + gap <= Last(b).lo
  {
    MaxHiBounds(Init(b));
    var k :| 0 <= k < |Init(b)| && Init(b)[k].hi == MaxHi(Init(b));
    assert !Reopens(b, gap, |b| - 1, k);
  }

  lemma ReopenIsTooNear(b: seq<Span>, gap: int, i: nat, k: nat)
    requires Ordered(b) && k < i < |b| && Reopens(b, gap, i, k)
    ensures !Apart(Folded(b, gap), gap)
  {
    GrpStep(b, gap, i);
    GrpMonotone(b, gap, k, i - 1);
    IncidentInItsEpisode(b, gap, i);
    IncidentInItsEpisode(b, gap, k);
    HoldersTooNear(Folded(b, gap), gap, GrpAt(b, gap, k) - 1, GrpAt(b, gap, i) - 1, b[k], b[i]);
  }

  lemma HoldersTooNear(eps: seq<Span>, gap: int, p: int, q: int, k: Span, i: Span)
    requires 0 <= p < q < |eps| && Within(k, eps[p]) && Within(i, eps[q]) && i.lo - k.hi < gap
    ensures !Apart(eps, gap)
  {
    assert eps[p].hi + gap > eps[q].lo;
  }

  /** Episodes are at least the merge gap apart, exactly when no row reopens. */
  lemma EpisodesApart(b: seq<Span>, gap: int)
    requires Ordered(b)
    ensures Apart(Folded(b, gap), gap) <==> NoReopen(b, gap)
  {
    if NoReopen(b, gap) {
      WithoutReopenApart(b, gap);
    } else {
      var i, k :| 0 <= k < i < |b| && Reopens(b, gap, i, k);
      ReopenIsTooNear(b, gap, i, k);
    }
  }

  /** Span `e` runs from row `i`, which opens group `g`, to the end of row `m` of that group. */
  predicate FromTo(b: seq<Span>, gap: int, g: nat, e: Span, i: nat, m: nat) {
    && i <= m < |b| && Opens(b, gap, i)
    && GrpAt(b, gap, i) == g == GrpAt(b, gap, m)
    && e == Span(b[i].lo, b[m].hi)
  }

  lemma FromToKept(b: seq<Span>, gap: int, g: nat, e: Span, i: nat, m: nat)
    requires b != [] && FromTo(Init(b), gap, g, e, i, m)
    ensures FromTo(b, gap, g, e, i, m)
    ensures GroupCount(b, gap) == g ==> FromTo(b, gap, g, Span(e.lo, Last(b).hi), i, |b| - 1)
  {
    InitPrefix(b, i);
    InitPrefix(b, m);
    assert b[..|b| - 1 + 1] == b;
  }

  lemma FromToLast(b: seq<Span>, gap: int)
    requires b != [] && IsNew(b, gap)
    ensures FromTo(b, gap, GroupCount(b, gap), Last(b), |b| - 1, |b| - 1)
  {
    assert b[..|b| - 1 + 1] == b;
  }

  lemma ExtendAt(eps: seq<Span>, e: Span, opens: bool, q: nat)
    requires q < |Extend(eps, e, opens)|
    ensures q == |eps| ==> Extend(eps, e, opens)[q] == e && (eps == [] || opens)
    ensures q < |eps| && Extend(eps, e, opens)[q] != eps[q] ==>
              !opens && q == |eps| - 1 && Extend(eps, e, opens)[q] == Span(eps[q].lo, e.hi)
  {
  }

  /** An episode starts with the row that opens its group and ends with the latest of its rows. */
  lemma {:induction false} EpisodeEnds(b: seq<Span>, gap: int, q: nat) returns (i: nat, m: nat)
    requires q < |Folded(b, gap)|
    ensures FromTo(b, gap, q + 1, Folded(b, gap)[q], i, m)
    decreases |b|
  {
    var eps := Folded(Init(b), gap);
    ExtendAt(eps, Last(b), IsNew(b, gap), q);
    if q == |eps| {
      FromToLast(b, gap);
      i, m := |b| - 1, |b| - 1;
    } else {
      i, m := EpisodeEnds(Init(b), gap, q);
      FromToKept(b, gap, q + 1, eps[q], i, m);
      if Folded(b, gap)[q] != eps[q] {
        m := |b| - 1;
      }
    }
  }

  // ---------------------------------------------------------------- downtime as a measure

  /** One term of `total_downtime_seconds`. */
  function Clip(e: Span, lo: int, hi: int): nat {
    Max(0, Min(e.hi, hi) - Max(e.lo, lo))
  }

  /** CTE `per_device`: the summed, clipped durations. */
  function TotalDowntime(eps: seq<Span>, lo: int, hi: int): nat {
    if eps == [] then 0 else TotalDowntime(Init(eps), lo, hi) + Clip(Last(eps), lo, hi)
  }

  /** The instants of the window at which some episode is running. */
  ghost function DownAt(eps: seq<Span>, lo: int, hi: int): set<int> {
    set t | t in Ticks(lo, hi) && exists k :: 0 <= k < |eps| && Runs(eps[k], t)
  }

  predicate Runs(e: Span, t: int) {
    e.lo <= t < e.hi
  }

  function Ticks(lo: int, hi: int): (ts: set<int>)
    ensures forall t :: t in ts <==> lo <= t < hi
    ensures |ts| == Max(0, hi - lo)
    decreases hi - lo
  {
    if lo < hi then Ticks(lo, hi - 1) + {hi - 1} else {}
  }

  lemma SubsetSize(a: set<int>, b: set<int>)
    requires a <= b
    ensures |a| <= |b|
  {
    assert b == a + (b - a);
  }

  /** No instant of the window is counted twice. */
  predicate ClippedApart(eps: seq<Span>, lo: int, hi: int) {
    forall j, k :: 0 <= j < k < |eps| ==> !Overlap(eps[j], eps[k], lo, hi)
  }

  /** The instants that the last episode adds. */
  ghost function LastTicks(eps: seq<Span>, lo: int, hi: int): set<int>
    requires eps != []
  {
    Ticks(Max(Last(eps).lo, lo), Min(Last(eps).hi, hi))
  }

  lemma DownAtStep(eps: seq<Span>, lo: int, hi: int)
    requires eps != []
    ensures DownAt(eps, lo, hi) == DownAt(Init(eps), lo, hi) + LastTicks(eps, lo, hi)
  {
    var a, c := DownAt(Init(eps), lo, hi), LastTicks(eps, lo, hi);
    forall t | t in a ensures t in DownAt(eps, lo, hi) {
      var k :| 0 <= k < |Init(eps)| && Runs(Init(eps)[k], t);
      assert Runs(eps[k], t);
    }
    forall t | t in c ensures t in DownAt(eps, lo, hi) {
      assert Runs(eps[|eps| - 1], t);
    }
    forall t | t in DownAt(eps, lo, hi) ensures t in a + c {
      var k :| 0 <= k < |eps| && Runs(eps[k], t);
      if k < |eps| - 1 {
        assert Runs(Init(eps)[k], t);
      }
    }
  }

  /** Some instant of the window is in both episodes. */
  predicate Overlap(e: Span, f: Span, lo: int, hi: int) {
    Min(Min(e.hi, f.hi), hi) > Max(Max(e.lo, f.lo), lo)
  }

  lemma OverlapWithLast(eps: seq<Span>, lo: int, hi: int)
    requires eps != []
    ensures DownAt(Init(eps), lo, hi) * LastTicks(eps, lo, hi) == {} <==>
            forall k :: 0 <= k < |eps| - 1 ==> !Overlap(eps[k], Last(eps), lo, hi)
  {
    var a, c := DownAt(Init(eps), lo, hi), LastTicks(eps, lo, hi);
    if k :| 0 <= k < |eps| - 1 && Overlap(eps[k], Last(eps), lo, hi) {
      var t := Max(Max(eps[k].lo, Last(eps).lo), lo);
      assert Runs(Init(eps)[k], t);
      assert t in a && t in c;
      assert t in a * c;
    } else {
      forall t | t in a ensures t !in c {
        var k :| 0 <= k < |Init(eps)| && Runs(Init(eps)[k], t);
        assert !Overlap(eps[k], Last(eps), lo, hi);
      }
      assert a * c == {};
    }
  }

  lemma ClippedApartStep(eps: seq<Span>, lo: int, hi: int)
    requires eps != []
    ensures ClippedApart(eps, lo, hi) <==>
            ClippedApart(Init(eps), lo, hi)
            && forall k :: 0 <= k < |eps| - 1 ==> !Overlap(eps[k], Last(eps), lo, hi)
  {
    if ClippedApart(eps, lo, hi) {
      forall j, k | 0 <= j < k < |Init(eps)| ensures !Overlap(Init(eps)[j], Init(eps)[k], lo, hi) {
        assert !Overlap(eps[j], eps[k], lo, hi);
      }
    }
    if ClippedApart(Init(eps), lo, hi) && forall k :: 0 <= k < |eps| - 1 ==> !Overlap(eps[k], Last(eps), lo, hi) {
      forall j, k | 0 <= j < k < |eps| ensures !Overlap(eps[j], eps[k], lo, hi) {
        if k < |eps| - 1 {
          assert !Overlap(Init(eps)[j], Init(eps)[k], lo, hi);
        }
      }
    }
  }

  /** The sum never undercounts, and it is the measure exactly when no two clipped episodes overlap. */
  lemma {:induction false} DowntimeVersusMeasure(eps: seq<Span>, lo: int, hi: int)
    ensures |DownAt(eps, lo, hi)| <= TotalDowntime(eps, lo, hi)
    ensures |DownAt(eps, lo, hi)| == TotalDowntime(eps, lo, hi) <==> ClippedApart(eps, lo, hi)
    decreases |eps|
  {
    if eps == [] {
      assert DownAt(eps, lo, hi) == {};
    } else {
      DowntimeVersusMeasure(Init(eps), lo, hi);
      var a, c := DownAt(Init(eps), lo, hi), LastTicks(eps, lo, hi);
      DownAtStep(eps, lo, hi);
      OverlapWithLast(eps, lo, hi);
      ClippedApartStep(eps, lo, hi);
      assert |a + c| == |a| + |c| - |a * c|;
      assert |c| == Clip(Last(eps), lo, hi);
      assert a * c == {} <==> |a * c| == 0;
    }
  }

  /** An incident is running, or the pause before the next row is shorter than the merge gap. */
  ghost predicate Outage(b: seq<Span>, gap: int, t: int) {
    || (exists i :: 0 <= i < |b| && Runs(b[i], t))
    || (exists i :: 0 < i < |b| && ShortPause(b, gap, i, t))
  }

  predicate ShortPause(b: seq<Span>, gap: int, i: int, t: int)
    requires 0 < i < |b|
  {
    b[i - 1].hi <= t < b[i].lo && b[i].lo - b[i - 1].hi < gap
  }

  ghost predicate Down(eps: seq<Span>, t: int) {
    exists k :: 0 <= k < |eps| && Runs(eps[k], t)
  }

  lemma DownStep(eps: seq<Span>, e: Span, opens: bool, t: int)
    requires e.lo <= e.hi
    requires eps != [] ==> Last(eps).lo <= e.lo && Last(eps).lo <= Last(eps).hi
    ensures Down(Extend(eps, e, opens), t) <==>
            Down(eps, t) || Runs(e, t) || (eps != [] && !opens && Last(eps).hi <= t < e.lo)
  {
    var r := Extend(eps, e, opens);
    if Down(eps, t) {
      var k :| 0 <= k < |eps| && Runs(eps[k], t);
      assert Runs(r[k], t);
    }
    if Runs(Last(r), t) {
      assert Runs(r[|r| - 1], t);
    }
    if Down(r, t) {
      var k :| 0 <= k < |r| && Runs(r[k], t);
      if k < |r| - 1 {
        assert Runs(eps[k], t);
      } else if eps != [] && Runs(Last(eps), t) {
        assert Runs(eps[|eps| - 1], t);
      }
    }
  }

  lemma OutageStep(b: seq<Span>, gap: int, t: int)
    requires |b| > 1
    ensures Outage(b, gap, t) <==>
            Outage(Init(b), gap, t) || Runs(Last(b), t) || ShortPause(b, gap, |b| - 1, t)
  {
    if Outage(Init(b), gap, t) {
      if i :| 0 <= i < |Init(b)| && Runs(Init(b)[i], t) {
        assert Runs(b[i], t);
      } else {
        var i :| 0 < i < |Init(b)| && ShortPause(Init(b), gap, i, t);
        assert ShortPause(b, gap, i, t);
      }
    }
    if Runs(Last(b), t) {
      assert Runs(b[|b| - 1], t);
    }
    if i :| 0 <= i < |b| && Runs(b[i], t) {
      assert i < |b| - 1 ==> Runs(Init(b)[i], t);
    }
    if i :| 0 < i < |b| && ShortPause(b, gap, i, t) {
      assert i < |b| - 1 ==> ShortPause(Init(b), gap, i, t);
    }
  }

  lemma CoverStep(b: seq<Span>, gap: int, eps: seq<Span>, t: int)
    requires |b| > 1 && eps != [] && Last(b).lo <= Last(b).hi
    requires Down(eps, t) <==> Outage(Init(b), gap, t)
    requires Within(b[|b| - 2], Last(eps)) && b[|b| - 2].lo <= b[|b| - 2].hi && Last(eps).lo <= Last(b).lo
    ensures Down(Extend(eps, Last(b), IsNew(b, gap)), t) <==> Outage(b, gap, t)
  {
    OutageStep(b, gap, t);
    DownStep(eps, Last(b), IsNew(b, gap), t);
    if Runs(Last(eps), t) {
      assert Runs(eps[|eps| - 1], t);
    }
  }

  lemma PreviousRowCovered(b: seq<Span>, gap: int)
    requires |b| > 1 && Ordered(b)
    ensures var e := Last(Folded(Init(b), gap));
            Within(b[|b| - 2], e) && b[|b| - 2].lo <= b[|b| - 2].hi && e.lo <= Last(b).lo && Last(b).lo <= Last(b).hi
  {
    assert Last(Init(b)) == b[|b| - 2];
    EpisodesBelowMax(Init(b), gap);
    LastRowCovered(Init(b), gap);
  }

  /** The episodes cover the incidents and the short pauses between them, and nothing else. */
  lemma {:induction false} EpisodesCoverOutages(b: seq<Span>, gap: int, t: int)
    requires Ordered(b)
    ensures Down(Folded(b, gap), t) <==> Outage(b, gap, t)
    decreases |b|
  {
    if b == [] {
    } else {
      if |b| == 1 {
      } else {
        PreviousRowCovered(b, gap);
        EpisodesCoverOutages(Init(b), gap, t);
        CoverStep(b, gap, Folded(Init(b), gap), t);
      }
    }
  }

  /**
   Row `i` opens a group after row `k`, row `m` belongs to that group, and an instant of the window lies
   before the end of both `k` and `m`: it is counted in two episodes.
   */
  predicate CountedTwice(b: seq<Span>, gap: int, lo: int, hi: int, k: nat, i: nat, m: nat)
    requires k < i <= m < |b|
  {
    && Opens(b, gap, i) && GrpAt(b, gap, m) == GrpAt(b, gap, i)
    && Min(Min(b[k].hi, b[m].hi), hi) > Max(b[i].lo, lo)
  }

  ghost predicate CountsOnce(b: seq<Span>, gap: int, lo: int, hi: int) {
    forall k: nat, i: nat, m: nat :: k < i <= m < |b| ==> !CountedTwice(b, gap, lo, hi, k, i, m)
  }

  lemma WithoutReopenCountsOnce(b: seq<Span>, gap: int, lo: int, hi: int)
    requires NoReopen(b, gap) && gap >= 0
    ensures CountsOnce(b, gap, lo, hi)
  {
    forall k: nat, i: nat, m: nat | k < i <= m < |b| ensures !CountedTwice(b, gap, lo, hi, k, i, m) {
      assert !Reopens(b, gap, i, k);
    }
  }

  lemma OverlapIsCountedTwice(b: seq<Span>, gap: int, lo: int, hi: int, p: nat, q: nat)
    requires Ordered(b) && p < q < |Folded(b, gap)|
    requires Overlap(Folded(b, gap)[p], Folded(b, gap)[q], lo, hi)
    ensures !CountsOnce(b, gap, lo, hi)
  {
    var _, k := EpisodeEnds(b, gap, p);
    var i, m := EpisodeEnds(b, gap, q);
    if i <= k {
      GrpMonotone(b, gap, i, k);
    } else {
      assert CountedTwice(b, gap, lo, hi, k, i, m);
    }
  }

  lemma CountedTwiceOverlaps(b: seq<Span>, gap: int, lo: int, hi: int, k: nat, i: nat, m: nat)
    requires Ordered(b) && k < i <= m < |b| && CountedTwice(b, gap, lo, hi, k, i, m)
    ensures !ClippedApart(Folded(b, gap), lo, hi)
  {
    var p, q := GrpAt(b, gap, k) - 1, GrpAt(b, gap, i) - 1;
    GrpStep(b, gap, i);
    GrpMonotone(b, gap, k, i - 1);
    IncidentInItsEpisode(b, gap, k);
    IncidentInItsEpisode(b, gap, i);
    IncidentInItsEpisode(b, gap, m);
    HoldersOverlap(Folded(b, gap), p, q, lo, hi, b[k], b[i], b[m]);
  }

  lemma HoldersOverlap(eps: seq<Span>, p: int, q: int, lo: int, hi: int, k: Span, i: Span, m: Span)
    requires 0 <= p < q < |eps| && Within(k, eps[p]) && Within(i, eps[q]) && Within(m, eps[q])
    requires k.lo <= i.lo && Min(Min(k.hi, m.hi), hi) > Max(i.lo, lo)
    ensures !ClippedApart(eps, lo, hi)
  {
    assert Overlap(eps[p], eps[q], lo, hi);
  }

  /** No two episodes overlap in the window, exactly when no row is counted twice. */
  lemma EpisodesOverlapWhenCountedTwice(b: seq<Span>, gap: int, lo: int, hi: int)
    requires Ordered(b)
    ensures ClippedApart(Folded(b, gap), lo, hi) <==> CountsOnce(b, gap, lo, hi)
  {
    var eps := Folded(b, gap);
    if p, q :| 0 <= p < q < |eps| && Overlap(eps[p], eps[q], lo, hi) {
      OverlapIsCountedTwice(b, gap, lo, hi, p, q);
    } else if k: nat, i: nat, m: nat :| k < i <= m < |b| && CountedTwice(b, gap, lo, hi, k, i, m) {
      CountedTwiceOverlaps(b, gap, lo, hi, k, i, m);
    }
  }

  /** The instants of the window at which the device is out. */
  ghost function OutageTicks(b: seq<Span>, gap: int, lo: int, hi: int): set<int> {
    set t | t in Ticks(lo, hi) && Outage(b, gap, t)
  }

  lemma DownIsOutage(b: seq<Span>, gap: int, lo: int, hi: int)
    requires Ordered(b)
    ensures DownAt(Folded(b, gap), lo, hi) == OutageTicks(b, gap, lo, hi)
  {
    forall t | t in Ticks(lo, hi) ensures Down(Folded(b, gap), t) <==> Outage(b, gap, t) {
      EpisodesCoverOutages(b, gap, t);
    }
  }

  /**
   `total_downtime_seconds` is never below the time of the window the device was out, and equal to it
   exactly when no row is counted twice; in particular when no row reopens.
   */
  lemma DowntimeIsMeasure(b: seq<Span>, gap: int, lo: int, hi: int)
    requires Ordered(b)
    ensures |OutageTicks(b, gap, lo, hi)| <= TotalDowntime(Folded(b, gap), lo, hi)
    ensures TotalDowntime(Folded(b, gap), lo, hi) == |OutageTicks(b, gap, lo, hi)| <==> CountsOnce(b, gap, lo, hi)
    ensures NoReopen(b, gap) && gap >= 0 ==> CountsOnce(b, gap, lo, hi)
    ensures |OutageTicks(b, gap, lo, hi)| <= Max(0, hi - lo)
  {
    DownIsOutage(b, gap, lo, hi);
    DowntimeVersusMeasure(Folded(b, gap), lo, hi);
    EpisodesOverlapWhenCountedTwice(b, gap, lo, hi);
    if NoReopen(b, gap) && gap >= 0 {
      WithoutReopenCountsOnce(b, gap, lo, hi);
    }
    SubsetSize(OutageTicks(b, gap, lo, hi), Ticks(lo, hi));
  }

  /**
   Nested incidents break it. A long incident, a short one inside, a pause of at least the merge gap and
   another short one inside: two overlapping episodes, and more downtime than the long incident lasted.
   For instance [0, 100], [10, 20], [50, 60] under a gap of 15.
   */
  lemma NestedIncidentsOvercount(x: Span, y: Span, z: Span, gap: int)
    requires Ordered([x, y, z]) && Within(y, x) && Within(z, x) && z.lo < x.hi && 0 <= gap <= z.lo - y.hi
    ensures !NoReopen([x, y, z], gap)
    ensures Folded([x, y, z], gap) == [x, z]
    ensures TotalDowntime([x, z], x.lo, x.hi) == (x.hi - x.lo) + (z.hi - z.lo)
  {
    var b := [x, y, z];
    assert b[0].lo <= b[1].lo <= b[2].lo && b[1].lo <= b[1].hi && b[2].lo <= b[2].hi;
    assert Reopens(b, gap, 2, 0);
    assert Folded(b, gap) == [x, z] by {
      assert Init(b) == [x, y];
      LongThenShort(x, y, gap);
    }
    assert Init([x, z]) == [x] && Init([x]) == [];
    assert TotalDowntime([x], x.lo, x.hi) == x.hi - x.lo;
  }

  lemma LongThenShort(x: Span, y: Span, gap: int)
    requires Within(y, x) && y.lo - x.hi < gap
    ensures Folded([x, y], gap) == [x]
  {
    assert Init([x, y]) == [x] && Init([x]) == [];
    assert Folded([x], gap) == [x];
  }

  // ---------------------------------------------------------------- a larger merge gap

  /** Every span of `inner` lies inside one of `outer`, the last one inside the last one. */
  ghost predicate Covers(inner: seq<Span>, outer: seq<Span>) {
    && |outer| <= |inner|
    && (inner != [] ==> outer != [] && Within(Last(inner), Last(outer)))
    && (forall k :: 0 <= k < |inner| ==> exists m :: 0 <= m < |outer| && Within(inner[k], outer[m]))
  }

  lemma CoversStep(s: seq<Span>, t: seq<Span>, e: Span, opens: bool, opensLarger: bool)
    requires Covers(s, t) && (s == [] <==> t == []) && (opensLarger ==> opens)
    requires t != [] ==> Last(t).lo <= e.lo
    ensures Covers(Extend(s, e, opens), Extend(t, e, opensLarger))
  {
    var s', t' := Extend(s, e, opens), Extend(t, e, opensLarger);
    assert Within(Last(s'), Last(t'));
    forall k | 0 <= k < |s'| ensures exists m :: 0 <= m < |t'| && Within(s'[k], t'[m]) {
      if k == |s'| - 1 {
        assert Within(s'[k], t'[|t'| - 1]);
      } else {
        var m :| 0 <= m < |t| && Within(s[k], t[m]);
        assert Within(s'[k], t'[m]);
      }
    }
  }

  /** Every episode under a gap lies inside an episode under any larger gap. */
  lemma {:induction false} LargerGapCovers(b: seq<Span>, gap: int, larger: int)
    requires Ordered(b) && gap <= larger
    ensures Covers(Folded(b, gap), Folded(b, larger))
    decreases |b|
  {
    if b == [] {
    } else {
      LargerGapCovers(Init(b), gap, larger);
      if |b| > 1 {
        EpisodesBelowMax(Init(b), larger);
      }
      CoversStep(Folded(Init(b), gap), Folded(Init(b), larger), Last(b),
                 IsNew(b, gap), IsNew(b, larger));
    }
  }

  lemma CoveredDown(s: seq<Span>, t: seq<Span>, lo: int, hi: int)
    requires Covers(s, t)
    ensures |DownAt(s, lo, hi)| <= |DownAt(t, lo, hi)|
  {
    forall x | x in DownAt(s, lo, hi) ensures x in DownAt(t, lo, hi) {
      var k :| 0 <= k < |s| && Runs(s[k], x);
      var m :| 0 <= m < |t| && Within(s[k], t[m]);
      assert Runs(t[m], x);
    }
    SubsetSize(DownAt(s, lo, hi), DownAt(t, lo, hi));
  }

  /** Raising the merge gap never raises the number of episodes, nor lowers a downtime that counts once. */
  lemma LargerGapMonotone(b: seq<Span>, gap: int, larger: int, lo: int, hi: int)
    requires Ordered(b) && gap <= larger
    ensures |Folded(b, larger)| <= |Folded(b, gap)|
    ensures CountsOnce(b, gap, lo, hi) ==>
              TotalDowntime(Folded(b, gap), lo, hi) <= TotalDowntime(Folded(b, larger), lo, hi)
  {
    LargerGapCovers(b, gap, larger);
    EpisodesOverlapWhenCountedTwice(b, gap, lo, hi);
    DowntimeVersusMeasure(Folded(b, gap), lo, hi);
    DowntimeVersusMeasure(Folded(b, larger), lo, hi);
    CoveredDown(Folded(b, gap), Folded(b, larger), lo, hi);
  }

  /** Under a gap above every pause there is one episode. */
  lemma {:induction false} OneEpisode(b: seq<Span>, gap: int)
    requires Ordered(b) && b != [] && Last(b).lo - b[0].lo < gap
    ensures |Folded(b, gap)| == 1
    decreases |b|
  {
    if |b| == 1 {
    } else {
      assert b[0].lo <= b[|b| - 2].lo <= Last(b).lo;
      OneEpisode(Init(b), gap);
    }
  }

  lemma TwiceInOneInstant(eps: seq<Span>, p: nat, q: nat, t: int)
    requires p < q < |eps| && Runs(eps[p], t) && Runs(eps[q], t)
    ensures TotalDowntime(eps, t, t + 1) >= 2
  {
    DowntimeVersusMeasure(eps, t, t + 1);
    assert Overlap(eps[p], eps[q], t, t + 1);
    assert t in DownAt(eps, t, t + 1);
    assert {t} <= DownAt(eps, t, t + 1);
    SubsetSize({t}, DownAt(eps, t, t + 1));
  }

  lemma SharedInstant(eps: seq<Span>, lo: int, hi: int) returns (t: int)
    requires !ClippedApart(eps, lo, hi)
    ensures TotalDowntime(eps, t, t + 1) >= 2
  {
    var p, q :| 0 <= p < q < |eps| && Overlap(eps[p], eps[q], lo, hi);
    t := Max(Max(eps[p].lo, eps[q].lo), lo);
    TwiceInOneInstant(eps, p, q, t);
  }

  lemma OneEpisodeIsLower(b: seq<Span>, gap: int, lo: int, hi: int) returns (larger: int, t: int)
    requires Ordered(b) && b != [] && !ClippedApart(Folded(b, gap), lo, hi)
    ensures gap <= larger
    ensures TotalDowntime(Folded(b, larger), t, t + 1) < TotalDowntime(Folded(b, gap), t, t + 1)
  {
    t := SharedInstant(Folded(b, gap), lo, hi);
    larger := Max(gap, Last(b).lo - b[0].lo + 1);
    OneEpisode(b, larger);
    InOneInstant(Folded(b, larger), t);
  }

  lemma InOneInstant(one: seq<Span>, t: int)
    requires |one| == 1
    ensures TotalDowntime(one, t, t + 1) <= 1
  {
    assert one == [one[0]] && Init(one) == [];
  }

  /**
   So no window and no larger gap ever lowers the downtime, exactly when no row is counted twice in any
   window.
   */
  lemma RaisingTheGapNeverLowers(b: seq<Span>, gap: int)
    requires Ordered(b)
    ensures (forall larger, lo, hi :: gap <= larger ==>
               TotalDowntime(Folded(b, gap), lo, hi) <= TotalDowntime(Folded(b, larger), lo, hi)) <==>
            forall lo, hi :: CountsOnce(b, gap, lo, hi)
  {
    if lo, hi :| b != [] && !CountsOnce(b, gap, lo, hi) {
      EpisodesOverlapWhenCountedTwice(b, gap, lo, hi);
      var larger, t := OneEpisodeIsLower(b, gap, lo, hi);
    } else {
      forall larger, lo, hi | gap <= larger
        ensures TotalDowntime(Folded(b, gap), lo, hi) <= TotalDowntime(Folded(b, larger), lo, hi)
      {
        LargerGapMonotone(b, gap, larger, lo, hi);
      }
    }
  }
}
