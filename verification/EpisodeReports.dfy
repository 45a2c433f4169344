/**
 What the merged episodes of the Python journal report, compared with the rows they fuse: which rows an
 episode takes, where it differs from the SQL episode, when it is ongoing, and how severe it is. Each
 comparison is exact, with a condition on the rows alone.
 */
module EpisodeReports {
  import opened Wrappers
  import opened Order
  import opened Episodes
  import opened EpisodeMeaning

  // ---------------------------------------------------------------- which rows an episode takes

  /** The pause before row `k` reaches the merge gap, or there is no row before it. */
  predicate Cut(rows: seq<Incident>, gap: int, now: int, k: nat)
    requires k < |rows|
  {
    k == 0 || rows[k].start - RealEnd(rows[k - 1], now) >= gap
  }

  /** The rows that a cut precedes, in order. */
  function Starts(rows: seq<Incident>, gap: int, now: int): (s: seq<nat>)
    ensures rows != [] ==> s != [] && s[0] == 0
    ensures forall k :: 0 <= k < |s| ==> s[k] < |rows|
  {
    if rows == [] then []
    else Starts(Init(rows), gap, now) + if Cut(rows, gap, now, |rows| - 1) then [|rows| - 1] else []
  }

  lemma OneMoreRow(rows: seq<Incident>, gap: int, now: int)
    requires rows != []
    ensures var gs, s := Groups(Init(rows), gap, now), Starts(Init(rows), gap, now);
            if Cut(rows, gap, now, |rows| - 1)
            then Groups(rows, gap, now) == gs + [[Last(rows)]] && Starts(rows, gap, now) == s + [|rows| - 1]
            else gs != [] && Groups(rows, gap, now) == Init(gs) + [Last(gs) + [Last(rows)]]
                 && Starts(rows, gap, now) == s
  {
  }

  /** The groups of the loop are the groups of the query. */
  ghost predicate SameGroups(gs: seq<seq<Incident>>, b: seq<Span>, gap: int, now: int) {
    |gs| == GroupCount(b, gap) && forall k :: 0 <= k < |gs| ==> Spans(gs[k], now) == GroupRows(b, gap, k + 1)
  }

  lemma CutInBoth(gs: seq<seq<Incident>>, b: seq<Span>, gap: int, now: int, x: Incident)
    requires b != [] && IsNew(b, gap) && Last(b) == SpanOf(x, now) && SameGroups(gs, Init(b), gap, now)
    ensures SameGroups(gs + [[x]], b, gap, now)
  {
    NewGroup(b, gap);
    assert Spans([x], now) == [Last(b)];
    assert Grp(b, gap) == |gs| + 1;
    var all := gs + [[x]];
    forall k | 0 <= k < |all| ensures Spans(all[k], now) == GroupRows(b, gap, k + 1) {
      assert k < |gs| ==> all[k] == gs[k];
    }
  }

  lemma JoinInBoth(gs: seq<seq<Incident>>, b: seq<Span>, gap: int, now: int, x: Incident)
    requires b != [] && !IsNew(b, gap) && Last(b) == SpanOf(x, now) && SameGroups(gs, Init(b), gap, now)
    ensures gs != [] && SameGroups(Init(gs) + [Last(gs) + [x]], b, gap, now)
  {
    var n := |gs|;
    assert Grp(b, gap) == n;
    assert Spans(Last(gs) + [x], now) == Spans(Last(gs), now) + [Last(b)];
    assert GroupRows(b, gap, n) == GroupRows(Init(b), gap, n) + [Last(b)];
    var all := Init(gs) + [Last(gs) + [x]];
    forall k | 0 <= k < |all| ensures Spans(all[k], now) == GroupRows(b, gap, k + 1) {
      assert k < n - 1 ==> all[k] == gs[k];
    }
  }

  lemma LastSpan(rows: seq<Incident>, gap: int, now: int)
    requires rows != []
    ensures var b := Spans(rows, now);
            && Init(b) == Spans(Init(rows), now) && Last(b) == SpanOf(Last(rows), now)
            && (IsNew(b, gap) <==> Cut(rows, gap, now, |rows| - 1))
  {
  }

  /** `_merge_episodes` and the SQL window functions cut the rows at the same places. */
  lemma {:induction false} PythonGroupsAreSqlGroups(rows: seq<Incident>, gap: int, now: int)
    ensures SameGroups(Groups(rows, gap, now), Spans(rows, now), gap, now)
  {
    if rows == [] {
    } else {
      var b := Spans(rows, now);
      PythonGroupsAreSqlGroups(Init(rows), gap, now);
      OneMoreRow(rows, gap, now);
      LastSpan(rows, gap, now);
      if Cut(rows, gap, now, |rows| - 1) {
        CutInBoth(Groups(Init(rows), gap, now), b, gap, now, Last(rows));
      } else {
        JoinInBoth(Groups(Init(rows), gap, now), b, gap, now, Last(rows));
      }
    }
  }

  /** Where the stretch that begins at `s[k]` ends. */
  function Stop(s: seq<nat>, n: nat, k: nat): nat
    requires k < |s|
  {
    if k + 1 < |s| then s[k + 1] else n
  }

  ghost predicate Rising(s: seq<nat>) {
    forall k, l :: 0 <= k < l < |s| ==> s[k] < s[l]
  }

  lemma OneMoreStart(s: seq<nat>, n: nat, cut: bool)
    requires Rising(s) && forall k :: 0 <= k < |s| ==> s[k] < n
    ensures Rising(s + if cut then [n] else [])
    ensures n in (s + if cut then [n] else []) <==> cut
    ensures forall k: nat :: k < n ==> (k in (s + if cut then [n] else []) <==> k in s)
  {
  }

  /** A row starts a group exactly when a cut precedes it. */
  lemma {:induction false} StartsAreCuts(rows: seq<Incident>, gap: int, now: int)
    ensures Rising(Starts(rows, gap, now))
    ensures forall k: nat :: k < |rows| ==> (Cut(rows, gap, now, k) <==> k in Starts(rows, gap, now))
  {
    if rows == [] {
    } else {
      StartsAreCuts(Init(rows), gap, now);
      var n := |rows| - 1;
      forall k: nat | k < n ensures Cut(rows, gap, now, k) == Cut(Init(rows), gap, now, k) {
      }
      OneMoreStart(Starts(Init(rows), gap, now), n, Cut(rows, gap, now, n));
    }
  }

  /** The groups are the stretches of rows between the starts. */
  ghost predicate Stretches(gs: seq<seq<Incident>>, s: seq<nat>, rows: seq<Incident>) {
    |gs| == |s| && forall k: nat :: k < |gs| ==> IsStretch(gs[k], rows, s[k], Stop(s, |rows|, k))
  }

  predicate IsStretch(g: seq<Incident>, rows: seq<Incident>, from: nat, to: nat) {
    from < to <= |rows| && g == rows[from..to]
  }

  lemma StretchesCut(gs: seq<seq<Incident>>, s: seq<nat>, rows: seq<Incident>, x: Incident)
    requires Stretches(gs, s, rows)
    ensures Stretches(gs + [[x]], s + [|rows|], rows + [x])
  {
    var gs', s', rows' := gs + [[x]], s + [|rows|], rows + [x];
    forall k: nat | k < |gs'| ensures IsStretch(gs'[k], rows', s'[k], Stop(s', |rows'|, k)) {
      if k < |gs| {
        assert IsStretch(gs[k], rows, s[k], Stop(s, |rows|, k));
        assert rows'[s[k]..Stop(s, |rows|, k)] == rows[s[k]..Stop(s, |rows|, k)];
      } else {
        assert rows'[|rows|..] == [x];
      }
    }
  }

  lemma StretchesJoin(gs: seq<seq<Incident>>, s: seq<nat>, rows: seq<Incident>, x: Incident)
    requires Stretches(gs, s, rows) && gs != []
    ensures Stretches(Init(gs) + [Last(gs) + [x]], s, rows + [x])
  {
    var gs', rows' := Init(gs) + [Last(gs) + [x]], rows + [x];
    forall k: nat | k < |gs'| ensures IsStretch(gs'[k], rows', s[k], Stop(s, |rows'|, k)) {
      assert IsStretch(gs[k], rows, s[k], Stop(s, |rows|, k));
      if k < |gs| - 1 {
        assert rows'[s[k]..Stop(s, |rows|, k)] == rows[s[k]..Stop(s, |rows|, k)];
      } else {
        assert rows'[s[k]..|rows'|] == rows[s[k]..] + [x];
      }
    }
  }

  lemma {:induction false} GroupsAreStretches(rows: seq<Incident>, gap: int, now: int)
    ensures Stretches(Groups(rows, gap, now), Starts(rows, gap, now), rows)
  {
    if rows == [] {
    } else {
      GroupsAreStretches(Init(rows), gap, now);
      var gs, s := Groups(Init(rows), gap, now), Starts(Init(rows), gap, now);
      assert rows == Init(rows) + [Last(rows)];
      OneMoreRow(rows, gap, now);
      if Cut(rows, gap, now, |rows| - 1) {
        StretchesCut(gs, s, Init(rows), Last(rows));
      } else {
        StretchesJoin(gs, s, Init(rows), Last(rows));
      }
    }
  }

  /** Row `j` is the last one of the group of row `i`. */
  predicate LastAfter(rows: seq<Incident>, gap: int, now: int, i: nat, j: nat)
    requires i <= j < |rows|
  {
    && (forall k: nat :: i < k <= j ==> !Cut(rows, gap, now, k))
    && (j == |rows| - 1 || Cut(rows, gap, now, j + 1))
  }

  /** Group `k` takes the rows `from` to `j`. */
  ghost predicate Bounds(rows: seq<Incident>, gap: int, now: int, k: nat, from: nat, j: nat) {
    var s := Starts(rows, gap, now);
    k < |s| && from == s[k] && j + 1 == Stop(s, |rows|, k)
  }

  lemma NoStartBetween(s: seq<nat>, n: nat, k: nat, l: nat)
    requires Rising(s) && k < |s| && s[k] < l < Stop(s, n, k)
    requires forall p :: 0 <= p < |s| ==> s[p] < n
    ensures l !in s
  {
    forall p | 0 <= p < |s| ensures s[p] != l {
      if p > k {
        assert s[k + 1] <= s[p];
      }
    }
  }

  lemma InGroupIsLastAfter(rows: seq<Incident>, gap: int, now: int, k: nat, from: nat, i: nat, j: nat)
    requires Bounds(rows, gap, now, k, from, j) && from <= i <= j < |rows|
    ensures LastAfter(rows, gap, now, i, j)
  {
    var s := Starts(rows, gap, now);
    StartsAreCuts(rows, gap, now);
    forall l: nat | i < l <= j ensures !Cut(rows, gap, now, l) {
      NoStartBetween(s, |rows|, k, l);
    }
  }

  lemma Ends(gs: seq<seq<Incident>>, s: seq<nat>, rows: seq<Incident>, k: nat) returns (from: nat, j: nat)
    requires Stretches(gs, s, rows) && k < |gs|
    ensures from == s[k] && j + 1 == Stop(s, |rows|, k)
    ensures from <= j < |rows| && gs[k] == rows[from..j + 1] && Last(gs[k]) == rows[j]
  {
    assert IsStretch(gs[k], rows, s[k], Stop(s, |rows|, k));
    from, j := s[k], Stop(s, |rows|, k) - 1;
  }

  /** The members of group `k`. */
  lemma GroupMembers(rows: seq<Incident>, gap: int, now: int, k: nat) returns (from: nat, j: nat)
    requires k < |Groups(rows, gap, now)|
    ensures from <= j < |rows| && Groups(rows, gap, now)[k] == rows[from..j + 1]
    ensures Last(Groups(rows, gap, now)[k]) == rows[j]
    ensures Bounds(rows, gap, now, k, from, j)
    ensures forall i: nat :: from <= i <= j ==> LastAfter(rows, gap, now, i, j)
  {
    GroupsAreStretches(rows, gap, now);
    from, j := Ends(Groups(rows, gap, now), Starts(rows, gap, now), rows, k);
    forall i: nat | from <= i <= j ensures LastAfter(rows, gap, now, i, j) {
      InGroupIsLastAfter(rows, gap, now, k, from, i, j);
    }
  }

  /** The stretch that row `j` is in. */
  lemma {:induction false} StretchOf(s: seq<nat>, n: nat, j: nat) returns (k: nat)
    requires s != [] && s[0] == 0 && j < n
    ensures k < |s| && s[k] <= j < Stop(s, n, k)
    decreases |s|
  {
    if Last(s) <= j {
      k := |s| - 1;
    } else {
      k := StretchOf(Init(s), Last(s), j);
    }
  }

  lemma GroupOf(rows: seq<Incident>, gap: int, now: int, i: nat, j: nat) returns (k: nat, from: nat)
    requires i <= j < |rows| && LastAfter(rows, gap, now, i, j)
    ensures k < |Groups(rows, gap, now)| && Bounds(rows, gap, now, k, from, j) && from <= i
  {
    var s := Starts(rows, gap, now);
    StartsAreCuts(rows, gap, now);
    k := StretchOf(s, |rows|, j);
    from := s[k];
    assert s[k] in s;
    if j < |rows| - 1 {
      assert j + 1 in s;
      var p :| 0 <= p < |s| && s[p] == j + 1;
      assert p == k + 1;
    }
    GroupsAreStretches(rows, gap, now);
  }

  /** A row that no cut precedes shares its group with the row before it. */
  lemma NoCutIsMerged(rows: seq<Incident>, gap: int, now: int, j: nat) returns (k: nat)
    requires j < |rows| && !Cut(rows, gap, now, j)
    ensures k < |Groups(rows, gap, now)| && |Groups(rows, gap, now)[k]| > 1
  {
    var s := Starts(rows, gap, now);
    StartsAreCuts(rows, gap, now);
    k := StretchOf(s, |rows|, j);
    assert s[k] in s;
    GroupsAreStretches(rows, gap, now);
    StretchIsLonger(Groups(rows, gap, now), s, rows, k, j);
  }

  lemma StretchIsLonger(gs: seq<seq<Incident>>, s: seq<nat>, rows: seq<Incident>, k: nat, j: nat)
    requires Stretches(gs, s, rows) && k < |gs| && s[k] < j < Stop(s, |rows|, k)
    ensures |gs[k]| > 1
  {
    assert IsStretch(gs[k], rows, s[k], Stop(s, |rows|, k));
  }

  lemma NoCutInside(rows: seq<Incident>, gap: int, now: int, i: nat, j: nat)
    requires i < j < |rows| && LastAfter(rows, gap, now, i, j)
    ensures !Cut(rows, gap, now, j)
  {
  }

  /** "Set to 0 to disable merging": no two incidents are merged, exactly when a cut precedes every row. */
  lemma NothingIsMerged(rows: seq<Incident>, gap: int, now: int)
    ensures (forall k :: 0 <= k < |Groups(rows, gap, now)| ==> |Groups(rows, gap, now)[k]| == 1) <==>
            (forall j: nat :: j < |rows| ==> Cut(rows, gap, now, j))
  {
    if j: nat :| j < |rows| && !Cut(rows, gap, now, j) {
      var k := NoCutIsMerged(rows, gap, now, j);
    } else {
      forall k | 0 <= k < |Groups(rows, gap, now)| ensures |Groups(rows, gap, now)[k]| == 1 {
        var from, j := GroupMembers(rows, gap, now, k);
        if from < j {
          NoCutInside(rows, gap, now, from, j);
          assert false;
        }
      }
    }
  }

  /** A gap of 0 still merges an incident with one that starts before it ends. */
  lemma ZeroGapMerges(a: Incident, b: Incident, now: int)
    requires b.start < RealEnd(a, now)
    ensures exists k :: 0 <= k < |Groups([a, b], 0, now)| && |Groups([a, b], 0, now)[k]| > 1
  {
    var k := NoCutIsMerged([a, b], 0, now, 1);
  }

  // ---------------------------------------------------------------- SQL against Python

  /** The [started_at, real end] pairs the Python journal clips and adds up. */
  function PySpans(ms: seq<Merged>): seq<Span> {
    seq(|ms|, k requires 0 <= k < |ms| => Span(ms[k].startedAt, ms[k].realEnd))
  }

  /** The two episodes of group `k`: rows `from` to `j`, of which `i` ends last. */
  lemma OneEpisodeBothWays(rows: seq<Incident>, gap: int, now: int, k: nat) returns (from: nat, i: nat, j: nat)
    requires Ordered(Spans(rows, now)) && k < |Groups(rows, gap, now)|
    ensures |Groups(rows, gap, now)| == GroupCount(Spans(rows, now), gap)
    ensures from <= i <= j < |rows| && Bounds(rows, gap, now, k, from, j)
    ensures forall l: nat :: from <= l <= j ==> LastAfter(rows, gap, now, l, j)
    ensures forall l :: from <= l <= j ==> RealEnd(rows[l], now) <= RealEnd(rows[i], now)
    ensures Summary(Groups(rows, gap, now)[k], now).startedAt == rows[from].start
    ensures Summary(Groups(rows, gap, now)[k], now).realEnd == RealEnd(rows[j], now)
    ensures SqlEpisodes(Spans(rows, now), gap)[k] == Span(rows[from].start, RealEnd(rows[i], now))
  {
    var b, g := Spans(rows, now), Groups(rows, gap, now)[k];
    PythonGroupsAreSqlGroups(rows, gap, now);
    EpisodeAt(b, gap, GroupCount(b, gap), k);
    GroupRowsOrdered(b, gap, k + 1);
    from, j := GroupMembers(rows, gap, now, k);
    i := LatestOf(rows, now, from, j, Spans(g, now));
  }

  lemma LatestOf(rows: seq<Incident>, now: int, from: nat, j: nat, group: seq<Span>) returns (i: nat)
    requires from <= j < |rows| && group == Spans(rows[from..j + 1], now) && Ordered(group)
    ensures from <= i <= j && MaxHi(group) == RealEnd(rows[i], now) && MinLo(group) == rows[from].start
    ensures forall l :: from <= l <= j ==> RealEnd(rows[l], now) <= RealEnd(rows[i], now)
  {
    MaxHiBounds(group);
    MinLoIsFirst(group);
    var p :| 0 <= p < |group| && group[p].hi == MaxHi(group);
    i := from + p;
    forall l | from <= l <= j ensures RealEnd(rows[l], now) <= RealEnd(rows[i], now) {
      assert group[l - from].hi <= MaxHi(group);
    }
  }

  /** Row `i` ends after the last row of its group. */
  predicate OutlivesLast(rows: seq<Incident>, gap: int, now: int, i: nat, j: nat)
    requires i <= j < |rows|
  {
    LastAfter(rows, gap, now, i, j) && RealEnd(rows[i], now) > RealEnd(rows[j], now)
  }

  /** Row `i` runs at an instant of the window that follows the last row of its group. */
  predicate LostTime(rows: seq<Incident>, gap: int, now: int, lo: int, hi: int, i: nat, j: nat)
    requires i <= j < |rows|
  {
    LastAfter(rows, gap, now, i, j) && Min(RealEnd(rows[i], now), hi) > Max(RealEnd(rows[j], now), lo)
  }

  ghost predicate NoneOutlivesLast(rows: seq<Incident>, gap: int, now: int) {
    forall i: nat, j: nat :: i <= j < |rows| ==> !OutlivesLast(rows, gap, now, i, j)
  }

  ghost predicate NoLostTime(rows: seq<Incident>, gap: int, now: int, lo: int, hi: int) {
    forall i: nat, j: nat :: i <= j < |rows| ==> !LostTime(rows, gap, now, lo, hi, i, j)
  }

  function PyEpisodes(rows: seq<Incident>, gap: int, now: int): seq<Span> {
    PySpans(Summaries(Groups(rows, gap, now), now))
  }

  lemma EpisodePair(rows: seq<Incident>, gap: int, now: int, lo: int, hi: int, k: nat)
    requires Ordered(Spans(rows, now)) && k < |PyEpisodes(rows, gap, now)|
    ensures |PyEpisodes(rows, gap, now)| == |SqlEpisodes(Spans(rows, now), gap)|
    ensures var py, sql := PyEpisodes(rows, gap, now)[k], SqlEpisodes(Spans(rows, now), gap)[k];
            && py.lo == sql.lo && py.hi <= sql.hi
            && (NoneOutlivesLast(rows, gap, now) ==> py == sql)
            && (NoLostTime(rows, gap, now, lo, hi) ==> Clip(py, lo, hi) == Clip(sql, lo, hi))
  {
    var from, i, j := OneEpisodeBothWays(rows, gap, now, k);
    assert Spans(rows, now)[from].lo <= Spans(rows, now)[j].lo <= Spans(rows, now)[j].hi;
    if NoneOutlivesLast(rows, gap, now) {
      assert !OutlivesLast(rows, gap, now, i, j);
    }
    if NoLostTime(rows, gap, now, lo, hi) {
      assert !LostTime(rows, gap, now, lo, hi, i, j);
      ClipAfter(rows[from].start, RealEnd(rows[j], now), RealEnd(rows[i], now), lo, hi);
    }
  }

  lemma ClipAfter(start: int, early: int, late: int, lo: int, hi: int)
    requires start <= early <= late
    ensures Clip(Span(start, early), lo, hi) <= Clip(Span(start, late), lo, hi)
    ensures Clip(Span(start, early), lo, hi) == Clip(Span(start, late), lo, hi) <==> Min(late, hi) <= Max(early, lo)
  {
  }

  /** The two episodes of a row `i` and the last row `j` of its group. */
  lemma LongerEpisode(rows: seq<Incident>, gap: int, now: int, i: nat, j: nat) returns (k: nat, end: int)
    requires Ordered(Spans(rows, now)) && i <= j < |rows| && LastAfter(rows, gap, now, i, j)
    ensures k < |PyEpisodes(rows, gap, now)| == |SqlEpisodes(Spans(rows, now), gap)|
    ensures var py := PyEpisodes(rows, gap, now)[k];
            && py.hi == RealEnd(rows[j], now) && py.lo <= py.hi
            && SqlEpisodes(Spans(rows, now), gap)[k] == Span(py.lo, end)
    ensures RealEnd(rows[i], now) <= end && RealEnd(rows[j], now) <= end
  {
    var from;
    k, from := GroupOf(rows, gap, now, i, j);
    var from', latest, last := OneEpisodeBothWays(rows, gap, now, k);
    end := RealEnd(rows[latest], now);
    assert from == from' && last == j;
    assert Spans(rows, now)[from].lo <= Spans(rows, now)[j].lo <= Spans(rows, now)[j].hi;
  }

  /** Same starts; Python ends no later; equal lists exactly when no row outlives the last one of its group. */
  lemma SqlVersusPython(rows: seq<Incident>, gap: int, now: int)
    requires Ordered(Spans(rows, now))
    ensures var py, sql := PyEpisodes(rows, gap, now), SqlEpisodes(Spans(rows, now), gap);
            && |py| == |sql|
            && (forall k :: 0 <= k < |py| ==> py[k].lo == sql[k].lo && py[k].hi <= sql[k].hi)
            && (py == sql <==> NoneOutlivesLast(rows, gap, now))
  {
    PythonGroupsAreSqlGroups(rows, gap, now);
    var py, sql := PyEpisodes(rows, gap, now), SqlEpisodes(Spans(rows, now), gap);
    forall k | 0 <= k < |py|
      ensures py[k].lo == sql[k].lo && py[k].hi <= sql[k].hi
      ensures NoneOutlivesLast(rows, gap, now) ==> py[k] == sql[k]
    {
      EpisodePair(rows, gap, now, 0, 0, k);
    }
    if i: nat, j: nat :| i <= j < |rows| && OutlivesLast(rows, gap, now, i, j) {
      var k, end := LongerEpisode(rows, gap, now, i, j);
      assert py[k] != sql[k];
    }
  }

  lemma {:induction false} TotalsCompare(p: seq<Span>, s: seq<Span>, lo: int, hi: int)
    requires |p| == |s| && forall k :: 0 <= k < |p| ==> Clip(p[k], lo, hi) <= Clip(s[k], lo, hi)
    ensures TotalDowntime(p, lo, hi) <= TotalDowntime(s, lo, hi)
    ensures TotalDowntime(p, lo, hi) == TotalDowntime(s, lo, hi) <==>
            forall k :: 0 <= k < |p| ==> Clip(p[k], lo, hi) == Clip(s[k], lo, hi)
  {
    if p == [] {
    } else {
      TotalsCompare(Init(p), Init(s), lo, hi);
      var n := |p| - 1;
      assert Clip(p[n], lo, hi) <= Clip(s[n], lo, hi);
      if TotalDowntime(p, lo, hi) == TotalDowntime(s, lo, hi) {
        forall k | 0 <= k < |p| ensures Clip(p[k], lo, hi) == Clip(s[k], lo, hi) {
          assert k < n ==> p[k] == Init(p)[k] && s[k] == Init(s)[k];
        }
      }
    }
  }

  /** Python never reports more downtime than SQL, and as much exactly when no time is lost after a last row. */
  lemma SqlEqualsPython(rows: seq<Incident>, gap: int, now: int, lo: int, hi: int)
    requires Ordered(Spans(rows, now))
    ensures var py, sql := PyEpisodes(rows, gap, now), SqlEpisodes(Spans(rows, now), gap);
            && TotalDowntime(py, lo, hi) <= TotalDowntime(sql, lo, hi)
            && (TotalDowntime(py, lo, hi) == TotalDowntime(sql, lo, hi) <==> NoLostTime(rows, gap, now, lo, hi))
  {
    SqlVersusPython(rows, gap, now);
    var py, sql := PyEpisodes(rows, gap, now), SqlEpisodes(Spans(rows, now), gap);
    TotalsCompare(py, sql, lo, hi);
    forall k | 0 <= k < |py| && NoLostTime(rows, gap, now, lo, hi)
      ensures Clip(py[k], lo, hi) == Clip(sql[k], lo, hi)
    {
      EpisodePair(rows, gap, now, lo, hi, k);
    }
    if i: nat, j: nat :| i <= j < |rows| && LostTime(rows, gap, now, lo, hi, i, j) {
      var k, end := LongerEpisode(rows, gap, now, i, j);
      ClipAfter(py[k].lo, py[k].hi, end, lo, hi);
      assert Clip(py[k], lo, hi) != Clip(sql[k], lo, hi);
    }
  }

  /** A short incident inside a long one: Python forgets the rest of the long one, SQL does not. */
  lemma NestedIncidentIsForgotten(gap: int, now: int)
    requires gap >= 0
    ensures var rows := [Incident(1, 0, Some(100), None, None), Incident(2, 10, Some(20), None, None)];
            TotalDowntime(PyEpisodes(rows, gap, now), 0, 100)
            < TotalDowntime(SqlEpisodes(Spans(rows, now), gap), 0, 100)
  {
    var rows := [Incident(1, 0, Some(100), None, None), Incident(2, 10, Some(20), None, None)];
    assert !Cut(rows, gap, now, 1);
    assert LastAfter(rows, gap, now, 0, 1);
    assert LostTime(rows, gap, now, 0, 100, 0, 1);
    SqlEqualsPython(rows, gap, now, 0, 100);
  }

  /** On incidents that are not nested the two agree. */
  lemma NonNestedAgree(rows: seq<Incident>, gap: int, now: int, lo: int, hi: int)
    requires NonNested(Spans(rows, now))
    ensures NoneOutlivesLast(rows, gap, now) && NoLostTime(rows, gap, now, lo, hi)
  {
    var b := Spans(rows, now);
    forall i: nat, j: nat | i <= j < |rows|
      ensures !OutlivesLast(rows, gap, now, i, j) && !LostTime(rows, gap, now, lo, hi, i, j)
    {
      assert b[i].hi <= b[j].hi;
    }
  }

  // ---------------------------------------------------------------- what a merged episode reports

  /** The severity of a merged episode is one of its incidents', and none ranks higher. */
  lemma {:induction false} SeverityIsHighest(g: seq<Incident>)
    requires g != []
    ensures forall k :: 0 <= k < |g| ==> Rank(SeverityOf(g[k])) <= Rank(MaxSeverity(g))
    ensures exists k :: 0 <= k < |g| && SeverityOf(g[k]) == MaxSeverity(g)
  {
    if |g| == 1 {
      assert SeverityOf(g[0]) == MaxSeverity(g);
    } else {
      SeverityIsHighest(Init(g));
      var k :| 0 <= k < |Init(g)| && SeverityOf(Init(g)[k]) == MaxSeverity(Init(g));
      assert g[k] == Init(g)[k] && g[|g| - 1] == Last(g);
      assert SeverityOf(g[k]) == MaxSeverity(g) || SeverityOf(g[|g| - 1]) == MaxSeverity(g);
    }
  }

  /** What an episode tells of the rows `from` to `j` it stands for. */
  predicate TellsOf(m: Merged, rows: seq<Incident>, now: int, from: nat, j: nat)
    requires from <= j < |rows|
  {
    var end := if rows[j].resolved.Some? then rows[j].resolved.value else now;
    && m.firstId == rows[from].id && m.startedAt == rows[from].start
    && m.alertType == (if rows[from].alertType.Some? then rows[from].alertType.value else "")
    && m.endedAt == rows[j].resolved && m.realEnd == end && (m.Ongoing() <==> rows[j].resolved.None?)
    && m.duration == (if end > rows[from].start then end - rows[from].start else 0)
    && m.flapCount == |m.subs| == j - from + 1
    && forall i :: from <= i <= j ==> m.subs[i - from] == (rows[i].start, rows[i].resolved)
  }

  /**
   The episodes in order, one for each row that a cut precedes: each tells of the rows from there to the next cut,
   with the first row's id, start and alert type, the last one's end, and every row as a sub-incident.
   */
  lemma EpisodesTellOfTheirRows(rows: seq<Incident>, gap: int, now: int, k: nat)
    requires k < |Starts(rows, gap, now)|
    ensures var s, ms := Starts(rows, gap, now), Summaries(Groups(rows, gap, now), now);
            && |ms| == |s| && s[k] < Stop(s, |rows|, k) <= |rows|
            && TellsOf(ms[k], rows, now, s[k], Stop(s, |rows|, k) - 1)
  {
    GroupsAreStretches(rows, gap, now);
    var from, j := Ends(Groups(rows, gap, now), Starts(rows, gap, now), rows, k);
    StretchTells(Groups(rows, gap, now)[k], rows, now, from, j);
  }

  lemma StretchTells(g: seq<Incident>, rows: seq<Incident>, now: int, from: nat, j: nat)
    requires from <= j < |rows| && g == rows[from..j + 1]
    ensures TellsOf(Summary(g, now), rows, now, from, j)
  {
    assert g[0] == rows[from] && Last(g) == rows[j];
    forall i | from <= i <= j ensures SubsOf(g)[i - from] == (rows[i].start, rows[i].resolved) {
      assert g[i - from] == rows[i];
    }
  }

  ghost predicate SomeWith(g: seq<Incident>, severity: Severity) {
    exists k :: 0 <= k < |g| && SeverityOf(g[k]) == severity
  }

  /** Critical if any incident is; else warning if any is, a missing severity included; else that of the first. */
  lemma SeverityMeans(g: seq<Incident>)
    requires g != []
    ensures MaxSeverity(g) == if SomeWith(g, Critical) then Critical
                              else if SomeWith(g, Warning) then Warning
                              else SeverityOf(g[0])
    ensures forall i :: i in g && i.severity == None ==> SeverityOf(i) == Warning
  {
    SeverityIsHighest(g);
    if !SomeWith(g, Critical) && !SomeWith(g, Warning) {
      LowestKeepsFirst(g);
    }
    if k :| 0 <= k < |g| && SeverityOf(g[k]) == Critical {
      assert Rank(MaxSeverity(g)) == 2;
    } else if k :| 0 <= k < |g| && SeverityOf(g[k]) == Warning {
      assert Rank(MaxSeverity(g)) >= 1;
    }
  }

  lemma {:induction false} LowestKeepsFirst(g: seq<Incident>)
    requires g != [] && !SomeWith(g, Critical) && !SomeWith(g, Warning)
    ensures MaxSeverity(g) == SeverityOf(g[0])
  {
    if |g| == 1 {
    } else {
      forall k | 0 <= k < |Init(g)| ensures SeverityOf(Init(g)[k]) != Critical && SeverityOf(Init(g)[k]) != Warning {
        assert g[k] == Init(g)[k];
      }
      LowestKeepsFirst(Init(g));
      assert Last(g) == g[|g| - 1];
    }
  }

  ghost predicate SomeOpen(g: seq<Incident>) {
    exists k :: 0 <= k < |g| && g[k].resolved == None
  }

  /** Row `i` is still open, and the last row of its group is closed. */
  predicate Hidden(rows: seq<Incident>, gap: int, now: int, i: nat, j: nat)
    requires i <= j < |rows|
  {
    LastAfter(rows, gap, now, i, j) && rows[i].resolved == None && rows[j].resolved != None
  }

  lemma OngoingUnlessHidden(rows: seq<Incident>, gap: int, now: int, k: nat)
    requires k < |Groups(rows, gap, now)|
    requires forall i: nat, j: nat :: i <= j < |rows| ==> !Hidden(rows, gap, now, i, j)
    ensures Summary(Groups(rows, gap, now)[k], now).Ongoing() <==> SomeOpen(Groups(rows, gap, now)[k])
  {
    var g := Groups(rows, gap, now)[k];
    var from, j := GroupMembers(rows, gap, now, k);
    assert g[|g| - 1] == Last(g);
    if p :| 0 <= p < |g| && g[p].resolved == None {
      assert !Hidden(rows, gap, now, from + p, j);
    }
  }

  lemma MemberIsOpen(g: seq<Incident>, rows: seq<Incident>, from: nat, i: nat, j: nat)
    requires from <= i <= j < |rows| && g == rows[from..j + 1] && rows[i].resolved == None
    ensures SomeOpen(g) && Last(g) == rows[j]
  {
    assert g[i - from] == rows[i];
  }

  lemma HiddenIsMissed(rows: seq<Incident>, gap: int, now: int, i: nat, j: nat) returns (k: nat)
    requires i <= j < |rows| && Hidden(rows, gap, now, i, j)
    ensures k < |Groups(rows, gap, now)|
    ensures SomeOpen(Groups(rows, gap, now)[k]) && !Summary(Groups(rows, gap, now)[k], now).Ongoing()
  {
    var from;
    k, from := GroupOf(rows, gap, now, i, j);
    var from', last := GroupMembers(rows, gap, now, k);
    assert from == from' && last == j;
    MemberIsOpen(Groups(rows, gap, now)[k], rows, from, i, j);
  }

  /**
   "If any sub-incident is still open, the merged episode is marked as ongoing" holds exactly when no open
   incident is followed, within its group, by a last one that is closed.
   */
  lemma OngoingIsSomeOpen(rows: seq<Incident>, gap: int, now: int)
    ensures (forall k :: 0 <= k < |Groups(rows, gap, now)| ==>
               (Summary(Groups(rows, gap, now)[k], now).Ongoing() <==> SomeOpen(Groups(rows, gap, now)[k]))) <==>
            (forall i: nat, j: nat :: i <= j < |rows| ==> !Hidden(rows, gap, now, i, j))
  {
    if i: nat, j: nat :| i <= j < |rows| && Hidden(rows, gap, now, i, j) {
      var k := HiddenIsMissed(rows, gap, now, i, j);
    } else {
      forall k | 0 <= k < |Groups(rows, gap, now)|
        ensures Summary(Groups(rows, gap, now)[k], now).Ongoing() <==> SomeOpen(Groups(rows, gap, now)[k])
      {
        OngoingUnlessHidden(rows, gap, now, k);
      }
    }
  }

  /** Incidents that are not nested, closed ones before now, hide nothing. */
  lemma NonNestedHidesNothing(rows: seq<Incident>, gap: int, now: int)
    requires NonNested(Spans(rows, now))
    requires forall k :: 0 <= k < |rows| && rows[k].resolved.Some? ==> rows[k].resolved.value < now
    ensures forall i: nat, j: nat :: i <= j < |rows| ==> !Hidden(rows, gap, now, i, j)
  {
    var b := Spans(rows, now);
    forall i: nat, j: nat | i <= j < |rows| ensures !Hidden(rows, gap, now, i, j) {
      assert b[i].hi <= b[j].hi;
    }
  }

  /** A running outage that is reported as over. */
  lemma OngoingCanBeMissed()
    ensures var rows := [Incident(1, 0, None, None, None), Incident(2, 10, Some(20), None, None)];
            Groups(rows, 300, 100) == [rows] && SomeOpen(rows) && !Summary(rows, 100).Ongoing()
  {
    var rows := [Incident(1, 0, None, None, None), Incident(2, 10, Some(20), None, None)];
    assert rows[0].resolved == None;
    assert Init(rows) == [rows[0]] && Init([rows[0]]) == [];
    var first: seq<Incident> := [rows[0]];
    assert Groups(first, 300, 100) == [first];
    assert Init([first]) == [];
    assert Last([first]) == first && first + [rows[1]] == rows;
    assert Init(Groups(first, 300, 100)) + [Last(Groups(first, 300, 100)) + [Last(rows)]] == [rows];
  }
}
