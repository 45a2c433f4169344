/**
 Outage episodes of one device.

 Two pieces of code group the incidents of a device into episodes: the SQL function
 `fn_site_outage_summary` (window functions, then GROUP BY) and the Python loop `_merge_episodes`.
 Both compare an incident with the end of the PREVIOUS ROW, not with the latest end seen so far.
 This module gives both, an independent meaning for "one episode" (incidents linked by a chain of
 gaps shorter than the merge gap), and the exact condition under which the code has that meaning.

 Instants are integers (microseconds); `gap` is in the same unit. Rows are those of one device
 (PARTITION BY device_id), sorted by `detected_at`; rows with the same `detected_at` come in any order.
 */
module Episodes {
  import opened Wrappers
  import opened Order

  datatype Severity = Info | Warning | Critical | Other(name: string)

  /** A missing severity or alert type is null or the empty string. */
  datatype Incident = Incident(
    id: int, start: int, resolved: Option<int>, severity: Option<Severity>, alertType: Option<string>)

  /** `inc.severity or "warning"`. */
  function SeverityOf(i: Incident): Severity {
    i.severity.GetOr(Warning)
  }

  /** `_SEVERITY_RANK.get(severity, 0)`. */
  function Rank(severity: Severity): nat {
    match severity
    case Critical => 2
    case Warning => 1
    case _ => 0
  }

  /** A row of the `base` relation: [detected_at, real_end]. */
  datatype Span = Span(lo: int, hi: int)

  function RealEnd(i: Incident, now: int): int {
    i.resolved.GetOr(now)
  }

  function SpanOf(i: Incident, now: int): Span {
    Span(i.start, RealEnd(i, now))
  }

  function Spans(rows: seq<Incident>, now: int): seq<Span> {
    seq(|rows|, k requires 0 <= k < |rows| => SpanOf(rows[k], now))
  }

  /** Sorted by `detected_at`; an incident does not end before it starts. */
  ghost predicate Ordered(b: seq<Span>) {
    && (forall i, j :: 0 <= i < j < |b| ==> b[i].lo <= b[j].lo)
    && (forall i :: 0 <= i < |b| ==> b[i].lo <= b[i].hi)
  }

  function Max(a: int, b: int): int {
    if a > b then a else b
  }

  function Min(a: int, b: int): int {
    if a < b then a else b
  }

  // ---------------------------------------------------------------- the SQL query

  /** CTE `flagged`: the last row of `b` opens a new group (`lag` is NULL on the first row). */
  predicate IsNew(b: seq<Span>, gap: int)
    requires b != []
  {
    |b| == 1 || Last(b).lo - b[|b| - 2].hi >= gap
  }

  /** CTE `grouped`: the running sum of the flags, row by row, at the last row of `b`. */
  function Grp(b: seq<Span>, gap: int): (g: nat)
    requires b != []
    ensures 1 <= g <= |b|
  {
    (if IsNew(b, gap) then 1 else 0) + (if |b| == 1 then 0 else Grp(Init(b), gap))
  }

  /** The value of `grp` on row `i`. */
  function GrpAt(b: seq<Span>, gap: int, i: nat): nat
    requires i < |b|
  {
    Grp(b[..i + 1], gap)
  }

  /** Row `i` opens a group. */
  predicate Opens(b: seq<Span>, gap: int, i: nat)
    requires i < |b|
  {
    i == 0 || b[i].lo - b[i - 1].hi >= gap
  }

  /** The rows that GROUP BY puts in group `g`. */
  function GroupRows(b: seq<Span>, gap: int, g: int): seq<Span> {
    if b == [] then []
    else GroupRows(Init(b), gap, g) + (if Grp(b, gap) == g then [Last(b)] else [])
  }

  function MinLo(b: seq<Span>): int
    requires b != []
  {
    if |b| == 1 then b[0].lo else Min(MinLo(Init(b)), Last(b).lo)
  }

  function MaxHi(b: seq<Span>): int
    requires b != []
  {
    if |b| == 1 then b[0].hi else Max(MaxHi(Init(b)), Last(b).hi)
  }

  function GroupCount(b: seq<Span>, gap: int): nat {
    if b == [] then 0 else Grp(b, gap)
  }

  lemma MaxHiBounds(b: seq<Span>)
    requires b != []
    ensures forall i :: 0 <= i < |b| ==> b[i].hi <= MaxHi(b)
    ensures exists i :: 0 <= i < |b| && b[i].hi == MaxHi(b)
  {
    if |b| > 1 {
      MaxHiBounds(Init(b));
      var i :| 0 <= i < |Init(b)| && Init(b)[i].hi == MaxHi(Init(b));
      assert b[i].hi == MaxHi(Init(b));
      assert b[|b| - 1] == Last(b);
    } else {
      assert b[0].hi == MaxHi(b);
    }
  }

  lemma MinLoIsFirst(b: seq<Span>)
    requires b != [] && Ordered(b)
    ensures MinLo(b) == b[0].lo
  {
    if |b| > 1 {
      MinLoIsFirst(Init(b));
    }
  }

  /** Every group number up to the last one is used, and only by a non-empty group. */
  lemma GroupNonEmpty(b: seq<Span>, gap: int, g: int)
    ensures GroupRows(b, gap, g) != [] <==> 1 <= g <= GroupCount(b, gap)
  {
    if b != [] {
      GroupNonEmpty(Init(b), gap, g);
      if |b| > 1 {
        assert Init(b) != [];
      }
    }
  }

  /** CTE `episodes`: min(detected_at), max(real_end) of one group. */
  function Episode(b: seq<Span>, gap: int, g: int): Span
    requires 1 <= g <= GroupCount(b, gap)
  {
    GroupNonEmpty(b, gap, g);
    Span(MinLo(GroupRows(b, gap, g)), MaxHi(GroupRows(b, gap, g)))
  }

  /** The first `n` groups, in group order. */
  function EpisodesUpTo(b: seq<Span>, gap: int, n: nat): (eps: seq<Span>)
    requires n <= GroupCount(b, gap)
    ensures |eps| == n
  {
    if n == 0 then [] else EpisodesUpTo(b, gap, n - 1) + [Episode(b, gap, n)]
  }

  function SqlEpisodes(b: seq<Span>, gap: int): (eps: seq<Span>)
    ensures |eps| == GroupCount(b, gap)
    ensures b != [] ==> eps != []
  {
    EpisodesUpTo(b, gap, GroupCount(b, gap))
  }

  lemma {:induction false} EpisodeAt(b: seq<Span>, gap: int, n: nat, k: nat)
    requires k < n <= GroupCount(b, gap)
    ensures EpisodesUpTo(b, gap, n)[k] == Episode(b, gap, k + 1)
  {
    var before := EpisodesUpTo(b, gap, n - 1);
    assert EpisodesUpTo(b, gap, n) == before + [Episode(b, gap, n)];
    if k < n - 1 {
      EpisodeAt(b, gap, n - 1, k);
      assert before[k] == Episode(b, gap, k + 1);
    } else {
      assert (before + [Episode(b, gap, n)])[n - 1] == Episode(b, gap, n);
    }
  }

  // ---------------------------------------------------------------- the Python loop

  /** `_MergedEpisode`; `realEnd` is `current_real_end`. */
  datatype Merged = Merged(
    firstId: int, startedAt: int, endedAt: Option<int>, realEnd: int,
    duration: int, flapCount: nat, severity: Severity, alertType: string, subs: seq<(int, Option<int>)>)
  {
    predicate Ongoing() { endedAt == None }
  }

  /** The incidents cut wherever the pause since the previous row reaches the merge gap. */
  function Groups(rows: seq<Incident>, gap: int, now: int): (gs: seq<seq<Incident>>)
    ensures (gs == []) == (rows == [])
    ensures forall k :: 0 <= k < |gs| ==> gs[k] != []
    ensures rows != [] ==> Last(Last(gs)) == Last(rows)
  {
    if rows == [] then []
    else
      var gs := Groups(Init(rows), gap, now);
      if |rows| > 1 && Last(rows).start - RealEnd(rows[|rows| - 2], now) < gap
      then Init(gs) + [Last(gs) + [Last(rows)]]
      else gs + [[Last(rows)]]
  }

  function MaxSeverity(g: seq<Incident>): Severity
    requires g != []
  {
    if |g| == 1 then SeverityOf(g[0]) else Worse(MaxSeverity(Init(g)), SeverityOf(Last(g)))
  }

  /** The next severity, if its rank is higher. */
  function Worse(current: Severity, next: Severity): Severity {
    if Rank(next) > Rank(current) then next else current
  }

  function SubsOf(g: seq<Incident>): seq<(int, Option<int>)> {
    seq(|g|, k requires 0 <= k < |g| => (g[k].start, g[k].resolved))
  }

  /** What one merged episode reports about the incidents it fuses. */
  function Summary(g: seq<Incident>, now: int): Merged
    requires g != []
  {
    Merged(g[0].id, g[0].start, Last(g).resolved, RealEnd(Last(g), now),
           Max(0, RealEnd(Last(g), now) - g[0].start), |g|, MaxSeverity(g), g[0].alertType.GetOr(""), SubsOf(g))
  }

  function Summaries(gs: seq<seq<Incident>>, now: int): (ms: seq<Merged>)
    requires forall k :: 0 <= k < |gs| ==> gs[k] != []
    ensures |ms| == |gs|
    ensures forall k :: 0 <= k < |gs| ==> ms[k] == Summary(gs[k], now)
  {
    if gs == [] then [] else Summaries(Init(gs), now) + [Summary(Last(gs), now)]
  }

  /**
   Half-way through the pass: the groups closed so far have been reported, and the local variables hold
   the summary of the open one, its duration aside.
   */
  ghost predicate Midway(rows: seq<Incident>, gap: int, now: int, merged: seq<Merged>, state: Merged) {
    && rows != []
    && var gs := Groups(rows, gap, now);
       && merged == Summaries(Init(gs), now)
       && state.(duration := Summary(Last(gs), now).duration) == Summary(Last(gs), now)
  }

  lemma JoinsOpenGroup(rows: seq<Incident>, gap: int, now: int, merged: seq<Merged>, state: Merged, inc: Incident)
    requires Midway(rows, gap, now, merged, state) && inc.start - state.realEnd < gap
    ensures Midway(rows + [inc], gap, now, merged,
                   state.(flapCount := state.flapCount + 1, endedAt := inc.resolved, realEnd := RealEnd(inc, now),
                          subs := state.subs + [(inc.start, inc.resolved)],
                          severity := Worse(state.severity, SeverityOf(inc))))
  {
    var gs := Groups(rows, gap, now);
    var open := Last(gs);
    assert Init(rows + [inc]) == rows;
    assert Last(open) == Last(rows);
    assert Groups(rows + [inc], gap, now) == Init(gs) + [open + [inc]];
    assert Init(Init(gs) + [open + [inc]]) == Init(gs);
    assert Init(open + [inc]) == open;
    assert SubsOf(open + [inc]) == SubsOf(open) + [(inc.start, inc.resolved)];
  }

  lemma OpensGroup(rows: seq<Incident>, gap: int, now: int, merged: seq<Merged>, state: Merged, inc: Incident)
    requires Midway(rows, gap, now, merged, state) && inc.start - state.realEnd >= gap
    ensures Midway(rows + [inc], gap, now, merged + [Closed(state)], Opened(inc, now))
  {
    var gs := Groups(rows, gap, now);
    assert Init(rows + [inc]) == rows;
    assert Last(Last(gs)) == Last(rows);
    assert Groups(rows + [inc], gap, now) == gs + [[inc]];
    assert Init(gs + [[inc]]) == gs;
  }

  function Opened(inc: Incident, now: int): Merged {
    Merged(inc.id, inc.start, inc.resolved, RealEnd(inc, now), 0, 1, SeverityOf(inc), inc.alertType.GetOr(""),
           [(inc.start, inc.resolved)])
  }

  function Closed(state: Merged): Merged {
    state.(duration := Max(0, state.realEnd - state.startedAt))
  }

  lemma FirstRow(inc: Incident, gap: int, now: int)
    ensures Midway([inc], gap, now, [], Opened(inc, now))
  {
    assert Init([inc]) == [];
    assert Groups([inc], gap, now) == [[inc]];
    assert Init([[inc]]) == [];
  }

  lemma AllRows(rows: seq<Incident>, gap: int, now: int, merged: seq<Merged>, state: Merged)
    requires Midway(rows, gap, now, merged, state)
    ensures merged + [Closed(state)] == Summaries(Groups(rows, gap, now), now)
  {
    assert Closed(state) == Summary(Last(Groups(rows, gap, now)), now);
  }

  /** `_merge_episodes`: one pass, the open episode kept in local variables until it is flushed. */
  method MergeEpisodes(incidents: seq<Incident>, gap: int, now: int) returns (merged: seq<Merged>)
    ensures merged == Summaries(Groups(incidents, gap, now), now)
  {
    merged := [];
    if incidents == [] {
      return;
    }
    var state := Opened(incidents[0], now);
    var n := 1;
    ghost var rows := [incidents[0]];
    FirstRow(incidents[0], gap, now);
    while n < |incidents|
      invariant 1 <= n <= |incidents| && rows == incidents[..n]
      invariant Midway(rows, gap, now, merged, state)
    {
      var inc := incidents[n];
      var pause := inc.start - state.realEnd;
      if pause < gap {
        JoinsOpenGroup(rows, gap, now, merged, state, inc);
        state := state.(flapCount := state.flapCount + 1, endedAt := inc.resolved, realEnd := RealEnd(inc, now),
                        subs := state.subs + [(inc.start, inc.resolved)],
                        severity := Worse(state.severity, SeverityOf(inc)));
      } else {
        OpensGroup(rows, gap, now, merged, state, inc);
        merged := merged + [Closed(state)];
        state := Opened(inc, now);
      }
      rows := rows + [inc];
      n := n + 1;
    }
    assert rows == incidents;
    AllRows(rows, gap, now, merged, state);
    merged := merged + [Closed(state)];
  }
}
