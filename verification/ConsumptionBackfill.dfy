/**
 `backfill_consumption_daily`: which days are still to be totalled, newest first, one commit a day, and
 what an interruption leaves to the next run.
 */
module ConsumptionBackfill {
  import opened Wrappers

  type Rows = map<int, int>

  /** The daily summary: the rows of each day that has any. */
  type Table = map<int, Rows>

  /** `rollup_day` replaces the rows of the day it finds samples for. */
  function Rolled(t: Table, day: int, rows: Rows): Table {
    if rows == map[] then t else t[day := (if day in t then t[day] else map[]) + rows]
  }

  /** The days from `last` back to `first` that are not done, newest first. */
  function Plan(done: set<int>, first: int, last: int): seq<int>
    decreases last - first + 1
  {
    if last < first then [] else (if last in done then [] else [last]) + Plan(done, first, last - 1)
  }

  lemma {:induction false} PlanHolds(done: set<int>, first: int, last: int, d: int)
    ensures d in Plan(done, first, last) <==> first <= d <= last && d !in done
    decreases last - first + 1
  {
    if last < first {
    } else {
      PlanHolds(done, first, last - 1, d);
    }
  }

  predicate NewestFirst(days: seq<int>) {
    forall i, j :: 0 <= i < j < |days| ==> days[i] > days[j]
  }

  lemma {:induction false} PlanIsNewestFirst(done: set<int>, first: int, last: int)
    ensures NewestFirst(Plan(done, first, last))
    decreases last - first + 1
  {
    if last < first {
    } else {
      PlanIsNewestFirst(done, first, last - 1);
      var rest, days := Plan(done, first, last - 1), Plan(done, first, last);
      if last !in done {
        forall i, j | 0 <= i < j < |days| ensures days[i] > days[j] {
          assert days[j] == rest[j - 1] && (i > 0 ==> days[i] == rest[i - 1]);
          PlanHolds(done, first, last - 1, rest[j - 1]);
        }
      } else {
        assert days == rest;
      }
    }
  }

  /** The days of a run committed one after the other. */
  function Committed(t: Table, days: seq<int>, totals: int -> Rows): Table {
    if days == [] then t
    else Rolled(Committed(t, days[..|days| - 1], totals), days[|days| - 1], totals(days[|days| - 1]))
  }

  /** The rows of one day, if it has any. */
  function At(t: Table, d: int): Option<Rows> {
    if d in t then Some(t[d]) else None
  }

  /** A day committed, once or often, has its totals over its old rows; no other day moves. */
  lemma {:induction false} CommittedAt(t: Table, days: seq<int>, totals: int -> Rows, d: int)
    ensures At(Committed(t, days, totals), d) == At(if d in days then Rolled(t, d, totals(d)) else t, d)
  {
    if days == [] {
    } else {
      var n := |days| - 1;
      assert days == days[..n] + [days[n]];
      CommittedAt(t, days[..n], totals, d);
      if d == days[n] && d in t {
        assert (t[d] + totals(d)) + totals(d) == t[d] + totals(d);
      }
      assert (map[] + totals(d)) + totals(d) == map[] + totals(d);
    }
  }

  // ---------------------------------------------------------------- runs

  /** A run: its range of days, whether `--force` plans done days too, and after how many commits it stops. */
  datatype Leg = Leg(first: int, last: int, force: bool, stop: nat)

  function Days(t: Table, leg: Leg): seq<int> {
    Plan(if leg.force then {} else t.Keys, leg.first, leg.last)
  }

  function Commits(t: Table, leg: Leg): (k: nat)
    ensures k <= |Days(t, leg)|
  {
    if leg.stop <= |Days(t, leg)| then leg.stop else |Days(t, leg)|
  }

  function Run(t: Table, leg: Leg, totals: int -> Rows): Table {
    Committed(t, Days(t, leg)[..Commits(t, leg)], totals)
  }

  /** The run that reaches its end. */
  function FullRun(t: Table, leg: Leg, totals: int -> Rows): Table {
    Committed(t, Days(t, leg), totals)
  }

  /** The day is one that the run plans from `t`. */
  predicate Plans(t: Table, leg: Leg, d: int) {
    leg.first <= d <= leg.last && (leg.force || d !in t)
  }

  lemma FullRunAt(t: Table, leg: Leg, totals: int -> Rows, d: int)
    ensures At(FullRun(t, leg, totals), d) == At(if Plans(t, leg, d) then Rolled(t, d, totals(d)) else t, d)
  {
    CommittedAt(t, Days(t, leg), totals, d);
    PlanHolds(if leg.force then {} else t.Keys, leg.first, leg.last, d);
  }

  /** The total of one client on one day. */
  function Cell(t: Table, d: int, client: int): Option<int> {
    if d in t && client in t[d] then Some(t[d][client]) else None
  }

  /**
   A complete run leaves the total of every client with samples on a planned day, and every other total as it was;
   a day is added only if some client has samples.
   */
  lemma FullRunWrites(t: Table, leg: Leg, totals: int -> Rows, d: int, client: int)
    ensures var end := FullRun(t, leg, totals);
            var planned := leg.first <= d <= leg.last && (leg.force || d !in t);
            && Cell(end, d, client) ==
               (if planned && client in totals(d) then Some(totals(d)[client]) else Cell(t, d, client))
            && (d in end <==> d in t || (planned && totals(d) != map[]))
  {
    FullRunAt(t, leg, totals, d);
    var end := FullRun(t, leg, totals);
    assert d in end <==> At(end, d).Some?;
    assert d in end ==> At(end, d).value == end[d];
  }

  /** An interrupted run has written the first `stop` days of its plan, and no other day. */
  lemma RunWrites(t: Table, leg: Leg, totals: int -> Rows, i: nat, client: int)
    requires i < |Days(t, leg)|
    ensures var d := Days(t, leg)[i];
            Cell(Run(t, leg, totals), d, client) ==
            if i < leg.stop && client in totals(d) then Some(totals(d)[client]) else Cell(t, d, client)
  {
    var days, end := Days(t, leg), Run(t, leg, totals);
    var d, k := days[i], Commits(t, leg);
    PlanIsNewestFirst(if leg.force then {} else t.Keys, leg.first, leg.last);
    CommittedAt(t, days[..k], totals, d);
    assert d in days[..k] <==> i < k by {
      if i < k {
        assert days[..k][i] == d;
      }
      assert forall j :: 0 <= j < k && j != i ==> days[..k][j] == days[j] != d;
    }
    assert d in end <==> At(end, d).Some?;
    assert d in end ==> At(end, d).value == end[d];
  }

  /** What an interrupted run changed it had committed, and what it did not complete was still to come. */
  lemma DoneAndToDo(t: Table, days: seq<int>, k: nat, totals: int -> Rows, d: int)
    requires k <= |days|
    ensures At(Committed(t, days[..k], totals), d) != At(t, d) ==> d in days[..k]
    ensures At(Committed(t, days[..k], totals), d) != At(Committed(t, days, totals), d) ==> d in days[k..]
  {
    assert days == days[..k] + days[k..];
    CommittedAt(t, days[..k], totals, d);
    CommittedAt(t, days, totals, d);
  }

  /**
   An interrupted run has covered the newest days: a planned day that it does not leave as a complete run
   would is older than every day it changed.
   */
  lemma InterruptionLeavesTheOldest(t: Table, leg: Leg, totals: int -> Rows, d: int, e: int)
    requires At(Run(t, leg, totals), d) != At(t, d)
    requires At(Run(t, leg, totals), e) != At(FullRun(t, leg, totals), e)
    ensures e < d
  {
    var days, k := Days(t, leg), Commits(t, leg);
    DoneAndToDo(t, days, k, totals, d);
    DoneAndToDo(t, days, k, totals, e);
    PlanIsNewestFirst(if leg.force then {} else t.Keys, leg.first, leg.last);
    LaterIsOlder(days, k, d, e);
  }

  lemma LaterIsOlder(days: seq<int>, k: nat, d: int, e: int)
    requires NewestFirst(days) && k <= |days| && d in days[..k] && e in days[k..]
    ensures e < d
  {
    var i :| 0 <= i < k && days[..k][i] == d;
    var j :| 0 <= j < |days| - k && days[k..][j] == e;
    assert days[i] == d && days[k + j] == e;
  }

  // ---------------------------------------------------------------- any history of runs

  function Runs(t: Table, legs: seq<Leg>, totals: int -> Rows): Table
    decreases |legs|
  {
    if legs == [] then t else Runs(Run(t, legs[0], totals), legs[1..], totals)
  }

  /** The day is committed and its rows change: there are samples the table does not have. */
  predicate Changes(t: Table, leg: Leg, totals: int -> Rows, d: int) {
    d in Days(t, leg)[..Commits(t, leg)] && At(Rolled(t, d, totals(d)), d) != At(t, d)
  }

  /** No run of the history changes a day that the run `final` would not have planned at the start. */
  ghost predicate StaysIn(start: Table, t: Table, legs: seq<Leg>, totals: int -> Rows, final: Leg)
    decreases |legs|
  {
    legs != [] ==>
      && (forall d :: Changes(t, legs[0], totals, d) ==> Plans(start, final, d))
      && StaysIn(start, Run(t, legs[0], totals), legs[1..], totals, final)
  }

  lemma RunAt(t: Table, leg: Leg, totals: int -> Rows, d: int)
    ensures At(Run(t, leg, totals), d) ==
            At(if Changes(t, leg, totals, d) then Rolled(t, d, totals(d)) else t, d)
  {
    CommittedAt(t, Days(t, leg)[..Commits(t, leg)], totals, d);
  }

  /** Rolling a day again changes nothing. */
  lemma RolledTwice(t: Table, u: Table, d: int, rows: Rows)
    requires At(u, d) == At(Rolled(t, d, rows), d) || At(u, d) == At(t, d)
    ensures At(Rolled(u, d, rows), d) == At(Rolled(t, d, rows), d)
  {
    if d in t {
      assert (t[d] + rows) + rows == t[d] + rows;
    }
    assert (map[] + rows) + rows == map[] + rows;
  }

  /** After any history a day is as it was or as one commit leaves it. */
  lemma {:induction false} RunsAt(start: Table, t: Table, legs: seq<Leg>, totals: int -> Rows, d: int)
    requires At(t, d) == At(start, d) || At(t, d) == At(Rolled(start, d, totals(d)), d)
    ensures var end := Runs(t, legs, totals);
            && (At(end, d) == At(start, d) || At(end, d) == At(Rolled(start, d, totals(d)), d))
            && (At(t, d) != At(start, d) ==> At(end, d) != At(start, d))
    decreases |legs|
  {
    if legs == [] {
    } else {
      RunAt(t, legs[0], totals, d);
      RolledTwice(start, t, d, totals(d));
      RunsAt(start, Run(t, legs[0], totals), legs[1..], totals, d);
    }
  }

  /** The days a history has changed are among those the final run plans, exactly if it stays in. */
  lemma {:induction false} StaysInMeans(start: Table, t: Table, legs: seq<Leg>, totals: int -> Rows, final: Leg)
    requires forall d :: At(t, d) == At(start, d)
                         || (At(t, d) == At(Rolled(start, d, totals(d)), d) && Plans(start, final, d))
    ensures StaysIn(start, t, legs, totals, final) <==>
            forall d :: At(Runs(t, legs, totals), d) != At(start, d) ==> Plans(start, final, d)
    decreases |legs|
  {
    if legs == [] {
    } else {
      var mid := Run(t, legs[0], totals);
      forall d
        ensures At(mid, d) == At(start, d) || At(mid, d) == At(Rolled(start, d, totals(d)), d)
        ensures Changes(t, legs[0], totals, d) ==> At(mid, d) != At(start, d)
        ensures At(mid, d) != At(start, d) ==> Plans(start, final, d) || Changes(t, legs[0], totals, d)
        ensures At(mid, d) != At(start, d) ==> At(Runs(t, legs, totals), d) != At(start, d)
      {
        RunAt(t, legs[0], totals, d);
        RolledTwice(start, t, d, totals(d));
        RunsAt(start, mid, legs[1..], totals, d);
      }
      if forall d :: Changes(t, legs[0], totals, d) ==> Plans(start, final, d) {
        StaysInMeans(start, mid, legs[1..], totals, final);
      }
    }
  }

  /**
   Any history of interrupted runs, each over its own days and with or without `--force`, then one that
   reaches its end: the same table as that one run alone, exactly when none of them changed a day that it
   would not have planned.
   */
  lemma AnyHistoryEndsTheSame(t: Table, legs: seq<Leg>, totals: int -> Rows, final: Leg)
    ensures FullRun(Runs(t, legs, totals), final, totals) == FullRun(t, final, totals) <==>
            StaysIn(t, t, legs, totals, final)
  {
    var end := Runs(t, legs, totals);
    var resumed, once := FullRun(end, final, totals), FullRun(t, final, totals);
    StaysInMeans(t, t, legs, totals, final);
    forall d
      ensures At(resumed, d) == At(once, d) <==> (At(end, d) != At(t, d) ==> Plans(t, final, d))
    {
      RunsAt(t, t, legs, totals, d);
      FullRunAt(end, final, totals, d);
      FullRunAt(t, final, totals, d);
      RolledTwice(t, end, d, totals(d));
    }
    SameTable(resumed, once);
  }

  lemma SameTable(a: Table, b: Table)
    ensures a == b <==> forall d :: At(a, d) == At(b, d)
  {
    if forall d :: At(a, d) == At(b, d) {
      forall d ensures (d in a <==> d in b) && (d in a ==> a[d] == b[d]) {
        assert At(a, d) == At(b, d);
      }
    }
  }

  /** In particular when the final run is forced, or none of them is, and every range lies in its own. */
  lemma {:induction false} RangesWithinStayIn(start: Table, t: Table, legs: seq<Leg>, totals: int -> Rows, final: Leg)
    requires forall i :: 0 <= i < |legs| ==> final.first <= legs[i].first && legs[i].last <= final.last
    requires final.force || (start.Keys <= t.Keys && forall i :: 0 <= i < |legs| ==> !legs[i].force)
    ensures StaysIn(start, t, legs, totals, final)
    decreases |legs|
  {
    if legs == [] {
    } else {
      var mid := Run(t, legs[0], totals);
      forall d ensures Changes(t, legs[0], totals, d) ==> Plans(start, final, d) {
        PlanHolds(if legs[0].force then {} else t.Keys, legs[0].first, legs[0].last, d);
        assert d in Days(t, legs[0])[..Commits(t, legs[0])] ==> d in Days(t, legs[0]);
      }
      forall d | d in start && !final.force ensures d in mid {
        RunAt(t, legs[0], totals, d);
      }
      RangesWithinStayIn(start, mid, legs[1..], totals, final);
    }
  }

  // ---------------------------------------------------------------- the script

  class Summary {
    var table: Table

    constructor (t: Table)
      ensures table == t
    {
      table := t;
    }

    /** The planning loop: `day` steps back from the last day. */
    method PlanDays(first: int, last: int, force: bool) returns (days: seq<int>)
      ensures days == Plan(if force then {} else table.Keys, first, last)
    {
      var done := if force then {} else table.Keys;
      days := [];
      var day := last;
      assert days + Plan(done, first, day) == Plan(done, first, last);
      while day >= first
        invariant days + Plan(done, first, day) == Plan(done, first, last)
        decreases day - first + 1
      {
        ghost var before := days;
        if day !in done {
          days := days + [day];
        }
        assert days + Plan(done, first, day - 1) == before + Plan(done, first, day);
        day := day - 1;
      }
    }

    /** The per-day commits, up to the one after which the run stops. */
    method Apply(leg: Leg, totals: int -> Rows) returns (committed: nat)
      modifies this
      ensures committed == Commits(old(table), leg)
      ensures table == Run(old(table), leg, totals)
    {
      var days := PlanDays(leg.first, leg.last, leg.force);
      ghost var t := table;
      committed := 0;
      while committed < |days| && committed < leg.stop
        invariant 0 <= committed <= |days| && committed <= leg.stop
        invariant table == Committed(t, days[..committed], totals)
      {
        ghost var next := days[..committed + 1];
        assert next[..committed] == days[..committed];
        table := Rolled(table, days[committed], totals(days[committed]));
        committed := committed + 1;
      }
    }
  }
}
