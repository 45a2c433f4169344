/**
 The grouping as the query writes it: a running sum without a frame clause, which takes in every row that
 starts together with the current one. This module says when that is the sum taken row by row.
 */
module EpisodeQuery {
  import opened Order
  import opened Episodes
  import opened EpisodeMeaning

  // ---------------------------------------------------------------- the running sum

  /**
   What `sum(is_new) OVER (... ORDER BY detected_at)` gives on a row that starts at `lo`: without a frame
   clause the running sum takes in every row that starts no later, those that start together included.
   */
  ghost function PeerSum(b: seq<Span>, gap: int, lo: int): nat {
    |set i | 0 <= i < |b| && b[i].lo <= lo && Opens(b, gap, i)|
  }

  /** The rows up to row `n` that open a group. */
  function OpenersUpTo(b: seq<Span>, gap: int, n: nat): set<int>
    requires n < |b|
  {
    set i | 0 <= i <= n && Opens(b, gap, i)
  }

  lemma OpenersStep(b: seq<Span>, gap: int, n: nat)
    requires 0 < n < |b|
    ensures |OpenersUpTo(b, gap, n)| == |OpenersUpTo(b, gap, n - 1)| + if Opens(b, gap, n) then 1 else 0
  {
    if Opens(b, gap, n) {
      assert OpenersUpTo(b, gap, n) == OpenersUpTo(b, gap, n - 1) + {n};
    } else {
      assert OpenersUpTo(b, gap, n) == OpenersUpTo(b, gap, n - 1);
    }
  }

  lemma {:induction false} GrpCountsOpeners(b: seq<Span>, gap: int, n: nat)
    requires n < |b|
    ensures GrpAt(b, gap, n) == |OpenersUpTo(b, gap, n)|
    decreases n
  {
    if n == 0 {
      assert OpenersUpTo(b, gap, n) == {0};
    } else {
      GrpCountsOpeners(b, gap, n - 1);
      OpenersStep(b, gap, n);
      assert Init(b[..n + 1]) == b[..n];
    }
  }

  /** Row `j` starts together with an earlier row `i` and opens a group all the same. */
  predicate OpensAmongPeers(b: seq<Span>, gap: int, i: nat, j: nat)
    requires i < j < |b|
  {
    b[i].lo == b[j].lo && Opens(b, gap, j)
  }

  predicate NoPeerOpens(b: seq<Span>, gap: int, i: nat)
    requires i < |b|
  {
    forall j: nat :: i < j < |b| ==> !OpensAmongPeers(b, gap, i, j)
  }

  /** The sum over peers is the one taken row by row. */
  ghost predicate SumsAgree(b: seq<Span>, gap: int) {
    forall n: nat :: n < |b| ==> PeerSum(b, gap, b[n].lo) == GrpAt(b, gap, n)
  }

  /**
   The running sum over peers is the running sum over rows, unless a row opens a group among its peers.
   That takes a merge gap of 0 and an incident resolved at the instant it was detected.
   */
  lemma PeersShareTheirGroup(b: seq<Span>, gap: int)
    requires Ordered(b)
    ensures SumsAgree(b, gap) <==> forall n: nat :: n < |b| ==> NoPeerOpens(b, gap, n)
    ensures gap > 0 ==> forall n: nat :: n < |b| ==> NoPeerOpens(b, gap, n)
  {
    forall n: nat | n < |b|
      ensures PeerSum(b, gap, b[n].lo) == GrpAt(b, gap, n) <==> NoPeerOpens(b, gap, n)
      ensures gap > 0 ==> NoPeerOpens(b, gap, n)
    {
      PeersOfOneRow(b, gap, n);
      if gap > 0 {
        forall j: nat | n < j < |b| ensures !OpensAmongPeers(b, gap, n, j) {
          assert b[j - 1].lo <= b[j - 1].hi && b[n].lo <= b[j - 1].lo;
        }
      }
    }
  }

  lemma PeersOfOneRow(b: seq<Span>, gap: int, n: nat)
    requires Ordered(b) && n < |b|
    ensures PeerSum(b, gap, b[n].lo) == GrpAt(b, gap, n) <==> NoPeerOpens(b, gap, n)
  {
    GrpCountsOpeners(b, gap, n);
    var rows := OpenersUpTo(b, gap, n);
    var later := set j | n < j < |b| && OpensAmongPeers(b, gap, n, j);
    PeersSplit(b, gap, n, rows, later);
    if j: nat :| n < j < |b| && OpensAmongPeers(b, gap, n, j) {
      assert j in later;
      assert |later - {j}| == |later| - 1;
    } else {
      assert later == {};
    }
  }

  lemma PeersSplit(b: seq<Span>, gap: int, n: nat, rows: set<int>, later: set<int>)
    requires Ordered(b) && n < |b|
    requires rows == OpenersUpTo(b, gap, n)
    requires later == set j | n < j < |b| && OpensAmongPeers(b, gap, n, j)
    ensures PeerSum(b, gap, b[n].lo) == |rows| + |later|
  {
    var peers := set i | 0 <= i < |b| && b[i].lo <= b[n].lo && Opens(b, gap, i);
    forall i ensures i in peers <==> i in rows + later {
      if n < i < |b| {
        assert b[n].lo <= b[i].lo;
      }
    }
    assert peers == rows + later && rows !! later;
  }

  // ---------------------------------------------------------------- the episodes of the query

  /** The rows among the first `n` that the query's GROUP BY puts in group `g`: their sum takes in all their peers. */
  ghost function QueryRows(b: seq<Span>, gap: int, g: int, n: nat): seq<Span>
    requires n <= |b|
  {
    if n == 0 then []
    else QueryRows(b, gap, g, n - 1) + if PeerSum(b, gap, b[n - 1].lo) == g then [b[n - 1]] else []
  }

  /** CTE `episodes` for the group numbers up to `g`; a number that no row has gives none. */
  ghost function QueryUpTo(b: seq<Span>, gap: int, g: nat): seq<Span> {
    if g == 0 then []
    else
      var rows := QueryRows(b, gap, g, |b|);
      QueryUpTo(b, gap, g - 1) + if rows == [] then [] else [Span(MinLo(rows), MaxHi(rows))]
  }

  ghost function QueryEpisodes(b: seq<Span>, gap: int): seq<Span> {
    QueryUpTo(b, gap, GroupCount(b, gap))
  }

  lemma GroupRowsSnoc(b: seq<Span>, gap: int, g: int, n: nat)
    requires 0 < n <= |b|
    ensures GroupRows(b[..n], gap, g) ==
            GroupRows(b[..n - 1], gap, g) + if GrpAt(b, gap, n - 1) == g then [b[n - 1]] else []
  {
    assert Init(b[..n]) == b[..n - 1] && Last(b[..n]) == b[n - 1];
  }

  lemma {:induction false} QueryRowsAreGroupRows(b: seq<Span>, gap: int, g: int, n: nat)
    requires n <= |b| && SumsAgree(b, gap)
    ensures QueryRows(b, gap, g, n) == GroupRows(b[..n], gap, g)
  {
    if n == 0 {
    } else {
      QueryRowsAreGroupRows(b, gap, g, n - 1);
      GroupRowsSnoc(b, gap, g, n);
    }
  }

  lemma {:induction false} QueryUpToIs(b: seq<Span>, gap: int, g: nat)
    requires g <= GroupCount(b, gap) && SumsAgree(b, gap)
    ensures QueryUpTo(b, gap, g) == EpisodesUpTo(b, gap, g)
  {
    if g == 0 {
    } else {
      QueryUpToIs(b, gap, g - 1);
      QueryRowsAreGroupRows(b, gap, g, |b|);
      assert b[..|b|] == b;
      GroupNonEmpty(b, gap, g);
    }
  }

  /**
   With no group opened among peers, as under any merge gap above 0, the query gives the episodes of the
   row-by-row sum and of the one-pass form.
   */
  lemma QueryEpisodesAreFolded(b: seq<Span>, gap: int)
    requires Ordered(b)
    requires gap > 0 || forall n: nat :: n < |b| ==> NoPeerOpens(b, gap, n)
    ensures QueryEpisodes(b, gap) == SqlEpisodes(b, gap) == Folded(b, gap)
  {
    PeersShareTheirGroup(b, gap);
    QueryUpToIs(b, gap, GroupCount(b, gap));
    SqlEpisodesAreFolded(b, gap);
  }

  /** Under a gap of 0, a row among whose peers another opens a group: the query numbers the two alike. */
  lemma PeersCanOpen(x: int, y: int)
    requires x < y
    ensures var b := [Span(x, y), Span(x, x), Span(x, x)];
            Ordered(b) && GrpAt(b, 0, 0) != GrpAt(b, 0, 2) && PeerSum(b, 0, b[0].lo) != GrpAt(b, 0, 0)
  {
    var b := [Span(x, y), Span(x, x), Span(x, x)];
    assert b[..1] == [b[0]];
    assert Init(b[..3]) == b[..2] && Init(b[..2]) == b[..1];
    assert OpensAmongPeers(b, 0, 0, 2);
    PeersOfOneRow(b, 0, 0);
  }
}
