/** What the search for routes visits: every simple path within the hop limit, once, in depth-first order. */
module RouteVisits {
  import opened Order
  import opened Routes

  /** The visits from `path` on are the simple paths that extend it within the limit. */
  lemma {:induction false} VisitsAreSimplePaths(g: Graph, root: string, maxHops: nat, path: Path, p: Path)
    requires Simple(g, root, path) && |path| <= maxHops + 1
    ensures p in VisitsFrom(g, root, maxHops, path) <==> path <= p && Simple(g, root, p) && |p| <= maxHops + 1
    decreases maxHops + 1 - |path|, 1, 0
  {
    assert path <= p && |p| <= |path| ==> p == path;
    if path < p && Simple(g, root, p) {
      NextIsUnexplored(g, root, path, p);
    }
    if Last(path) != root && |path| < maxHops + 1 {
      VisitsViaAre(g, root, maxHops, path, Unexplored(g, path), p);
      assert path < p && Simple(g, root, p) ==> Extends(path, p, Unexplored(g, path));
    }
  }

  lemma {:induction false} VisitsViaAre(g: Graph, root: string, maxHops: nat, path: Path, nexts: seq<string>, p: Path)
    requires Simple(g, root, path) && |path| < maxHops + 1 && Last(path) != root
    requires forall x :: x in nexts ==> x in Unexplored(g, path)
    ensures p in VisitsVia(g, root, maxHops, path, nexts) <==>
            Extends(path, p, nexts) && Simple(g, root, p) && |p| <= maxHops + 1
    decreases maxHops + 1 - |path|, 0, |nexts|
  {
    if nexts == [] {
    } else {
      var n := |nexts| - 1;
      assert nexts == nexts[..n] + [nexts[n]];
      SimpleExtended(g, root, path, nexts[n]);
      VisitsAreSimplePaths(g, root, maxHops, path + [nexts[n]], p);
      VisitsViaAre(g, root, maxHops, path, nexts[..n], p);
      ExtendsByOne(path, p, nexts);
    }
  }

  // ---------------------------------------------------------------- the order

  /** `x` stands somewhere behind `y` in the list. */
  predicate Behind(xs: seq<string>, x: string, y: string) {
    exists a, b :: 0 <= a < b < |xs| && xs[a] == y && xs[b] == x
  }

  /** The paths part at position `k`, `p` towards the later neighbour. */
  predicate PartAt(g: Graph, p: Path, q: Path, k: nat) {
    && 0 < k < |p| && k < |q| && p[..k] == q[..k]
    && p[k - 1] in g && Behind(g[p[k - 1]], p[k], q[k])
  }

  /** `p` is visited before `q`: it leads to `q`, or the two part and `p` takes the later neighbour. */
  predicate Before(g: Graph, p: Path, q: Path) {
    p < q || exists k: nat | k < |p| :: PartAt(g, p, q, k)
  }

  ghost predicate Ordered(g: Graph, visits: seq<Path>) {
    forall i, j :: 0 <= i < j < |visits| ==> Before(g, visits[i], visits[j])
  }

  ghost predicate AllExtend(path: Path, visits: seq<Path>) {
    forall i :: 0 <= i < |visits| ==> path <= visits[i]
  }

  ghost predicate AllBetween(path: Path, nexts: seq<string>, visits: seq<Path>) {
    forall i :: 0 <= i < |visits| ==> Extends(path, visits[i], nexts)
  }

  lemma {:induction false} VisitsInOrder(g: Graph, root: string, maxHops: nat, path: Path)
    requires 0 < |path| <= maxHops + 1
    ensures Ordered(g, VisitsFrom(g, root, maxHops, path))
    ensures AllExtend(path, VisitsFrom(g, root, maxHops, path))
    decreases maxHops + 1 - |path|, 1, 0
  {
    if Last(path) != root && |path| < maxHops + 1 {
      var nexts := Unexplored(g, path);
      UnexploredInOrder(g, path);
      ViaInOrder(g, root, maxHops, path, nexts);
      var via := VisitsVia(g, root, maxHops, path, nexts);
      forall j | 0 <= j < |via| ensures path < via[j] {
        assert Extends(path, via[j], nexts);
      }
      OneInFront(g, path, via);
    }
  }

  lemma OneInFront(g: Graph, path: Path, via: seq<Path>)
    requires Ordered(g, via) && forall j :: 0 <= j < |via| ==> path < via[j]
    ensures Ordered(g, [path] + via) && AllExtend(path, [path] + via)
  {
    var all := [path] + via;
    forall i, j | 0 <= i < j < |all| ensures Before(g, all[i], all[j]) {
      assert all[j] == via[j - 1];
      if i > 0 {
        assert Before(g, via[i - 1], via[j - 1]);
      }
    }
  }

  /** Neighbours in the order of their list. */
  ghost predicate InListOrder(g: Graph, path: Path, nexts: seq<string>)
    requires path != []
  {
    forall i, j :: 0 <= i < j < |nexts| ==> InTurn(g, path, nexts[i], nexts[j])
  }

  predicate InTurn(g: Graph, path: Path, x: string, y: string)
    requires path != []
  {
    Last(path) in g && Behind(g[Last(path)], y, x)
  }

  lemma FrontInListOrder(g: Graph, path: Path, nexts: seq<string>, front: seq<string>)
    requires path != [] && InListOrder(g, path, nexts) && front <= nexts
    ensures InListOrder(g, path, front)
  {
    forall i, j | 0 <= i < j < |front| ensures InTurn(g, path, front[i], front[j]) {
      assert front[i] == nexts[i] && front[j] == nexts[j];
    }
  }

  lemma {:induction false} ViaInOrder(g: Graph, root: string, maxHops: nat, path: Path, nexts: seq<string>)
    requires 0 < |path| < maxHops + 1 && InListOrder(g, path, nexts)
    ensures Ordered(g, VisitsVia(g, root, maxHops, path, nexts))
    ensures AllBetween(path, nexts, VisitsVia(g, root, maxHops, path, nexts))
    decreases maxHops + 1 - |path|, 0, |nexts|
  {
    if nexts == [] {
    } else {
      var n := |nexts| - 1;
      var front, longer := nexts[..n], path + [nexts[n]];
      FrontInListOrder(g, path, nexts, front);
      VisitsInOrder(g, root, maxHops, longer);
      ViaInOrder(g, root, maxHops, path, front);
      Branches(g, path, nexts, VisitsFrom(g, root, maxHops, longer), VisitsVia(g, root, maxHops, path, front));
    }
  }

  lemma Branches(g: Graph, path: Path, nexts: seq<string>, a: seq<Path>, b: seq<Path>)
    requires path != [] && nexts != [] && InListOrder(g, path, nexts) && Ordered(g, a) && Ordered(g, b)
    requires AllExtend(path + [nexts[|nexts| - 1]], a) && AllBetween(path, nexts[..|nexts| - 1], b)
    ensures Ordered(g, a + b) && AllBetween(path, nexts, a + b)
  {
    var n, all := |nexts| - 1, a + b;
    forall i, j | 0 <= i < j < |all| ensures Before(g, all[i], all[j]) {
      if j < |a| {
        assert all[i] == a[i] && all[j] == a[j];
      } else if i >= |a| {
        assert Before(g, b[i - |a|], b[j - |a|]);
      } else {
        var p, q := a[i], b[j - |a|];
        assert Extends(path, q, nexts[..n]);
        LaterBranch(g, path, nexts, p, q);
      }
    }
    forall i | 0 <= i < |all| ensures Extends(path, all[i], nexts) {
      if i >= |a| {
        assert Extends(path, b[i - |a|], nexts[..n]);
      } else {
        assert all[i][|path|] == nexts[n];
      }
    }
  }

  lemma LaterBranch(g: Graph, path: Path, nexts: seq<string>, p: Path, q: Path)
    requires path != [] && nexts != [] && InListOrder(g, path, nexts)
    requires path + [nexts[|nexts| - 1]] <= p && Extends(path, q, nexts[..|nexts| - 1])
    ensures Before(g, p, q)
  {
    var n, k := |nexts| - 1, |path|;
    var i :| 0 <= i < n && nexts[i] == q[k];
    assert InTurn(g, path, nexts[i], nexts[n]);
    assert p[k] == nexts[n] && p[k - 1] == Last(path) && p[..k] == path == q[..k];
    assert PartAt(g, p, q, k);
  }

  lemma UnexploredInOrder(g: Graph, path: Path)
    requires path != []
    ensures InListOrder(g, path, Unexplored(g, path))
  {
    forall i, j | 0 <= i < j < |Unexplored(g, path)|
      ensures InTurn(g, path, Unexplored(g, path)[i], Unexplored(g, path)[j])
    {
      WithoutInOrder(NeighboursOf(g, Last(path)), path, i, j);
    }
  }

  lemma {:induction false} WithoutInOrder(xs: seq<string>, path: Path, i: nat, j: nat)
    requires i < j < |Without(xs, path)|
    ensures Behind(xs, Without(xs, path)[j], Without(xs, path)[i])
  {
    var n := |xs| - 1;
    var front := Without(xs[..n], path);
    if j < |front| {
      WithoutInOrder(xs[..n], path, i, j);
      var a, b :| 0 <= a < b < n && xs[..n][a] == front[i] && xs[..n][b] == front[j];
      assert xs[a] == front[i] && xs[b] == front[j];
    } else {
      WithoutHolds(xs[..n], path, front[i]);
      var a :| 0 <= a < n && xs[..n][a] == front[i];
      assert xs[a] == front[i] && xs[n] == Without(xs, path)[j];
    }
  }

  /** No path is visited twice, when no neighbour is listed twice. */
  lemma VisitsOnce(g: Graph, root: string, maxHops: nat, path: Path)
    requires 0 < |path| <= maxHops + 1
    requires forall x :: x in g ==> Distinct(g[x])
    ensures Distinct(VisitsFrom(g, root, maxHops, path))
  {
    var visits := VisitsFrom(g, root, maxHops, path);
    VisitsInOrder(g, root, maxHops, path);
    forall i, j | 0 <= i < j < |visits| ensures visits[i] != visits[j] {
      assert Before(g, visits[i], visits[j]);
      if k: nat :| PartAt(g, visits[i], visits[j], k) {
        assert Distinct(g[visits[i][k - 1]]);
      }
    }
  }
}
