/**
 `_walk_to_root`: every simple path from a site to the root within a number of hops, found with an
 explicit stack and a budget, and what had to be cut.
 */
module Routes {
  import opened Order

  type Graph = map<string, seq<string>>

  type Path = seq<string>

  function NeighboursOf(g: Graph, x: string): seq<string> {
    if x in g then g[x] else []
  }

  function Without(xs: seq<string>, path: Path): seq<string> {
    if xs == [] then []
    else Without(xs[..|xs| - 1], path) + if xs[|xs| - 1] in path then [] else [xs[|xs| - 1]]
  }

  function Unexplored(g: Graph, path: Path): seq<string>
    requires path != []
  {
    Without(NeighboursOf(g, Last(path)), path)
  }

  // ---------------------------------------------------------------- the search as a recursion

  /** The routes that extend `path`, in the order in which the stack gives them. */
  function RoutesFrom(g: Graph, root: string, maxHops: nat, path: Path): seq<Path>
    requires 0 < |path| <= maxHops + 1
    decreases maxHops + 1 - |path|, 1, 0
  {
    if Last(path) == root then [path]
    else if |path| == maxHops + 1 then []
    else RoutesVia(g, root, maxHops, path, Unexplored(g, path))
  }

  function RoutesVia(g: Graph, root: string, maxHops: nat, path: Path, nexts: seq<string>): seq<Path>
    requires 0 < |path| < maxHops + 1
    decreases maxHops + 1 - |path|, 0, |nexts|
  {
    if nexts == [] then []
    else
      var n := |nexts| - 1;
      RoutesFrom(g, root, maxHops, path + [nexts[n]]) + RoutesVia(g, root, maxHops, path, nexts[..n])
  }

  /** Something below `path` was given up at the hop limit. */
  predicate CutFrom(g: Graph, root: string, maxHops: nat, path: Path)
    requires 0 < |path| <= maxHops + 1
    decreases maxHops + 1 - |path|, 1, 0
  {
    if Last(path) == root then false
    else if |path| == maxHops + 1 then Unexplored(g, path) != []
    else CutVia(g, root, maxHops, path, Unexplored(g, path))
  }

  predicate CutVia(g: Graph, root: string, maxHops: nat, path: Path, nexts: seq<string>)
    requires 0 < |path| < maxHops + 1
    decreases maxHops + 1 - |path|, 0, |nexts|
  {
    nexts != [] &&
    (CutFrom(g, root, maxHops, path + [nexts[|nexts| - 1]]) || CutVia(g, root, maxHops, path, nexts[..|nexts| - 1]))
  }

  // ---------------------------------------------------------------- the search with a stack

  /** The paths the stack gives from `path` on, in order. */
  function VisitsFrom(g: Graph, root: string, maxHops: nat, path: Path): (visits: seq<Path>)
    requires 0 < |path| <= maxHops + 1
    ensures visits != [] && visits[0] == path
    decreases maxHops + 1 - |path|, 1, 0
  {
    if Last(path) == root || |path| == maxHops + 1 then [path]
    else [path] + VisitsVia(g, root, maxHops, path, Unexplored(g, path))
  }

  function VisitsVia(g: Graph, root: string, maxHops: nat, path: Path, nexts: seq<string>): seq<Path>
    requires 0 < |path| < maxHops + 1
    decreases maxHops + 1 - |path|, 0, |nexts|
  {
    if nexts == [] then []
    else
      var n := |nexts| - 1;
      VisitsFrom(g, root, maxHops, path + [nexts[n]]) + VisitsVia(g, root, maxHops, path, nexts[..n])
  }

  /** The visits that end at the root. */
  function Arrivals(visits: seq<Path>, root: string): seq<Path> {
    if visits == [] then []
    else
      var n := |visits| - 1;
      Arrivals(visits[..n], root)
      + if visits[n] != [] && Last(visits[n]) == root then [visits[n]] else []
  }

  /** A path at the hop limit, short of the root, with somewhere left to go. */
  predicate CutOff(g: Graph, root: string, maxHops: nat, path: Path) {
    path != [] && Last(path) != root && |path| == maxHops + 1 && Unexplored(g, path) != []
  }

  predicate AnyCutOff(g: Graph, root: string, maxHops: nat, visits: seq<Path>) {
    exists i :: 0 <= i < |visits| && CutOff(g, root, maxHops, visits[i])
  }

  lemma {:induction false} ArrivalsAdd(a: seq<Path>, b: seq<Path>, root: string)
    ensures Arrivals(a + b, root) == Arrivals(a, root) + Arrivals(b, root)
  {
    if b == [] {
      assert a + b == a;
    } else {
      var n := |b| - 1;
      ArrivalsAdd(a, b[..n], root);
      assert (a + b)[..|a + b| - 1] == a + b[..n];
    }
  }

  lemma AnyCutOffAdd(g: Graph, root: string, maxHops: nat, a: seq<Path>, b: seq<Path>)
    ensures AnyCutOff(g, root, maxHops, a + b) <==>
            AnyCutOff(g, root, maxHops, a) || AnyCutOff(g, root, maxHops, b)
  {
    var all := a + b;
    if i :| 0 <= i < |a| && CutOff(g, root, maxHops, a[i]) {
      assert CutOff(g, root, maxHops, all[i]);
    }
    if i :| 0 <= i < |b| && CutOff(g, root, maxHops, b[i]) {
      assert CutOff(g, root, maxHops, all[|a| + i]);
    }
    if i :| 0 <= i < |all| && CutOff(g, root, maxHops, all[i]) {
      assert if i < |a| then all[i] == a[i] else all[i] == b[i - |a|];
    }
  }

  lemma OneVisit(g: Graph, root: string, maxHops: nat, path: Path)
    requires path != []
    ensures Arrivals([path], root) == if Last(path) == root then [path] else []
    ensures AnyCutOff(g, root, maxHops, [path]) <==> CutOff(g, root, maxHops, path)
  {
    assert [path][..0] == [];
    assert [path][0] == path;
  }

  /** The arrivals of a whole search are its routes, and a path was given up exactly when there was a cut. */
  lemma {:induction false} WholeSearch(g: Graph, root: string, maxHops: nat, path: Path)
    requires 0 < |path| <= maxHops + 1
    ensures Arrivals(VisitsFrom(g, root, maxHops, path), root) == RoutesFrom(g, root, maxHops, path)
    ensures AnyCutOff(g, root, maxHops, VisitsFrom(g, root, maxHops, path)) <==> CutFrom(g, root, maxHops, path)
    decreases maxHops + 1 - |path|, 1, 0
  {
    OneVisit(g, root, maxHops, path);
    if Last(path) != root && |path| < maxHops + 1 {
      var via := VisitsVia(g, root, maxHops, path, Unexplored(g, path));
      WholeSearchVia(g, root, maxHops, path, Unexplored(g, path));
      ArrivalsAdd([path], via, root);
      AnyCutOffAdd(g, root, maxHops, [path], via);
    }
  }

  lemma {:induction false} WholeSearchVia(g: Graph, root: string, maxHops: nat, path: Path, nexts: seq<string>)
    requires 0 < |path| < maxHops + 1
    ensures Arrivals(VisitsVia(g, root, maxHops, path, nexts), root) == RoutesVia(g, root, maxHops, path, nexts)
    ensures AnyCutOff(g, root, maxHops, VisitsVia(g, root, maxHops, path, nexts)) <==>
            CutVia(g, root, maxHops, path, nexts)
    decreases maxHops + 1 - |path|, 0, |nexts|
  {
    if nexts == [] {
    } else {
      var n := |nexts| - 1;
      WholeSearch(g, root, maxHops, path + [nexts[n]]);
      WholeSearchVia(g, root, maxHops, path, nexts[..n]);
      var a, b := VisitsFrom(g, root, maxHops, path + [nexts[n]]), VisitsVia(g, root, maxHops, path, nexts[..n]);
      ArrivalsAdd(a, b, root);
      AnyCutOffAdd(g, root, maxHops, a, b);
    }
  }

  predicate StackFits(stack: seq<Path>, maxHops: nat) {
    forall i :: 0 <= i < |stack| ==> 0 < |stack[i]| <= maxHops + 1
  }

  function PendingVisits(g: Graph, root: string, maxHops: nat, stack: seq<Path>): (visits: seq<Path>)
    requires StackFits(stack, maxHops)
    ensures stack != [] ==> visits != []
    decreases |stack|
  {
    if stack == [] then []
    else VisitsFrom(g, root, maxHops, stack[|stack| - 1]) + PendingVisits(g, root, maxHops, stack[..|stack| - 1])
  }

  function Pushed(path: Path, nexts: seq<string>): seq<Path> {
    if nexts == [] then [] else Pushed(path, nexts[..|nexts| - 1]) + [path + [nexts[|nexts| - 1]]]
  }

  lemma {:induction false} PushedFits(path: Path, nexts: seq<string>, maxHops: nat)
    requires |path| < maxHops + 1
    ensures StackFits(Pushed(path, nexts), maxHops)
  {
    if nexts == [] {
    } else {
      PushedFits(path, nexts[..|nexts| - 1], maxHops);
    }
  }

  lemma Popped(g: Graph, root: string, maxHops: nat, rest: seq<Path>, path: Path)
    requires StackFits(rest + [path], maxHops)
    ensures StackFits(rest, maxHops) && 0 < |path| <= maxHops + 1
    ensures PendingVisits(g, root, maxHops, rest + [path])
            == VisitsFrom(g, root, maxHops, path) + PendingVisits(g, root, maxHops, rest)
  {
    var stack := rest + [path];
    assert stack[..|stack| - 1] == rest && stack[|stack| - 1] == path;
    assert forall i :: 0 <= i < |rest| ==> stack[i] == rest[i];
  }

  lemma {:induction false} PushingIsDescending(
    g: Graph, root: string, maxHops: nat, rest: seq<Path>, path: Path, nexts: seq<string>)
    requires StackFits(rest, maxHops) && 0 < |path| < maxHops + 1
    ensures StackFits(rest + Pushed(path, nexts), maxHops)
    ensures PendingVisits(g, root, maxHops, rest + Pushed(path, nexts)) ==
            VisitsVia(g, root, maxHops, path, nexts) + PendingVisits(g, root, maxHops, rest)
    decreases |nexts|
  {
    PushedFits(path, nexts, maxHops);
    if nexts == [] {
      assert rest + Pushed(path, nexts) == rest;
    } else {
      var n := |nexts| - 1;
      var below, longer := rest + Pushed(path, nexts[..n]), path + [nexts[n]];
      PushingIsDescending(g, root, maxHops, rest, path, nexts[..n]);
      assert rest + Pushed(path, nexts) == below + [longer];
      Popped(g, root, maxHops, below, longer);
      var a, b := VisitsFrom(g, root, maxHops, longer), VisitsVia(g, root, maxHops, path, nexts[..n]);
      assert a + (b + PendingVisits(g, root, maxHops, rest)) == (a + b) + PendingVisits(g, root, maxHops, rest);
    }
  }

  /** Half-way through: `done` of `all` visits made, the rest below the stack, and their report so far. */
  ghost predicate Halfway(
    g: Graph, root: string, maxHops: nat, all: seq<Path>, done: seq<Path>, stack: seq<Path>,
    paths: seq<Path>, byHops: bool)
  {
    && StackFits(stack, maxHops) && done + PendingVisits(g, root, maxHops, stack) == all
    && paths == Arrivals(done, root) && (byHops <==> AnyCutOff(g, root, maxHops, done))
  }

  lemma Begun(g: Graph, root: string, maxHops: nat, path: Path)
    requires 0 < |path| <= maxHops + 1
    ensures Halfway(g, root, maxHops, VisitsFrom(g, root, maxHops, path), [], [path], [], false)
  {
    assert [] + [path] == [path];
    Popped(g, root, maxHops, [], path);
    assert PendingVisits(g, root, maxHops, []) == [];
  }

  /** The report after one more visit. */
  lemma Reported(g: Graph, root: string, maxHops: nat, done: seq<Path>, path: Path)
    requires path != []
    ensures Arrivals(done + [path], root) == Arrivals(done, root) + if Last(path) == root then [path] else []
    ensures AnyCutOff(g, root, maxHops, done + [path]) <==>
            AnyCutOff(g, root, maxHops, done) || CutOff(g, root, maxHops, path)
  {
    ArrivalsAdd(done, [path], root);
    AnyCutOffAdd(g, root, maxHops, done, [path]);
    OneVisit(g, root, maxHops, path);
  }

  lemma VisitEnds(
    g: Graph, root: string, maxHops: nat, all: seq<Path>, done: seq<Path>, rest: seq<Path>, path: Path,
    paths: seq<Path>, byHops: bool)
    requires Halfway(g, root, maxHops, all, done, rest + [path], paths, byHops) && 0 < |path| <= maxHops + 1
    requires Last(path) == root || |path| == maxHops + 1
    ensures Halfway(g, root, maxHops, all, done + [path], rest,
                    paths + if Last(path) == root then [path] else [], byHops || CutOff(g, root, maxHops, path))
  {
    Popped(g, root, maxHops, rest, path);
    Reported(g, root, maxHops, done, path);
    Regrouped(done, path, [], PendingVisits(g, root, maxHops, rest));
  }

  lemma VisitGoesOn(
    g: Graph, root: string, maxHops: nat, all: seq<Path>, done: seq<Path>, rest: seq<Path>, path: Path,
    paths: seq<Path>, byHops: bool)
    requires Halfway(g, root, maxHops, all, done, rest + [path], paths, byHops)
    requires 0 < |path| < maxHops + 1 && Last(path) != root
    ensures Halfway(g, root, maxHops, all, done + [path], rest + Pushed(path, Unexplored(g, path)), paths, byHops)
  {
    var nexts := Unexplored(g, path);
    Popped(g, root, maxHops, rest, path);
    Reported(g, root, maxHops, done, path);
    PushingIsDescending(g, root, maxHops, rest, path, nexts);
    Regrouped(done, path, VisitsVia(g, root, maxHops, path, nexts), PendingVisits(g, root, maxHops, rest));
  }

  lemma Regrouped<T>(a: seq<T>, x: T, b: seq<T>, c: seq<T>)
    ensures a + (([x] + b) + c) == (a + [x]) + (b + c)
    ensures b == [] ==> a + ([x] + c) == (a + [x]) + c
  {
  }

  /** What the report says when the walk stops: `stack` is what the budget left. */
  lemma Concluded(
    g: Graph, root: string, maxHops: nat, path: Path, done: seq<Path>, stack: seq<Path>, paths: seq<Path>,
    byHops: bool)
    requires 0 < |path| <= maxHops + 1
    requires Halfway(g, root, maxHops, VisitsFrom(g, root, maxHops, path), done, stack, paths, byHops)
    ensures var visits := VisitsFrom(g, root, maxHops, path);
            if stack == [] then done == visits else |done| < |visits| && done == visits[..|done|]
    ensures paths == Arrivals(done, root) && (byHops <==> AnyCutOff(g, root, maxHops, done))
    ensures paths <= RoutesFrom(g, root, maxHops, path) && (byHops ==> CutFrom(g, root, maxHops, path))
    ensures stack == [] ==> paths == RoutesFrom(g, root, maxHops, path)
    ensures stack == [] ==> (byHops <==> CutFrom(g, root, maxHops, path))
  {
    var rest := PendingVisits(g, root, maxHops, stack);
    WholeSearch(g, root, maxHops, path);
    ArrivalsAdd(done, rest, root);
    AnyCutOffAdd(g, root, maxHops, done, rest);
  }

  /**
   The walk makes its visits in order, up to the budget, and runs out of it exactly when the search is
   larger. It returns the visits that end at the root and reports whether one was given up at the hop limit:
   all routes, and every cut, when the budget holds.
   */
  method WalkToRoot(site: string, root: string, g: Graph, maxHops: nat, maxExpansions: nat)
    returns (paths: seq<Path>, byHops: bool, byBudget: bool)
    ensures var visits := VisitsFrom(g, root, maxHops, [site]);
            && (byBudget <==> |visits| > maxExpansions)
            && var made := if byBudget then visits[..maxExpansions] else visits;
               && paths == Arrivals(made, root)
               && (byHops <==> AnyCutOff(g, root, maxHops, made))
    ensures paths <= RoutesFrom(g, root, maxHops, [site])
    ensures byHops ==> CutFrom(g, root, maxHops, [site])
    ensures !byBudget ==> paths == RoutesFrom(g, root, maxHops, [site])
    ensures !byBudget ==> (byHops <==> CutFrom(g, root, maxHops, [site]))
  {
    var stack := [[site]];
    paths, byHops, byBudget := [], false, false;
    ghost var all, done: seq<Path> := VisitsFrom(g, root, maxHops, [site]), [];
    Begun(g, root, maxHops, [site]);
    var expansions := 0;
    while stack != []
      invariant Halfway(g, root, maxHops, all, done, stack, paths, byHops)
      invariant |done| == expansions <= maxExpansions && !byBudget
      decreases maxExpansions - expansions
    {
      if expansions >= maxExpansions {
        byBudget := true;
        break;
      }
      expansions := expansions + 1;
      var path := stack[|stack| - 1];
      assert stack == stack[..|stack| - 1] + [path];
      stack := stack[..|stack| - 1];
      if Last(path) == root {
        VisitEnds(g, root, maxHops, all, done, stack, path, paths, byHops);
        done, paths := done + [path], paths + [path];
        continue;
      }
      var unexplored := Unexplored(g, path);
      if |path| - 1 >= maxHops {
        VisitEnds(g, root, maxHops, all, done, stack, path, paths, byHops);
        done := done + [path];
        assert paths + [] == paths;
        if unexplored != [] {
          byHops := true;
        }
        continue;
      }
      VisitGoesOn(g, root, maxHops, all, done, stack, path, paths, byHops);
      done := done + [path];
      stack := stack + Pushed(path, unexplored);
    }
    Concluded(g, root, maxHops, [site], done, stack, paths, byHops);
  }

  // ---------------------------------------------------------------- what the routes are

  ghost predicate Simple(g: Graph, root: string, p: Path) {
    && p != [] && Distinct(p)
    && (forall k :: 0 <= k < |p| - 1 ==> StepAt(g, root, p, k))
  }

  /** One hop, from a site that is not the root. */
  predicate StepAt(g: Graph, root: string, p: Path, k: nat)
    requires k + 1 < |p|
  {
    p[k] != root && p[k] in g && p[k + 1] in g[p[k]]
  }

  ghost predicate IsRoute(g: Graph, root: string, maxHops: nat, p: Path) {
    Simple(g, root, p) && Last(p) == root && |p| <= maxHops + 1
  }

  lemma {:induction false} WithoutHolds(xs: seq<string>, path: Path, x: string)
    ensures x in Without(xs, path) <==> x in xs && x !in path
  {
    if xs == [] {
    } else {
      WithoutHolds(xs[..|xs| - 1], path, x);
      assert xs == xs[..|xs| - 1] + [xs[|xs| - 1]];
    }
  }

  lemma SimpleExtended(g: Graph, root: string, path: Path, x: string)
    requires Simple(g, root, path) && Last(path) != root && x in Unexplored(g, path)
    ensures Simple(g, root, path + [x])
  {
    WithoutHolds(NeighboursOf(g, Last(path)), path, x);
    var p := path + [x];
    forall k | 0 <= k < |p| - 1 ensures StepAt(g, root, p, k) {
      if k < |path| - 1 {
        assert StepAt(g, root, path, k);
      }
    }
  }

  /** A simple path that goes on beyond `path` goes on to an unexplored neighbour. */
  lemma NextIsUnexplored(g: Graph, root: string, path: Path, p: Path)
    requires path != [] && path < p && Simple(g, root, p)
    ensures Last(path) != root && p[|path|] in Unexplored(g, path) && path + [p[|path|]] <= p
  {
    var n := |path|;
    assert StepAt(g, root, p, n - 1);
    assert path == p[..n];
    forall i | 0 <= i < n ensures path[i] != p[n] {
      assert p[i] != p[n];
    }
    WithoutHolds(NeighboursOf(g, Last(path)), path, p[n]);
  }

  /** The walk finds exactly the simple paths to the root that extend `path` within the hop limit. */
  lemma {:induction false} RoutesAreRoutes(g: Graph, root: string, maxHops: nat, path: Path, p: Path)
    requires Simple(g, root, path) && |path| <= maxHops + 1
    ensures p in RoutesFrom(g, root, maxHops, path) <==> path <= p && IsRoute(g, root, maxHops, p)
    decreases maxHops + 1 - |path|, 1, 0
  {
    assert path <= p && |p| <= |path| ==> p == path;
    if path < p && Simple(g, root, p) {
      NextIsUnexplored(g, root, path, p);
    }
    if Last(path) != root && |path| < maxHops + 1 {
      var nexts := Unexplored(g, path);
      RoutesViaAre(g, root, maxHops, path, nexts, p);
      if path <= p && IsRoute(g, root, maxHops, p) {
        assert path < p;
        assert Extends(path, p, nexts);
      }
    }
  }

  /** `p` goes on beyond `path` to one of `nexts`. */
  predicate Extends(path: Path, p: Path, nexts: seq<string>) {
    path < p && p[|path|] in nexts
  }

  lemma {:induction false} RoutesViaAre(g: Graph, root: string, maxHops: nat, path: Path, nexts: seq<string>, p: Path)
    requires Simple(g, root, path) && |path| < maxHops + 1 && Last(path) != root
    requires forall x :: x in nexts ==> x in Unexplored(g, path)
    ensures p in RoutesVia(g, root, maxHops, path, nexts) <==>
            Extends(path, p, nexts) && IsRoute(g, root, maxHops, p)
    decreases maxHops + 1 - |path|, 0, |nexts|
  {
    if nexts == [] {
    } else {
      var n := |nexts| - 1;
      assert nexts == nexts[..n] + [nexts[n]];
      SimpleExtended(g, root, path, nexts[n]);
      RoutesAreRoutes(g, root, maxHops, path + [nexts[n]], p);
      RoutesViaAre(g, root, maxHops, path, nexts[..n], p);
      assert path + [nexts[n]] <= p <==> path < p && p[|path|] == nexts[n];
    }
  }

  /** From a site: every simple path to the root within the limit, and only those. */
  lemma WalkIsExhaustive(g: Graph, site: string, root: string, maxHops: nat, p: Path)
    ensures p in RoutesFrom(g, root, maxHops, [site]) <==>
            IsRoute(g, root, maxHops, p) && p[0] == site
  {
    assert Simple(g, root, [site]);
    RoutesAreRoutes(g, root, maxHops, [site], p);
    assert p != [] ==> ([site] <= p <==> p[0] == site);
  }

  /** No route twice, when no neighbour is listed twice. */
  lemma {:induction false} RoutesOnce(g: Graph, root: string, maxHops: nat, path: Path)
    requires Simple(g, root, path) && |path| <= maxHops + 1
    requires forall x :: x in g ==> Distinct(g[x])
    ensures Distinct(RoutesFrom(g, root, maxHops, path))
    decreases maxHops + 1 - |path|, 1, 0
  {
    if Last(path) != root && |path| < maxHops + 1 {
      WithoutDistinct(NeighboursOf(g, Last(path)), path);
      RoutesViaOnce(g, root, maxHops, path, Unexplored(g, path));
    }
  }

  lemma {:induction false} WithoutDistinct(xs: seq<string>, path: Path)
    requires Distinct(xs)
    ensures Distinct(Without(xs, path))
  {
    if xs == [] {
    } else {
      var n := |xs| - 1;
      WithoutDistinct(xs[..n], path);
      WithoutHolds(xs[..n], path, xs[n]);
    }
  }

  lemma {:induction false} RoutesViaOnce(g: Graph, root: string, maxHops: nat, path: Path, nexts: seq<string>)
    requires Simple(g, root, path) && |path| < maxHops + 1 && Last(path) != root
    requires forall x :: x in g ==> Distinct(g[x])
    requires Distinct(nexts) && forall x :: x in nexts ==> x in Unexplored(g, path)
    ensures Distinct(RoutesVia(g, root, maxHops, path, nexts))
    decreases maxHops + 1 - |path|, 0, |nexts|
  {
    if nexts == [] {
    } else {
      var n := |nexts| - 1;
      SimpleExtended(g, root, path, nexts[n]);
      RoutesOnce(g, root, maxHops, path + [nexts[n]]);
      RoutesViaOnce(g, root, maxHops, path, nexts[..n]);
      var a, b := RoutesFrom(g, root, maxHops, path + [nexts[n]]), RoutesVia(g, root, maxHops, path, nexts[..n]);
      forall p | p in a ensures p !in b {
        RoutesAreRoutes(g, root, maxHops, path + [nexts[n]], p);
        RoutesViaAre(g, root, maxHops, path, nexts[..n], p);
        assert p[|path|] == nexts[n];
      }
      DistinctTogether(a, b);
    }
  }

  lemma DistinctTogether<T>(a: seq<T>, b: seq<T>)
    requires Distinct(a) && Distinct(b) && forall x :: x in a ==> x !in b
    ensures Distinct(a + b)
  {
    forall i, j | 0 <= i < j < |a + b| ensures (a + b)[i] != (a + b)[j] {
      if i < |a| <= j {
        assert a[i] in a && b[j - |a|] in b;
      }
    }
  }

  // ---------------------------------------------------------------- what a cut means

  /** Some neighbour of the last site is not on the path. */
  predicate GoesOn(g: Graph, p: Path)
    requires p != []
  {
    Last(p) in g && exists i :: 0 <= i < |g[Last(p)]| && g[Last(p)][i] !in p
  }

  /** A simple path of the full length that stops short of the root with somewhere left to go. */
  ghost predicate GivenUp(g: Graph, root: string, maxHops: nat, p: Path) {
    Simple(g, root, p) && Last(p) != root && |p| == maxHops + 1 && GoesOn(g, p)
  }

  lemma GoesOnExactly(g: Graph, p: Path)
    requires p != []
    ensures Unexplored(g, p) != [] <==> GoesOn(g, p)
  {
    var xs := NeighboursOf(g, Last(p));
    if Unexplored(g, p) != [] {
      WithoutHolds(xs, p, Unexplored(g, p)[0]);
    }
    if GoesOn(g, p) {
      var i :| 0 <= i < |xs| && xs[i] !in p;
      WithoutHolds(xs, p, xs[i]);
    }
  }

  lemma {:induction false} CutIsGivenUp(g: Graph, root: string, maxHops: nat, path: Path)
    requires Simple(g, root, path) && |path| <= maxHops + 1
    ensures CutFrom(g, root, maxHops, path) <==> exists p :: path <= p && GivenUp(g, root, maxHops, p)
    decreases maxHops + 1 - |path|, 1, 0
  {
    if Last(path) == root {
      forall p | path <= p && GivenUp(g, root, maxHops, p) ensures false {
        if path < p {
          NextIsUnexplored(g, root, path, p);
        }
      }
    } else if |path| == maxHops + 1 {
      assert path <= path;
      GoesOnExactly(g, path);
      if Unexplored(g, path) != [] {
        assert GivenUp(g, root, maxHops, path);
      }
      forall p | path <= p && GivenUp(g, root, maxHops, p) ensures p == path {}
    } else {
      CutViaIsGivenUp(g, root, maxHops, path, Unexplored(g, path));
      forall p | path <= p && GivenUp(g, root, maxHops, p) ensures Extends(path, p, Unexplored(g, path)) {
        NextIsUnexplored(g, root, path, p);
      }
    }
  }

  lemma {:induction false} CutViaIsGivenUp(g: Graph, root: string, maxHops: nat, path: Path, nexts: seq<string>)
    requires Simple(g, root, path) && |path| < maxHops + 1 && Last(path) != root
    requires forall x :: x in nexts ==> x in Unexplored(g, path)
    ensures CutVia(g, root, maxHops, path, nexts) <==>
            exists p :: Extends(path, p, nexts) && GivenUp(g, root, maxHops, p)
    decreases maxHops + 1 - |path|, 0, |nexts|
  {
    if nexts == [] {
    } else {
      var n := |nexts| - 1;
      var longer := path + [nexts[n]];
      SimpleExtended(g, root, path, nexts[n]);
      CutIsGivenUp(g, root, maxHops, longer);
      CutViaIsGivenUp(g, root, maxHops, path, nexts[..n]);
      forall p ensures Extends(path, p, nexts) <==> longer <= p || Extends(path, p, nexts[..n]) {
        ExtendsByOne(path, p, nexts);
      }
    }
  }

  lemma ExtendsByOne(path: Path, p: Path, nexts: seq<string>)
    requires nexts != []
    ensures var n := |nexts| - 1;
            Extends(path, p, nexts) <==> path + [nexts[n]] <= p || Extends(path, p, nexts[..n])
  {
    var n := |nexts| - 1;
    assert nexts == nexts[..n] + [nexts[n]];
  }
}
