/**
 `layered_graph`: the breadth-first walk that gives every site its column and its parent, and the
 proof that the column is the length of a shortest chain of links to the root.
 */
module SiteGraph {
  import opened Wrappers
  import opened Order

  /** One link between two sites; only its ends matter here. */
  datatype Edge = Edge(siteA: string, siteB: string)

  type Adjacency = map<string, set<string>>

  type Depths = map<string, nat>
  type Parents = map<string, Option<string>>

  function Neighbours(adj: Adjacency, x: string): set<string> {
    if x in adj then adj[x] else {}
  }

  /** Both ends of every link know each other. */
  function AdjacencyOf(edges: seq<Edge>): Adjacency {
    if edges == [] then map[]
    else
      var adj, e := AdjacencyOf(edges[..|edges| - 1]), edges[|edges| - 1];
      var half := adj[e.siteA := Neighbours(adj, e.siteA) + {e.siteB}];
      half[e.siteB := Neighbours(half, e.siteB) + {e.siteA}]
  }

  /** Every neighbour is a node of the graph. */
  ghost predicate Closed(adj: Adjacency) {
    forall x, y :: x in adj && y in adj[x] ==> y in adj
  }

  lemma {:induction false} NeighboursAreLinked(edges: seq<Edge>, x: string, y: string)
    ensures y in Neighbours(AdjacencyOf(edges), x) <==> Edge(x, y) in edges || Edge(y, x) in edges
  {
    if edges == [] {
    } else {
      NeighboursAreLinked(edges[..|edges| - 1], x, y);
      assert edges == edges[..|edges| - 1] + [edges[|edges| - 1]];
    }
  }

  lemma AdjacencyClosed(edges: seq<Edge>)
    ensures Closed(AdjacencyOf(edges))
  {
    var adj := AdjacencyOf(edges);
    forall x, y | x in adj && y in adj[x] ensures y in adj {
      NeighboursAreLinked(edges, x, y);
    }
  }

  // ---------------------------------------------------------------- chains of links

  ghost predicate Chain(adj: Adjacency, p: seq<string>) {
    p != [] && forall k :: 0 <= k < |p| - 1 ==> p[k + 1] in Neighbours(adj, p[k])
  }

  ghost predicate Joins(adj: Adjacency, p: seq<string>, x: string, y: string) {
    Chain(adj, p) && p[0] == x && p[|p| - 1] == y
  }

  ghost predicate Reaches(adj: Adjacency, x: string, y: string) {
    exists p :: Joins(adj, p, x, y)
  }

  /** `d` links, and no chain is shorter. */
  ghost predicate IsDistance(adj: Adjacency, x: string, y: string, d: nat) {
    && (exists p :: Joins(adj, p, x, y) && |p| == d + 1)
    && (forall p :: Joins(adj, p, x, y) ==> d + 1 <= |p|)
  }

  // ---------------------------------------------------------------- sorted(set)

  /** Python's `sorted` on a set of names. */
  method SortedNames(s: set<string>) returns (names: seq<string>)
    ensures forall x :: x in names <==> x in s
    ensures Distinct(names) && SortedBy(names, NameLe)
  {
    names := [];
    var rest := s;
    while exists x :: x in rest
      invariant rest <= s
      invariant forall x :: x in names <==> x in s - rest
      invariant Distinct(names)
      decreases rest
    {
      var x :| x in rest;
      assert x !in names;
      names := names + [x];
      rest := rest - {x};
    }
    assert rest == {};
    SortDistinct(names, NameLe);
    NameLeIsOrder();
    SortSorted(names, NameLe);
    names := Sort(names, NameLe);
  }

  // ---------------------------------------------------------------- the root

  /** The order of `max(adjacency, key=...)`: most neighbours, then last name. */
  predicate RanksBelow(adj: Adjacency, x: string, y: string) {
    || |Neighbours(adj, x)| < |Neighbours(adj, y)|
    || (|Neighbours(adj, x)| == |Neighbours(adj, y)| && NameLe(x, y))
  }

  /** No site has more neighbours, and none with as many comes later by name. */
  ghost predicate IsGreatest(adj: Adjacency, root: string) {
    root in adj && forall x :: x in adj ==>
      |adj[x]| <= |adj[root]| && (|adj[x]| == |adj[root]| ==> NameLe(x, root))
  }

  lemma RanksBelowTransitive(adj: Adjacency, x: string, y: string, z: string)
    requires RanksBelow(adj, x, y) && RanksBelow(adj, y, z)
    ensures RanksBelow(adj, x, z)
  {
    if NameLe(x, y) && NameLe(y, z) {
      NameLeTransitive(x, y, z);
    }
  }

  /** The requested root when the graph knows it, the site with most neighbours otherwise. */
  method ChooseRoot(adj: Adjacency, requested: Option<string>) returns (root: Option<string>)
    ensures requested.Some? && requested.value in adj ==> root == requested
    ensures root == None <==> adj == map[]
    ensures root.Some? ==> root.value in adj
    ensures root.Some? && root != requested ==> IsGreatest(adj, root.value)
  {
    if requested.Some? && requested.value in adj {
      return requested;
    }
    root := None;
    var todo := adj.Keys;
    while todo != {}
      invariant todo <= adj.Keys
      invariant root == None <==> todo == adj.Keys
      invariant root.Some? ==> root.value in adj
      invariant root.Some? ==> forall x :: x in adj.Keys - todo ==> RanksBelow(adj, x, root.value)
      decreases |todo|
    {
      var x :| x in todo;
      NameLeTotal(x, x);
      if root == None || RanksBelow(adj, root.value, x) {
        if root.Some? {
          forall y | y in adj.Keys - todo ensures RanksBelow(adj, y, x) {
            RanksBelowTransitive(adj, y, root.value, x);
          }
        }
        root := Some(x);
      } else {
        NameLeTotal(x, root.value);
      }
      todo := todo - {x};
    }
    assert root.Some? ==> forall x :: x in adj ==> RanksBelow(adj, x, root.value);
  }

  // ---------------------------------------------------------------- the order of discovery

  /** The first site of the order that `x` is a neighbour of stands at `p`. */
  ghost predicate FirstAt(adj: Adjacency, seen: seq<string>, x: string, p: nat) {
    && p < |seen| && x in Neighbours(adj, seen[p])
    && forall q :: 0 <= q < p ==> x !in Neighbours(adj, seen[q])
  }

  /** Site `i` of the order hangs from the first one that it is a neighbour of. */
  ghost predicate FoundBy(adj: Adjacency, parent: Parents, seen: seq<string>, i: nat)
    requires i < |seen|
  {
    seen[i] in parent && exists p: nat :: p < i && FirstAt(adj, seen, seen[i], p) && parent[seen[i]] == Some(seen[p])
  }

  /** What an earlier site finds comes earlier, and what one site finds comes by name. */
  ghost predicate InTurn(adj: Adjacency, seen: seq<string>) {
    forall i: nat, j: nat, p: nat, q: nat ::
      0 < i < j < |seen| && FirstAt(adj, seen, seen[i], p) && FirstAt(adj, seen, seen[j], q) ==>
      p < q || (p == q && NameLe(seen[i], seen[j]))
  }

  /** The order of a breadth-first walk that takes neighbours by name. */
  ghost predicate Breadth(adj: Adjacency, root: string, parent: Parents, seen: seq<string>) {
    && seen != [] && seen[0] == root && Distinct(seen) && InTurn(adj, seen)
    && (forall i :: 0 < i < |seen| ==> FoundBy(adj, parent, seen, i))
  }

  ghost predicate BreadthFirst(adj: Adjacency, root: string, parent: Parents) {
    && root in parent && parent[root] == None
    && exists seen :: Breadth(adj, root, parent, seen) && (forall x :: x in parent <==> x in seen)
  }

  /** Everything but the root has been found by one of the first `n` sites, or by the next one and is in `names`. */
  ghost predicate FoundSoFar(adj: Adjacency, seen: seq<string>, n: nat, names: seq<string>) {
    forall i: nat, p: nat :: 0 < i < |seen| && FirstAt(adj, seen, seen[i], p) ==> p < n || (p == n && seen[i] in names)
  }

  /** The walk stands before site `n` of the order; `done` are those before it, the queue holds the rest. */
  ghost predicate Turn(adj: Adjacency, root: string, parent: Parents, seen: seq<string>, n: nat, names: seq<string>,
                       queue: seq<string>, done: set<string>)
  {
    && Breadth(adj, root, parent, seen) && FoundSoFar(adj, seen, n, names)
    && n <= |seen| && queue == seen[n..] && (forall x :: x in done <==> x in seen[..n])
  }

  lemma FirstAtKept(adj: Adjacency, seen: seq<string>, x: string, y: string, p: nat)
    ensures FirstAt(adj, seen, y, p) ==> FirstAt(adj, seen + [x], y, p)
    ensures FirstAt(adj, seen + [x], y, p) && p < |seen| ==> FirstAt(adj, seen, y, p)
  {
    var longer := seen + [x];
    assert forall q :: 0 <= q < |seen| ==> longer[q] == seen[q];
  }

  /** One more site: the first finder is at `n`, and what was found from there before has a smaller name. */
  lemma FoundNext(adj: Adjacency, root: string, parent: Parents, seen: seq<string>, n: nat, names: seq<string>,
                  x: string)
    requires Breadth(adj, root, parent, seen) && FoundSoFar(adj, seen, n, names)
    requires x !in seen && FirstAt(adj, seen, x, n) && forall y :: y in names ==> NameLe(y, x)
    ensures Breadth(adj, root, parent[x := Some(seen[n])], seen + [x])
    ensures FoundSoFar(adj, seen + [x], n, names + [x])
  {
    var longer, parent' := seen + [x], parent[x := Some(seen[n])];
    FirstAtKept(adj, seen, x, x, n);
    forall i | 0 < i < |longer| ensures FoundBy(adj, parent', longer, i) {
      if i < |seen| {
        assert FoundBy(adj, parent, seen, i);
        var p: nat :| p < i && FirstAt(adj, seen, seen[i], p) && parent[seen[i]] == Some(seen[p]);
        FirstAtKept(adj, seen, x, seen[i], p);
        assert longer[p] == seen[p] && seen[i] in seen;
      } else {
        assert longer[n] == seen[n];
      }
    }
    forall i, p: nat | 0 < i < |longer| && FirstAt(adj, longer, longer[i], p)
      ensures i < |seen| ==> FirstAt(adj, seen, seen[i], p) && (p < n || (p == n && seen[i] in names))
      ensures i == |seen| ==> p == n
    {
      FinderOfOld(adj, parent', longer, i, p);
      FirstAtKept(adj, seen, x, longer[i], p);
    }
  }

  /** The finder of a site comes before it. */
  lemma FinderOfOld(adj: Adjacency, parent: Parents, seen: seq<string>, i: nat, p: nat)
    requires i < |seen| && FoundBy(adj, parent, seen, i) && FirstAt(adj, seen, seen[i], p)
    ensures p < i
  {
    var q: nat :| q < i && FirstAt(adj, seen, seen[i], q) && parent[seen[i]] == Some(seen[q]);
  }

  /** Two breadth-first orders agree as far as both go. */
  lemma {:induction false} OneOrder(adj: Adjacency, root: string, parent: Parents, seen: seq<string>,
                                    parent': Parents, seen': seq<string>, i: nat)
    requires Breadth(adj, root, parent, seen) && Breadth(adj, root, parent', seen') && i <= |seen|
    requires forall x, y :: x in seen && y in Neighbours(adj, x) ==> y in seen
    requires forall x, y :: x in seen' && y in Neighbours(adj, x) ==> y in seen'
    ensures i <= |seen'| && seen[..i] == seen'[..i]
  {
    if i > 1 {
      var n := i - 1;
      OneOrder(adj, root, parent, seen, parent', seen', n);
      assert FoundBy(adj, parent, seen, n);
      var p: nat :| p < n && FirstAt(adj, seen, seen[n], p);
      assert seen[..n][p] == seen'[..n][p] && seen'[p] in seen';
      assert seen[n] in Neighbours(adj, seen'[p]) && seen[n] in seen';
      var j :| 0 <= j < |seen'| && seen'[j] == seen[n];
      NotAmongFirst(seen, seen', n);
      NextIsSame(adj, root, parent, seen, parent', seen', n, j);
      assert seen[..i] == seen[..n] + [seen[n]] && seen'[..i] == seen'[..n] + [seen'[n]];
    }
  }

  lemma NotAmongFirst(seen: seq<string>, seen': seq<string>, n: nat)
    requires n < |seen| && n <= |seen'| && Distinct(seen) && seen[..n] == seen'[..n]
    ensures forall j :: 0 <= j < n ==> seen'[j] != seen[n]
  {
    forall j | 0 <= j < n ensures seen'[j] != seen[n] {
      assert seen[..n][j] == seen'[..n][j];
    }
  }

  lemma SameFinder(adj: Adjacency, seen: seq<string>, seen': seq<string>, n: nat, x: string, p: nat)
    requires n <= |seen| && n <= |seen'| && seen[..n] == seen'[..n] && p < n
    requires FirstAt(adj, seen, x, p)
    ensures FirstAt(adj, seen', x, p)
  {
    assert forall q :: 0 <= q < n ==> seen[..n][q] == seen'[..n][q];
    assert forall q :: 0 <= q < n ==> seen[q] == seen'[q];
  }

  /** Where two orders have agreed so far they agree on the next site. */
  lemma NextIsSame(adj: Adjacency, root: string, parent: Parents, seen: seq<string>,
                   parent': Parents, seen': seq<string>, n: nat, j: nat)
    requires Breadth(adj, root, parent, seen) && Breadth(adj, root, parent', seen')
    requires 0 < n <= j < |seen'| && n < |seen| && seen[..n] == seen'[..n] && seen'[j] == seen[n]
    requires forall x, y :: x in seen && y in Neighbours(adj, x) ==> y in seen
    ensures seen[n] == seen'[n]
  {
    var x, y := seen[n], seen'[n];
    assert FoundBy(adj, parent, seen, n) && FoundBy(adj, parent', seen', n);
    var p: nat :| p < n && FirstAt(adj, seen, x, p);
    var q: nat :| q < n && FirstAt(adj, seen', y, q);
    SameFinder(adj, seen, seen', n, x, p);
    SameFinder(adj, seen', seen, n, y, q);
    assert seen[q] in seen && y in Neighbours(adj, seen[q]) && y in seen;
    var k :| 0 <= k < |seen| && seen[k] == y;
    NotAmongFirst(seen', seen, n);
    if k > n && j > n {
      NameLeTotal(x, y);
    }
  }

  /** There is one breadth-first walk by name: two of them give every site the same parent. */
  lemma OneBreadthFirstWalk(adj: Adjacency, root: string, parent: Parents, parent': Parents)
    requires BreadthFirst(adj, root, parent) && BreadthFirst(adj, root, parent')
    requires forall x, y :: x in parent && y in Neighbours(adj, x) ==> y in parent
    requires forall x, y :: x in parent' && y in Neighbours(adj, x) ==> y in parent'
    ensures parent == parent'
  {
    var seen :| Breadth(adj, root, parent, seen) && forall x :: x in parent <==> x in seen;
    var seen' :| Breadth(adj, root, parent', seen') && forall x :: x in parent' <==> x in seen';
    OneOrder(adj, root, parent, seen, parent', seen', |seen|);
    OneOrder(adj, root, parent', seen', parent, seen, |seen'|);
    assert seen == seen';
    forall x | x in parent ensures x in parent' && parent[x] == parent'[x] {
      var i :| 0 <= i < |seen| && seen[i] == x;
      if i > 0 {
        assert FoundBy(adj, parent, seen, i) && FoundBy(adj, parent', seen, i);
        var p: nat :| p < i && FirstAt(adj, seen, x, p) && parent[x] == Some(seen[p]);
        var q: nat :| q < i && FirstAt(adj, seen, x, q) && parent'[x] == Some(seen[q]);
        assert p == q;
      }
    }
  }

  // ---------------------------------------------------------------- the walk

  /** A discovered site hangs one column to the right of a discovered neighbour; only the root is free. */
  ghost predicate ParentLinks(adj: Adjacency, root: string, depth: Depths, parent: Parents) {
    && parent.Keys == depth.Keys
    && root in depth && depth[root] == 0 && parent[root] == None
    && (forall x :: HangsFromParent(adj, root, depth, parent, x))
  }

  ghost predicate HangsFromParent(adj: Adjacency, root: string, depth: Depths, parent: Parents, x: string) {
    x in depth && x != root ==>
      && x in parent && parent[x].Some? && parent[x].value in depth
      && x in Neighbours(adj, parent[x].value) && depth[x] == depth[parent[x].value] + 1
  }

  /** The neighbours of `x` are discovered, no further than one more column. */
  ghost predicate Explored(adj: Adjacency, depth: Depths, x: string) {
    x in depth && forall y :: y in Neighbours(adj, x) ==> y in depth && depth[y] <= depth[x] + 1
  }

  /** The queue holds discovered sites once each, column by column, at most two columns at a time. */
  ghost predicate InColumns(depth: Depths, queue: seq<string>, done: set<string>) {
    && Distinct(queue)
    && (forall x :: x in depth <==> x in queue || x in done)
    && (forall x :: x in queue ==> x !in done)
    && (forall i, j :: 0 <= i < j < |queue| && queue[i] in depth && queue[j] in depth ==>
          depth[queue[i]] <= depth[queue[j]])
    && (queue != [] && queue[0] in depth ==> forall x :: x in depth ==> depth[x] <= depth[queue[0]] + 1)
  }

  /** The columns as far as they are known. */
  ghost predicate Walking(adj: Adjacency, root: string, depth: Depths, parent: Parents,
                          queue: seq<string>, done: set<string>)
  {
    && ParentLinks(adj, root, depth, parent)
    && InColumns(depth, queue, done)
    && (forall x :: x in depth ==> x in adj)
    && (forall x :: x in done ==> Explored(adj, depth, x))
  }

  lemma DiscoverStep(adj: Adjacency, root: string, depth: Depths, parent: Parents, current: string,
                     queue: seq<string>, done: set<string>, x: string)
    requires Closed(adj) && queue != [] && queue[0] == current && Walking(adj, root, depth, parent, queue, done)
    requires x in Neighbours(adj, current) && x !in depth
    ensures current in depth
    ensures Walking(adj, root, depth[x := depth[current] + 1], parent[x := Some(current)], queue + [x], done)
  {
    assert current in queue;
    var depth', parent', queue' := depth[x := depth[current] + 1], parent[x := Some(current)], queue + [x];
    assert InColumns(depth', queue', done) by {
      assert queue'[0] == current;
      forall i, j | 0 <= i < j < |queue'| ensures queue'[i] != queue'[j] {
        assert queue[i] in depth;
      }
      forall i, j | 0 <= i < j < |queue'| ensures depth'[queue'[i]] <= depth'[queue'[j]] {
        assert queue[i] in depth;
        assert j < |queue| ==> queue[j] in depth;
      }
    }
    forall y ensures HangsFromParent(adj, root, depth', parent', y) {
      assert HangsFromParent(adj, root, depth, parent, y);
    }
    forall y | y in done ensures Explored(adj, depth', y) {
      assert Explored(adj, depth, y);
    }
  }

  lemma FinishStep(adj: Adjacency, root: string, depth: Depths, parent: Parents, queue: seq<string>, done: set<string>)
    requires queue != [] && Walking(adj, root, depth, parent, queue, done)
    requires forall y :: y in Neighbours(adj, queue[0]) ==> y in depth
    ensures Walking(adj, root, depth, parent, queue[1..], done + {queue[0]})
  {
    var current, rest := queue[0], queue[1..];
    assert current in depth && queue == [current] + rest;
    assert InColumns(depth, rest, done + {current}) by {
      if rest != [] {
        assert rest[0] == queue[1] && queue[1] in depth;
        assert depth[queue[0]] <= depth[queue[1]];
      }
    }
    assert Explored(adj, depth, current);
  }

  /** What holds whenever the loop looks at its queue. */
  ghost predicate UnderWay(adj: Adjacency, root: string, depth: Depths, parent: Parents, seen: seq<string>, n: nat,
                           queue: seq<string>, done: set<string>)
  {
    Walking(adj, root, depth, parent, queue, done) && Turn(adj, root, parent, seen, n, [], queue, done)
  }

  /** In the visit of `current`: of its neighbours, `names` have been looked at. */
  ghost predicate Visiting(adj: Adjacency, root: string, depth: Depths, parent: Parents, seen: seq<string>, n: nat,
                           names: seq<string>, current: string, queue: seq<string>, done: set<string>)
  {
    && Walking(adj, root, depth, parent, [current] + queue, done)
    && Turn(adj, root, parent, seen, n, names, [current] + queue, done)
    && forall y :: y in names ==> y in depth
  }

  /** The body of the loop after `popleft`: discover the neighbours of `current`. */
  method Visit(adj: Adjacency, root: string, depth0: Depths, parent0: Parents, current: string,
               queue0: seq<string>, ghost done: set<string>, ghost seen0: seq<string>, ghost n: nat)
    returns (depth: Depths, parent: Parents, queue: seq<string>, ghost seen: seq<string>)
    requires Closed(adj) && UnderWay(adj, root, depth0, parent0, seen0, n, [current] + queue0, done)
    ensures UnderWay(adj, root, depth, parent, seen, n + 1, queue, done + {current})
  {
    depth, parent, queue, seen := depth0, parent0, queue0, seen0;
    var names := SortedNames(Neighbours(adj, current));
    for k := 0 to |names|
      invariant Visiting(adj, root, depth, parent, seen, n, names[..k], current, queue, done)
    {
      NextName(names, k);
      if names[k] !in depth {
        depth, parent, queue, seen :=
          Discover(adj, root, depth, parent, current, queue, done, seen, n, names[..k], names[k]);
      } else {
        SkipName(adj, root, depth, parent, seen, n, names[..k], names[k], current, queue, done);
      }
    }
    assert names[..|names|] == names;
    FinishVisit(adj, root, depth, parent, seen, n, names, current, queue, done);
  }

  lemma NextName(names: seq<string>, k: nat)
    requires k < |names| && SortedBy(names, NameLe)
    ensures names[..k + 1] == names[..k] + [names[k]]
    ensures forall y :: y in names[..k] ==> NameLe(y, names[k])
  {
  }

  lemma SkipName(adj: Adjacency, root: string, depth: Depths, parent: Parents, seen: seq<string>, n: nat,
                 names: seq<string>, x: string, current: string, queue: seq<string>, done: set<string>)
    requires Visiting(adj, root, depth, parent, seen, n, names, current, queue, done) && x in depth
    ensures Visiting(adj, root, depth, parent, seen, n, names + [x], current, queue, done)
  {
  }

  lemma FinishVisit(adj: Adjacency, root: string, depth: Depths, parent: Parents, seen: seq<string>, n: nat,
                    names: seq<string>, current: string, queue: seq<string>, done: set<string>)
    requires Visiting(adj, root, depth, parent, seen, n, names, current, queue, done)
    requires forall y :: y in Neighbours(adj, current) ==> y in names
    ensures UnderWay(adj, root, depth, parent, seen, n + 1, queue, done + {current})
  {
    var all := [current] + queue;
    FinishStep(adj, root, depth, parent, all, done);
    assert all[1..] == queue;
    FinishTurn(adj, root, parent, seen, n, names, current, queue, done);
  }

  lemma FinishTurn(adj: Adjacency, root: string, parent: Parents, seen: seq<string>, n: nat, names: seq<string>,
                   current: string, queue: seq<string>, done: set<string>)
    requires Turn(adj, root, parent, seen, n, names, [current] + queue, done)
    ensures Turn(adj, root, parent, seen, n + 1, [], queue, done + {current})
  {
    assert seen[n..] == [current] + queue;
    assert seen[n] == current && seen[n + 1..] == queue;
    assert seen[..n + 1] == seen[..n] + [current];
  }

  /** A neighbour seen for the first time goes one column further, at the end of the queue. */
  method Discover(adj: Adjacency, root: string, depth0: Depths, parent0: Parents, current: string,
                  queue0: seq<string>, ghost done: set<string>, ghost seen0: seq<string>, ghost n: nat,
                  ghost names: seq<string>, x: string)
    returns (depth: Depths, parent: Parents, queue: seq<string>, ghost seen: seq<string>)
    requires Closed(adj) && Visiting(adj, root, depth0, parent0, seen0, n, names, current, queue0, done)
    requires x in Neighbours(adj, current) && x !in depth0 && forall y :: y in names ==> NameLe(y, x)
    ensures Visiting(adj, root, depth, parent, seen, n, names + [x], current, queue, done)
  {
    ghost var all := [current] + queue0;
    DiscoverStep(adj, root, depth0, parent0, current, all, done, x);
    DiscoverTurn(adj, root, depth0, parent0, seen0, n, names, current, all, done, x);
    depth := depth0[x := depth0[current] + 1];
    parent := parent0[x := Some(current)];
    queue := queue0 + [x];
    seen := seen0 + [x];
    assert all + [x] == [current] + queue;
  }

  lemma DiscoverTurn(adj: Adjacency, root: string, depth: Depths, parent: Parents, seen: seq<string>, n: nat,
                     names: seq<string>, current: string, queue: seq<string>, done: set<string>, x: string)
    requires Walking(adj, root, depth, parent, queue, done) && queue != [] && queue[0] == current
    requires Turn(adj, root, parent, seen, n, names, queue, done)
    requires x in Neighbours(adj, current) && x !in depth && forall y :: y in names ==> NameLe(y, x)
    ensures Turn(adj, root, parent[x := Some(current)], seen + [x], n, names + [x], queue + [x], done)
  {
    assert seen[n] == current;
    NotSeenYet(adj, depth, seen, n, queue, done, x);
    FoundNext(adj, root, parent, seen, n, names, x);
    assert (seen + [x])[n..] == seen[n..] + [x] && (seen + [x])[..n] == seen[..n];
  }

  lemma NotSeenYet(adj: Adjacency, depth: Depths, seen: seq<string>, n: nat, queue: seq<string>, done: set<string>,
                   x: string)
    requires x !in depth && n <= |seen| && queue == seen[n..] && (forall y :: y in done <==> y in seen[..n])
    requires forall y :: y in queue || y in done ==> y in depth
    requires forall y :: y in done ==> Explored(adj, depth, y)
    ensures x !in seen
    ensures forall q :: 0 <= q < n ==> x !in Neighbours(adj, seen[q])
  {
    assert seen == seen[..n] + seen[n..];
    forall q | 0 <= q < n ensures x !in Neighbours(adj, seen[q]) {
      assert seen[..n][q] in done;
      assert Explored(adj, depth, seen[q]);
    }
  }

  method Walk(adj: Adjacency, root: string) returns (depth: Depths, parent: Parents)
    requires Closed(adj) && root in adj
    ensures ParentLinks(adj, root, depth, parent) && BreadthFirst(adj, root, parent)
    ensures forall x :: x in depth ==> x in adj && Explored(adj, depth, x)
  {
    depth, parent := map[root := 0], map[root := None];
    var queue := [root];
    ghost var done, seen, n := {}, [root], 0;
    StartTurn(adj, root);
    while queue != []
      invariant UnderWay(adj, root, depth, parent, seen, n, queue, done)
      decreases |adj.Keys - done|
    {
      var current := queue[0];
      assert queue == [current] + queue[1..];
      OneMoreDone(adj, root, depth, parent, seen, n, queue, done, current);
      depth, parent, queue, seen := Visit(adj, root, depth, parent, current, queue[1..], done, seen, n);
      done, n := done + {current}, n + 1;
    }
    EndTurn(adj, root, depth, parent, seen, n, done);
  }

  lemma OneMoreDone(adj: Adjacency, root: string, depth: Depths, parent: Parents, seen: seq<string>, n: nat,
                    queue: seq<string>, done: set<string>, x: string)
    requires UnderWay(adj, root, depth, parent, seen, n, queue, done) && queue != [] && queue[0] == x
    ensures |adj.Keys - (done + {x})| < |adj.Keys - done|
  {
    assert x in queue && x in adj && x !in done;
    assert adj.Keys - done == adj.Keys - (done + {x}) + {x};
  }

  lemma StartTurn(adj: Adjacency, root: string)
    requires root in adj
    ensures UnderWay(adj, root, map[root := 0], map[root := None], [root], 0, [root], {})
  {
    assert [root][0..] == [root] && [root][..0] == [];
  }

  lemma EndTurn(adj: Adjacency, root: string, depth: Depths, parent: Parents, seen: seq<string>, n: nat,
                done: set<string>)
    requires UnderWay(adj, root, depth, parent, seen, n, [], done)
    ensures ParentLinks(adj, root, depth, parent) && BreadthFirst(adj, root, parent)
    ensures forall x :: x in depth ==> x in adj && Explored(adj, depth, x)
  {
    assert seen[..n] == seen;
    assert forall x :: x in parent <==> x in seen;
  }

  // ---------------------------------------------------------------- columns are distances

  lemma {:induction false} NoChainIsShorter(
    adj: Adjacency, root: string, depth: Depths, parent: Parents, p: seq<string>)
    requires ParentLinks(adj, root, depth, parent) && forall x :: x in depth ==> Explored(adj, depth, x)
    requires Chain(adj, p) && p[0] == root
    ensures p[|p| - 1] in depth && depth[p[|p| - 1]] + 1 <= |p|
    decreases |p|
  {
    if |p| <= 1 {
    } else {
      var q := p[..|p| - 1];
      NoChainIsShorter(adj, root, depth, parent, q);
      assert Explored(adj, depth, q[|q| - 1]);
      assert p[|p| - 2 + 1] in Neighbours(adj, p[|p| - 2]);
    }
  }

  lemma {:induction false} ParentsMakeAChain(adj: Adjacency, root: string, depth: Depths, parent: Parents, x: string)
    returns (p: seq<string>)
    requires ParentLinks(adj, root, depth, parent) && x in depth
    ensures Joins(adj, p, root, x) && |p| == depth[x] + 1
    decreases depth[x]
  {
    if x == root {
      p := [root];
    } else {
      assert HangsFromParent(adj, root, depth, parent, x);
      var q := ParentsMakeAChain(adj, root, depth, parent, parent[x].value);
      p := q + [x];
    }
  }

  /** The walk finds exactly the sites the root reaches, each in the column of its distance. */
  lemma DepthIsDistance(adj: Adjacency, root: string, depth: Depths, parent: Parents, x: string)
    requires ParentLinks(adj, root, depth, parent) && forall y :: y in depth ==> Explored(adj, depth, y)
    ensures x in depth <==> Reaches(adj, root, x)
    ensures x in depth ==> IsDistance(adj, root, x, depth[x])
  {
    if x in depth {
      var p := ParentsMakeAChain(adj, root, depth, parent, x);
    }
    forall p | Joins(adj, p, root, x) ensures x in depth && depth[x] + 1 <= |p| {
      NoChainIsShorter(adj, root, depth, parent, p);
    }
  }
}
