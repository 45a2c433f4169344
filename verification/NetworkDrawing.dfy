/**
 From the cabling to the screen: `get_site_topology` walks the graph of links, `layoutUnits` places the
 sites it lists. Together they need no assumption on the graph, loops and separate parts included.
 */
module NetworkDrawing {
  import opened Wrappers
  import opened Order
  import opened SiteGraph
  import opened TopologyLayout
  import opened LayoutSeparation
  import opened TopologyCards

  function Entry(depth: Depths, parent: Parents, name: string): Site {
    Site(name,
         if name in depth then Some(depth[name]) else None,
         if name in parent then parent[name] else None)
  }

  /** The list `sites` of the answer: one entry a name, in order. */
  function SitesOf(names: seq<string>, depth: Depths, parent: Parents): seq<Site> {
    seq(|names|, i requires 0 <= i < |names| => Entry(depth, parent, names[i]))
  }

  /** What `layered_graph` returns, or nothing placed when the graph has no link. */
  ghost predicate Layered(adj: Adjacency, root: Option<string>, depth: Depths, parent: Parents) {
    if root.Some? then
      && ParentLinks(adj, root.value, depth, parent) && BreadthFirst(adj, root.value, parent)
      && (forall x :: x in depth ==> x in adj && Explored(adj, depth, x))
    else depth == map[] && parent == map[]
  }

  lemma NamesOfSites(names: seq<string>, depth: Depths, parent: Parents)
    ensures Names(SitesOf(names, depth, parent)) == set x | x in names
  {
    var sites := SitesOf(names, depth, parent);
    forall x | x in names ensures x in Names(sites) {
      var i :| 0 <= i < |names| && names[i] == x;
      assert sites[i] in sites;
    }
  }

  /** The walk always hands the layout a tree. */
  lemma WalkGivesTree(adj: Adjacency, root: Option<string>, depth: Depths, parent: Parents, names: seq<string>)
    requires Layered(adj, root, depth, parent) && Distinct(names)
    requires forall x :: x in adj ==> x in names
    ensures SiteTree(SitesOf(names, depth, parent))
    ensures RootListed(SitesOf(names, depth, parent), root)
  {
    var sites := SitesOf(names, depth, parent);
    NamesOfSites(names, depth, parent);
    forall s | s in sites && HasParent(s) ensures ParentListed(sites, s) {
      assert HangsFromParent(adj, root.value, depth, parent, s.site);
      var p := parent[s.site].value;
      var i :| 0 <= i < |names| && names[i] == p;
      assert sites[i] in sites;
    }
  }

  /** Following parents from a reached site leads to the root. */
  lemma {:induction false} ReachedFromRoot(adj: Adjacency, root: string, depth: Depths, parent: Parents,
                                           names: seq<string>, x: string)
    requires Layered(adj, Some(root), depth, parent) && Distinct(names)
    requires forall y :: y in adj ==> y in names && y != ""
    requires x in depth
    ensures var sites := SitesOf(names, depth, parent);
            SiteTree(sites) && x in Reached(sites, Some(root))
    decreases depth[x]
  {
    var sites := SitesOf(names, depth, parent);
    WalkGivesTree(adj, Some(root), depth, parent, names);
    ForestIsTree(sites);
    InBranch(ForestOf(sites), UpOf(sites), root, x);
    if x != root {
      assert HangsFromParent(adj, root, depth, parent, x);
      var p := parent[x].value;
      ReachedFromRoot(adj, root, depth, parent, names, p);
      InBranch(ForestOf(sites), UpOf(sites), root, p);
      UpIsParent(names, depth, parent, x);
    }
  }

  lemma UpIsParent(names: seq<string>, depth: Depths, parent: Parents, x: string)
    requires Unique(SitesOf(names, depth, parent)) && x in names
    requires x in parent && parent[x].Some? && parent[x].value != ""
    ensures var up := UpOf(SitesOf(names, depth, parent)); x in up && up[x] == parent[x].value
  {
    var sites := SitesOf(names, depth, parent);
    var i :| 0 <= i < |names| && names[i] == x;
    UpAt(sites, i);
  }

  lemma {:induction false} UpAt(sites: seq<Site>, i: nat)
    requires Unique(sites) && i < |sites| && HasParent(sites[i])
    ensures sites[i].site in UpOf(sites) && UpOf(sites)[sites[i].site] == sites[i].parent.value
    decreases |sites|
  {
    if i < |sites| - 1 {
      UpAt(sites[..|sites| - 1], i);
      assert sites[i].site != sites[|sites| - 1].site;
    }
  }

  /** A reached site is drawn in the column of its distance to the root, any other site in column 0. */
  lemma ColumnIsDistance(adj: Adjacency, root: string, depth: Depths, parent: Parents, names: seq<string>, x: string)
    requires Layered(adj, Some(root), depth, parent) && Distinct(names)
    requires (forall y :: y in adj ==> y in names && y != "") && x in names
    ensures var sites := SitesOf(names, depth, parent);
            && Ranked(ForestOf(sites)) && x in Units(sites, Some(root)).slots
            && var column := Units(sites, Some(root)).slots[x].depth;
               if Reaches(adj, root, x) then IsDistance(adj, root, x, column) else column == 0
  {
    var sites := SitesOf(names, depth, parent);
    WalkGivesTree(adj, Some(root), depth, parent, names);
    LayoutComplete(sites, Some(root));
    DepthIsDistance(adj, root, depth, parent, x);
    var i :| 0 <= i < |names| && names[i] == x;
    assert sites[i] in sites;
    if x in depth {
      ReachedFromRoot(adj, root, depth, parent, names, x);
    }
  }

  ghost predicate ColumnsAreDistances(adj: Adjacency, root: string, slots: map<string, Slot>) {
    forall x :: x in slots ==>
      if Reaches(adj, root, x) then IsDistance(adj, root, x, slots[x].depth) else slots[x].depth == 0
  }

  /** In every viewport. */
  ghost predicate CardsNeverOverlap(sites: seq<Site>, root: Option<string>)
    requires Ranked(ForestOf(sites))
  {
    var slots := Units(sites, root).slots;
    forall w, h, x, y :: x in slots && y in slots && x != y ==>
      CardsApart(DrawingOf(sites, root, w, h), CardOf(sites, root, w, h, x), CardOf(sites, root, w, h, y))
  }

  lemma ColumnsOfDrawing(adj: Adjacency, root: string, depth: Depths, parent: Parents, names: seq<string>)
    requires Layered(adj, Some(root), depth, parent) && Distinct(names)
    requires forall y :: y in adj ==> y in names && y != ""
    ensures var sites := SitesOf(names, depth, parent);
            Ranked(ForestOf(sites)) && ColumnsAreDistances(adj, root, Units(sites, Some(root)).slots)
  {
    var sites := SitesOf(names, depth, parent);
    WalkGivesTree(adj, Some(root), depth, parent, names);
    LayoutComplete(sites, Some(root));
    NamesOfSites(names, depth, parent);
    forall x | x in Units(sites, Some(root)).slots
      ensures var column := Units(sites, Some(root)).slots[x].depth;
              if Reaches(adj, root, x) then IsDistance(adj, root, x, column) else column == 0
    {
      ColumnIsDistance(adj, root, depth, parent, names, x);
    }
  }

  lemma CardsOfDrawing(sites: seq<Site>, root: Option<string>)
    requires SiteTree(sites) && RootListed(sites, root)
    ensures Ranked(ForestOf(sites)) && Units(sites, root).slots.Keys == Names(sites)
    ensures CardsNeverOverlap(sites, root)
  {
    LayoutComplete(sites, root);
    forall w, h, x, y | x in Names(sites) && y in Names(sites) && x != y
      ensures CardsApart(DrawingOf(sites, root, w, h), CardOf(sites, root, w, h, x), CardOf(sites, root, w, h, y))
    {
      NoTwoCardsOverlap(sites, root, w, h, x, y);
    }
  }

  // ---------------------------------------------------------------- one drawing

  /** The root asked for if the graph has it, else the greatest site; none for a graph without links. */
  ghost predicate IsChosen(adj: Adjacency, requested: Option<string>, root: Option<string>) {
    if adj == map[] then root == None
    else if requested.Some? && requested.value in adj then root == requested
    else root.Some? && IsGreatest(adj, root.value)
  }

  /** The sites sent for these links: by name, each with what a breadth-first walk from the root gives it. */
  ghost predicate IsSent(adj: Adjacency, inventory: set<string>, requested: Option<string>,
                         sites: seq<Site>, root: Option<string>)
  {
    && IsChosen(adj, requested, root)
    && exists names, depth, parent :: Lists(adj, inventory, root, sites, names, depth, parent)
  }

  ghost predicate Lists(adj: Adjacency, inventory: set<string>, root: Option<string>, sites: seq<Site>,
                        names: seq<string>, depth: Depths, parent: Parents)
  {
    && Layered(adj, root, depth, parent) && sites == SitesOf(names, depth, parent)
    && Distinct(names) && SortedBy(names, NameLe) && (forall x :: x in names <==> x in inventory || x in adj)
  }

  lemma OneRoot(adj: Adjacency, requested: Option<string>, root: Option<string>, root': Option<string>)
    requires IsChosen(adj, requested, root) && IsChosen(adj, requested, root')
    ensures root == root'
  {
    if root.Some? && root'.Some? {
      NameLeTotal(root.value, root'.value);
    }
  }

  lemma {:induction false} OneSortedList(names: seq<string>, names': seq<string>)
    requires Distinct(names) && Distinct(names') && SortedBy(names, NameLe) && SortedBy(names', NameLe)
    requires forall x :: x in names <==> x in names'
    ensures names == names'
  {
    if names == [] {
      if names' != [] {
        var x := SomeName(names');
        assert false;
      }
    } else {
      var n := |names| - 1;
      assert names[n] in names' && names' != [];
      var m := |names'| - 1;
      assert names'[m] in names;
      LastIsGreatest(names, names'[m]);
      LastIsGreatest(names', names[n]);
      NameLeTotal(names[n], names'[m]);
      WithoutLast(names);
      WithoutLast(names');
      assert names[n] == names'[m];
      forall x ensures x in names[..n] <==> x in names'[..m] {
        assert x in names <==> x in names';
      }
      OneSortedList(names[..n], names'[..m]);
    }
  }

  lemma SomeName(names: seq<string>) returns (x: string)
    requires names != []
    ensures x in names
  {
    x := names[0];
  }

  lemma LastIsGreatest(names: seq<string>, x: string)
    requires SortedBy(names, NameLe) && x in names
    ensures NameLe(x, names[|names| - 1])
  {
    var i :| 0 <= i < |names| && names[i] == x;
    NameLeTotal(x, x);
  }

  lemma WithoutLast(names: seq<string>)
    requires Distinct(names) && names != []
    ensures forall x :: x in names[..|names| - 1] <==> x in names && x != names[|names| - 1]
  {
    assert names == names[..|names| - 1] + [names[|names| - 1]];
  }

  /** There is one breadth-first layering. */
  lemma OneLayering(adj: Adjacency, root: Option<string>, depth: Depths, parent: Parents,
                    depth': Depths, parent': Parents)
    requires Layered(adj, root, depth, parent) && Layered(adj, root, depth', parent')
    ensures depth == depth' && parent == parent'
  {
    if root.Some? {
      forall x ensures x in depth <==> x in depth'
               ensures x in depth ==> depth[x] == depth'[x]
      {
        DepthIsDistance(adj, root.value, depth, parent, x);
        DepthIsDistance(adj, root.value, depth', parent', x);
      }
      forall x, y | x in parent && y in Neighbours(adj, x) ensures y in parent {
        assert Explored(adj, depth, x);
      }
      forall x, y | x in parent' && y in Neighbours(adj, x) ensures y in parent' {
        assert Explored(adj, depth', x);
      }
      OneBreadthFirstWalk(adj, root.value, parent, parent');
    }
  }

  ghost predicate Linked(edges: seq<Edge>, x: string, y: string) {
    Edge(x, y) in edges || Edge(y, x) in edges
  }

  ghost predicate SameLinks(edges: seq<Edge>, edges': seq<Edge>) {
    forall x, y :: Linked(edges, x, y) <==> Linked(edges', x, y)
  }

  lemma {:induction false} NobodyAlone(edges: seq<Edge>, x: string)
    ensures x in AdjacencyOf(edges) ==> AdjacencyOf(edges)[x] != {}
  {
    if edges == [] {
    } else {
      var e := edges[|edges| - 1];
      NobodyAlone(edges[..|edges| - 1], x);
      NeighboursAreLinked(edges, x, e.siteA);
      NeighboursAreLinked(edges, x, e.siteB);
    }
  }

  lemma SameGraph(edges: seq<Edge>, edges': seq<Edge>)
    requires SameLinks(edges, edges')
    ensures AdjacencyOf(edges) == AdjacencyOf(edges')
  {
    var adj, adj' := AdjacencyOf(edges), AdjacencyOf(edges');
    forall x ensures Neighbours(adj, x) == Neighbours(adj', x) {
      forall y ensures y in Neighbours(adj, x) <==> y in Neighbours(adj', x) {
        NeighboursAreLinked(edges, x, y);
        NeighboursAreLinked(edges', x, y);
        assert Linked(edges, x, y) <==> Linked(edges', x, y);
      }
    }
    forall x ensures x in adj <==> x in adj' {
      NobodyAlone(edges, x);
      NobodyAlone(edges', x);
      assert Neighbours(adj, x) == Neighbours(adj', x);
    }
    forall x | x in adj ensures adj[x] == adj'[x] {
      assert Neighbours(adj, x) == Neighbours(adj', x);
    }
  }

  /** The drawing depends on which sites are linked only, not on the order, direction or number of the links. */
  lemma LinkOrderDoesNotMatter(edges: seq<Edge>, edges': seq<Edge>, inventory: set<string>,
                               requested: Option<string>, sites: seq<Site>, root: Option<string>,
                               sites': seq<Site>, root': Option<string>)
    requires SameLinks(edges, edges')
    requires IsSent(AdjacencyOf(edges), inventory, requested, sites, root)
    requires IsSent(AdjacencyOf(edges'), inventory, requested, sites', root')
    ensures sites == sites' && root == root'
  {
    SameGraph(edges, edges');
    var adj := AdjacencyOf(edges);
    OneRoot(adj, requested, root, root');
    var names, depth, parent :| Lists(adj, inventory, root, sites, names, depth, parent);
    var names', depth', parent' :| Lists(adj, inventory, root', sites', names', depth', parent');
    OneSortedList(names, names');
    OneLayering(adj, root, depth, parent, depth', parent');
  }

  /** The whole path: choose the root, walk, list every site, place. */
  method Draw(edges: seq<Edge>, inventory: set<string>, requested: Option<string>)
    returns (sites: seq<Site>, root: Option<string>, layout: Layout)
    ensures SiteTree(sites) && RootListed(sites, root) && Ranked(ForestOf(sites))
    ensures Names(sites) == layout.slots.Keys == inventory + AdjacencyOf(edges).Keys
    ensures layout == Units(sites, root) && CardsNeverOverlap(sites, root)
    ensures IsSent(AdjacencyOf(edges), inventory, requested, sites, root)
    ensures root.Some? && "" !in AdjacencyOf(edges) ==>
              ColumnsAreDistances(AdjacencyOf(edges), root.value, layout.slots)
  {
    var adj := AdjacencyOf(edges);
    AdjacencyClosed(edges);
    root := ChooseRoot(adj, requested);
    var depth: Depths, parent: Parents := map[], map[];
    if root.Some? {
      depth, parent := Walk(adj, root.value);
    }
    var names := SortedNames(inventory + adj.Keys);
    sites := SitesOf(names, depth, parent);
    assert Lists(adj, inventory, root, sites, names, depth, parent);
    NamesOfSites(names, depth, parent);
    assert Names(sites) == inventory + adj.Keys;
    WalkGivesTree(adj, root, depth, parent, names);
    CardsOfDrawing(sites, root);
    if root.Some? && "" !in adj {
      ColumnsOfDrawing(adj, root.value, depth, parent, names);
    }
    layout := LayoutUnits(sites, root);
  }
}
