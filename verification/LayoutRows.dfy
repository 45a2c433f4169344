/**
 How many rows the placement of `TopologyLayout` takes: one for every site without children, one for every
 site not reached from the root, and no other.
 */
module LayoutRows {
  import opened Wrappers
  import opened Order
  import opened TopologyLayout
  import opened LayoutSeparation
  import opened TopologyCards

  // ---------------------------------------------------------------- one branch

  /** The sites of `sub` that have no children. */
  ghost function Childless(f: Forest, sub: set<string>): set<string> {
    set x | x in sub && Kids(f, x) == []
  }

  /** Site `x` lies in whole row `r`. */
  predicate InRow(slots: map<string, Slot>, x: string, r: int) {
    x in slots && slots[x].row == r as real
  }

  ghost predicate Taken(slots: map<string, Slot>, own: set<string>, r: int) {
    exists x :: x in own && InRow(slots, x, r)
  }

  /** Site `x` has a whole row from `low` to below `high`. */
  ghost predicate Within(slots: map<string, Slot>, x: string, low: int, high: int) {
    exists r :: low <= r < high && InRow(slots, x, r)
  }

  /** Each row from `low` to below `high` is the row of exactly one of `own`, and there are no more of these. */
  ghost predicate FillRows(slots: map<string, Slot>, own: set<string>, low: int, high: int) {
    && high - low == |own|
    && (forall x :: x in own ==> Within(slots, x, low, high))
    && (forall r: int :: low <= r < high ==> Taken(slots, own, r))
    && (forall x, y, r :: x in own && y in own && InRow(slots, x, r) && InRow(slots, y, r) ==> x == y)
  }

  lemma FillKept(slots: map<string, Slot>, later: map<string, Slot>, own: set<string>, low: int, high: int)
    requires FillRows(slots, own, low, high)
    requires forall x :: x in own && x in slots ==> x in later && later[x] == slots[x]
    ensures FillRows(later, own, low, high)
  {
    forall x | x in own ensures Within(later, x, low, high) && x in slots {
      assert Within(slots, x, low, high);
      var r :| low <= r < high && InRow(slots, x, r);
      assert InRow(later, x, r);
    }
    forall r: int | low <= r < high ensures Taken(later, own, r) {
      assert Taken(slots, own, r);
      var x :| x in own && InRow(slots, x, r);
      assert InRow(later, x, r);
    }
    forall x, y, r | x in own && y in own && InRow(later, x, r) && InRow(later, y, r) ensures x == y {
      assert InRow(slots, x, r) && InRow(slots, y, r);
    }
  }

  lemma FillJoins(slots: map<string, Slot>, a: set<string>, b: set<string>, low: int, mid: int, high: int)
    requires FillRows(slots, a, low, mid) && FillRows(slots, b, mid, high) && a !! b
    ensures FillRows(slots, a + b, low, high)
  {
    assert |a + b| == |a| + |b|;
    forall x | x in a + b ensures Within(slots, x, low, high) {
      if x in a {
        assert Within(slots, x, low, mid);
      } else {
        assert Within(slots, x, mid, high);
      }
    }
    forall r: int | low <= r < high ensures Taken(slots, a + b, r) {
      assert if r < mid then Taken(slots, a, r) else Taken(slots, b, r);
    }
    forall x, y, r | x in a + b && y in a + b && InRow(slots, x, r) && InRow(slots, y, r) ensures x == y {
      if x in a && y in b {
        RowsOf(slots, a, b, low, mid, high, x, y, r);
      } else if x in b && y in a {
        RowsOf(slots, a, b, low, mid, high, y, x, r);
      }
    }
  }

  lemma RowsOf(slots: map<string, Slot>, a: set<string>, b: set<string>, low: int, mid: int, high: int, x: string,
               y: string, r: int)
    requires FillRows(slots, a, low, mid) && FillRows(slots, b, mid, high) && x in a && y in b
    requires InRow(slots, x, r)
    ensures !InRow(slots, y, r)
  {
    assert Within(slots, x, low, mid) && Within(slots, y, mid, high);
    var p :| low <= p < mid && InRow(slots, x, p);
    var q :| mid <= q < high && InRow(slots, y, q);
  }

  lemma FillOne(slots: map<string, Slot>, x: string, r: int)
    requires InRow(slots, x, r)
    ensures FillRows(slots, {x}, r, r + 1)
  {
  }

  /** Placing a branch takes exactly the rows of its childless sites. */
  lemma {:induction false} PlacingFills(f: Forest, up: map<string, string>, name: string, st: State)
    requires Tree(f, up) && Branch(f, up, name) !! st.slots.Keys
    ensures var after := Placing(f, name, st).0;
            && after.cursor == st.cursor + |Childless(f, Branch(f, up, name))|
            && FillRows(after.slots, Childless(f, Branch(f, up, name)), st.cursor, after.cursor)
    decreases Rank(f, Depth(f, name)), 0
  {
    RankedKids(f, name);
    var kids := Kids(f, name);
    BranchSplits(f, up, name);
    if kids == [] {
      LeafFills(f, up, name, st);
    } else {
      assert kids[0] in kids;
      var (after, rows) := PlacingAll(f, kids, Depth(f, name) + 1, st);
      PlacingAllFills(f, up, kids, Depth(f, name) + 1, st);
      CentredFills(f, up, name, st.cursor, after, rows);
    }
  }

  lemma LeafFills(f: Forest, up: map<string, string>, name: string, st: State)
    requires Tree(f, up) && Kids(f, name) == []
    ensures var after := Leaf(f, name, st).0;
            && after.cursor == st.cursor + |Childless(f, Branch(f, up, name))|
            && FillRows(after.slots, Childless(f, Branch(f, up, name)), st.cursor, after.cursor)
  {
    BranchSplits(f, up, name);
    assert Branch(f, up, name) == {name};
    assert Childless(f, {name}) == {name};
    FillOne(Leaf(f, name, st).0.slots, name, st.cursor);
  }

  lemma CentredFills(f: Forest, up: map<string, string>, name: string, low: nat, after: State, rows: seq<real>)
    requires Tree(f, up) && Kids(f, name) != [] && rows != []
    requires FillRows(after.slots, Childless(f, Branches(f, up, Kids(f, name))), low, after.cursor)
    ensures var top := Centred(f, name, after, rows).0;
            && top.cursor == low + |Childless(f, Branch(f, up, name))|
            && FillRows(top.slots, Childless(f, Branch(f, up, name)), low, top.cursor)
  {
    BranchSplits(f, up, name);
    var own := Childless(f, Branches(f, up, Kids(f, name)));
    assert Childless(f, Branch(f, up, name)) == own;
    FillKept(after.slots, Centred(f, name, after, rows).0.slots, own, low, after.cursor);
  }

  lemma {:induction false} PlacingAllFills(f: Forest, up: map<string, string>, kids: seq<string>, d: nat, st: State)
    requires Tree(f, up) && d <= f.deepest && Distinct(kids)
    requires forall k :: k in kids ==> Depth(f, k) == d
    requires Branches(f, up, kids) !! st.slots.Keys
    ensures var after := PlacingAll(f, kids, d, st).0;
            && after.cursor == st.cursor + |Childless(f, Branches(f, up, kids))|
            && FillRows(after.slots, Childless(f, Branches(f, up, kids)), st.cursor, after.cursor)
    decreases Rank(f, d), |kids| + 1
  {
    if kids == [] {
      assert Childless(f, Branches(f, up, kids)) == {};
    } else {
      var rest, last := kids[..|kids| - 1], kids[|kids| - 1];
      PlacingAllFills(f, up, rest, d, st);
      PlacingAllAdds(f, up, rest, d, st);
      var (middle, rows) := PlacingAll(f, rest, d, st);
      LastSiblingApart(f, up, kids, d);
      PlacingFills(f, up, last, middle);
      PlacingAdds(f, up, last, middle);
      var (after, row) := Placing(f, last, middle);
      FillSiblings(f, Branches(f, up, rest), Branch(f, up, last), st.cursor, middle, after);
      assert Branches(f, up, kids) == Branches(f, up, rest) + Branch(f, up, last);
    }
  }

  lemma FillSiblings(f: Forest, before: set<string>, last: set<string>, low: int, middle: State, after: State)
    requires FillRows(middle.slots, Childless(f, before), low, middle.cursor)
    requires FillRows(after.slots, Childless(f, last), middle.cursor, after.cursor)
    requires before !! last && forall x :: x in middle.slots ==> x in after.slots && after.slots[x] == middle.slots[x]
    ensures FillRows(after.slots, Childless(f, before + last), low, after.cursor)
  {
    var a, b := Childless(f, before), Childless(f, last);
    assert Childless(f, before + last) == a + b;
    FillKept(middle.slots, after.slots, a, low, middle.cursor);
    FillJoins(after.slots, a, b, low, middle.cursor, after.cursor);
  }

  // ---------------------------------------------------------------- the whole layout

  /** Some site of the list names `x` as its parent. */
  ghost predicate IsParent(sites: seq<Site>, x: string) {
    exists s :: s in sites && HasParent(s) && s.parent.value == x
  }

  lemma {:induction false} ParentsAreIndexed(sites: seq<Site>, x: string)
    ensures Lookup(ChildrenIndex(sites), x, []) != [] <==> IsParent(sites, x)
  {
    if sites == [] {
    } else {
      var front, last := sites[..|sites| - 1], sites[|sites| - 1];
      assert sites == front + [last];
      ParentsAreIndexed(front, x);
    }
  }

  /** The sites that take a row of their own: those without children, and those not reached from the root. */
  ghost function OwnRow(sites: seq<Site>, root: Option<string>): set<string>
    requires SiteTree(sites)
  {
    set x | x in Names(sites) && (x !in Reached(sites, root) || !IsParent(sites, x))
  }

  lemma FromRootFills(sites: seq<Site>, root: Option<string>)
    requires SiteTree(sites) && Tree(ForestOf(sites), UpOf(sites))
    ensures var st := FromRoot(ForestOf(sites), root);
            FillRows(st.slots, Childless(ForestOf(sites), Reached(sites, root)), 0, st.cursor)
  {
    if root.Some? && root.value != "" {
      PlacingFills(ForestOf(sites), UpOf(sites), root.value, State(0, map[]));
    } else {
      assert Childless(ForestOf(sites), {}) == {};
    }
  }

  lemma {:induction false} RestSlots(sites: seq<Site>, st: State)
    ensures var after := PlacingRest(sites, st);
            && after.slots.Keys == st.slots.Keys + Names(sites)
            && (forall x :: x in st.slots ==> after.slots[x] == st.slots[x])
  {
    if sites == [] {
    } else {
      RestSlots(sites[..|sites| - 1], st);
      LastName(sites);
    }
  }

  lemma LastName(sites: seq<Site>)
    requires sites != []
    ensures Names(sites) == Names(sites[..|sites| - 1]) + {sites[|sites| - 1].site}
  {
    assert sites == sites[..|sites| - 1] + [sites[|sites| - 1]];
  }

  /** Each site without a slot takes the next row. */
  lemma {:induction false} RestFills(sites: seq<Site>, st: State)
    ensures var after := PlacingRest(sites, st);
            FillRows(after.slots, Names(sites) - st.slots.Keys, st.cursor, after.cursor)
  {
    if sites == [] {
    } else {
      var front, name := sites[..|sites| - 1], sites[|sites| - 1].site;
      RestFills(front, st);
      RestSlots(front, st);
      LastName(sites);
      NextFills(PlacingRest(front, st), st.slots.Keys, Names(front), st.cursor, name);
    }
  }

  /** One more site: it keeps its slot or takes the next row. */
  lemma NextFills(before: State, kept: set<string>, front: set<string>, low: nat, name: string)
    requires before.slots.Keys == kept + front && FillRows(before.slots, front - kept, low, before.cursor)
    ensures var after := if name in before.slots then before
                         else State(before.cursor + 1, before.slots[name := Slot(0, before.cursor as real)]);
            FillRows(after.slots, (front + {name}) - kept, low, after.cursor)
  {
    if name in before.slots {
      assert (front + {name}) - kept == front - kept;
    } else {
      var slots := before.slots[name := Slot(0, before.cursor as real)];
      assert (front + {name}) - kept == (front - kept) + {name};
      FillKept(before.slots, slots, front - kept, low, before.cursor);
      FillOne(slots, name, before.cursor);
      FillJoins(slots, front - kept, {name}, low, before.cursor, before.cursor + 1);
    }
  }

  /**
   The drawing has as many rows as there are sites without children and sites not reached from the root, and
   at least one; each of these sites has one of these rows to itself, the reached ones before the others.
   */
  lemma RowsAreTakenOnce(sites: seq<Site>, root: Option<string>)
    requires SiteTree(sites) && RootListed(sites, root)
    ensures Ranked(ForestOf(sites))
    ensures var layout, own := Units(sites, root), OwnRow(sites, root);
            var above := own * Reached(sites, root);
            && layout.rows == (if |own| > 1 then |own| else 1)
            && FillRows(layout.slots, own, 0, |own|)
            && FillRows(layout.slots, above, 0, |above|)
  {
    ForestIsTree(sites);
    var f, reached := ForestOf(sites), Reached(sites, root);
    var above, below := Childless(f, reached), Names(sites) - reached;
    FromRootAdds(sites, root);
    OwnRowSplits(sites, root, above);
    FromRootFills(sites, root);
    var st := FromRoot(f, root);
    assert st.slots.Keys == reached;
    RestFills(sites, st);
    RestSlots(sites, st);
    TogetherFill(st, PlacingRest(sites, st), above, below);
  }

  lemma OwnRowSplits(sites: seq<Site>, root: Option<string>, above: set<string>)
    requires SiteTree(sites) && Reached(sites, root) <= Names(sites)
    requires above == Childless(ForestOf(sites), Reached(sites, root))
    ensures OwnRow(sites, root) == above + (Names(sites) - Reached(sites, root))
    ensures OwnRow(sites, root) * Reached(sites, root) == above
  {
    forall x ensures Kids(ForestOf(sites), x) == [] <==> !IsParent(sites, x) {
      ParentsAreIndexed(sites, x);
    }
  }

  lemma TogetherFill(st: State, after: State, above: set<string>, below: set<string>)
    requires FillRows(st.slots, above, 0, st.cursor) && FillRows(after.slots, below, st.cursor, after.cursor)
    requires above !! below && forall x :: x in st.slots ==> x in after.slots && after.slots[x] == st.slots[x]
    ensures FillRows(after.slots, above, 0, |above|) && FillRows(after.slots, above + below, 0, after.cursor)
  {
    FillKept(st.slots, after.slots, above, 0, st.cursor);
    FillJoins(after.slots, above, below, 0, st.cursor, after.cursor);
  }

  /** Sites not reached from the root follow each other in the order of the list. */
  lemma UnreachedInListOrder(sites: seq<Site>, root: Option<string>, i: nat, j: nat)
    requires SiteTree(sites) && RootListed(sites, root) && i < j < |sites|
    requires sites[i].site !in Reached(sites, root) && sites[j].site !in Reached(sites, root)
    ensures Ranked(ForestOf(sites))
    ensures var slots := Units(sites, root).slots;
            && sites[i].site in slots && sites[j].site in slots
            && slots[sites[i].site].row + 1.0 <= slots[sites[j].site].row
  {
    ForestIsTree(sites);
    FromRootAdds(sites, root);
    RestInOrder(sites, FromRoot(ForestOf(sites), root), i, j);
  }

  lemma RestBelow(sites: seq<Site>, st: State, i: nat)
    requires i < |sites| && sites[i].site !in st.slots
    ensures var after := PlacingRest(sites, st);
            sites[i].site in after.slots && after.slots[sites[i].site].row + 1.0 <= after.cursor as real
  {
    RestFills(sites, st);
    assert sites[i] in sites;
    assert sites[i].site in Names(sites) - st.slots.Keys;
    assert Within(PlacingRest(sites, st).slots, sites[i].site, st.cursor, PlacingRest(sites, st).cursor);
  }

  lemma LastTakesNext(sites: seq<Site>, st: State)
    requires sites != [] && Unique(sites) && sites[|sites| - 1].site !in st.slots
    ensures var name, before := sites[|sites| - 1].site, PlacingRest(sites[..|sites| - 1], st);
            && name in PlacingRest(sites, st).slots
            && PlacingRest(sites, st).slots[name].row == before.cursor as real
  {
    var front, name := sites[..|sites| - 1], sites[|sites| - 1].site;
    RestSlots(front, st);
    forall s | s in front ensures s.site != name {
      var k :| 0 <= k < |front| && front[k] == s;
      assert sites[k].site != sites[|sites| - 1].site;
    }
  }

  lemma {:induction false} RestInOrder(sites: seq<Site>, st: State, i: nat, j: nat)
    requires Unique(sites) && i < j < |sites|
    requires sites[i].site !in st.slots && sites[j].site !in st.slots
    ensures var slots := PlacingRest(sites, st).slots;
            && sites[i].site in slots && sites[j].site in slots
            && slots[sites[i].site].row + 1.0 <= slots[sites[j].site].row
    decreases |sites|
  {
    var front := sites[..|sites| - 1];
    assert front[i] == sites[i];
    if j == |front| {
      RestBelow(front, st, i);
      LastTakesNext(sites, st);
    } else {
      assert front[j] == sites[j];
      RestInOrder(front, st, i, j);
      LaterKeeps(sites, st, sites[j].site);
    }
    LaterKeeps(sites, st, sites[i].site);
  }

  lemma LaterKeeps(sites: seq<Site>, st: State, x: string)
    requires sites != [] && x in PlacingRest(sites[..|sites| - 1], st).slots
    ensures x in PlacingRest(sites, st).slots
    ensures PlacingRest(sites, st).slots[x] == PlacingRest(sites[..|sites| - 1], st).slots[x]
  {
  }

  /** The last column is the deepest one of the list. */
  lemma {:induction false} LastColumnIsDeepest(sites: seq<Site>)
    ensures forall s :: s in sites ==> s.depth.GetOr(0) <= MaxDepth(sites)
    ensures MaxDepth(sites) == 0 || exists s :: s in sites && s.depth == Some(MaxDepth(sites))
  {
    if sites == [] {
    } else {
      var front, last := sites[..|sites| - 1], sites[|sites| - 1];
      LastColumnIsDeepest(front);
      assert sites == front + [last];
      assert last in sites;
    }
  }
}
