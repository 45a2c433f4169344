/**
 The placement of `TopologyLayout` never stacks two sites: two sites of one column are at least one
 row apart, and so are any two sites of which neither is an ancestor of the other.
 */
module LayoutSeparation {
  import opened Wrappers
  import opened Order
  import opened TopologyLayout

  // ---------------------------------------------------------------- the tree the indexes describe

  /** `up` maps every child to its one parent. */
  ghost predicate Tree(f: Forest, up: map<string, string>) {
    && Ranked(f)
    && (forall p :: Distinct(Kids(f, p)))
    && (forall p, k :: ParentAgrees(f, up, p, k))
  }

  ghost predicate ParentAgrees(f: Forest, up: map<string, string>, p: string, k: string) {
    k in Kids(f, p) <==> k in up && up[k] == p
  }

  lemma ParentFacts(f: Forest, up: map<string, string>, x: string)
    requires Tree(f, up) && x in up
    ensures x in Kids(f, up[x]) && Depth(f, x) == Depth(f, up[x]) + 1
  {
    assert ParentAgrees(f, up, up[x], x) && KidInNextColumn(f, up[x], x);
  }

  /** `a` is `x` or one of its ancestors. */
  ghost predicate Above(f: Forest, up: map<string, string>, a: string, x: string)
    requires Tree(f, up)
    decreases Depth(f, x)
  {
    a == x || (x in up && (ParentFacts(f, up, x); Above(f, up, a, up[x])))
  }

  ghost predicate Related(f: Forest, up: map<string, string>, x: string, y: string)
    requires Tree(f, up)
  {
    Above(f, up, x, y) || Above(f, up, y, x)
  }

  /** A site with everything below it. */
  ghost function Branch(f: Forest, up: map<string, string>, a: string): set<string>
    requires Tree(f, up)
  {
    {a} + set x | x in up && Above(f, up, a, x)
  }

  ghost function Branches(f: Forest, up: map<string, string>, kids: seq<string>): set<string>
    requires Tree(f, up)
  {
    if kids == [] then {}
    else Branches(f, up, kids[..|kids| - 1]) + Branch(f, up, kids[|kids| - 1])
  }

  lemma InBranch(f: Forest, up: map<string, string>, a: string, x: string)
    requires Tree(f, up)
    ensures x in Branch(f, up, a) <==> Above(f, up, a, x)
  {
  }

  lemma {:induction false} InBranches(f: Forest, up: map<string, string>, kids: seq<string>, x: string)
    requires Tree(f, up)
    ensures x in Branches(f, up, kids) <==> exists k :: k in kids && Above(f, up, k, x)
  {
    if kids == [] {
    } else {
      InBranches(f, up, kids[..|kids| - 1], x);
      InBranch(f, up, kids[|kids| - 1], x);
      assert kids == kids[..|kids| - 1] + [kids[|kids| - 1]];
    }
  }

  lemma {:induction false} AboveDepth(f: Forest, up: map<string, string>, a: string, x: string)
    requires Tree(f, up) && Above(f, up, a, x)
    ensures Depth(f, a) <= Depth(f, x)
    ensures Depth(f, a) == Depth(f, x) ==> a == x
    decreases Depth(f, x)
  {
    if a != x {
      ParentFacts(f, up, x);
      AboveDepth(f, up, a, up[x]);
    }
  }

  /** A site has one ancestor per column. */
  lemma {:induction false} OneAncestorPerColumn(f: Forest, up: map<string, string>, a: string, b: string, x: string)
    requires Tree(f, up) && Above(f, up, a, x) && Above(f, up, b, x) && Depth(f, a) == Depth(f, b)
    ensures a == b
    decreases Depth(f, x)
  {
    AboveDepth(f, up, a, x);
    AboveDepth(f, up, b, x);
    if a != x && b != x {
      ParentFacts(f, up, x);
      OneAncestorPerColumn(f, up, a, b, up[x]);
    }
  }

  lemma {:induction false} AboveTransitive(f: Forest, up: map<string, string>, a: string, b: string, x: string)
    requires Tree(f, up) && Above(f, up, b, x) && Above(f, up, a, b)
    ensures Above(f, up, a, x)
    decreases Depth(f, x)
  {
    if b != x {
      ParentFacts(f, up, x);
      AboveTransitive(f, up, a, b, up[x]);
    }
  }

  lemma {:induction false} BelowThroughKid(f: Forest, up: map<string, string>, a: string, x: string) returns (k: string)
    requires Tree(f, up) && Above(f, up, a, x) && a != x
    ensures k in Kids(f, a) && Above(f, up, k, x)
    decreases Depth(f, x)
  {
    ParentFacts(f, up, x);
    if up[x] == a {
      k := x;
    } else {
      k := BelowThroughKid(f, up, a, up[x]);
    }
  }

  lemma KidBelow(f: Forest, up: map<string, string>, a: string, k: string)
    requires Tree(f, up) && k in Kids(f, a)
    ensures Above(f, up, a, k) && Depth(f, k) == Depth(f, a) + 1
  {
    assert ParentAgrees(f, up, a, k) && KidInNextColumn(f, a, k);
    assert Above(f, up, a, a);
  }

  /** A branch is its top site and the branches of its children. */
  lemma BranchSplits(f: Forest, up: map<string, string>, a: string)
    requires Tree(f, up)
    ensures Branch(f, up, a) == {a} + Branches(f, up, Kids(f, a))
    ensures a !in Branches(f, up, Kids(f, a))
    ensures forall x :: x in Branches(f, up, Kids(f, a)) ==> Above(f, up, a, x)
  {
    var kids := Kids(f, a);
    forall x ensures x in Branch(f, up, a) ==> x in {a} + Branches(f, up, kids) {
      InBranch(f, up, a, x);
      InBranches(f, up, kids, x);
      if Above(f, up, a, x) && a != x {
        var k := BelowThroughKid(f, up, a, x);
      }
    }
    forall x | x in Branches(f, up, kids) ensures Above(f, up, a, x) && x != a && x in Branch(f, up, a) {
      InBranches(f, up, kids, x);
      var k :| k in kids && Above(f, up, k, x);
      KidBelow(f, up, a, k);
      AboveTransitive(f, up, a, k, x);
      AboveDepth(f, up, k, x);
      InBranch(f, up, a, x);
    }
  }

  /** The branches of two sites of one column have nothing in common, and nothing related. */
  lemma BranchesUnrelated(f: Forest, up: map<string, string>, j: string, k: string, x: string, y: string)
    requires Tree(f, up) && j != k && Depth(f, j) == Depth(f, k)
    requires Above(f, up, j, x) && Above(f, up, k, y)
    ensures x != y && !Related(f, up, x, y)
  {
    if x == y {
      OneAncestorPerColumn(f, up, j, k, x);
    }
    if Above(f, up, x, y) {
      AboveTransitive(f, up, j, x, y);
      OneAncestorPerColumn(f, up, j, k, y);
    }
    if Above(f, up, y, x) {
      AboveTransitive(f, up, k, y, x);
      OneAncestorPerColumn(f, up, j, k, x);
    }
  }

  /** The last of a list of siblings shares nothing with the others. */
  lemma LastSiblingApart(f: Forest, up: map<string, string>, kids: seq<string>, d: nat)
    requires Tree(f, up) && kids != [] && Distinct(kids) && forall k :: k in kids ==> Depth(f, k) == d
    ensures var before, last := Branches(f, up, kids[..|kids| - 1]), Branch(f, up, kids[|kids| - 1]);
            && before !! last
            && (forall x, y :: x in before && y in last ==> !Related(f, up, x, y))
  {
    var rest, last := kids[..|kids| - 1], kids[|kids| - 1];
    forall x, y | x in Branches(f, up, rest) && y in Branch(f, up, last)
      ensures x != y && !Related(f, up, x, y)
    {
      InBranches(f, up, rest, x);
      InBranch(f, up, last, y);
      var j :| j in rest && Above(f, up, j, x);
      BranchesUnrelated(f, up, j, last, x, y);
    }
  }

  // ---------------------------------------------------------------- what a placement keeps

  predicate RowsApart(r: real, s: real) {
    r - s >= 1.0 || s - r >= 1.0
  }

  /** `after` adds to `before` exactly the sites of `sub`, in the rows the cursor moved over. */
  ghost predicate Adds(f: Forest, up: map<string, string>, before: State, after: State, sub: set<string>)
    requires Tree(f, up)
  {
    && before.cursor <= after.cursor
    && after.slots.Keys == before.slots.Keys + sub
    && (forall x :: x in before.slots ==> after.slots[x] == before.slots[x])
    && (forall x :: x in sub ==>
          after.slots[x].depth == Depth(f, x)
          && before.cursor as real <= after.slots[x].row <= after.cursor as real - 1.0)
    && (forall x, y :: x in sub && y in sub && !Related(f, up, x, y) ==>
          RowsApart(after.slots[x].row, after.slots[y].row))
  }

  /** Rows of siblings: in the range of the cursor, one row apart, in increasing order. */
  ghost predicate Spread(rows: seq<real>, low: nat, high: nat) {
    && (forall i :: 0 <= i < |rows| ==> low as real <= rows[i] <= high as real - 1.0)
    && (forall i, j :: 0 <= i < j < |rows| ==> rows[i] + 1.0 <= rows[j])
  }

  /** `rows` are the rows of the siblings `kids`. */
  ghost predicate KidsPlaced(kids: seq<string>, rows: seq<real>, before: State, after: State) {
    && |rows| == |kids|
    && Spread(rows, before.cursor, after.cursor)
    && (kids != [] ==> before.cursor < after.cursor)
    && (forall i :: 0 <= i < |kids| ==> kids[i] in after.slots && rows[i] == after.slots[kids[i]].row)
  }

  lemma {:induction false} MiddleInRange(rows: seq<real>, low: real, high: real)
    requires rows != [] && forall i :: 0 <= i < |rows| ==> low <= rows[i] <= high
    ensures low <= MinRow(rows) <= high && low <= MaxRow(rows) <= high
    decreases |rows|
  {
    if |rows| <= 1 {
    } else {
      MiddleInRange(rows[..|rows| - 1], low, high);
    }
  }

  lemma AddsTop(f: Forest, up: map<string, string>, st: State, after: State, sub: set<string>, name: string, row: real)
    requires Tree(f, up) && Adds(f, up, st, after, sub)
    requires name !in sub && name !in st.slots && forall x :: x in sub ==> Above(f, up, name, x)
    requires st.cursor as real <= row <= after.cursor as real - 1.0
    ensures Adds(f, up, st, after.(slots := after.slots[name := Slot(Depth(f, name), row)]), {name} + sub)
  {
    var slots := after.slots[name := Slot(Depth(f, name), row)];
    forall x, y | x in {name} + sub && y in {name} + sub && !Related(f, up, x, y)
      ensures RowsApart(slots[x].row, slots[y].row)
    {
      assert x != y;
      assert x in sub && y in sub;
    }
  }

  lemma AddsCompose(f: Forest, up: map<string, string>, st: State, middle: State, after: State,
                    a: set<string>, b: set<string>)
    requires Tree(f, up) && a !! b && b !! st.slots.Keys
    requires Adds(f, up, st, middle, a) && Adds(f, up, middle, after, b)
    requires forall x, y :: x in a && y in b ==> !Related(f, up, x, y)
    ensures Adds(f, up, st, after, a + b)
  {
    forall x, y | x in a + b && y in a + b && !Related(f, up, x, y)
      ensures RowsApart(after.slots[x].row, after.slots[y].row)
    {
      if x in a && y in a {
        assert RowsApart(middle.slots[x].row, middle.slots[y].row);
      }
    }
  }

  /** What `place` guarantees of one branch. */
  ghost predicate BranchPlaced(f: Forest, up: map<string, string>, name: string, st: State, after: State, row: real)
    requires Tree(f, up)
  {
    && st.cursor < after.cursor
    && Adds(f, up, st, after, Branch(f, up, name))
    && name in after.slots && row == after.slots[name].row
  }

  /** What `kids.map(place)` guarantees. */
  ghost predicate SiblingsPlaced(f: Forest, up: map<string, string>, kids: seq<string>, st: State,
                                 after: State, rows: seq<real>)
    requires Tree(f, up)
  {
    Adds(f, up, st, after, Branches(f, up, kids)) && KidsPlaced(kids, rows, st, after)
  }

  lemma LeafPlaced(f: Forest, up: map<string, string>, name: string, st: State)
    requires Tree(f, up) && name !in st.slots && Kids(f, name) == []
    ensures var (after, row) := Leaf(f, name, st); BranchPlaced(f, up, name, st, after, row)
  {
    BranchSplits(f, up, name);
    assert Branch(f, up, name) == {name};
    assert Above(f, up, name, name);
  }

  lemma CentredPlaced(f: Forest, up: map<string, string>, name: string, st: State, after: State, rows: seq<real>)
    requires Tree(f, up) && Branch(f, up, name) !! st.slots.Keys
    requires Kids(f, name) != [] && SiblingsPlaced(f, up, Kids(f, name), st, after, rows)
    ensures var (top, row) := Centred(f, name, after, rows); BranchPlaced(f, up, name, st, top, row)
  {
    BranchSplits(f, up, name);
    MiddleInRange(rows, st.cursor as real, after.cursor as real - 1.0);
    var row := (MinRow(rows) + MaxRow(rows)) / 2.0;
    assert name in Branch(f, up, name);
    AddsTop(f, up, st, after, Branches(f, up, Kids(f, name)), name, row);
  }

  lemma SiblingStep(f: Forest, up: map<string, string>, kids: seq<string>, d: nat, st: State, middle: State,
                    rows: seq<real>, after: State, row: real)
    requires Tree(f, up) && Distinct(kids) && kids != [] && forall k :: k in kids ==> Depth(f, k) == d
    requires Branches(f, up, kids) !! st.slots.Keys
    requires SiblingsPlaced(f, up, kids[..|kids| - 1], st, middle, rows)
    requires BranchPlaced(f, up, kids[|kids| - 1], middle, after, row)
    ensures SiblingsPlaced(f, up, kids, st, after, rows + [row])
  {
    var rest, last := kids[..|kids| - 1], kids[|kids| - 1];
    assert Adds(f, up, st, after, Branches(f, up, kids)) by {
      LastSiblingApart(f, up, kids, d);
      AddsCompose(f, up, st, middle, after, Branches(f, up, rest), Branch(f, up, last));
    }
    assert KidsPlaced(kids, rows + [row], st, after) by {
      assert rest + [last] == kids;
    }
  }

  lemma {:induction false} PlacingAdds(f: Forest, up: map<string, string>, name: string, st: State)
    requires Tree(f, up) && Branch(f, up, name) !! st.slots.Keys
    ensures var (after, row) := Placing(f, name, st); BranchPlaced(f, up, name, st, after, row)
    decreases Rank(f, Depth(f, name)), 0
  {
    RankedKids(f, name);
    var kids := Kids(f, name);
    BranchSplits(f, up, name);
    if kids == [] {
      LeafPlaced(f, up, name, st);
    } else {
      assert kids[0] in kids;
      PlacingAllAdds(f, up, kids, Depth(f, name) + 1, st);
      var (after, rows) := PlacingAll(f, kids, Depth(f, name) + 1, st);
      CentredPlaced(f, up, name, st, after, rows);
    }
  }

  lemma {:induction false} PlacingAllAdds(f: Forest, up: map<string, string>, kids: seq<string>, d: nat, st: State)
    requires Tree(f, up) && d <= f.deepest && Distinct(kids)
    requires forall k :: k in kids ==> Depth(f, k) == d
    requires Branches(f, up, kids) !! st.slots.Keys
    ensures var (after, rows) := PlacingAll(f, kids, d, st); SiblingsPlaced(f, up, kids, st, after, rows)
    decreases Rank(f, d), |kids| + 1
  {
    if kids == [] {
    } else {
      var rest, last := kids[..|kids| - 1], kids[|kids| - 1];
      PlacingAllAdds(f, up, rest, d, st);
      var (middle, rows) := PlacingAll(f, rest, d, st);
      LastSiblingApart(f, up, kids, d);
      PlacingAdds(f, up, last, middle);
      var (after, row) := Placing(f, last, middle);
      SiblingStep(f, up, kids, d, st, middle, rows, after, row);
    }
  }

  /** Children are laid out top to bottom in name order, and their parent is centred on them. */
  lemma ChildrenInNameOrder(f: Forest, up: map<string, string>, name: string, st: State)
    requires Tree(f, up) && Branch(f, up, name) !! st.slots.Keys && Kids(f, name) != []
    ensures var kids := Kids(f, name);
            var (after, row) := Placing(f, name, st);
            && SortedBy(kids, NameLe)
            && (forall k :: k in kids ==> k in after.slots)
            && (forall i, j :: 0 <= i < j < |kids| ==>
                  after.slots[kids[i]].row + 1.0 <= after.slots[kids[j]].row)
            && row == (after.slots[kids[0]].row + after.slots[kids[|kids| - 1]].row) / 2.0
  {
    var kids := Kids(f, name);
    RankedKids(f, name);
    BranchSplits(f, up, name);
    assert kids[0] in kids;
    PlacingAllAdds(f, up, kids, Depth(f, name) + 1, st);
    var (after, rows) := PlacingAll(f, kids, Depth(f, name) + 1, st);
    EndsOfSpread(rows, st.cursor, after.cursor);
    NameLeIsOrder();
    SortSorted(Lookup(f.children, name, []), NameLe);
    forall i | 0 <= i < |kids|
      ensures kids[i] != name && Centred(f, name, after, rows).0.slots[kids[i]].row == rows[i]
    {
      assert kids[i] in kids;
    }
  }

  lemma {:induction false} EndsOfSpread(rows: seq<real>, low: nat, high: nat)
    requires rows != [] && Spread(rows, low, high)
    ensures MinRow(rows) == rows[0] && MaxRow(rows) == rows[|rows| - 1]
    decreases |rows|
  {
    if |rows| <= 1 {
    } else {
      EndsOfSpread(rows[..|rows| - 1], low, high);
    }
  }
}
