/** Where a parent stands in the finished layout: its children below one another by name, itself in their middle. */
module LayoutOrder {
  import opened Wrappers
  import opened Order
  import opened TopologyLayout
  import opened LayoutSeparation
  import opened TopologyCards

  /** The children of `x` lie top to bottom by name, and `x` halfway between the first and the last of them. */
  ghost predicate InTheMiddle(f: Forest, slots: map<string, Slot>, x: string) {
    var kids := Kids(f, x);
    kids != [] ==>
      && x in slots && (forall k :: k in kids ==> k in slots)
      && SortedBy(kids, NameLe)
      && (forall i, j :: 0 <= i < j < |kids| ==> slots[kids[i]].row + 1.0 <= slots[kids[j]].row)
      && slots[x].row == (slots[kids[0]].row + slots[kids[|kids| - 1]].row) / 2.0
  }

  ghost predicate AllInTheMiddle(f: Forest, slots: map<string, Slot>, sub: set<string>) {
    forall x :: x in sub ==> InTheMiddle(f, slots, x)
  }

  lemma MiddleKept(f: Forest, slots: map<string, Slot>, later: map<string, Slot>, sub: set<string>)
    requires AllInTheMiddle(f, slots, sub) && forall x :: x in slots ==> x in later && later[x] == slots[x]
    ensures AllInTheMiddle(f, later, sub)
  {
    forall x | x in sub ensures InTheMiddle(f, later, x) {
      assert InTheMiddle(f, slots, x);
      assert forall i :: 0 <= i < |Kids(f, x)| ==> Kids(f, x)[i] in Kids(f, x);
    }
  }

  lemma {:induction false} PlacingCentres(f: Forest, up: map<string, string>, name: string, st: State)
    requires Tree(f, up) && Branch(f, up, name) !! st.slots.Keys
    ensures AllInTheMiddle(f, Placing(f, name, st).0.slots, Branch(f, up, name))
    decreases Rank(f, Depth(f, name)), 0
  {
    RankedKids(f, name);
    var kids := Kids(f, name);
    BranchSplits(f, up, name);
    if kids != [] {
      assert kids[0] in kids;
      PlacingAllCentres(f, up, kids, Depth(f, name) + 1, st);
      SlotsOfBranch(f, up, name, st);
      SelfCentred(f, up, name, st);
      ParentCentres(f, up, name, PlacingAll(f, kids, Depth(f, name) + 1, st).0.slots, Placing(f, name, st).0.slots);
    }
  }

  /** A parent's own slot is the only one that its children's placement does not give. */
  lemma SlotsOfBranch(f: Forest, up: map<string, string>, name: string, st: State)
    requires Tree(f, up) && Branch(f, up, name) !! st.slots.Keys && Kids(f, name) != []
    requires Depth(f, name) + 1 <= f.deepest && forall k :: k in Kids(f, name) ==> Depth(f, k) == Depth(f, name) + 1
    ensures var slots := PlacingAll(f, Kids(f, name), Depth(f, name) + 1, st).0.slots;
            OneMoreSlot(slots, Placing(f, name, st).0.slots, name)
  {
    BranchSplits(f, up, name);
    PlacingAllAdds(f, up, Kids(f, name), Depth(f, name) + 1, st);
  }

  predicate OneMoreSlot(slots: map<string, Slot>, later: map<string, Slot>, name: string) {
    name !in slots && later.Keys == slots.Keys + {name} && forall x :: x in slots ==> later[x] == slots[x]
  }

  lemma ParentCentres(f: Forest, up: map<string, string>, name: string, slots: map<string, Slot>,
                      later: map<string, Slot>)
    requires Tree(f, up) && OneMoreSlot(slots, later, name)
    requires AllInTheMiddle(f, slots, Branches(f, up, Kids(f, name))) && InTheMiddle(f, later, name)
    ensures AllInTheMiddle(f, later, Branch(f, up, name))
  {
    BranchSplits(f, up, name);
    MiddleKept(f, slots, later, Branches(f, up, Kids(f, name)));
  }

  lemma SelfCentred(f: Forest, up: map<string, string>, name: string, st: State)
    requires Tree(f, up) && Branch(f, up, name) !! st.slots.Keys && Kids(f, name) != []
    ensures InTheMiddle(f, Placing(f, name, st).0.slots, name)
  {
    ChildrenInNameOrder(f, up, name, st);
    PlacingAdds(f, up, name, st);
  }

  lemma {:induction false} PlacingAllCentres(f: Forest, up: map<string, string>, kids: seq<string>, d: nat, st: State)
    requires Tree(f, up) && d <= f.deepest && Distinct(kids)
    requires forall k :: k in kids ==> Depth(f, k) == d
    requires Branches(f, up, kids) !! st.slots.Keys
    ensures AllInTheMiddle(f, PlacingAll(f, kids, d, st).0.slots, Branches(f, up, kids))
    decreases Rank(f, d), |kids| + 1
  {
    if kids != [] {
      var rest, last := kids[..|kids| - 1], kids[|kids| - 1];
      PlacingAllCentres(f, up, rest, d, st);
      PlacingAllAdds(f, up, rest, d, st);
      var middle := PlacingAll(f, rest, d, st).0;
      LastSiblingApart(f, up, kids, d);
      PlacingCentres(f, up, last, middle);
      PlacingAdds(f, up, last, middle);
      MiddleKept(f, middle.slots, Placing(f, last, middle).0.slots, Branches(f, up, rest));
      assert Branches(f, up, kids) == Branches(f, up, rest) + Branch(f, up, last);
    }
  }

  // ---------------------------------------------------------------- the whole layout

  /** The sites that name `x` as their parent. */
  ghost function Offspring(sites: seq<Site>, x: string): set<string> {
    set s | s in sites && HasParent(s) && s.parent.value == x :: s.site
  }

  lemma {:induction false} IndexedChildren(sites: seq<Site>, x: string, k: string)
    ensures k in Lookup(ChildrenIndex(sites), x, []) <==> k in Offspring(sites, x)
  {
    if sites == [] {
    } else {
      var front, last := sites[..|sites| - 1], sites[|sites| - 1];
      assert sites == front + [last];
      IndexedChildren(front, x, k);
      assert Offspring(sites, x) ==
             Offspring(front, x) + if HasParent(last) && last.parent.value == x then {last.site} else {};
    }
  }

  lemma KidsAreOffspring(sites: seq<Site>, x: string)
    requires SiteTree(sites)
    ensures forall k :: k in Kids(ForestOf(sites), x) <==> k in Offspring(sites, x)
  {
    IndexDistinct(sites, x);
    SortDistinct(Lookup(ForestOf(sites).children, x, []), NameLe);
    forall k ensures k in Kids(ForestOf(sites), x) <==> k in Offspring(sites, x) {
      IndexedChildren(sites, x, k);
    }
  }

  /** First and last of a set of names. */
  ghost predicate FirstAndLast(names: set<string>, first: string, last: string) {
    first in names && last in names && forall a :: a in names ==> NameLe(first, a) && NameLe(a, last)
  }

  /**
   In the finished layout of any tree, the children of a reached site lie below one another by name, at least a row
   apart, and the site itself is halfway between the first and the last of them.
   */
  lemma ParentsInTheMiddle(sites: seq<Site>, root: Option<string>, x: string)
    requires SiteTree(sites) && RootListed(sites, root) && x in Reached(sites, root) && Offspring(sites, x) != {}
    ensures Ranked(ForestOf(sites))
    ensures var slots := Units(sites, root).slots;
            && x in slots && Offspring(sites, x) <= slots.Keys
            && (forall a, b :: a in Offspring(sites, x) && b in Offspring(sites, x) && a != b && NameLe(a, b) ==>
                  slots[a].row + 1.0 <= slots[b].row)
            && exists first, last :: FirstAndLast(Offspring(sites, x), first, last)
                 && slots[x].row == (slots[first].row + slots[last].row) / 2.0
  {
    ForestIsTree(sites);
    var f := ForestOf(sites);
    var st := FromRoot(f, root);
    PlacingCentres(f, UpOf(sites), root.value, State(0, map[]));
    FromRootAdds(sites, root);
    PlacingRestAdds(sites, st);
    var slots := Units(sites, root).slots;
    MiddleKept(f, st.slots, slots, Reached(sites, root));
    KidsAreOffspring(sites, x);
    OffspringInOrder(f, slots, x, Offspring(sites, x));
  }

  lemma OffspringInOrder(f: Forest, slots: map<string, Slot>, x: string, own: set<string>)
    requires InTheMiddle(f, slots, x) && own != {} && forall k :: k in Kids(f, x) <==> k in own
    ensures x in slots && own <= slots.Keys
    ensures forall a, b :: a in own && b in own && a != b && NameLe(a, b) ==> slots[a].row + 1.0 <= slots[b].row
    ensures exists first, last :: FirstAndLast(own, first, last)
              && slots[x].row == (slots[first].row + slots[last].row) / 2.0
  {
    var kids := Kids(f, x);
    var k :| k in own;
    assert k in kids;
    forall a, b | a in own && b in own && a != b && NameLe(a, b) ensures slots[a].row + 1.0 <= slots[b].row {
      var i :| 0 <= i < |kids| && kids[i] == a;
      var j :| 0 <= j < |kids| && kids[j] == b;
      NameLeTotal(a, b);
    }
    var first, last := kids[0], kids[|kids| - 1];
    assert first in kids && last in kids;
    forall a | a in own ensures NameLe(first, a) && NameLe(a, last) {
      var i :| 0 <= i < |kids| && kids[i] == a;
      NameLeTotal(a, a);
    }
    assert FirstAndLast(own, first, last);
  }
}
