/**
 `layoutUnits`: the placement of every site of the topology graph in units (column, row).

 The recursive closure `place` shares a cursor and a map of slots with its caller; here both are
 fields of a class. The functions describe what one call does to them, on values.
 */
module TopologyLayout {
  import opened Wrappers
  import opened Order

  /** The three fields of `topo.sites[k]` that the layout reads. */
  datatype Site = Site(site: string, depth: Option<nat>, parent: Option<string>)

  datatype Slot = Slot(depth: nat, row: real)

  /** The cursor and the slots shared by all calls of `place`. */
  datatype State = State(cursor: nat, slots: map<string, Slot>)

  /** The two indexes built from the site list, and the deepest column. */
  datatype Forest = Forest(children: map<string, seq<string>>, depthOf: map<string, nat>, deepest: nat)

  function Depth(f: Forest, name: string): nat {
    Lookup(f.depthOf, name, 0)
  }

  /** The children in the order `place` visits them. */
  function Kids(f: Forest, p: string): seq<string> {
    Sort(Lookup(f.children, p, []), NameLe)
  }

  /** Children are one column to the right of their parent. */
  ghost predicate Ranked(f: Forest) {
    forall p, k :: KidInNextColumn(f, p, k)
  }

  ghost predicate KidInNextColumn(f: Forest, p: string, k: string) {
    k in Kids(f, p) ==> Depth(f, k) == Depth(f, p) + 1 <= f.deepest
  }

  // ---------------------------------------------------------------- the two indexes

  function HasParent(s: Site): bool {
    s.parent.Some? && s.parent.value != ""
  }

  /** The `children` map after the first loop. */
  function ChildrenIndex(sites: seq<Site>): map<string, seq<string>> {
    if sites == [] then map[]
    else
      var index := ChildrenIndex(sites[..|sites| - 1]);
      var s := sites[|sites| - 1];
      if HasParent(s)
      then index[s.parent.value := Lookup(index, s.parent.value, []) + [s.site]]
      else index
  }

  /** The `depthOf` map after the first loop. */
  function DepthIndex(sites: seq<Site>): map<string, nat> {
    if sites == [] then map[]
    else DepthIndex(sites[..|sites| - 1])[sites[|sites| - 1].site := sites[|sites| - 1].depth.GetOr(0)]
  }

  function MaxDepth(sites: seq<Site>): nat {
    if sites == [] then 0
    else
      var d := sites[|sites| - 1].depth.GetOr(0);
      var m := MaxDepth(sites[..|sites| - 1]);
      if d > m then d else m
  }

  function ForestOf(sites: seq<Site>): Forest {
    Forest(ChildrenIndex(sites), DepthIndex(sites), MaxDepth(sites))
  }

  // ---------------------------------------------------------------- what the code computes

  function MinRow(rows: seq<real>): real
    requires rows != []
  {
    if |rows| == 1 then rows[0]
    else var m := MinRow(rows[..|rows| - 1]); if rows[|rows| - 1] < m then rows[|rows| - 1] else m
  }

  function MaxRow(rows: seq<real>): real
    requires rows != []
  {
    if |rows| == 1 then rows[0]
    else var m := MaxRow(rows[..|rows| - 1]); if rows[|rows| - 1] > m then rows[|rows| - 1] else m
  }

  lemma RankedKids(f: Forest, name: string)
    requires Ranked(f)
    ensures forall k :: k in Kids(f, name) ==> Depth(f, k) == Depth(f, name) + 1 <= f.deepest
  {
    forall k | k in Kids(f, name) ensures Depth(f, k) == Depth(f, name) + 1 <= f.deepest {
      assert KidInNextColumn(f, name, k);
    }
  }

  function Rank(f: Forest, d: nat): nat {
    if d <= f.deepest then f.deepest + 1 - d else 0
  }

  /** One call of `place`: a leaf takes the next row, a parent the middle of its children. */
  function Placing(f: Forest, name: string, st: State): (State, real)
    requires Ranked(f)
    decreases Rank(f, Depth(f, name)), 0
  {
    RankedKids(f, name);
    var kids := Kids(f, name);
    if kids == [] then Leaf(f, name, st)
    else
      assert kids[0] in kids;
      var (after, rows) := PlacingAll(f, kids, Depth(f, name) + 1, st);
      Centred(f, name, after, rows)
  }

  function Leaf(f: Forest, name: string, st: State): (State, real) {
    var row := st.cursor as real;
    (State(st.cursor + 1, st.slots[name := Slot(Depth(f, name), row)]), row)
  }

  function Centred(f: Forest, name: string, after: State, rows: seq<real>): (State, real)
    requires rows != []
  {
    var row := (MinRow(rows) + MaxRow(rows)) / 2.0;
    (after.(slots := after.slots[name := Slot(Depth(f, name), row)]), row)
  }

  /** `kids.map(place)`. */
  function PlacingAll(f: Forest, kids: seq<string>, d: nat, st: State): (r: (State, seq<real>))
    requires Ranked(f) && d <= f.deepest
    requires forall k :: k in kids ==> Depth(f, k) == d
    ensures |r.1| == |kids|
    decreases Rank(f, d), |kids| + 1
  {
    if kids == [] then (st, [])
    else
      var (before, rows) := PlacingAll(f, kids[..|kids| - 1], d, st);
      var (after, row) := Placing(f, kids[|kids| - 1], before);
      (after, rows + [row])
  }

  /** The last loop: sites not reached from the root go below, in column 0. */
  function PlacingRest(sites: seq<Site>, st: State): State {
    if sites == [] then st
    else
      var before := PlacingRest(sites[..|sites| - 1], st);
      var name := sites[|sites| - 1].site;
      if name in before.slots then before
      else State(before.cursor + 1, before.slots[name := Slot(0, before.cursor as real)])
  }

  function FromRoot(f: Forest, root: Option<string>): State
    requires Ranked(f)
  {
    if root.Some? && root.value != "" then Placing(f, root.value, State(0, map[])).0 else State(0, map[])
  }

  datatype Layout = Layout(slots: map<string, Slot>, rows: nat, maxDepth: nat)

  function Units(sites: seq<Site>, root: Option<string>): Layout
    requires Ranked(ForestOf(sites))
  {
    var st := PlacingRest(sites, FromRoot(ForestOf(sites), root));
    Layout(st.slots, if st.cursor > 1 then st.cursor else 1, MaxDepth(sites))
  }

  // ---------------------------------------------------------------- the code

  class Placer {
    var children: map<string, seq<string>>
    var depthOf: map<string, nat>
    var cursor: nat
    var slots: map<string, Slot>

    ghost predicate Indexes(f: Forest)
      reads this`children, this`depthOf
    {
      children == f.children && depthOf == f.depthOf
    }

    ghost function Value(): State
      reads this`cursor, this`slots
    {
      State(cursor, slots)
    }

    constructor (sites: seq<Site>)
      ensures Indexes(ForestOf(sites)) && Value() == State(0, map[])
    {
      children, depthOf, cursor, slots := map[], map[], 0, map[];
      new;
      for i := 0 to |sites|
        modifies this
        invariant cursor == 0 && slots == map[]
        invariant children == ChildrenIndex(sites[..i]) && depthOf == DepthIndex(sites[..i])
      {
        var s := sites[i];
        assert sites[..i + 1][..i] == sites[..i];
        depthOf := depthOf[s.site := s.depth.GetOr(0)];
        if HasParent(s) {
          children := children[s.parent.value := Lookup(children, s.parent.value, []) + [s.site]];
        }
      }
      assert sites[..|sites|] == sites;
    }

    method Place(ghost f: Forest, site: string) returns (row: real)
      requires Indexes(f) && Ranked(f)
      modifies this`cursor, this`slots
      ensures (Value(), row) == Placing(f, site, old(Value()))
      decreases Rank(f, Depth(f, site)), 0
    {
      RankedKids(f, site);
      var kids := Sort(Lookup(children, site, []), NameLe);
      if |kids| == 0 {
        row := cursor as real;
        cursor := cursor + 1;
      } else {
        assert kids[0] in kids;
        var rowsOfKids := PlaceEach(f, kids, Depth(f, site) + 1);
        row := (MinRow(rowsOfKids) + MaxRow(rowsOfKids)) / 2.0;
      }
      slots := slots[site := Slot(Lookup(depthOf, site, 0), row)];
    }

    /** `kids.map(place)` */
    method PlaceEach(ghost f: Forest, kids: seq<string>, ghost d: nat) returns (rows: seq<real>)
      requires Indexes(f) && Ranked(f) && d <= f.deepest
      requires forall k :: k in kids ==> Depth(f, k) == d
      modifies this`cursor, this`slots
      ensures (Value(), rows) == PlacingAll(f, kids, d, old(Value()))
      decreases Rank(f, d), 1
    {
      rows := [];
      for i := 0 to |kids|
        invariant (Value(), rows) == PlacingAll(f, kids[..i], d, old(Value()))
      {
        assert kids[..i + 1][..i] == kids[..i];
        var r := Place(f, kids[i]);
        rows := rows + [r];
      }
      assert kids[..|kids|] == kids;
    }
  }

  method LayoutUnits(sites: seq<Site>, root: Option<string>) returns (layout: Layout)
    requires Ranked(ForestOf(sites))
    ensures layout == Units(sites, root)
  {
    var placer := new Placer(sites);
    if root.Some? && root.value != "" {
      var _ := placer.Place(ForestOf(sites), root.value);
    }
    for i := 0 to |sites|
      invariant placer.Value() == PlacingRest(sites[..i], FromRoot(ForestOf(sites), root))
    {
      assert sites[..i + 1][..i] == sites[..i];
      if sites[i].site !in placer.slots {
        placer.slots := placer.slots[sites[i].site := Slot(0, placer.cursor as real)];
        placer.cursor := placer.cursor + 1;
      }
    }
    assert sites[..|sites|] == sites;
    var deepest := 0;
    for i := 0 to |sites|
      invariant deepest == MaxDepth(sites[..i])
    {
      assert sites[..i + 1][..i] == sites[..i];
      var d := sites[i].depth.GetOr(0);
      if d > deepest {
        deepest := d;
      }
    }
    assert sites[..|sites|] == sites;
    layout := Layout(placer.slots, if placer.cursor > 1 then placer.cursor else 1, deepest);
  }
}
