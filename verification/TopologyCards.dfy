/**
 From units to pixels: the geometry memo of the topology graph, and the theorem it is for. For every
 site tree and every viewport, each site has exactly one card, no two cards touch, and all of them lie
 inside the drawing.
 */
module TopologyCards {
  import opened Wrappers
  import opened Order
  import opened TopologyLayout
  import opened LayoutSeparation
  import opened Reals

  // ---------------------------------------------------------------- the site list as a tree

  function Names(sites: seq<Site>): set<string> {
    set s | s in sites :: s.site
  }

  ghost predicate Unique(sites: seq<Site>) {
    forall i, j :: 0 <= i < j < |sites| ==> sites[i].site != sites[j].site
  }

  /** Distinct names; a parent is a site of the list, one column to the left. */
  ghost predicate SiteTree(sites: seq<Site>) {
    Unique(sites) && forall s :: s in sites && HasParent(s) ==> ParentListed(sites, s)
  }

  ghost predicate ParentListed(sites: seq<Site>, s: Site)
    requires HasParent(s)
  {
    exists p :: p in sites && p.site == s.parent.value && s.depth.GetOr(0) == p.depth.GetOr(0) + 1
  }

  function UpOf(sites: seq<Site>): map<string, string> {
    if sites == [] then map[]
    else
      var up, s := UpOf(sites[..|sites| - 1]), sites[|sites| - 1];
      if HasParent(s) then up[s.site := s.parent.value] else up
  }

  lemma {:induction false} IndexAgreesWithUp(sites: seq<Site>, p: string, k: string)
    requires Unique(sites)
    ensures k in Lookup(ChildrenIndex(sites), p, []) <==> k in UpOf(sites) && UpOf(sites)[k] == p
    ensures k in UpOf(sites) ==> k in Names(sites)
  {
    if sites == [] {
    } else {
      IndexAgreesWithUp(sites[..|sites| - 1], p, k);
    }
  }

  lemma {:induction false} IndexDistinct(sites: seq<Site>, p: string)
    requires Unique(sites)
    ensures Distinct(Lookup(ChildrenIndex(sites), p, []))
  {
    if sites == [] {
    } else {
      IndexDistinct(sites[..|sites| - 1], p);
      IndexAgreesWithUp(sites[..|sites| - 1], p, sites[|sites| - 1].site);
    }
  }

  lemma {:induction false} DepthIndexed(sites: seq<Site>, s: Site)
    requires Unique(sites) && s in sites
    ensures Lookup(DepthIndex(sites), s.site, 0) == s.depth.GetOr(0) <= MaxDepth(sites)
  {
    if s != sites[|sites| - 1] {
      var i :| 0 <= i < |sites| && sites[i] == s;
      assert s == sites[..|sites| - 1][i];
      DepthIndexed(sites[..|sites| - 1], s);
    }
  }

  lemma {:induction false} UpFromSite(sites: seq<Site>, k: string) returns (s: Site)
    requires k in UpOf(sites)
    ensures s in sites && HasParent(s) && s.site == k && s.parent.value == UpOf(sites)[k]
  {
    s := sites[|sites| - 1];
    if !(HasParent(s) && s.site == k) {
      s := UpFromSite(sites[..|sites| - 1], k);
    }
  }

  lemma UpDepth(sites: seq<Site>, k: string)
    requires SiteTree(sites) && k in UpOf(sites)
    ensures var f := ForestOf(sites); Depth(f, k) == Depth(f, UpOf(sites)[k]) + 1 <= f.deepest
    ensures UpOf(sites)[k] in Names(sites)
  {
    var s := UpFromSite(sites, k);
    assert ParentListed(sites, s);
    var p :| p in sites && p.site == s.parent.value && s.depth.GetOr(0) == p.depth.GetOr(0) + 1;
    DepthIndexed(sites, s);
    DepthIndexed(sites, p);
  }

  /** The two indexes of a site tree describe a tree. */
  lemma ForestIsTree(sites: seq<Site>)
    requires SiteTree(sites)
    ensures Tree(ForestOf(sites), UpOf(sites))
  {
    var f, up := ForestOf(sites), UpOf(sites);
    forall p ensures Distinct(Kids(f, p)) {
      IndexDistinct(sites, p);
      SortDistinct(Lookup(f.children, p, []), NameLe);
    }
    forall p, k ensures ParentAgrees(f, up, p, k) && KidInNextColumn(f, p, k) {
      IndexDistinct(sites, p);
      SortDistinct(Lookup(f.children, p, []), NameLe);
      IndexAgreesWithUp(sites, p, k);
      if k in Kids(f, p) {
        UpDepth(sites, k);
      }
    }
  }

  // ---------------------------------------------------------------- the whole layout

  /** The root, when there is one, is a site of the list. */
  predicate RootListed(sites: seq<Site>, root: Option<string>) {
    root.Some? && root.value != "" ==> root.value in Names(sites)
  }

  /** The sites drawn by following the tree from the root. */
  ghost function Reached(sites: seq<Site>, root: Option<string>): set<string>
    requires SiteTree(sites)
  {
    ForestIsTree(sites);
    if root.Some? && root.value != "" then Branch(ForestOf(sites), UpOf(sites), root.value) else {}
  }

  lemma FromRootAdds(sites: seq<Site>, root: Option<string>)
    requires SiteTree(sites) && RootListed(sites, root) && Tree(ForestOf(sites), UpOf(sites))
    ensures Adds(ForestOf(sites), UpOf(sites), State(0, map[]), FromRoot(ForestOf(sites), root), Reached(sites, root))
    ensures Reached(sites, root) <= Names(sites)
  {
    if root.Some? && root.value != "" {
      PlacingAdds(ForestOf(sites), UpOf(sites), root.value, State(0, map[]));
      forall x | x in UpOf(sites) ensures x in Names(sites) {
        IndexAgreesWithUp(sites, "", x);
      }
    }
  }

  /** The last loop keeps the slots it finds and gives each other site a fresh row of column 0. */
  lemma {:induction false} PlacingRestAdds(sites: seq<Site>, st: State)
    requires forall x :: x in st.slots ==> st.slots[x].row <= st.cursor as real - 1.0
    ensures var after := PlacingRest(sites, st);
            && st.cursor <= after.cursor
            && after.slots.Keys == st.slots.Keys + Names(sites)
            && (forall x :: x in st.slots ==> after.slots[x] == st.slots[x])
            && (forall x :: x in after.slots && x !in st.slots ==>
                  after.slots[x].depth == 0 && st.cursor as real <= after.slots[x].row)
            && (forall x :: x in after.slots ==> after.slots[x].row <= after.cursor as real - 1.0)
            && (forall x, y :: x in after.slots && y in after.slots && x != y && x !in st.slots ==>
                  RowsApart(after.slots[x].row, after.slots[y].row))
  {
    if sites == [] {
    } else {
      PlacingRestAdds(sites[..|sites| - 1], st);
    }
  }

  /** One row apart, or both reached, one above the other and in different columns. */
  ghost predicate Separate(sites: seq<Site>, root: Option<string>, slots: map<string, Slot>, x: string, y: string)
    requires SiteTree(sites) && x in slots && y in slots
  {
    ForestIsTree(sites);
    || RowsApart(slots[x].row, slots[y].row)
    || (&& x in Reached(sites, root) && y in Reached(sites, root)
        && Related(ForestOf(sites), UpOf(sites), x, y) && slots[x].depth != slots[y].depth)
  }

  lemma ReachedSeparate(sites: seq<Site>, root: Option<string>, x: string, y: string)
    requires SiteTree(sites) && RootListed(sites, root) && Ranked(ForestOf(sites))
    requires x in Reached(sites, root) && y in Reached(sites, root) && x != y
    ensures var slots := FromRoot(ForestOf(sites), root).slots;
            x in slots && y in slots && Separate(sites, root, slots, x, y)
  {
    var f, up := ForestOf(sites), UpOf(sites);
    ForestIsTree(sites);
    FromRootAdds(sites, root);
    if Above(f, up, x, y) {
      AboveDepth(f, up, x, y);
    } else if Above(f, up, y, x) {
      AboveDepth(f, up, y, x);
    }
  }

  /** Two different sites are always separate. */
  lemma LayoutSeparates(sites: seq<Site>, root: Option<string>, x: string, y: string)
    requires SiteTree(sites) && RootListed(sites, root)
    requires x in Names(sites) && y in Names(sites) && x != y
    ensures Ranked(ForestOf(sites))
    ensures var slots := Units(sites, root).slots;
            x in slots && y in slots && Separate(sites, root, slots, x, y)
  {
    ForestIsTree(sites);
    FromRootAdds(sites, root);
    var st := FromRoot(ForestOf(sites), root);
    PlacingRestAdds(sites, st);
    if x in st.slots && y in st.slots {
      ReachedSeparate(sites, root, x, y);
    }
  }

  /**
   Every site is placed, and nothing else, within the computed rows and columns: in its own column
   when it is reached from the root, in column 0 otherwise.
   */
  lemma LayoutComplete(sites: seq<Site>, root: Option<string>)
    requires SiteTree(sites) && RootListed(sites, root)
    ensures Ranked(ForestOf(sites))
    ensures var layout := Units(sites, root);
            && layout.slots.Keys == Names(sites)
            && (forall s :: s in sites ==>
                  && layout.slots[s.site].depth == (if s.site in Reached(sites, root) then s.depth.GetOr(0) else 0)
                  && layout.slots[s.site].depth <= layout.maxDepth
                  && 0.0 <= layout.slots[s.site].row <= (layout.rows - 1) as real)
  {
    ForestIsTree(sites);
    FromRootAdds(sites, root);
    PlacingRestAdds(sites, FromRoot(ForestOf(sites), root));
    forall s | s in sites ensures Depth(ForestOf(sites), s.site) == s.depth.GetOr(0) <= MaxDepth(sites) {
      DepthIndexed(sites, s);
    }
  }

  // ---------------------------------------------------------------- pixels

  const ROW_H_MIN := 40.0
  const ROW_H_MAX := 96.0
  const PAD := 16.0
  const NODE_RATIO := 0.82
  const COL_GAP_MAX := 130.0
  const COL_GAP_MIN := 44.0

  function Clamp(v: real, lo: real, hi: real): real {
    Min(hi, Max(lo, v))
  }

  datatype Geom = Geom(
    rowH: real, colW: real, nodeW: real, nodeH: real, icon: real, nameFs: real, countFs: real,
    offsetX: real, width: real, height: real)

  function NameFs(rowH: real): real {
    Clamp(rowH * NODE_RATIO * 0.30, 9.0, 14.0)
  }

  function NodeW(rowH: real): real {
    rowH * NODE_RATIO * 0.74 + NameFs(rowH) * 9.5 + 24.0
  }

  /** Memo `g`: the sizes for a viewport of `w` by `h` pixels (0: not measured yet). */
  function Geometry(w: real, h: real, rows: nat, maxDepth: nat): Geom {
    var availW := if w == 0.0 then 1200.0 else w;
    var availH := if h == 0.0 then 600.0 else h;
    var denom := Max(rows as real - 1.0, 0.0) + NODE_RATIO;
    var rowH := Clamp((availH - 2.0 * PAD) / Max(denom, 1.0), ROW_H_MIN, ROW_H_MAX);
    var nodeW := NodeW(rowH);
    var colW := Clamp((availW - nodeW) / Max(maxDepth as real, 1.0), nodeW + COL_GAP_MIN, nodeW + COL_GAP_MAX);
    Sizes(availW, rowH, colW, rows, maxDepth)
  }

  /** The sizes that follow from a row's height and a column's width. */
  function Sizes(availW: real, rowH: real, colW: real, rows: nat, maxDepth: nat): Geom {
    var nodeH := rowH * NODE_RATIO;
    var graphW := NodeW(rowH) + Product(maxDepth as real, colW);
    Geom(rowH, colW, NodeW(rowH), nodeH, nodeH * 0.74, NameFs(rowH), NameFs(rowH) * 0.78,
         Max(PAD, (availW - graphW) / 2.0),
         Max(availW, graphW + 2.0 * PAD),
         PAD * 2.0 + nodeH + Product(Max(0.0, rows as real - 1.0), rowH))
  }

  datatype Pos = Pos(x: real, y: real)

  /** Memo `positions`: the centre of a site's card. */
  function Position(g: Geom, slot: Slot): Pos {
    Pos(g.offsetX + g.nodeW / 2.0 + Product(slot.depth as real, g.colW),
        PAD + g.nodeH / 2.0 + Product(slot.row, g.rowH))
  }

  /** The rectangles drawn around `p` and `q` have no point in common. */
  predicate CardsApart(g: Geom, p: Pos, q: Pos) {
    p.x + g.nodeW < q.x || q.x + g.nodeW < p.x || p.y + g.nodeH < q.y || q.y + g.nodeH < p.y
  }

  predicate CardInside(g: Geom, p: Pos) {
    && 0.0 <= p.x - g.nodeW / 2.0 && p.x + g.nodeW / 2.0 <= g.width
    && 0.0 <= p.y - g.nodeH / 2.0 && p.y + g.nodeH / 2.0 <= g.height
  }

  /** What the rest needs to know of the sizes. */
  predicate Sized(g: Geom, rows: nat, maxDepth: nat) {
    && ROW_H_MIN <= g.rowH <= ROW_H_MAX
    && 0.0 < g.nodeH == g.rowH * NODE_RATIO && 0.0 < g.nodeW
    && g.nodeW + COL_GAP_MIN <= g.colW <= g.nodeW + COL_GAP_MAX
    && PAD <= g.offsetX
    && g.offsetX + g.nodeW + Product(maxDepth as real, g.colW) <= g.width
    && g.height == PAD * 2.0 + g.nodeH + Product(Max(0.0, rows as real - 1.0), g.rowH)
  }

  lemma GeometryFits(w: real, h: real, rows: nat, maxDepth: nat)
    ensures Sized(Geometry(w, h, rows, maxDepth), rows, maxDepth)
  {
    var availW := if w == 0.0 then 1200.0 else w;
    var availH := if h == 0.0 then 600.0 else h;
    var v := (availH - 2.0 * PAD) / Max(Max(rows as real - 1.0, 0.0) + NODE_RATIO, 1.0);
    var rowH := Clamp(v, ROW_H_MIN, ROW_H_MAX);
    var nodeW := NodeW(rowH);
    var u := (availW - nodeW) / Max(maxDepth as real, 1.0);
  }

  lemma AcrossMonotone(a: real, b: real, step: real)
    requires 0.0 <= a <= b && 0.0 <= step
    ensures 0.0 <= Product(a, step) <= Product(b, step)
  {
  }

  /** One more step is that much further. */
  lemma AcrossStep(a: real, b: real, step: real)
    requires a + 1.0 <= b && 0.0 <= step
    ensures Product(a, step) + step <= Product(b, step)
  {
    var more := b - a - 1.0;
    assert more * step >= 0.0;
    assert b * step == a * step + step + more * step;
  }

  lemma CardInDrawing(g: Geom, rows: nat, maxDepth: nat, slot: Slot)
    requires Sized(g, rows, maxDepth)
    requires rows >= 1 && slot.depth <= maxDepth && 0.0 <= slot.row <= (rows - 1) as real
    ensures CardInside(g, Position(g, slot))
  {
    var p := Position(g, slot);
    AcrossMonotone(slot.depth as real, maxDepth as real, g.colW);
    var below := Max(0.0, rows as real - 1.0);
    AcrossMonotone(slot.row, below, g.rowH);
  }

  lemma SeparateSlotsApart(g: Geom, rows: nat, maxDepth: nat, a: Slot, b: Slot)
    requires Sized(g, rows, maxDepth)
    requires RowsApart(a.row, b.row) || a.depth != b.depth
    ensures CardsApart(g, Position(g, a), Position(g, b))
  {
    if a.row - b.row >= 1.0 {
      RowAbove(g, b, a);
    } else if b.row - a.row >= 1.0 {
      RowAbove(g, a, b);
    } else if a.depth < b.depth {
      ColumnBefore(g, a, b);
    } else {
      ColumnBefore(g, b, a);
    }
  }

  lemma RowAbove(g: Geom, a: Slot, b: Slot)
    requires a.row + 1.0 <= b.row && 0.0 < g.nodeH < g.rowH
    ensures Position(g, a).y + g.nodeH < Position(g, b).y
  {
    AcrossStep(a.row, b.row, g.rowH);
  }

  lemma ColumnBefore(g: Geom, a: Slot, b: Slot)
    requires a.depth < b.depth && 0.0 < g.nodeW < g.colW
    ensures Position(g, a).x + g.nodeW < Position(g, b).x
  {
    AcrossStep(a.depth as real, b.depth as real, g.colW);
  }

  /** Where `layoutUnits` and the two memos draw a site. */
  function CardOf(sites: seq<Site>, root: Option<string>, w: real, h: real, x: string): Pos
    requires Ranked(ForestOf(sites)) && x in Units(sites, root).slots
  {
    var layout := Units(sites, root);
    Position(Geometry(w, h, layout.rows, layout.maxDepth), layout.slots[x])
  }

  function DrawingOf(sites: seq<Site>, root: Option<string>, w: real, h: real): Geom
    requires Ranked(ForestOf(sites))
  {
    Geometry(w, h, Units(sites, root).rows, Units(sites, root).maxDepth)
  }

  /** No two cards overlap and every card is inside the drawing, whatever the tree and the viewport. */
  lemma NoTwoCardsOverlap(sites: seq<Site>, root: Option<string>, w: real, h: real, x: string, y: string)
    requires SiteTree(sites) && RootListed(sites, root)
    requires x in Names(sites) && y in Names(sites) && x != y
    ensures Ranked(ForestOf(sites)) && x in Units(sites, root).slots && y in Units(sites, root).slots
    ensures CardsApart(DrawingOf(sites, root, w, h), CardOf(sites, root, w, h, x), CardOf(sites, root, w, h, y))
    ensures CardInside(DrawingOf(sites, root, w, h), CardOf(sites, root, w, h, x))
  {
    LayoutComplete(sites, root);
    LayoutSeparates(sites, root, x, y);
    var layout := Units(sites, root);
    var g := Geometry(w, h, layout.rows, layout.maxDepth);
    GeometryFits(w, h, layout.rows, layout.maxDepth);
    SeparateSlotsApart(g, layout.rows, layout.maxDepth, layout.slots[x], layout.slots[y]);
    var s :| s in sites && s.site == x;
    CardInDrawing(g, layout.rows, layout.maxDepth, layout.slots[x]);
  }
}
