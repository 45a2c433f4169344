/**
 What the sizes of the topology graph are for: the drawing fills the place it has, when it can, and the cards stand
 at regular distances in it. In height it fits when its rows do; in width only when its columns stand at their
 greatest distance.
 */
module DrawingSize {
  import opened Wrappers
  import opened Order
  import opened Reals
  import opened TopologyLayout
  import opened LayoutSeparation
  import opened TopologyCards
  import opened LayoutRows

  // ---------------------------------------------------------------- the height

  /** The place there is; nothing measured yet counts as a common screen. */
  function Avail(measured: real, guess: real): real {
    if measured == 0.0 then guess else measured
  }

  /** The height of the drawing without its margins, in rows: the last row takes no more than its card. */
  function RowUnits(rows: nat): (u: real)
    ensures u >= 0.82 && (rows >= 2 ==> u == rows as real - 0.18)
  {
    if rows <= 1 then 0.82 else rows as real - 1.0 + 0.82
  }

  lemma Quotient(a: real, d: real)
    requires d > 0.0
    ensures Product(d, a / d) == a
  {
  }

  lemma HeightInRows(w: real, h: real, rows: nat, maxDepth: nat)
    ensures var g := Geometry(w, h, rows, maxDepth);
            && g.height == 32.0 + Product(RowUnits(rows), g.rowH)
            && g.rowH == Clamp((Avail(h, 600.0) - 32.0) / Max(RowUnits(rows), 1.0), 40.0, 96.0)
  {
    var rowH := Geometry(w, h, rows, maxDepth).rowH;
    var above := Max(0.0, rows as real - 1.0);
    assert RowUnits(rows) == above + 0.82;
    assert Product(above + 0.82, rowH) == Product(above, rowH) + rowH * 0.82;
  }

  /**
   The drawing is no higher than its place exactly when its rows at their least height are not; and it is exactly
   that high when its rows need not grow beyond their greatest height.
   */
  lemma HeightFits(w: real, h: real, rows: nat, maxDepth: nat)
    ensures var g, availH, units := Geometry(w, h, rows, maxDepth), Avail(h, 600.0), RowUnits(rows);
            && (g.height <= availH <==> 32.0 + Product(units, 40.0) <= availH)
            && (rows >= 2 && 32.0 + Product(units, 40.0) <= availH <= 32.0 + Product(units, 96.0)
                ==> g.height == availH)
  {
    HeightInRows(w, h, rows, maxDepth);
    var room, units := Avail(h, 600.0) - 32.0, RowUnits(rows);
    var v := room / Max(units, 1.0);
    Quotient(room, Max(units, 1.0));
    ClampedProduct(units, v, 40.0, 96.0);
  }

  lemma ClampedProduct(a: real, v: real, lo: real, hi: real)
    requires 0.0 < a && 0.0 < lo <= hi
    ensures Product(a, v) < Product(a, lo) <==> v < lo
    ensures Product(a, v) > Product(a, hi) <==> v > hi
    ensures Product(a, lo) <= Product(a, Clamp(v, lo, hi)) <= Product(a, hi)
  {
    Stretched(a, v, lo);
    Stretched(a, hi, v);
    Stretched(a, lo, hi);
  }

  lemma Stretched(a: real, x: real, y: real)
    requires 0.0 < a
    ensures Product(a, x) < Product(a, y) <==> x < y
  {
    if x < y {
      assert a * (y - x) > 0.0;
    } else {
      assert a * (x - y) >= 0.0;
    }
    assert a * y == a * x + a * (y - x);
  }

  // ---------------------------------------------------------------- the width

  function GraphWidth(g: Geom, maxDepth: nat): real {
    g.nodeW + Product(maxDepth as real, g.colW)
  }

  /** The margins are equal and at least 16 pixels; a drawing that fits has the width of its place. */
  lemma Centred(w: real, h: real, rows: nat, maxDepth: nat)
    ensures var g, availW := Geometry(w, h, rows, maxDepth), Avail(w, 1200.0);
            && g.offsetX >= 16.0
            && g.offsetX + GraphWidth(g, maxDepth) + g.offsetX == g.width
            && g.width == (if GraphWidth(g, maxDepth) + 32.0 <= availW then availW
                           else GraphWidth(g, maxDepth) + 32.0)
  {
  }

  /** The width of the graph with its columns `gap` pixels apart. */
  function WidthAt(g: Geom, maxDepth: nat, gap: real): real {
    g.nodeW + Product(maxDepth as real, g.nodeW + gap)
  }

  /**
   The drawing is no wider than its place exactly when it has room for the columns at their greatest distance. With
   less room, but enough for the least distance, the columns take the whole width and the margins stick out.
   */
  lemma WidthFits(w: real, h: real, rows: nat, maxDepth: nat)
    ensures var g, availW := Geometry(w, h, rows, maxDepth), Avail(w, 1200.0);
            && (g.width <= availW <==> WidthAt(g, maxDepth, 130.0) + 32.0 <= availW)
            && (maxDepth > 0 && WidthAt(g, maxDepth, 44.0) <= availW <= WidthAt(g, maxDepth, 130.0)
                ==> g.width == availW + 32.0)
  {
    var g, availW, d := Geometry(w, h, rows, maxDepth), Avail(w, 1200.0), maxDepth as real;
    Centred(w, h, rows, maxDepth);
    var v := (availW - g.nodeW) / Max(d, 1.0);
    assert g.colW == Clamp(v, g.nodeW + 44.0, g.nodeW + 130.0);
    GeometryFits(w, h, rows, maxDepth);
    if maxDepth > 0 {
      Quotient(availW - g.nodeW, d);
      ClampedProduct(d, v, g.nodeW + 44.0, g.nodeW + 130.0);
    }
  }

  // ---------------------------------------------------------------- the cards

  lemma OneMore(n: real, step: real)
    ensures Product(n + 1.0, step) == Product(n, step) + step
  {
  }

  /** Columns and rows at equal distances: 44 to 130 pixels between columns, 18 % of a row between rows. */
  lemma RegularSteps(w: real, h: real, rows: nat, maxDepth: nat, slot: Slot)
    ensures var g := Geometry(w, h, rows, maxDepth);
            var p := Position(g, slot);
            var right, below := Position(g, slot.(depth := slot.depth + 1)), Position(g, slot.(row := slot.row + 1.0));
            && right.y == p.y && below.x == p.x
            && 44.0 <= (right.x - g.nodeW / 2.0) - (p.x + g.nodeW / 2.0) <= 130.0
            && right.x - p.x == g.colW
            && (below.y - g.nodeH / 2.0) - (p.y + g.nodeH / 2.0) == 0.18 * g.rowH
  {
    var g := Geometry(w, h, rows, maxDepth);
    GeometryFits(w, h, rows, maxDepth);
    OneMore(slot.depth as real, g.colW);
    OneMore(slot.row, g.rowH);
  }

  /** The first column begins and the last one ends at a margin, and so do the first and the last row. */
  lemma EdgesTouchMargins(w: real, h: real, rows: nat, maxDepth: nat, slot: Slot)
    ensures var g := Geometry(w, h, rows, maxDepth);
            var p := Position(g, slot);
            && (slot.depth == 0 ==> p.x - g.nodeW / 2.0 == g.offsetX)
            && (slot.depth == maxDepth ==> p.x + g.nodeW / 2.0 == g.width - g.offsetX)
            && (slot.row == 0.0 ==> p.y - g.nodeH / 2.0 == 16.0)
            && (rows >= 1 && slot.row == rows as real - 1.0 ==> p.y + g.nodeH / 2.0 == g.height - 16.0)
  {
    var g := Geometry(w, h, rows, maxDepth);
    Centred(w, h, rows, maxDepth);
    assert slot.depth == 0 ==> Product(slot.depth as real, g.colW) == 0.0;
    assert slot.row == 0.0 ==> Product(slot.row, g.rowH) == 0.0;
  }

  lemma SiteInRow(sites: seq<Site>, root: Option<string>, r: nat) returns (x: string)
    requires SiteTree(sites) && RootListed(sites, root) && r < |OwnRow(sites, root)|
    ensures Ranked(ForestOf(sites)) && OwnRow(sites, root) <= Units(sites, root).slots.Keys
    ensures x in OwnRow(sites, root) && Units(sites, root).slots[x].row == r as real
    ensures Units(sites, root).rows == |OwnRow(sites, root)|
  {
    LayoutComplete(sites, root);
    RowsAreTakenOnce(sites, root);
    var slots, own := Units(sites, root).slots, OwnRow(sites, root);
    assert Taken(slots, own, r);
    x :| x in own && InRow(slots, x, r);
  }

  /** Some card touches the upper margin and some card the lower one: no row is drawn for nobody. */
  lemma RowsReachBothMargins(sites: seq<Site>, root: Option<string>, w: real, h: real)
    requires SiteTree(sites) && RootListed(sites, root) && OwnRow(sites, root) != {}
    ensures Ranked(ForestOf(sites)) && OwnRow(sites, root) <= Units(sites, root).slots.Keys
    ensures exists x <- OwnRow(sites, root) ::
              CardOf(sites, root, w, h, x).y - DrawingOf(sites, root, w, h).nodeH / 2.0 == 16.0
    ensures exists x <- OwnRow(sites, root) ::
              var g := DrawingOf(sites, root, w, h);
              CardOf(sites, root, w, h, x).y + g.nodeH / 2.0 == g.height - 16.0
  {
    var first := SiteInRow(sites, root, 0);
    var last := SiteInRow(sites, root, |OwnRow(sites, root)| - 1);
    var layout := Units(sites, root);
    EdgesTouchMargins(w, h, layout.rows, layout.maxDepth, layout.slots[first]);
    EdgesTouchMargins(w, h, layout.rows, layout.maxDepth, layout.slots[last]);
  }

  /**
   Icon, name and counter stay inside the card: the icon 7 pixels from its left edge, both texts 6 pixels behind the
   icon with room for 9.5 letter heights, the name's line above the middle and the counter's below it.
   */
  lemma CardHoldsItsContent(w: real, h: real, rows: nat, maxDepth: nat)
    ensures var g := Geometry(w, h, rows, maxDepth);
            && 9.84 <= g.nameFs <= 14.0 && g.nameFs == (if g.nodeH * 0.3 <= 14.0 then g.nodeH * 0.3 else 14.0)
            && g.countFs * 100.0 == g.nameFs * 78.0
            && g.icon < g.nodeH && g.icon * 50.0 == g.nodeH * 37.0
            && (g.icon + 13.0) + 9.5 * g.nameFs + 11.0 == g.nodeW
            && 1.0 + g.nameFs < g.nodeH / 2.0 && g.countFs + 4.0 < g.nodeH / 2.0
  {
    GeometryFits(w, h, rows, maxDepth);
  }
}
