/**
 `spreadPorts`: where the links of the topology graph leave the cards. Every end of a drawn link is
 filed on one vertical edge of one card; an edge that carries several ends gives each its own height,
 in the order of the heights of the other ends.
 */
module TopologyPorts {
  import opened Wrappers
  import opened Order
  import opened TopologyCards
  import opened Reals

  datatype Link = Link(siteA: string, siteB: string)

  datatype Side = LeftEdge | RightEdge

  /** `${index}:L` and `${index}:R`. */
  datatype Key = Key(index: nat, left: bool)

  datatype Port = Port(key: Key, otherY: real)

  type Positions = map<string, Pos>
  type Lists = map<string, seq<Port>>

  function Push(m: Lists, site: string, port: Port): Lists {
    m[site := Lookup(m, site, []) + [port]]
  }

  function Abs(r: real): real {
    if r < 0.0 then -r else r
  }

  /** One end of a link: the card edge it is on, and its port. */
  datatype End = End(side: Side, site: string, port: Port)

  /** The two ends of a link, when both sites have a position. */
  function EndsOf(pos: Positions, link: Link, index: nat): (ends: seq<End>)
    ensures |ends| == 0 || |ends| == 2
  {
    if link.siteA !in pos || link.siteB !in pos then []
    else
      var a, b := pos[link.siteA], pos[link.siteB];
      var aIsLeft := a.x <= b.x;
      var leftSite, rightSite := if aIsLeft then link.siteA else link.siteB, if aIsLeft then link.siteB else link.siteA;
      var leftPos, rightPos := if aIsLeft then a else b, if aIsLeft then b else a;
      var sameColumn := Abs(a.x - b.x) < 1.0;
      [End(RightEdge, leftSite, Port(Key(index, true), rightPos.y)),
       End(if sameColumn then RightEdge else LeftEdge, rightSite, Port(Key(index, false), leftPos.y))]
  }

  /** The ports of one card edge, in the order of the links. */
  function Filed(pos: Positions, links: seq<Link>, side: Side, site: string): seq<Port> {
    if links == [] then []
    else Filed(pos, links[..|links| - 1], side, site)
         + Matching(EndsOf(pos, links[|links| - 1], |links| - 1), side, site)
  }

  function Matching(ends: seq<End>, side: Side, site: string): seq<Port> {
    if ends == [] then []
    else Matching(ends[..|ends| - 1], side, site)
         + (var e := ends[|ends| - 1]; if e.side == side && e.site == site then [e.port] else [])
  }

  // ---------------------------------------------------------------- each end on one edge, once

  lemma MatchingTwo(ends: seq<End>, side: Side, site: string)
    requires |ends| == 2
    ensures Matching(ends, side, site)
            == (if ends[0].side == side && ends[0].site == site then [ends[0].port] else [])
               + (if ends[1].side == side && ends[1].site == site then [ends[1].port] else [])
  {
    assert ends[..1][..0] == [] && ends[..1][0] == ends[0];
    assert Matching(ends[..1], side, site)
        == Matching([], side, site) + (if ends[0].side == side && ends[0].site == site then [ends[0].port] else []);
  }

  predicate KeyBefore(a: Key, b: Key) {
    a.index < b.index || (a.index == b.index && a.left && !b.left)
  }

  /** The end of link `key.index` named by `key`, when the link is drawn. */
  ghost predicate IsEnd(pos: Positions, links: seq<Link>, side: Side, site: string, port: Port) {
    && port.key.index < |links|
    && End(side, site, port) in EndsOf(pos, links[port.key.index], port.key.index)
  }

  ghost predicate InKeyOrder(l: seq<Port>) {
    forall i, j :: 0 <= i < j < |l| ==> KeyBefore(l[i].key, l[j].key)
  }

  lemma MatchingFacts(pos: Positions, link: Link, n: nat, side: Side, site: string)
    ensures var ends := EndsOf(pos, link, n);
            var m := Matching(ends, side, site);
            && InKeyOrder(m)
            && (forall p :: p in m <==> End(side, site, p) in ends)
            && (forall p :: p in m ==> p.key.index == n)
            && (forall k :: 0 <= k < |m| ==> m[k].key.index == n)
  {
    var ends := EndsOf(pos, link, n);
    if |ends| == 2 {
      MatchingTwo(ends, side, site);
    }
  }

  /** A card edge lists exactly the link ends on it, each once and in order. */
  lemma {:induction false} FiledAreEnds(pos: Positions, links: seq<Link>, side: Side, site: string)
    ensures forall p :: p in Filed(pos, links, side, site) <==> IsEnd(pos, links, side, site, p)
    ensures InKeyOrder(Filed(pos, links, side, site))
  {
    if links == [] {
    } else {
      var rest, n := links[..|links| - 1], |links| - 1;
      FiledAreEnds(pos, rest, side, site);
      MatchingFacts(pos, links[n], n, side, site);
      var before, after := Filed(pos, rest, side, site), Matching(EndsOf(pos, links[n], n), side, site);
      forall p ensures p in before + after <==> IsEnd(pos, links, side, site, p) {
        assert p in before <==> IsEnd(pos, rest, side, site, p);
      }
      forall k | 0 <= k < |before| ensures before[k].key.index < n {
        assert IsEnd(pos, rest, side, site, before[k]);
      }
    }
  }

  /** Both ends of a link with two positions are filed, each on exactly one edge of one card. */
  lemma EveryEndFiledOnce(pos: Positions, links: seq<Link>, index: nat, left: bool)
    requires index < |links| && links[index].siteA in pos && links[index].siteB in pos
    ensures exists side, site, y :: Port(Key(index, left), y) in Filed(pos, links, side, site)
    ensures forall side, site, y, side', site', y' ::
              Port(Key(index, left), y) in Filed(pos, links, side, site)
              && Port(Key(index, left), y') in Filed(pos, links, side', site')
              ==> side == side' && site == site' && y == y'
  {
    var e := EndsOf(pos, links[index], index)[if left then 0 else 1];
    FiledAreEnds(pos, links, e.side, e.site);
    assert e.port == Port(Key(index, left), e.port.otherY);
    assert IsEnd(pos, links, e.side, e.site, e.port);
    forall side, site, y | Port(Key(index, left), y) in Filed(pos, links, side, site)
      ensures side == e.side && site == e.site && y == e.port.otherY
    {
      FiledAreEnds(pos, links, side, site);
      assert IsEnd(pos, links, side, site, Port(Key(index, left), y));
    }
  }

  // ---------------------------------------------------------------- where an end is, from the positions alone

  /**
   Link `p.key.index` joins the cards of `site` and `other`; its end at `site` is on the edge `side`, and `p`
   knows the height of the card of `other`. The end leaves through the right edge unless its card is a pixel
   or more to the right of the other one; `left` marks the end with the smaller x, that of `siteA` on a tie.
   */
  predicate EndAt(pos: Positions, links: seq<Link>, side: Side, site: string, other: string, p: Port) {
    && p.key.index < |links| && site in pos && other in pos
    && var link := links[p.key.index];
       && ((site == link.siteA && other == link.siteB) || (site == link.siteB && other == link.siteA))
       && p.otherY == pos[other].y
       && side == (if pos[site].x - pos[other].x < 1.0 then RightEdge else LeftEdge)
       && (p.key.left ==> pos[site].x < pos[other].x || (pos[site].x == pos[other].x && site == link.siteA))
       && (!p.key.left ==> pos[site].x > pos[other].x || (pos[site].x == pos[other].x && site == link.siteB))
  }

  /** A card edge lists exactly the ends that leave through it, each with the height of the card it leads to. */
  lemma FiledAreEndsAt(pos: Positions, links: seq<Link>, side: Side, site: string, p: Port)
    ensures p in Filed(pos, links, side, site) <==> exists other :: EndAt(pos, links, side, site, other, p)
  {
    FiledAreEnds(pos, links, side, site);
    if p.key.index < |links| {
      var link := links[p.key.index];
      if IsEnd(pos, links, side, site, p) {
        assert EndAt(pos, links, side, site, if site == link.siteA then link.siteB else link.siteA, p);
      }
      if other :| EndAt(pos, links, side, site, other, p) {
        var ends := EndsOf(pos, link, p.key.index);
        assert ends[0] in ends && ends[1] in ends;
        assert End(side, site, p) == ends[if p.key.left then 0 else 1];
      }
    }
  }

  // ---------------------------------------------------------------- the heights on one edge

  predicate LowerOther(p: Port, q: Port) {
    p.otherY <= q.otherY
  }

  function Step(nodeH: real, n: nat): real
    requires n >= 2
  {
    Min(9.0, nodeH * 0.62 / (n - 1) as real)
  }

  /** Height of the `i`-th of `n` ports, from the middle of the card. */
  function Offset(nodeH: real, n: nat, i: nat): real
    requires n >= 2
  {
    -Product((n - 1) as real, Step(nodeH, n)) / 2.0 + Product(i as real, Step(nodeH, n))
  }

  lemma StepFits(nodeH: real, n: nat)
    requires n >= 2 && nodeH > 0.0
    ensures 0.0 < Step(nodeH, n)
    ensures Product((n - 1) as real, Step(nodeH, n)) <= nodeH * 0.62
  {
    var m := (n - 1) as real;
    var share := nodeH * 0.62 / m;
    assert m * share == nodeH * 0.62;
    assert share > 0.0;
    assert m * (share - Step(nodeH, n)) >= 0.0;
  }

  /** On an edge with several ports: increasing, symmetric about the middle, strictly inside the card. */
  lemma OffsetsSpread(nodeH: real, n: nat, i: nat, j: nat)
    requires n >= 2 && nodeH > 0.0 && i < n && j < n
    ensures i < j ==> Offset(nodeH, n, i) < Offset(nodeH, n, j)
    ensures Offset(nodeH, n, i) == -Offset(nodeH, n, n - 1 - i)
    ensures -nodeH / 2.0 < Offset(nodeH, n, i) < nodeH / 2.0
  {
    StepFits(nodeH, n);
    var step, m := Step(nodeH, n), (n - 1) as real;
    assert (n - 1 - i) as real == m - i as real;
    AcrossMonotone(i as real, m, step);
    if i < j {
      AcrossStep(i as real, j as real, step);
    }
  }

  /** Neighbours are nine pixels apart, or less where that would take more than 62 % of the card's height. */
  lemma OffsetsAreEven(nodeH: real, n: nat, i: nat)
    requires n >= 2 && nodeH > 0.0 && i + 1 < n
    ensures var step := Offset(nodeH, n, i + 1) - Offset(nodeH, n, i);
            var reach := Offset(nodeH, n, n - 1) - Offset(nodeH, n, 0);
            && step <= 9.0 && reach <= nodeH * 0.62
            && (step == 9.0 || reach == nodeH * 0.62)
  {
    StepFits(nodeH, n);
    var step, m := Step(nodeH, n), (n - 1) as real;
    assert (i + 1) as real == i as real + 1.0;
    assert Product((i + 1) as real, step) == Product(i as real, step) + step;
    if step < 9.0 {
      assert Product(m, step) == m * (nodeH * 0.62 / m) == nodeH * 0.62;
    }
  }

  /** `out` holds the heights of the sorted list `l`; a single port has none. */
  ghost predicate HeightsOf(out: map<Key, real>, nodeH: real, l: seq<Port>) {
    var sorted := Sort(l, LowerOther);
    if |l| < 2 then forall p :: p in l ==> p.key !in out
    else forall i :: 0 <= i < |l| ==> sorted[i].key in out && out[sorted[i].key] == Offset(nodeH, |l|, i)
  }

  /** The order of the heights is the order of the other ends. */
  lemma HeightsFollowOtherEnds(out: map<Key, real>, nodeH: real, l: seq<Port>, p: Port, q: Port)
    requires HeightsOf(out, nodeH, l) && |l| >= 2 && nodeH > 0.0
    requires p in l && q in l && p.key in out && q.key in out && p.otherY < q.otherY
    ensures out[p.key] < out[q.key]
  {
    var sorted := Sort(l, LowerOther);
    assert SortedBy(sorted, LowerOther) by {
      SortSorted(l, LowerOther);
    }
    SortContents(l, LowerOther);
    assert p in multiset(sorted) && q in multiset(sorted);
    var i :| 0 <= i < |sorted| && sorted[i] == p;
    var j :| 0 <= j < |sorted| && sorted[j] == q;
    OffsetsSpread(nodeH, |l|, i, j);
  }

  /** Links of one card edge attach in the order of the heights of the cards they lead to: they do not cross there. */
  ghost predicate NoCrossing(out: map<Key, real>, pos: Positions, links: seq<Link>) {
    forall side, site, o, u, p, q ::
      EndAt(pos, links, side, site, o, p) && EndAt(pos, links, side, site, u, q) && pos[o].y < pos[u].y ==>
        p.key in out && q.key in out && out[p.key] < out[q.key]
  }

  lemma HeightsDoNotCross(out: map<Key, real>, nodeH: real, pos: Positions, links: seq<Link>)
    requires nodeH > 0.0 && forall side, site :: HeightsOf(out, nodeH, Filed(pos, links, side, site))
    ensures NoCrossing(out, pos, links)
  {
    forall side, site, o, u, p, q |
      EndAt(pos, links, side, site, o, p) && EndAt(pos, links, side, site, u, q) && pos[o].y < pos[u].y
      ensures p.key in out && q.key in out && out[p.key] < out[q.key]
    {
      FiledAreEndsAt(pos, links, side, site, p);
      FiledAreEndsAt(pos, links, side, site, q);
      var l := Filed(pos, links, side, site);
      TwoAreSeveral(l, p, q);
      KeysHaveHeights(out, nodeH, l, p);
      KeysHaveHeights(out, nodeH, l, q);
      HeightsFollowOtherEnds(out, nodeH, l, p, q);
    }
  }

  lemma TwoAreSeveral(l: seq<Port>, p: Port, q: Port)
    requires p in l && q in l && p != q
    ensures |l| >= 2
  {
    var i :| 0 <= i < |l| && l[i] == p;
    var j :| 0 <= j < |l| && l[j] == q;
  }

  lemma KeysHaveHeights(out: map<Key, real>, nodeH: real, l: seq<Port>, p: Port)
    requires HeightsOf(out, nodeH, l) && |l| >= 2 && p in l
    ensures p.key in out
  {
    SortContents(l, LowerOther);
    var sorted := Sort(l, LowerOther);
    assert p in multiset(sorted);
    var i :| 0 <= i < |sorted| && sorted[i] == p;
  }

  // ---------------------------------------------------------------- the code

  /** The map of one side after the ends of one link are pushed. */
  function PushEnds(m: Lists, ends: seq<End>, side: Side): Lists {
    if ends == [] then m
    else
      var e, before := ends[|ends| - 1], PushEnds(m, ends[..|ends| - 1], side);
      if e.side == side then Push(before, e.site, e.port) else before
  }

  function ListsOf(pos: Positions, links: seq<Link>, side: Side): Lists {
    if links == [] then map[]
    else PushEnds(ListsOf(pos, links[..|links| - 1], side), EndsOf(pos, links[|links| - 1], |links| - 1), side)
  }

  lemma {:induction false} PushedLookup(m: Lists, ends: seq<End>, side: Side, site: string)
    ensures Lookup(PushEnds(m, ends, side), site, []) == Lookup(m, site, []) + Matching(ends, side, site)
  {
    if ends == [] {
    } else {
      PushedLookup(m, ends[..|ends| - 1], side, site);
    }
  }

  lemma {:induction false} ListsAreFiled(pos: Positions, links: seq<Link>, side: Side, site: string)
    ensures Lookup(ListsOf(pos, links, side), site, []) == Filed(pos, links, side, site)
  {
    if links == [] {
    } else {
      var rest, n := links[..|links| - 1], |links| - 1;
      ListsAreFiled(pos, rest, side, site);
      PushedLookup(ListsOf(pos, rest, side), EndsOf(pos, links[n], n), side, site);
    }
  }

  lemma PushTwo(m: Lists, l: End, r: End, side: Side)
    ensures var one := if l.side == side then Push(m, l.site, l.port) else m;
            PushEnds(m, [l, r], side) == if r.side == side then Push(one, r.site, r.port) else one
  {
    assert [l, r][..1] == [l] && [l][..0] == [];
    assert PushEnds(m, [l], side) == if l.side == side then Push(m, l.site, l.port) else m;
  }

  /** The loop over the links: each end is pushed on the list of its card edge. */
  method FilePorts(links: seq<Link>, pos: Positions) returns (rightEdgeOf: Lists, leftEdgeOf: Lists)
    ensures rightEdgeOf == ListsOf(pos, links, RightEdge) && leftEdgeOf == ListsOf(pos, links, LeftEdge)
  {
    rightEdgeOf, leftEdgeOf := map[], map[];
    for index := 0 to |links|
      invariant rightEdgeOf == ListsOf(pos, links[..index], RightEdge)
      invariant leftEdgeOf == ListsOf(pos, links[..index], LeftEdge)
    {
      var link := links[index];
      assert links[..index + 1][..index] == links[..index];
      if link.siteA in pos && link.siteB in pos {
        ghost var ends := EndsOf(pos, link, index);
        PushTwo(rightEdgeOf, ends[0], ends[1], RightEdge);
        PushTwo(leftEdgeOf, ends[0], ends[1], LeftEdge);
        assert ends == [ends[0], ends[1]];
        var a, b := pos[link.siteA], pos[link.siteB];
        var aIsLeft := a.x <= b.x;
        var leftSite := if aIsLeft then link.siteA else link.siteB;
        var rightSite := if aIsLeft then link.siteB else link.siteA;
        var leftPos := if aIsLeft then a else b;
        var rightPos := if aIsLeft then b else a;
        rightEdgeOf := Push(rightEdgeOf, leftSite, Port(Key(index, true), rightPos.y));
        if Abs(a.x - b.x) < 1.0 {
          rightEdgeOf := Push(rightEdgeOf, rightSite, Port(Key(index, false), leftPos.y));
        } else {
          leftEdgeOf := Push(leftEdgeOf, rightSite, Port(Key(index, false), leftPos.y));
        }
      }
    }
    assert links[..|links|] == links;
  }

  ghost function KeysOf(l: seq<Port>): set<Key> {
    set p | p in l :: p.key
  }

  /** `after` differs from `before` on the keys of `l` only. */
  ghost predicate OnlyTouches(before: map<Key, real>, after: map<Key, real>, keys: set<Key>) {
    forall k :: k !in keys ==> (k in after <==> k in before) && (k in after ==> after[k] == before[k])
  }

  ghost predicate KeysDiffer(l: seq<Port>) {
    forall i, j :: 0 <= i < j < |l| ==> l[i].key != l[j].key
  }

  lemma SortedKeys(l: seq<Port>, sorted: seq<Port>)
    requires InKeyOrder(l) && sorted == Sort(l, LowerOther)
    ensures KeysDiffer(sorted) && forall i :: 0 <= i < |sorted| ==> sorted[i].key in KeysOf(l)
  {
    SortDistinct(l, LowerOther);
    forall i, j | 0 <= i < j < |sorted| ensures sorted[i].key != sorted[j].key {
      assert sorted[i] in sorted && sorted[j] in sorted;
      var a :| 0 <= a < |l| && l[a] == sorted[i];
      var b :| 0 <= b < |l| && l[b] == sorted[j];
    }
    forall i | 0 <= i < |sorted| ensures sorted[i].key in KeysOf(l) {
      assert sorted[i] in sorted;
    }
  }

  /** The body of the second loop: one card edge. */
  method SpreadList(out0: map<Key, real>, nodeH: real, list: seq<Port>) returns (out: map<Key, real>)
    requires InKeyOrder(list) && KeysOf(list) !! out0.Keys
    ensures HeightsOf(out, nodeH, list) && OnlyTouches(out0, out, KeysOf(list))
    ensures |list| < 2 ==> out == out0
  {
    out := out0;
    if |list| < 2 {
      return;
    }
    var sorted := Sort(list, LowerOther);
    SortedKeys(list, sorted);
    out := SetHeights(out, nodeH, sorted, KeysOf(list));
  }

  method SetHeights(out0: map<Key, real>, nodeH: real, sorted: seq<Port>, ghost keys: set<Key>)
    returns (out: map<Key, real>)
    requires |sorted| >= 2 && KeysDiffer(sorted) && forall i :: 0 <= i < |sorted| ==> sorted[i].key in keys
    ensures forall i :: 0 <= i < |sorted| ==> sorted[i].key in out && out[sorted[i].key] == Offset(nodeH, |sorted|, i)
    ensures OnlyTouches(out0, out, keys)
  {
    out := out0;
    var step := Step(nodeH, |sorted|);
    var start := -Product((|sorted| - 1) as real, step) / 2.0;
    for i := 0 to |sorted|
      invariant forall k :: 0 <= k < i ==> sorted[k].key in out && out[sorted[k].key] == Offset(nodeH, |sorted|, k)
      invariant OnlyTouches(out0, out, keys)
    {
      out := out[sorted[i].key := start + Product(i as real, step)];
    }
  }

  lemma HeightsKept(before: map<Key, real>, after: map<Key, real>, nodeH: real, l: seq<Port>, keys: set<Key>)
    requires HeightsOf(before, nodeH, l) && OnlyTouches(before, after, keys) && keys !! KeysOf(l)
    ensures HeightsOf(after, nodeH, l)
  {
    SortContents(l, LowerOther);
    var sorted := Sort(l, LowerOther);
    forall i | 0 <= i < |sorted| ensures sorted[i].key !in keys {
      assert sorted[i] in multiset(sorted);
      assert sorted[i] in l;
    }
  }

  /** Two different card edges share no link end. */
  lemma EdgesDisjoint(pos: Positions, links: seq<Link>, side: Side, site: string, side': Side, site': string)
    requires side != side' || site != site'
    ensures KeysOf(Filed(pos, links, side, site)) !! KeysOf(Filed(pos, links, side', site'))
  {
    FiledAreEnds(pos, links, side, site);
    FiledAreEnds(pos, links, side', site');
    forall p, q | p in Filed(pos, links, side, site) && q in Filed(pos, links, side', site') ensures p.key != q.key {
      assert IsEnd(pos, links, side, site, p) && IsEnd(pos, links, side', site', q);
    }
  }

  /** What the second loop has done once the edges of `sites` on one side are spread. */
  ghost predicate SideDone(out: map<Key, real>, nodeH: real, pos: Positions, links: seq<Link>, side: Side,
                           sites: set<string>)
  {
    forall site :: site in sites ==> HeightsOf(out, nodeH, Filed(pos, links, side, site))
  }

  ghost predicate Untouched(out: map<Key, real>, pos: Positions, links: seq<Link>, side: Side, sites: set<string>) {
    forall site :: site in sites ==> KeysOf(Filed(pos, links, side, site)) !! out.Keys
  }

  /** The key is on a card edge with several link ends. */
  ghost predicate OnSpreadEdge(pos: Positions, links: seq<Link>, key: Key) {
    exists side, site :: ManyWith(Filed(pos, links, side, site), key)
  }

  ghost predicate ManyWith(l: seq<Port>, key: Key) {
    |l| >= 2 && key in KeysOf(l)
  }

  /** Nothing but ends on such edges has a height. */
  ghost predicate OnlySpread(out: map<Key, real>, pos: Positions, links: seq<Link>) {
    forall key :: key in out ==> OnSpreadEdge(pos, links, key)
  }

  lemma SpreadStaysThere(before: map<Key, real>, after: map<Key, real>, pos: Positions, links: seq<Link>, side: Side,
                         site: string)
    requires OnlySpread(before, pos, links)
    requires OnlyTouches(before, after, KeysOf(Filed(pos, links, side, site)))
    requires |Filed(pos, links, side, site)| < 2 ==> after == before
    ensures OnlySpread(after, pos, links)
  {
    forall key | key in after ensures OnSpreadEdge(pos, links, key) {
      if key !in before {
        assert ManyWith(Filed(pos, links, side, site), key);
      }
    }
  }

  lemma SpreadOne(before: map<Key, real>, after: map<Key, real>, nodeH: real, pos: Positions, links: seq<Link>,
                  side: Side, site: string, side': Side, sites: set<string>)
    requires OnlyTouches(before, after, KeysOf(Filed(pos, links, side, site)))
    requires site !in sites || side' != side
    ensures SideDone(before, nodeH, pos, links, side', sites) ==> SideDone(after, nodeH, pos, links, side', sites)
    ensures Untouched(before, pos, links, side', sites) ==> Untouched(after, pos, links, side', sites)
  {
    forall site' | site' in sites
      ensures HeightsOf(before, nodeH, Filed(pos, links, side', site'))
              ==> HeightsOf(after, nodeH, Filed(pos, links, side', site'))
      ensures KeysOf(Filed(pos, links, side', site')) !! before.Keys
              ==> KeysOf(Filed(pos, links, side', site')) !! after.Keys
    {
      EdgesDisjoint(pos, links, side, site, side', site');
      if HeightsOf(before, nodeH, Filed(pos, links, side', site')) {
        HeightsKept(before, after, nodeH, Filed(pos, links, side', site'), KeysOf(Filed(pos, links, side, site)));
      }
    }
  }

  /** One card edge more: `rest` still has it. */
  lemma EdgeSpread(before: map<Key, real>, after: map<Key, real>, nodeH: real, pos: Positions, links: seq<Link>,
                   side: Side, site: string, done: set<string>, rest: set<string>)
    requires site in rest && site !in done
    requires SideDone(before, nodeH, pos, links, side, done) && Untouched(before, pos, links, side, rest)
    requires OnlySpread(before, pos, links) && HeightsOf(after, nodeH, Filed(pos, links, side, site))
    requires OnlyTouches(before, after, KeysOf(Filed(pos, links, side, site)))
    requires |Filed(pos, links, side, site)| < 2 ==> after == before
    ensures SideDone(after, nodeH, pos, links, side, done + {site})
    ensures Untouched(after, pos, links, side, rest - {site}) && OnlySpread(after, pos, links)
  {
    SpreadStaysThere(before, after, pos, links, side, site);
    SpreadOne(before, after, nodeH, pos, links, side, site, side, done);
    SpreadOne(before, after, nodeH, pos, links, side, site, side, rest - {site});
  }

  /** `for (const list of map.values())`, in any order. */
  method SpreadSide(out0: map<Key, real>, nodeH: real, lists: Lists, ghost pos: Positions, ghost links: seq<Link>,
                    ghost side: Side, ghost other: Side, ghost others: set<string>)
    returns (out: map<Key, real>)
    requires side != other && lists == ListsOf(pos, links, side)
    requires Untouched(out0, pos, links, side, lists.Keys) && OnlySpread(out0, pos, links)
    ensures OnlySpread(out, pos, links)
    ensures SideDone(out, nodeH, pos, links, side, lists.Keys)
    ensures SideDone(out0, nodeH, pos, links, other, others) ==> SideDone(out, nodeH, pos, links, other, others)
    ensures Untouched(out0, pos, links, other, others) ==> Untouched(out, pos, links, other, others)
  {
    out := out0;
    var todo := lists.Keys;
    while exists site :: site in todo
      invariant todo <= lists.Keys && OnlySpread(out, pos, links)
      invariant SideDone(out, nodeH, pos, links, side, lists.Keys - todo)
      invariant Untouched(out, pos, links, side, todo)
      invariant SideDone(out0, nodeH, pos, links, other, others) ==> SideDone(out, nodeH, pos, links, other, others)
      invariant Untouched(out0, pos, links, other, others) ==> Untouched(out, pos, links, other, others)
      decreases todo
    {
      var site :| site in todo;
      ListsAreFiled(pos, links, side, site);
      FiledAreEnds(pos, links, side, site);
      ghost var before := out;
      out := SpreadList(out, nodeH, lists[site]);
      EdgeSpread(before, out, nodeH, pos, links, side, site, lists.Keys - todo, todo);
      SpreadOne(before, out, nodeH, pos, links, side, site, other, others);
      todo := todo - {site};
      assert lists.Keys - todo == lists.Keys - (todo + {site}) + {site};
    }
    assert lists.Keys - todo == lists.Keys;
  }

  /**
   Every card edge with several link ends gives each of them its height; one with a single end gives
   it none, so that it stays in the middle; and no other end has a height.
   */
  method SpreadPorts(links: seq<Link>, pos: Positions, nodeH: real) returns (out: map<Key, real>)
    ensures forall side, site :: HeightsOf(out, nodeH, Filed(pos, links, side, site))
    ensures OnlySpread(out, pos, links)
    ensures nodeH > 0.0 ==> NoCrossing(out, pos, links)
  {
    var rightEdgeOf, leftEdgeOf := FilePorts(links, pos);
    out := SpreadSide(map[], nodeH, rightEdgeOf, pos, links, RightEdge, LeftEdge, leftEdgeOf.Keys);
    out := SpreadSide(out, nodeH, leftEdgeOf, pos, links, LeftEdge, RightEdge, rightEdgeOf.Keys);
    forall side, site ensures HeightsOf(out, nodeH, Filed(pos, links, side, site)) {
      ListsAreFiled(pos, links, side, site);
      if side == RightEdge {
        assert site !in rightEdgeOf ==> Filed(pos, links, side, site) == [];
      } else {
        assert site !in leftEdgeOf ==> Filed(pos, links, side, site) == [];
      }
    }
    if nodeH > 0.0 {
      HeightsDoNotCross(out, nodeH, pos, links);
    }
  }
}
