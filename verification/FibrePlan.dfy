/**
 The layers of the fibre plan: the segments of the planned rings, where every site is drawn, and which
 backhauls survive beside the rings. Site names are normalised already.
 */
module FibrePlan {
  import opened Wrappers
  import opened Order

  type Pair = set<string>

  datatype Ring = Ring(name: string, path: seq<string>)

  datatype Status = Existing | Upgrade | New

  datatype Segment = Segment(a: string, b: string, status: Status, rings: seq<string>)

  datatype Edge = Edge(a: string, b: string, medium: Option<string>)

  /** The medium of each pair; a later edge of the same pair takes over. */
  function Current(edges: seq<Edge>): map<Pair, Option<string>> {
    if edges == [] then map[]
    else
      var e := edges[|edges| - 1];
      Current(edges[..|edges| - 1])[{e.a, e.b} := e.medium]
  }

  function MediumOf(current: map<Pair, Option<string>>, key: Pair): Option<string> {
    if key in current then current[key] else None
  }

  function StatusOf(medium: Option<string>): Status {
    if medium == Some("wired") then Existing else if medium.Some? then Upgrade else New
  }

  // ---------------------------------------------------------------- ring segments

  /** The first `n` steps of the ring's path go along `key`. */
  ghost predicate Uses(path: seq<string>, n: nat, key: Pair) {
    exists k :: 0 <= k < n && StepOn(path, k, key)
  }

  predicate StepOn(path: seq<string>, k: nat, key: Pair) {
    k + 1 < |path| && key == {path[k], path[k + 1]}
  }

  ghost predicate OnRing(ring: Ring, key: Pair) {
    Uses(ring.path, |ring.path|, key)
  }

  /** The names of the rings that use `key`, in their order. */
  ghost function RingsOn(rings: seq<Ring>, key: Pair): seq<string> {
    if rings == [] then []
    else
      var n := |rings| - 1;
      RingsOn(rings[..n], key) + if OnRing(rings[n], key) then [rings[n].name] else []
  }

  /** What is filed under a pair: one segment of the pair, its status, and exactly the rings that use it. */
  ghost predicate FiledRight(s: Segment, key: Pair, current: map<Pair, Option<string>>, names: seq<string>) {
    key == {s.a, s.b} && s.status == StatusOf(MediumOf(current, key)) && s.rings == names
  }

  ghost predicate SegmentsOf(out: map<Pair, Segment>, current: map<Pair, Option<string>>, rings: seq<Ring>) {
    forall key :: KeyRight(out, current, key, RingsOn(rings, key))
  }

  ghost predicate KeyRight(out: map<Pair, Segment>, current: map<Pair, Option<string>>, key: Pair, names: seq<string>) {
    && (key in out <==> names != [])
    && (key in out ==> FiledRight(out[key], key, current, names))
  }

  /** Half-way through ring `ring`, `n` steps done. */
  ghost function NamesSoFar(before: seq<Ring>, ring: Ring, n: nat, key: Pair): seq<string> {
    RingsOn(before, key) + if Uses(ring.path, n, key) then [ring.name] else []
  }

  ghost predicate RightSoFar(out: map<Pair, Segment>, current: map<Pair, Option<string>>, before: seq<Ring>, ring: Ring,
                             n: nat)
  {
    forall key :: KeySoFar(out, current, before, ring, n, key)
  }

  ghost predicate KeySoFar(out: map<Pair, Segment>, current: map<Pair, Option<string>>, before: seq<Ring>, ring: Ring,
                           n: nat, key: Pair)
  {
    KeyRight(out, current, key, NamesSoFar(before, ring, n, key))
  }

  lemma {:induction false} NameOfEarlierRing(rings: seq<Ring>, name: string, key: Pair)
    requires forall r :: r in rings ==> r.name != name
    ensures name !in RingsOn(rings, key)
  {
    if rings == [] {
    } else {
      NameOfEarlierRing(rings[..|rings| - 1], name, key);
    }
  }

  /** `_ring_segments`: each pair of neighbours on a ring is filed once, with the rings that use it. */
  method RingSegments(rings: seq<Ring>, current: map<Pair, Option<string>>) returns (out: map<Pair, Segment>)
    requires forall i, j :: 0 <= i < j < |rings| ==> rings[i].name != rings[j].name
    ensures SegmentsOf(out, current, rings)
  {
    out := map[];
    for i := 0 to |rings|
      invariant SegmentsOf(out, current, rings[..i])
    {
      out := AddRing(out, current, rings[..i], rings[i]);
      ghost var known := rings[..i + 1];
      assert known[..i] == rings[..i];
      forall key ensures KeyRight(out, current, key, RingsOn(known, key)) {
        assert KeySoFar(out, current, rings[..i], rings[i], |rings[i].path|, key);
      }
    }
    assert rings[..|rings|] == rings;
  }

  method AddRing(out0: map<Pair, Segment>, current: map<Pair, Option<string>>, ghost before: seq<Ring>, ring: Ring)
    returns (out: map<Pair, Segment>)
    requires SegmentsOf(out0, current, before) && forall r :: r in before ==> r.name != ring.name
    ensures RightSoFar(out, current, before, ring, |ring.path|)
  {
    out := out0;
    forall key ensures KeySoFar(out, current, before, ring, 0, key) {
      assert KeyRight(out, current, key, RingsOn(before, key));
    }
    var k := 0;
    while k + 1 < |ring.path|
      invariant 0 <= k <= |ring.path|
      invariant k > 0 ==> k < |ring.path|
      invariant RightSoFar(out, current, before, ring, k)
    {
      out := AddStep(out, current, before, ring, k);
      k := k + 1;
    }
    forall key ensures KeySoFar(out, current, before, ring, |ring.path|, key) {
      assert KeySoFar(out, current, before, ring, k, key);
      if Uses(ring.path, |ring.path|, key) {
        var j :| 0 <= j < |ring.path| && StepOn(ring.path, j, key);
        assert j < k;
      }
    }
  }

  method AddStep(out0: map<Pair, Segment>, current: map<Pair, Option<string>>, ghost before: seq<Ring>, ring: Ring,
                 k: nat)
    returns (out: map<Pair, Segment>)
    requires k + 1 < |ring.path| && forall r :: r in before ==> r.name != ring.name
    requires RightSoFar(out0, current, before, ring, k)
    ensures RightSoFar(out, current, before, ring, k + 1)
  {
    out := out0;
    var a, b := ring.path[k], ring.path[k + 1];
    var pair := {a, b};
    ghost var known := NamesSoFar(before, ring, k, pair);
    assert KeySoFar(out, current, before, ring, k, pair);
    NameOfEarlierRing(before, ring.name, pair);
    if pair !in out {
      out := out[pair := Segment(a, b, StatusOf(MediumOf(current, pair)), [])];
    }
    if ring.name !in out[pair].rings {
      out := out[pair := out[pair].(rings := out[pair].rings + [ring.name])];
    }
    ghost var next := k + 1;
    forall key ensures KeySoFar(out, current, before, ring, next, key) {
      assert KeySoFar(out0, current, before, ring, k, key);
      if key == pair {
        assert StepOn(ring.path, k, key);
      }
    }
  }

  // ---------------------------------------------------------------- positions

  type Place = (real, real)

  datatype SiteRow = SiteRow(name: string, place: Option<Place>)

  /** What `_layers` knows besides the topology; `today` is the mode `current`. */
  datatype Plan = Plan(
    today: bool, inside: Place -> bool, planned: seq<(string, Place)>, routeMain: string, routeNew: string,
    globe: string, icon: Place)

  function Inside(plan: Plan, site: SiteRow): bool {
    site.place.Some? && plan.inside(site.place.value)
  }

  /** Where the topology puts its sites; with two rows of one name the later one wins. */
  function Placed(plan: Plan, sites: seq<SiteRow>): map<string, Place> {
    if sites == [] then map[]
    else
      var before, site := Placed(plan, sites[..|sites| - 1]), sites[|sites| - 1];
      if Inside(plan, site) then before[site.name := site.place.value] else before
  }

  /** The sites without a place inside the frame. */
  function Outside(plan: Plan, sites: seq<SiteRow>): seq<string> {
    if sites == [] then []
    else Outside(plan, Init(sites)) + if Inside(plan, Last(sites)) then [] else [Last(sites).name]
  }

  method PlaceSites(plan: Plan, sites: seq<SiteRow>) returns (positions: map<string, Place>, missing: seq<string>)
    ensures positions == Placed(plan, sites) && missing == Outside(plan, sites)
  {
    positions, missing := map[], [];
    for i := 0 to |sites|
      invariant positions == Placed(plan, sites[..i]) && missing == Outside(plan, sites[..i])
    {
      assert sites[..i + 1][..i] == sites[..i] && Init(sites[..i + 1]) == sites[..i];
      if Inside(plan, sites[i]) {
        positions := positions[sites[i].name := sites[i].place.value];
      } else {
        missing := missing + [sites[i].name];
      }
    }
    assert sites[..|sites|] == sites;
  }

  lemma {:induction false} PlacedOrOutside(plan: Plan, sites: seq<SiteRow>, site: SiteRow)
    requires site in sites
    ensures site.name in Placed(plan, sites) || site.name in Outside(plan, sites)
  {
    if site != Last(sites) {
      assert site in Init(sites);
      PlacedOrOutside(plan, Init(sites), site);
    }
  }

  ghost predicate OnSomeRing(segments: map<Pair, Segment>, x: string) {
    exists key :: key in segments && (segments[key].a == x || segments[key].b == x)
  }

  /** Exactly the ring sites that have no place and are not named already, each once. */
  ghost predicate RingSitesMissing(
    names: seq<string>, segments: map<Pair, Segment>, placed: map<string, Place>, outside: seq<string>)
  {
    && Distinct(names)
    && forall x :: x in names <==> OnSomeRing(segments, x) && x !in placed && x !in outside
  }

  method NameRingSites(segments: map<Pair, Segment>, placed: map<string, Place>, outside: seq<string>)
    returns (names: seq<string>)
    ensures RingSitesMissing(names, segments, placed, outside)
  {
    names := [];
    var todo := segments.Keys;
    while exists key :: key in todo
      invariant todo <= segments.Keys && Distinct(names)
      invariant forall x :: x in names ==> OnSomeRing(segments, x) && x !in placed && x !in outside
      invariant forall key :: key in segments && key !in todo ==> EndsNamed(segments[key], placed, outside + names)
      decreases todo
    {
      var key :| key in todo;
      var s := segments[key];
      assert OnSomeRing(segments, s.a) && OnSomeRing(segments, s.b);
      if s.a !in placed && s.a !in outside && s.a !in names {
        names := names + [s.a];
      }
      if s.b !in placed && s.b !in outside && s.b !in names {
        names := names + [s.b];
      }
      todo := todo - {key};
    }
    forall x | OnSomeRing(segments, x) && x !in placed && x !in outside ensures x in names {
      var key :| key in segments && (segments[key].a == x || segments[key].b == x);
      assert EndsNamed(segments[key], placed, outside + names);
    }
  }

  predicate EndsNamed(s: Segment, placed: map<string, Place>, missing: seq<string>) {
    (s.a in placed || s.a in missing) && (s.b in placed || s.b in missing)
  }

  /** The planned sites added: never in the place of a site that is there. */
  function WithPlanned(plan: Plan, planned: seq<(string, Place)>, placed: map<string, Place>): map<string, Place> {
    if planned == [] then placed
    else
      var before, p := WithPlanned(plan, Init(planned), placed), Last(planned);
      if p.0 in before || !plan.inside(p.1) then before else before[p.0 := p.1]
  }

  /** The planned sites outside the frame, unless one of that name is there. */
  function PlannedOutside(plan: Plan, planned: seq<(string, Place)>, placed: map<string, Place>): seq<string> {
    if planned == [] then []
    else
      PlannedOutside(plan, Init(planned), placed)
      + if Last(planned).0 in WithPlanned(plan, Init(planned), placed) || plan.inside(Last(planned).1) then []
        else [Last(planned).0 + " (hors cadre)"]
  }

  /** The planned sites of the mode: none on a map of today. */
  function PlannedOf(plan: Plan): seq<(string, Place)> {
    if plan.today then [] else plan.planned
  }

  method PlacePlanned(plan: Plan, placed: map<string, Place>)
    returns (positions: map<string, Place>, missing: seq<string>, planned: set<string>)
    ensures positions == WithPlanned(plan, PlannedOf(plan), placed)
    ensures missing == PlannedOutside(plan, PlannedOf(plan), placed)
    ensures planned == positions.Keys - placed.Keys
  {
    positions, missing, planned := placed, [], {};
    var sites := PlannedOf(plan);
    for i := 0 to |sites|
      invariant positions == WithPlanned(plan, sites[..i], placed)
      invariant missing == PlannedOutside(plan, sites[..i], placed)
      invariant placed.Keys <= positions.Keys && planned == positions.Keys - placed.Keys
    {
      var (name, place) := sites[i];
      assert Init(sites[..i + 1]) == sites[..i];
      if name in positions {
      } else if !plan.inside(place) {
        missing := missing + [name + " (hors cadre)"];
      } else {
        positions := positions[name := place];
        planned := planned + {name};
      }
    }
    assert sites[..|sites|] == sites;
  }

  /** Existing sites stay where they are; a name is added exactly when a planned site of it is in the frame. */
  lemma {:induction false} PlannedNeverDisplace(
    plan: Plan, planned: seq<(string, Place)>, placed: map<string, Place>, x: string)
    ensures x in placed ==>
              x in WithPlanned(plan, planned, placed) && WithPlanned(plan, planned, placed)[x] == placed[x]
    ensures x in WithPlanned(plan, planned, placed) <==>
            x in placed || exists i :: 0 <= i < |planned| && planned[i].0 == x && plan.inside(planned[i].1)
    ensures x !in placed && x in WithPlanned(plan, planned, placed) ==>
              exists i :: 0 <= i < |planned| && planned[i] == (x, WithPlanned(plan, planned, placed)[x])
  {
    if planned == [] {
    } else {
      PlannedNeverDisplace(plan, Init(planned), placed, x);
      var n := |planned| - 1;
      assert planned[n] == Last(planned);
      if i :| 0 <= i < n && Init(planned)[i].0 == x && plan.inside(Init(planned)[i].1) {
        assert planned[i].0 == x;
      }
      if x !in placed && x in WithPlanned(plan, Init(planned), placed) {
        var i :| 0 <= i < n && Init(planned)[i] == (x, WithPlanned(plan, Init(planned), placed)[x]);
        assert planned[i] == Init(planned)[i];
      }
    }
  }

  // ---------------------------------------------------------------- routes to the source

  function Wanted(plan: Plan): seq<string> {
    [plan.routeMain] + if plan.today then [] else [plan.routeNew]
  }

  function Known(names: seq<string>, positions: map<string, Place>): seq<string> {
    if names == [] then []
    else Known(Init(names), positions) + if Last(names) in positions then [Last(names)] else []
  }

  method KnownRoutes(wanted: seq<string>, positions: map<string, Place>) returns (routes: seq<string>)
    ensures routes == Known(wanted, positions)
  {
    routes := [];
    for i := 0 to |wanted|
      invariant routes == Known(wanted[..i], positions)
    {
      assert Init(wanted[..i + 1]) == wanted[..i];
      if wanted[i] in positions {
        routes := routes + [wanted[i]];
      }
    }
    assert wanted[..|wanted|] == wanted;
  }

  // ---------------------------------------------------------------- edges

  predicate Drawn(positions: map<string, Place>, e: Edge) {
    e.a in positions && e.b in positions
  }

  predicate StaysRadio(plan: Plan, segments: map<Pair, Segment>, positions: map<string, Place>, e: Edge) {
    Drawn(positions, e) && {e.a, e.b} !in segments && !(plan.today && e.medium == Some("wired"))
  }

  predicate DrawnWired(plan: Plan, segments: map<Pair, Segment>, positions: map<string, Place>, e: Edge) {
    Drawn(positions, e) && {e.a, e.b} !in segments && plan.today && e.medium == Some("wired")
  }

  predicate OnRingDrawn(segments: map<Pair, Segment>, positions: map<string, Place>, e: Edge) {
    Drawn(positions, e) && {e.a, e.b} in segments
  }

  function Keep(edges: seq<Edge>, p: Edge -> bool): seq<Edge> {
    if edges == [] then []
    else Keep(edges[..|edges| - 1], p) + if p(edges[|edges| - 1]) then [edges[|edges| - 1]] else []
  }

  lemma {:induction false} KeepSplits(
    edges: seq<Edge>, all: Edge -> bool, p: Edge -> bool, q: Edge -> bool, r: Edge -> bool)
    requires forall e :: e in edges ==> ExactlyOne(all, p, q, r, e)
    ensures multiset(Keep(edges, all)) == multiset(Keep(edges, p)) + multiset(Keep(edges, q)) + multiset(Keep(edges, r))
  {
    if edges == [] {
    } else {
      var last := edges[|edges| - 1];
      assert ExactlyOne(all, p, q, r, last);
      KeepSplits(edges[..|edges| - 1], all, p, q, r);
    }
  }

  predicate ExactlyOne(all: Edge -> bool, p: Edge -> bool, q: Edge -> bool, r: Edge -> bool, e: Edge) {
    && all(e) == (p(e) || q(e) || r(e))
    && !(p(e) && q(e)) && !(q(e) && r(e)) && !(p(e) && r(e))
  }

  lemma EdgesSplit(plan: Plan, segments: map<Pair, Segment>, positions: map<string, Place>, edges: seq<Edge>)
    ensures multiset(Keep(edges, e => Drawn(positions, e))) ==
            multiset(Keep(edges, e => StaysRadio(plan, segments, positions, e)))
            + multiset(Keep(edges, e => DrawnWired(plan, segments, positions, e)))
            + multiset(Keep(edges, e => OnRingDrawn(segments, positions, e)))
  {
    KeepSplits(edges, e => Drawn(positions, e), e => StaysRadio(plan, segments, positions, e),
               e => DrawnWired(plan, segments, positions, e), e => OnRingDrawn(segments, positions, e));
  }

  /** The last loop of `_layers`. */
  method SortEdges(plan: Plan, segments: map<Pair, Segment>, positions: map<string, Place>, edges: seq<Edge>)
    returns (radio: seq<Edge>, wired: seq<Edge>)
    ensures radio == Keep(edges, e => StaysRadio(plan, segments, positions, e))
    ensures wired == Keep(edges, e => DrawnWired(plan, segments, positions, e))
    ensures multiset(Keep(edges, e => Drawn(positions, e)))
            == multiset(radio) + multiset(wired) + multiset(Keep(edges, e => OnRingDrawn(segments, positions, e)))
  {
    EdgesSplit(plan, segments, positions, edges);
    radio, wired := [], [];
    for i := 0 to |edges|
      invariant radio == Keep(edges[..i], e => StaysRadio(plan, segments, positions, e))
      invariant wired == Keep(edges[..i], e => DrawnWired(plan, segments, positions, e))
    {
      assert edges[..i + 1][..i] == edges[..i];
      var e := edges[i];
      if e.a !in positions || e.b !in positions || {e.a, e.b} in segments {
      } else if plan.today && e.medium == Some("wired") {
        wired := wired + [e];
      } else {
        radio := radio + [e];
      }
    }
    assert edges[..|edges|] == edges;
  }

  // ---------------------------------------------------------------- the whole

  datatype Layers = Layers(
    segments: map<Pair, Segment>, core: set<string>, positions: map<string, Place>, planned: set<string>,
    routes: seq<string>, icons: set<string>, missing: seq<string>, radio: seq<Edge>, wired: seq<Edge>)

  /** `ring_sites`: the ends of the ring segments, or today the sites on fibre. */
  function CoreSites(plan: Plan, current: map<Pair, Option<string>>, segments: map<Pair, Segment>): set<string> {
    if plan.today then set key, x | key in current && current[key] == Some("wired") && x in key :: x
    else (set key | key in segments :: segments[key].a) + (set key | key in segments :: segments[key].b)
  }

  /** Edge `i` is wired and the last of its pair. */
  predicate WiredAt(edges: seq<Edge>, i: nat)
    requires i < |edges|
  {
    && edges[i].medium == Some("wired")
    && forall j :: i < j < |edges| ==> {edges[j].a, edges[j].b} != {edges[i].a, edges[i].b}
  }

  lemma {:induction false} CurrentIsLast(edges: seq<Edge>, key: Pair)
    ensures key in Current(edges) && Current(edges)[key] == Some("wired") <==>
            exists i :: 0 <= i < |edges| && WiredAt(edges, i) && key == {edges[i].a, edges[i].b}
  {
    if edges == [] {
    } else {
      var n := |edges| - 1;
      var front, last := edges[..n], edges[n];
      CurrentIsLast(front, key);
      if key == {last.a, last.b} {
        assert WiredAt(edges, n) <==> last.medium == Some("wired");
      } else {
        if i :| 0 <= i < n && WiredAt(front, i) && key == {front[i].a, front[i].b} {
          assert WiredAt(edges, i);
        }
        if i :| 0 <= i < |edges| && WiredAt(edges, i) && key == {edges[i].a, edges[i].b} {
          assert WiredAt(front, i);
        }
      }
    }
  }

  /** On a map of a ring project the core is where the ring segments end. */
  lemma CoreOnRings(plan: Plan, current: map<Pair, Option<string>>, segments: map<Pair, Segment>, x: string)
    requires !plan.today
    ensures x in CoreSites(plan, current, segments) <==> OnSomeRing(segments, x)
  {
  }

  /** Today it is where the wired edges end; the last edge of a pair decides. */
  lemma CoreOnWire(plan: Plan, edges: seq<Edge>, segments: map<Pair, Segment>, x: string)
    requires plan.today
    ensures x in CoreSites(plan, Current(edges), segments) <==>
            exists i :: 0 <= i < |edges| && WiredAt(edges, i) && (x == edges[i].a || x == edges[i].b)
  {
    var current := Current(edges);
    if x in CoreSites(plan, current, segments) {
      var key :| key in current && current[key] == Some("wired") && x in key;
      CurrentIsLast(edges, key);
      var i :| 0 <= i < |edges| && WiredAt(edges, i) && key == {edges[i].a, edges[i].b};
    }
    if i :| 0 <= i < |edges| && WiredAt(edges, i) && (x == edges[i].a || x == edges[i].b) {
      var key := {edges[i].a, edges[i].b};
      CurrentIsLast(edges, key);
      assert x in key;
    }
  }

  /** The routes that can be drawn, and whether the icon they lead to is in the frame. */
  function RoutesTo(plan: Plan, positions: map<string, Place>): seq<string> {
    if plan.inside(plan.icon) then Known(Wanted(plan), positions) else []
  }

  function GlobeOutside(plan: Plan, positions: map<string, Place>): seq<string> {
    if Known(Wanted(plan), positions) != [] && !plan.inside(plan.icon) then [plan.globe + " (hors cadre)"] else []
  }

  /** The routes and the globe they lead to; without the globe there are none. */
  method PlaceGlobe(plan: Plan, beside: map<string, Place>)
    returns (positions: map<string, Place>, routes: seq<string>, icons: set<string>, missing: seq<string>)
    ensures routes == RoutesTo(plan, beside) && missing == GlobeOutside(plan, beside)
    ensures positions == if routes == [] then beside else beside[plan.globe := plan.icon]
    ensures icons == if routes == [] then {} else {plan.globe}
  {
    positions, icons, missing := beside, {}, [];
    routes := KnownRoutes(Wanted(plan), beside);
    if routes != [] && plan.inside(plan.icon) {
      positions := positions[plan.globe := plan.icon];
      icons := {plan.globe};
    } else if routes != [] {
      missing := [plan.globe + " (hors cadre)"];
      routes := [];
    }
  }

  /** What is missing: sites outside the frame, ring sites without a place, planned sites outside, the globe. */
  ghost predicate MissingRight(
    missing: seq<string>, ringNames: seq<string>, plan: Plan, sites: seq<SiteRow>, segments: map<Pair, Segment>)
  {
    var placed := Placed(plan, sites);
    var beside := WithPlanned(plan, PlannedOf(plan), placed);
    && RingSitesMissing(ringNames, segments, placed, Outside(plan, sites))
    && missing == Outside(plan, sites) + ringNames + PlannedOutside(plan, PlannedOf(plan), placed)
                  + GlobeOutside(plan, beside)
  }

  /**
   `_layers`: existing sites, then planned ones, then the globe; the wanted routes that have a place, if the
   globe is in the frame; everything that could not be placed by name and nothing else; and every drawn edge
   once, on a ring, wired or by radio.
   */
  method MakeLayers(sites: seq<SiteRow>, edges: seq<Edge>, rings: seq<Ring>, plan: Plan) returns (r: Layers)
    requires forall i, j :: 0 <= i < j < |rings| ==> rings[i].name != rings[j].name
    ensures SegmentsOf(r.segments, Current(edges), if plan.today then [] else rings)
    ensures var placed := Placed(plan, sites);
            var beside := WithPlanned(plan, PlannedOf(plan), placed);
            && r.planned == beside.Keys - placed.Keys
            && r.routes == RoutesTo(plan, beside) && r.icons == (if r.routes == [] then {} else {plan.globe})
            && r.positions == if r.routes == [] then beside else beside[plan.globe := plan.icon]
    ensures r.core == CoreSites(plan, Current(edges), r.segments)
    ensures exists ringNames :: MissingRight(r.missing, ringNames, plan, sites, r.segments)
    ensures forall s :: s in sites ==> s.name in r.positions || s.name in r.missing
    ensures forall key :: key in r.segments ==> EndsNamed(r.segments[key], r.positions, r.missing)
    ensures r.radio == Keep(edges, e => StaysRadio(plan, r.segments, r.positions, e))
    ensures r.wired == Keep(edges, e => DrawnWired(plan, r.segments, r.positions, e))
    ensures multiset(Keep(edges, e => Drawn(r.positions, e)))
            == multiset(r.radio) + multiset(r.wired)
               + multiset(Keep(edges, e => OnRingDrawn(r.segments, r.positions, e)))
  {
    var segments: map<Pair, Segment> := map[];
    if !plan.today {
      segments := RingSegments(rings, Current(edges));
    }
    var placed, outside := PlaceSites(plan, sites);
    var ringNames := NameRingSites(segments, placed, outside);
    var positions, late, planned := PlacePlanned(plan, placed);
    ghost var beside := positions;
    var missing := outside + ringNames + late;
    var routes, icons, noGlobe;
    positions, routes, icons, noGlobe := PlaceGlobe(plan, positions);
    missing := missing + noGlobe;
    var radio, wired := SortEdges(plan, segments, positions, edges);
    var core := CoreSites(plan, Current(edges), segments);
    r := Layers(segments, core, positions, planned, routes, icons, missing, radio, wired);
    assert MissingRight(missing, ringNames, plan, sites, segments);
    NothingDropped(plan, sites, segments, positions, missing, ringNames);
  }

  lemma NothingDropped(
    plan: Plan, sites: seq<SiteRow>, segments: map<Pair, Segment>, positions: map<string, Place>,
    missing: seq<string>, ringNames: seq<string>)
    requires MissingRight(missing, ringNames, plan, sites, segments)
    requires WithPlanned(plan, PlannedOf(plan), Placed(plan, sites)).Keys <= positions.Keys
    ensures forall s :: s in sites ==> s.name in positions || s.name in missing
    ensures forall key :: key in segments ==> EndsNamed(segments[key], positions, missing)
  {
    var placed := Placed(plan, sites);
    forall x | x in placed ensures x in positions {
      PlannedNeverDisplace(plan, PlannedOf(plan), placed, x);
    }
    forall s | s in sites ensures s.name in positions || s.name in missing {
      PlacedOrOutside(plan, sites, s);
    }
    forall key | key in segments ensures EndsNamed(segments[key], positions, missing) {
      var s := segments[key];
      assert OnSomeRing(segments, s.a) && OnSomeRing(segments, s.b);
      assert s.a in placed || s.a in Outside(plan, sites) || s.a in ringNames;
      assert s.b in placed || s.b in Outside(plan, sites) || s.b in ringNames;
    }
  }
}
