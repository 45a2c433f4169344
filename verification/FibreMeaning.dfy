/** What the parts of a fibre plan say of the topology they were made from. */
module FibreMeaning {
  import opened Wrappers
  import opened Order
  import opened FibrePlan

  // ---------------------------------------------------------------- segments

  /** Edge `i` is the last one between the sites of `key`. */
  predicate LastBetween(edges: seq<Edge>, key: Pair, i: nat) {
    && i < |edges| && {edges[i].a, edges[i].b} == key
    && forall j :: i < j < |edges| ==> {edges[j].a, edges[j].b} != key
  }

  lemma {:induction false} MediumIsLast(edges: seq<Edge>, key: Pair)
    ensures (forall i: nat :: !LastBetween(edges, key, i)) ==> MediumOf(Current(edges), key) == None
    ensures forall i: nat :: LastBetween(edges, key, i) ==> MediumOf(Current(edges), key) == edges[i].medium
  {
    if edges == [] {
    } else {
      var n := |edges| - 1;
      var front := edges[..n];
      MediumIsLast(front, key);
      if {edges[n].a, edges[n].b} == key {
        assert LastBetween(edges, key, n);
      } else {
        forall i: nat ensures LastBetween(edges, key, i) <==> LastBetween(front, key, i) {
          assert forall j :: 0 <= j < n ==> front[j] == edges[j];
        }
      }
    }
  }

  /** To be built where nothing runs today, to be rebuilt where the last edge is not fibre, done where it is. */
  lemma StatusMeans(edges: seq<Edge>, key: Pair)
    ensures (forall i: nat :: !LastBetween(edges, key, i)) ==> StatusOf(MediumOf(Current(edges), key)) == New
    ensures forall i: nat :: LastBetween(edges, key, i) ==>
              StatusOf(MediumOf(Current(edges), key)) ==
              match edges[i].medium
              case None => New
              case Some(medium) => if medium == "wired" then Existing else Upgrade
  {
    MediumIsLast(edges, key);
  }

  /** The path of the ring runs from one site of `key` to the other at some place. */
  ghost predicate RunsAlong(ring: Ring, key: Pair) {
    exists k :: 0 <= k < |ring.path| - 1 && {ring.path[k], ring.path[k + 1]} == key
  }

  lemma {:induction false} RingsMean(rings: seq<Ring>, key: Pair, name: string)
    ensures name in RingsOn(rings, key) <==>
            exists i :: 0 <= i < |rings| && rings[i].name == name && RunsAlong(rings[i], key)
  {
    if rings == [] {
    } else {
      var n := |rings| - 1;
      RingsMean(rings[..n], key, name);
      OnRingMeans(rings[n], key);
      assert rings == rings[..n] + [rings[n]];
    }
  }

  lemma OnRingMeans(ring: Ring, key: Pair)
    ensures OnRing(ring, key) <==> RunsAlong(ring, key)
  {
    if k :| 0 <= k < |ring.path| && StepOn(ring.path, k, key) {
      assert {ring.path[k], ring.path[k + 1]} == key;
    }
    if k :| 0 <= k < |ring.path| - 1 && {ring.path[k], ring.path[k + 1]} == key {
      assert StepOn(ring.path, k, key);
    }
  }

  // ---------------------------------------------------------------- sites

  /** Row `i` has a place inside the frame. */
  predicate InFrame(plan: Plan, sites: seq<SiteRow>, i: nat) {
    i < |sites| && sites[i].place.Some? && plan.inside(sites[i].place.value)
  }

  /** Row `i` is the last one of its name in the frame. */
  predicate LastInFrame(plan: Plan, sites: seq<SiteRow>, x: string, i: nat) {
    && InFrame(plan, sites, i) && sites[i].name == x
    && forall j :: i < j < |sites| ==> !(InFrame(plan, sites, j) && sites[j].name == x)
  }

  lemma LastInFrameKept(plan: Plan, sites: seq<SiteRow>, x: string, i: nat)
    requires sites != [] && !(InFrame(plan, sites, |sites| - 1) && sites[|sites| - 1].name == x)
    ensures LastInFrame(plan, sites, x, i) <==> LastInFrame(plan, sites[..|sites| - 1], x, i)
  {
    var front := sites[..|sites| - 1];
    assert forall j :: 0 <= j < |front| ==> front[j] == sites[j];
    assert forall j: nat :: j < |front| ==> (InFrame(plan, front, j) <==> InFrame(plan, sites, j));
  }

  /** A site is on the map exactly when a row of its name is in the frame, at the place of the last such row. */
  lemma {:induction false} PlacedMeans(plan: Plan, sites: seq<SiteRow>, x: string)
    ensures x in Placed(plan, sites) <==> exists i: nat :: LastInFrame(plan, sites, x, i)
    ensures forall i: nat :: LastInFrame(plan, sites, x, i) ==>
              x in Placed(plan, sites) && Placed(plan, sites)[x] == sites[i].place.value
  {
    if sites == [] {
    } else {
      var n := |sites| - 1;
      PlacedMeans(plan, sites[..n], x);
      if InFrame(plan, sites, n) && sites[n].name == x {
        assert LastInFrame(plan, sites, x, n);
      } else {
        forall i: nat ensures LastInFrame(plan, sites, x, i) <==> LastInFrame(plan, sites[..n], x, i) {
          LastInFrameKept(plan, sites, x, i);
        }
      }
    }
  }

  function RowsOutside(plan: Plan, sites: seq<SiteRow>): (rows: set<nat>)
    ensures forall i :: i in rows ==> i < |sites|
  {
    set i: nat | i < |sites| && !InFrame(plan, sites, i)
  }

  lemma OneMoreRow(plan: Plan, sites: seq<SiteRow>)
    requires sites != []
    ensures var n := |sites| - 1;
            && RowsOutside(plan, sites) ==
               RowsOutside(plan, sites[..n]) + (if InFrame(plan, sites, n) then {} else {n})
            && n !in RowsOutside(plan, sites[..n])
            && forall i :: 0 <= i < n ==> sites[..n][i] == sites[i]
  {
    var front := sites[..|sites| - 1];
    assert forall i: nat :: i < |front| ==> (InFrame(plan, front, i) <==> InFrame(plan, sites, i));
  }

  /** Exactly the names of the rows outside the frame or without a place, one entry a row. */
  lemma {:induction false} OutsideMeans(plan: Plan, sites: seq<SiteRow>, x: string)
    ensures x in Outside(plan, sites) <==> exists i <- RowsOutside(plan, sites) :: sites[i].name == x
    ensures |Outside(plan, sites)| == |RowsOutside(plan, sites)|
  {
    if sites == [] {
      assert RowsOutside(plan, sites) == {};
    } else {
      OutsideMeans(plan, sites[..|sites| - 1], x);
      OneMoreRow(plan, sites);
    }
  }

  // ---------------------------------------------------------------- routes and edges

  /** The routes shown: today's, then on a project map the second one, each if its site is on the map. */
  lemma RoutesMean(plan: Plan, positions: map<string, Place>)
    ensures RoutesTo(plan, positions) ==
            if !plan.inside(plan.icon) then []
            else (if plan.routeMain in positions then [plan.routeMain] else [])
                 + (if !plan.today && plan.routeNew in positions then [plan.routeNew] else [])
  {
    var wanted := Wanted(plan);
    assert Known([plan.routeMain], positions) == if plan.routeMain in positions then [plan.routeMain] else [] by {
      assert Init([plan.routeMain]) == [];
    }
    if !plan.today {
      assert Init(wanted) == [plan.routeMain] && Last(wanted) == plan.routeNew;
    }
  }

  lemma {:induction false} KeepCounts(edges: seq<Edge>, p: Edge -> bool, e: Edge)
    ensures multiset(Keep(edges, p))[e] == if p(e) then multiset(edges)[e] else 0
  {
    if edges == [] {
    } else {
      KeepCounts(edges[..|edges| - 1], p, e);
      assert edges == edges[..|edges| - 1] + [edges[|edges| - 1]];
    }
  }

  /** Which edges are drawn how, and how often: as often as the topology lists them, unless a ring takes them over. */
  lemma EdgesMean(plan: Plan, segments: map<Pair, Segment>, positions: map<string, Place>, edges: seq<Edge>, e: Edge)
    ensures var shown := e.a in positions && e.b in positions && {e.a, e.b} !in segments;
            var fibre := plan.today && e.medium == Some("wired");
            && multiset(Keep(edges, x => StaysRadio(plan, segments, positions, x)))[e]
               == (if shown && !fibre then multiset(edges)[e] else 0)
            && multiset(Keep(edges, x => DrawnWired(plan, segments, positions, x)))[e]
               == (if shown && fibre then multiset(edges)[e] else 0)
  {
    KeepCounts(edges, x => StaysRadio(plan, segments, positions, x), e);
    KeepCounts(edges, x => DrawnWired(plan, segments, positions, x), e);
  }

  // ---------------------------------------------------------------- planned sites

  /** Planned site `i` has nowhere to go: it is out of the frame and no site of its name is on the map by then. */
  predicate NowhereToGo(plan: Plan, planned: seq<(string, Place)>, placed: map<string, Place>, i: nat) {
    && i < |planned| && !plan.inside(planned[i].1) && planned[i].0 !in placed
    && forall j :: 0 <= j < i ==> !(planned[j].0 == planned[i].0 && plan.inside(planned[j].1))
  }

  lemma {:induction false} PlannedOutsideMeans(
    plan: Plan, planned: seq<(string, Place)>, placed: map<string, Place>, x: string)
    ensures x in PlannedOutside(plan, planned, placed) <==>
            exists i: nat :: NowhereToGo(plan, planned, placed, i) && x == planned[i].0 + " (hors cadre)"
  {
    if planned == [] {
    } else {
      var n := |planned| - 1;
      var front := planned[..n];
      PlannedOutsideMeans(plan, front, placed, x);
      PlannedNeverDisplace(plan, front, placed, planned[n].0);
      forall i: nat | i < n ensures NowhereToGo(plan, planned, placed, i) <==> NowhereToGo(plan, front, placed, i) {
        assert forall j :: 0 <= j <= i ==> front[j] == planned[j];
      }
      assert NowhereToGo(plan, planned, placed, n) <==>
             !plan.inside(planned[n].1) && planned[n].0 !in WithPlanned(plan, front, placed);
      assert Init(planned) == front && Last(planned) == planned[n];
      if i: nat :| NowhereToGo(plan, front, placed, i) && x == front[i].0 + " (hors cadre)" {
        assert NowhereToGo(plan, planned, placed, i) && planned[i] == front[i];
      }
      if i: nat :| NowhereToGo(plan, planned, placed, i) && x == planned[i].0 + " (hors cadre)" {
        assert i < n ==> planned[i] == front[i];
      }
    }
  }

  // ---------------------------------------------------------------- the map

  /** Some row of the topology puts `x` in the frame. */
  ghost predicate IsThere(plan: Plan, sites: seq<SiteRow>, x: string) {
    exists i: nat :: InFrame(plan, sites, i) && sites[i].name == x
  }

  /** On a project map, some planned site `x` is in the frame. */
  predicate Planned(plan: Plan, x: string) {
    !plan.today && exists i :: 0 <= i < |plan.planned| && plan.planned[i].0 == x && plan.inside(plan.planned[i].1)
  }

  ghost predicate Beside(plan: Plan, sites: seq<SiteRow>, x: string) {
    IsThere(plan, sites, x) || Planned(plan, x)
  }

  lemma PlacedAreThere(plan: Plan, sites: seq<SiteRow>, x: string)
    ensures x in Placed(plan, sites) <==> IsThere(plan, sites, x)
  {
    PlacedMeans(plan, sites, x);
    if i: nat :| InFrame(plan, sites, i) && sites[i].name == x {
      var last := LastOf(plan, sites, x, i);
    }
  }

  lemma {:induction false} LastOf(plan: Plan, sites: seq<SiteRow>, x: string, i: nat) returns (last: nat)
    requires InFrame(plan, sites, i) && sites[i].name == x
    ensures LastInFrame(plan, sites, x, last)
    decreases |sites| - i
  {
    last := i;
    if j: nat :| i < j && InFrame(plan, sites, j) && sites[j].name == x {
      last := LastOf(plan, sites, x, j);
    }
  }

  /**
   Who is on the map: existing sites, planned ones on a project map, and the globe if it is in the frame and a route
   to it starts on the map. Without the globe there are no routes, and it is named as missing if one was wanted.
   */
  lemma WhoIsOnTheMap(plan: Plan, sites: seq<SiteRow>, x: string)
    ensures var beside := WithPlanned(plan, PlannedOf(plan), Placed(plan, sites));
            var wanted := Beside(plan, sites, plan.routeMain) || (!plan.today && Beside(plan, sites, plan.routeNew));
            var onMap := if RoutesTo(plan, beside) == [] then beside else beside[plan.globe := plan.icon];
            && (x in beside <==> Beside(plan, sites, x))
            && (x in onMap <==> Beside(plan, sites, x) || (x == plan.globe && plan.inside(plan.icon) && wanted))
            && GlobeOutside(plan, beside) ==
               if wanted && !plan.inside(plan.icon) then [plan.globe + " (hors cadre)"] else []
  {
    var placed := Placed(plan, sites);
    var beside := WithPlanned(plan, PlannedOf(plan), placed);
    forall y ensures y in beside <==> Beside(plan, sites, y) {
      PlannedNeverDisplace(plan, PlannedOf(plan), placed, y);
      PlacedAreThere(plan, sites, y);
    }
    RoutesMean(plan, beside);
    RoutesMean(plan.(inside := _ => true), beside);
    assert Known(Wanted(plan), beside) == RoutesTo(plan.(inside := _ => true), beside);
  }
}
