/**
 `devices.site`: a cached column that three triggers keep equal to `fn_resolve_site`.

 The tables are maps from ids to rows. A statement is a step of the database together with the foreign
 key actions and the row triggers it fires; it fails, changing nothing, when it breaks a key.
 */
module SiteTriggers {
  import opened Wrappers

  type Id = int

  datatype Kind = Rocket | Lr | PtpLitebeam | Other(name: string)

  datatype Device = Device(kind: Kind, location: Option<string>, site: Option<string>)

  datatype Creds = Creds(user: Option<string>, password: Option<string>, port: Option<int>, fingerprint: Option<string>)

  datatype LrRow = LrRow(rocket: Option<Id>, creds: Creds)

  datatype Tables = Tables(
    devices: map<Id, Device>, rockets: map<Id, Creds>, lrs: map<Id, LrRow>, ptps: map<Id, Creds>)

  // ---------------------------------------------------------------- fn_resolve_site

  const NO_SITE := "Sans site"

  /** SQL `TRIM`: spaces off both ends. */
  function Trim(s: string): string {
    if s == "" then s
    else if s[0] == ' ' then Trim(s[1..])
    else if s[|s| - 1] == ' ' then Trim(s[..|s| - 1])
    else s
  }

  /** `COALESCE(NULLIF(TRIM(location), ''), 'Sans site')` */
  function CleanSite(location: Option<string>): string {
    if location.None? || Trim(location.value) == "" then NO_SITE else Trim(location.value)
  }

  /** The site of the Rocket `rocket`, when there is such a device. */
  function RocketSite(devices: map<Id, Device>, rocket: Option<Id>): string {
    if rocket.Some? && rocket.value in devices then CleanSite(devices[rocket.value].location) else NO_SITE
  }

  function Resolve(t: Tables, id: Id): string
    requires id in t.devices
  {
    var d := t.devices[id];
    if d.kind.Lr? then RocketSite(t.devices, if id in t.lrs then t.lrs[id].rocket else None)
    else CleanSite(d.location)
  }

  // ---------------------------------------------------------------- the triggers

  /** `device_set_site`, before a row of `devices` is inserted or its location or type updated. */
  function WithOwnSite(d: Device): Device {
    if d.kind.Lr? then d else d.(site := Some(CleanSite(d.location)))
  }

  function Children(lrs: map<Id, LrRow>, rocket: Id): set<Id> {
    set x | x in lrs && lrs[x].rocket == Some(rocket)
  }

  /** `UPDATE devices SET site = s WHERE id IN ids`: fires no trigger. */
  function WithSite(devices: map<Id, Device>, ids: set<Id>, s: string): map<Id, Device> {
    map x | x in devices :: if x in ids then devices[x].(site := Some(s)) else devices[x]
  }

  /** `rocket_cascade_site`, after the location of device `id` is updated. */
  function Cascaded(t: Tables, id: Id): Tables
    requires id in t.devices
  {
    if t.devices[id].kind.Rocket?
    then t.(devices := WithSite(t.devices, Children(t.lrs, id), CleanSite(t.devices[id].location)))
    else t
  }

  /** `lr_set_site`, after row `id` of `lrs` is inserted or its Rocket updated. */
  function LrPlaced(t: Tables, id: Id): Tables
    requires id in t.lrs
  {
    t.(devices := WithSite(t.devices, {id}, RocketSite(t.devices, t.lrs[id].rocket)))
  }

  /** Rows of `rockets` deleted: `ON DELETE SET NULL` on `lrs.rocket_id`, then `lr_set_site` on each such row. */
  function WithoutRockets(t: Tables, ids: set<Id>): Tables {
    var orphans := set x | x in t.lrs && t.lrs[x].rocket.Some? && t.lrs[x].rocket.value in ids * t.rockets.Keys;
    t.(rockets := t.rockets - ids,
       lrs := map x | x in t.lrs :: if x in orphans then t.lrs[x].(rocket := None) else t.lrs[x],
       devices := WithSite(t.devices, orphans, NO_SITE))
  }

  // ---------------------------------------------------------------- statements

  datatype Statement =
    | InsertDevice(id: Id, kind: Kind, location: Option<string>)
    | SetLocation(id: Id, location: Option<string>)
    | SetKind(id: Id, kind: Kind)
    | InsertLr(id: Id, row: LrRow)
    | AssignRocket(id: Id, rocket: Option<Id>)
    | InsertRocket(id: Id, creds: Creds)
    | InsertPtp(id: Id, creds: Creds)
    | DeleteRocket(id: Id)
    | DeleteLr(id: Id)
    | DeletePtp(id: Id)
    | DeleteDevice(id: Id)

  /** The key constraints a statement must meet; an UPDATE or DELETE that finds no row does nothing. */
  predicate Allowed(t: Tables, s: Statement) {
    match s
    case InsertDevice(id, _, _) => id !in t.devices
    case InsertLr(id, row) => id in t.devices && id !in t.lrs && (row.rocket.Some? ==> row.rocket.value in t.rockets)
    case AssignRocket(id, rocket) => id in t.lrs && rocket.Some? ==> rocket.value in t.rockets
    case InsertRocket(id, _) => id in t.devices && id !in t.rockets
    case InsertPtp(id, _) => id in t.devices && id !in t.ptps
    case _ => true
  }

  function Exec(t: Tables, s: Statement): Option<Tables> {
    if Allowed(t, s) then Some(Effect(t, s)) else None
  }

  function Effect(t: Tables, s: Statement): Tables
    requires Allowed(t, s)
  {
    match s
    case InsertDevice(id, kind, location) =>
      t.(devices := t.devices[id := WithOwnSite(Device(kind, location, None))])
    case SetLocation(id, location) =>
      if id !in t.devices then t
      else Cascaded(t.(devices := t.devices[id := WithOwnSite(t.devices[id].(location := location))]), id)
    case SetKind(id, kind) =>
      if id !in t.devices then t
      else t.(devices := t.devices[id := WithOwnSite(t.devices[id].(kind := kind))])
    case InsertLr(id, row) => LrPlaced(t.(lrs := t.lrs[id := row]), id)
    case AssignRocket(id, rocket) =>
      if id !in t.lrs then t else LrPlaced(t.(lrs := t.lrs[id := t.lrs[id].(rocket := rocket)]), id)
    case InsertRocket(id, creds) => t.(rockets := t.rockets[id := creds])
    case InsertPtp(id, creds) => t.(ptps := t.ptps[id := creds])
    case DeleteRocket(id) => WithoutRockets(t, {id})
    case DeleteLr(id) => t.(lrs := t.lrs - {id})
    case DeletePtp(id) => t.(ptps := t.ptps - {id})
    case DeleteDevice(id) =>
      // Cascades to the subtype row, whose own deletion detaches the LRs of a Rocket.
      var u := WithoutRockets(t, {id});
      Tables(u.devices - {id}, u.rockets, u.lrs - {id}, u.ptps - {id})
  }

  // ---------------------------------------------------------------- what the triggers promise

  ghost predicate Keys(t: Tables) {
    && t.rockets.Keys <= t.devices.Keys && t.lrs.Keys <= t.devices.Keys && t.ptps.Keys <= t.devices.Keys
    && (forall x :: x in t.lrs && t.lrs[x].rocket.Some? ==> t.lrs[x].rocket.value in t.rockets)
  }

  predicate Fresh(t: Tables, id: Id)
    requires id in t.devices
  {
    t.devices[id].site == Some(Resolve(t, id))
  }

  /** A subtype row exists exactly for the devices of that type. */
  ghost predicate Typed(t: Tables) {
    forall x :: x in t.devices ==> TypedRow(t, x)
  }

  predicate TypedRow(t: Tables, x: Id)
    requires x in t.devices
  {
    && (x in t.rockets <==> t.devices[x].kind.Rocket?)
    && (x in t.lrs <==> t.devices[x].kind.Lr?)
    && (x in t.ptps <==> t.devices[x].kind.PtpLitebeam?)
  }

  /** The state between transactions. */
  ghost predicate Consistent(t: Tables) {
    Keys(t) && Typed(t) && forall x :: x in t.devices ==> Fresh(t, x)
  }

  /**
   The state between statements: an LR has no site until its row of `lrs` is there; every other
   device has the right one.
   */
  ghost predicate FreshSoFar(t: Tables) {
    forall x :: x in t.devices && Claimed(t, x) ==> Fresh(t, x)
  }

  predicate Claimed(t: Tables, x: Id)
    requires x in t.devices
  {
    t.devices[x].kind.Lr? ==> x in t.lrs
  }

  /** A device that is no LR although `lrs` has a row for it. */
  predicate Stray(t: Tables, x: Id) {
    x in t.devices && !t.devices[x].kind.Lr? && x in t.lrs
  }

  /** The LRs that `lrs` puts under device `id`. */
  ghost function LrsUnder(t: Tables, id: Id): set<Id> {
    set x | x in Children(t.lrs, id) && x in t.devices && t.devices[x].kind.Lr?
  }

  ghost function StraysUnder(t: Tables, id: Id): set<Id> {
    set x | x in Children(t.lrs, id) && Stray(t, x)
  }

  /**
   Whether a statement keeps every cached site right, decided before it runs. Only two kinds of state
   can break it: a row of `lrs` for a device that is no LR, and an LR under a device that is no Rocket.
   */
  ghost predicate Harmless(t: Tables, s: Statement) {
    match s
    case SetLocation(id, location) =>
      id in t.devices ==>
        if t.devices[id].kind.Rocket?
        then forall x :: x in StraysUnder(t, id) && x != id ==> CleanSite(t.devices[x].location) == CleanSite(location)
        else forall x :: x in LrsUnder(t, id) ==> CleanSite(location) == CleanSite(t.devices[id].location)
    case SetKind(id, kind) =>
      kind.Lr? && Stray(t, id) ==> CleanSite(t.devices[id].location) == RocketSite(t.devices, t.lrs[id].rocket)
    case InsertLr(id, row) =>
      id in t.devices && !t.devices[id].kind.Lr? ==>
        CleanSite(t.devices[id].location) == RocketSite(t.devices, row.rocket)
    case AssignRocket(id, rocket) =>
      Stray(t, id) ==> CleanSite(t.devices[id].location) == RocketSite(t.devices, rocket)
    case DeleteRocket(id) =>
      id in t.rockets ==> forall x :: x in StraysUnder(t, id) ==> CleanSite(t.devices[x].location) == NO_SITE
    case DeleteDevice(id) =>
      id in t.rockets ==> forall x :: x in StraysUnder(t, id) && x != id ==> CleanSite(t.devices[x].location) == NO_SITE
    case _ => true
  }

  // ---------------------------------------------------------------- one statement

  lemma KeysKept(t: Tables, s: Statement)
    requires Keys(t) && Allowed(t, s)
    ensures Keys(Effect(t, s))
  {
  }

  /** The statement at hand keeps the cached sites right if and only if it is harmless. */
  lemma StatementKeepsSites(t: Tables, s: Statement)
    requires Keys(t) && FreshSoFar(t) && Allowed(t, s)
    ensures FreshSoFar(Effect(t, s)) <==> Harmless(t, s)
  {
    var u := Effect(t, s);
    match s
    case SetLocation(id, location) => SetLocationKeeps(t, id, location);
    case DeleteRocket(id) => DeleteRocketKeeps(t, id);
    case DeleteDevice(id) => DeleteDeviceKeeps(t, id);
    case SetKind(id, kind) => SetKindKeeps(t, id, kind);
    case InsertLr(id, row) => PlacingLrKeeps(t, id, row);
    case AssignRocket(id, rocket) =>
      if id in t.lrs {
        PlacingLrKeeps(t, id, t.lrs[id].(rocket := rocket));
      }
    case InsertDevice(id, _, _) =>
      forall x | x in t.devices && Claimed(t, x) ensures Fresh(u, x) {
        assert Fresh(t, x);
      }
    case _ =>
  }

  lemma SetKindKeeps(t: Tables, id: Id, kind: Kind)
    requires Keys(t) && FreshSoFar(t)
    ensures FreshSoFar(Effect(t, SetKind(id, kind))) <==> Harmless(t, SetKind(id, kind))
  {
    if id in t.devices {
      var u := Effect(t, SetKind(id, kind));
      forall x | x in t.devices && x != id ensures Fresh(u, x) <==> Fresh(t, x) {}
      assert Claimed(t, id) ==> Fresh(t, id);
      if kind.Lr? && id in t.lrs {
        assert Resolve(u, id) == RocketSite(t.devices, t.lrs[id].rocket);
        assert Claimed(u, id);
      }
      assert FreshSoFar(u) <==> (Claimed(u, id) ==> Fresh(u, id)) by {
        forall x | x in u.devices && x != id && Claimed(u, x) ensures Fresh(u, x) {
          assert Claimed(t, x) && Fresh(t, x);
        }
      }
    }
  }

  lemma PlacingLrKeeps(t: Tables, id: Id, row: LrRow)
    requires Keys(t) && FreshSoFar(t) && id in t.devices
    ensures var u := LrPlaced(t.(lrs := t.lrs[id := row]), id);
            FreshSoFar(u) <==>
            (!t.devices[id].kind.Lr? ==> CleanSite(t.devices[id].location) == RocketSite(t.devices, row.rocket))
  {
    var u := LrPlaced(t.(lrs := t.lrs[id := row]), id);
    forall x | x in t.devices && x != id ensures (Claimed(u, x) <==> Claimed(t, x)) && (Fresh(u, x) <==> Fresh(t, x)) {
      assert Resolve(u, x) == Resolve(t, x);
    }
    assert u.devices[id].site == Some(RocketSite(t.devices, row.rocket));
    assert FreshSoFar(u) <==> (Claimed(u, id) ==> Fresh(u, id)) by {
      forall x | x in u.devices && x != id && Claimed(u, x) ensures Fresh(u, x) {
        assert Claimed(t, x) && Fresh(t, x);
      }
    }
  }

  lemma SetLocationKeeps(t: Tables, id: Id, location: Option<string>)
    requires Keys(t) && FreshSoFar(t)
    ensures FreshSoFar(Effect(t, SetLocation(id, location))) <==> Harmless(t, SetLocation(id, location))
  {
    if id in t.devices {
      var s := SetLocation(id, location);
      var u := Effect(t, s);
      forall x | x in u.devices && Claimed(u, x) ensures Fresh(u, x) <==> !HarmedByMove(t, id, location, x) {
        assert Fresh(t, x);
      }
      assert Harmless(t, s) <==> forall x :: x in u.devices && Claimed(u, x) ==> !HarmedByMove(t, id, location, x) by {
        forall x | x in u.devices && HarmedByMove(t, id, location, x)
          ensures Claimed(u, x) && x in (if t.devices[id].kind.Rocket? then StraysUnder(t, id) else LrsUnder(t, id)) {}
        if !Harmless(t, s) {
          var x :| x in Children(t.lrs, id) && x in t.devices && HarmedByMove(t, id, location, x);
          assert Claimed(u, x);
        }
      }
    }
  }

  /** The rows a new location of device `id` leaves with the wrong site. */
  ghost predicate HarmedByMove(t: Tables, id: Id, location: Option<string>, x: Id)
    requires id in t.devices && x in t.devices
  {
    && x in Children(t.lrs, id)
    && if t.devices[id].kind.Rocket?
       then !t.devices[x].kind.Lr? && x != id && CleanSite(t.devices[x].location) != CleanSite(location)
       else t.devices[x].kind.Lr? && CleanSite(location) != CleanSite(t.devices[id].location)
  }

  lemma DeleteRocketKeeps(t: Tables, id: Id)
    requires Keys(t) && FreshSoFar(t)
    ensures FreshSoFar(Effect(t, DeleteRocket(id))) <==> Harmless(t, DeleteRocket(id))
  {
    var u := Effect(t, DeleteRocket(id));
    if id in t.rockets {
      forall x | x in t.devices && x !in Children(t.lrs, id) ensures Fresh(u, x) <==> Fresh(t, x) {}
      forall x | x in StraysUnder(t, id) ensures Fresh(u, x) <==> CleanSite(t.devices[x].location) == NO_SITE {}
    } else {
      assert u == t;
    }
  }

  lemma DeleteDeviceKeeps(t: Tables, id: Id)
    requires Keys(t) && FreshSoFar(t)
    ensures FreshSoFar(Effect(t, DeleteDevice(id))) <==> Harmless(t, DeleteDevice(id))
  {
    var u := Effect(t, DeleteDevice(id));
    if id in t.rockets {
      forall x | x in t.devices && x != id && x !in Children(t.lrs, id) ensures Fresh(u, x) <==> Fresh(t, x) {}
      forall x | x in StraysUnder(t, id) && x != id
        ensures Fresh(u, x) <==> CleanSite(t.devices[x].location) == NO_SITE {}
    } else {
      assert WithoutRockets(t, {id}).devices == t.devices;
      assert WithoutRockets(t, {id}).lrs == t.lrs;
      forall x | x in u.devices ensures Fresh(u, x) <==> Fresh(t, x) {}
    }
  }
}
