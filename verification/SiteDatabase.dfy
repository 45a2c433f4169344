/**
 The database as it is updated in place: a statement touches its rows one at a time and every touched
 row fires its triggers.
 */
module SiteDatabase {
  import opened Wrappers
  import opened SiteTriggers
  import opened SiteTransactions

  class Database {
    var devices: map<Id, Device>
    var rockets: map<Id, Creds>
    var lrs: map<Id, LrRow>
    var ptps: map<Id, Creds>

    function State(): Tables
      reads this
    {
      Tables(devices, rockets, lrs, ptps)
    }

    constructor (t: Tables)
      ensures State() == t
    {
      devices, rockets, lrs, ptps := t.devices, t.rockets, t.lrs, t.ptps;
    }

    /** `UPDATE devices SET site = s WHERE id IN ids` */
    method UpdateSite(ids: set<Id>, s: string)
      modifies this`devices
      ensures devices == WithSite(old(devices), ids, s)
    {
      var todo := ids;
      while exists x :: x in todo
        invariant todo <= ids
        invariant devices == WithSite(old(devices), ids - todo, s)
        decreases todo
      {
        var x :| x in todo;
        if x in devices {
          devices := devices[x := devices[x].(site := Some(s))];
        }
        todo := todo - {x};
      }
      assert todo == {} && ids - todo == ids;
    }

    method RocketCascadeSite(id: Id)
      requires id in devices
      modifies this`devices
      ensures State() == Cascaded(old(State()), id)
    {
      if devices[id].kind.Rocket? {
        UpdateSite(Children(lrs, id), CleanSite(devices[id].location));
      }
    }

    method LrSetSite(id: Id)
      requires id in lrs
      modifies this`devices
      ensures State() == LrPlaced(old(State()), id)
    {
      var site := None;
      if lrs[id].rocket.Some? && lrs[id].rocket.value in devices {
        site := Some(CleanSite(devices[lrs[id].rocket.value].location));
      }
      if site.None? {
        site := Some(NO_SITE);
      }
      UpdateSite({id}, site.value);
    }

    /** `DELETE FROM rockets WHERE id IN ids`: each LR left without its Rocket is updated, and fires its trigger. */
    method DeleteRockets(ids: set<Id>)
      modifies this
      ensures State() == WithoutRockets(old(State()), ids)
    {
      var orphans := set x | x in lrs && lrs[x].rocket.Some? && lrs[x].rocket.value in ids * rockets.Keys;
      rockets := rockets - ids;
      var todo := orphans;
      while exists x :: x in todo
        invariant todo <= orphans
        invariant rockets == old(rockets) - ids && ptps == old(ptps)
        invariant lrs == Detached(old(lrs), orphans - todo)
        invariant devices == WithSite(old(devices), orphans - todo, NO_SITE)
        decreases todo
      {
        var x :| x in todo;
        lrs := lrs[x := lrs[x].(rocket := None)];
        LrSetSite(x);
        todo := todo - {x};
      }
      assert todo == {} && orphans - todo == orphans;
    }

    static function Detached(rows: map<Id, LrRow>, ids: set<Id>): map<Id, LrRow> {
      map x | x in rows :: if x in ids then rows[x].(rocket := None) else rows[x]
    }

    /** `UPDATE devices SET device_type = kind WHERE id IN ids` */
    method UpdateKind(ids: set<Id>, kind: Kind)
      modifies this`devices
      ensures devices == WithKind(old(devices), ids, kind)
    {
      var todo := ids;
      while exists x :: x in todo
        invariant todo <= ids
        invariant devices == WithKind(old(devices), ids - todo, kind)
        decreases todo
      {
        var x :| x in todo;
        if x in devices {
          var row := devices[x].(kind := kind);
          if !row.kind.Lr? {
            row := row.(site := Some(CleanSite(row.location)));
          }
          devices := devices[x := row];
        }
        todo := todo - {x};
      }
      assert todo == {} && ids - todo == ids;
    }

    /** One statement. */
    method Execute(s: Statement) returns (ok: bool)
      modifies this
      ensures Exec(old(State()), s) == if ok then Some(State()) else None
      ensures !ok ==> State() == old(State())
    {
      ok := Allowed(State(), s);
      if !ok {
        return;
      }
      match s
      case InsertDevice(id, kind, location) =>
        devices := devices[id := WithOwnSite(Device(kind, location, None))];
      case SetLocation(id, location) =>
        if id in devices {
          devices := devices[id := WithOwnSite(devices[id].(location := location))];
          RocketCascadeSite(id);
        }
      case SetKind(id, kind) =>
        UpdateKind({id}, kind);
        assert devices == Effect(old(State()), s).devices;
      case InsertLr(id, row) =>
        lrs := lrs[id := row];
        LrSetSite(id);
      case AssignRocket(id, rocket) =>
        if id in lrs {
          lrs := lrs[id := lrs[id].(rocket := rocket)];
          LrSetSite(id);
        }
      case InsertRocket(id, creds) =>
        rockets := rockets[id := creds];
      case InsertPtp(id, creds) =>
        ptps := ptps[id := creds];
      case DeleteRocket(id) =>
        DeleteRockets({id});
      case DeleteLr(id) =>
        lrs := lrs - {id};
      case DeletePtp(id) =>
        ptps := ptps - {id};
      case DeleteDevice(id) =>
        // The cascades reach the subtype rows, and those of `rockets` detach their LRs.
        DeleteRockets({id});
        devices, lrs, ptps := devices - {id}, lrs - {id}, ptps - {id};
    }

    /** A transaction: every statement, or none of them. */
    method Transact(body: seq<Statement>) returns (ok: bool)
      modifies this
      ensures Run(old(State()), body) == if ok then Some(State()) else None
      ensures !ok ==> State() == old(State())
    {
      var before := State();
      var i := 0;
      ok := true;
      while i < |body|
        invariant 0 <= i <= |body|
        invariant Run(before, body) == Run(State(), body[i..])
      {
        var was := State();
        assert body[i..][1..] == body[i + 1..];
        ok := Execute(body[i]);
        if !ok {
          devices, rockets, lrs, ptps := before.devices, before.rockets, before.lrs, before.ptps;
          return;
        }
        assert Run(was, body[i..]) == Run(State(), body[i + 1..]);
        i := i + 1;
      }
    }

    /** The five statements of the migration, in its order. */
    method MigratePtp(ids: set<Id>)
      requires ids !! ptps.Keys && rockets.Keys !! lrs.Keys
      modifies this
      ensures State() == Promoted(old(State()), ids)
    {
      var fromRockets := map x | x in rockets && x in ids :: WithPort(rockets[x], 443);
      ptps := ptps + fromRockets;
      var fromLrs := map x | x in lrs && x in ids :: WithPort(lrs[x].creds, 443);
      ptps := ptps + fromLrs;
      assert ptps == old(ptps) + MovedCreds(old(State()), ids);
      DeleteRockets(ids);
      lrs := lrs - ids;
      UpdateKind(ids, PtpLitebeam);
    }
  }
}
