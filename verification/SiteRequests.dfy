/**
 What the requests on devices are for, column by column, and what a site means: the statements, triggers
 and transactions of `SiteTriggers` and `SiteTransactions` compared with what they should leave.
 */
module SiteRequests {
  import opened Wrappers
  import opened SiteTriggers
  import opened SiteTransactions

  // ---------------------------------------------------------------- sites

  predicate Blank(s: string) {
    forall i :: 0 <= i < |s| ==> s[i] == ' '
  }

  /** `t` is `s` without the spaces around it. */
  ghost predicate Stripped(s: string, t: string) {
    && (exists a, b :: Between(s, a, t, b))
    && (t != "" ==> t[0] != ' ' && t[|t| - 1] != ' ')
  }

  predicate Between(s: string, a: string, t: string, b: string) {
    Blank(a) && Blank(b) && s == a + t + b
  }

  lemma {:induction false} TrimStrips(s: string) returns (a: string, b: string)
    ensures Between(s, a, Trim(s), b)
    ensures Trim(s) != "" ==> Trim(s)[0] != ' ' && Trim(s)[|Trim(s)| - 1] != ' '
    decreases |s|
  {
    a, b := "", "";
    if s == "" {
    } else if s[0] == ' ' {
      a, b := TrimStrips(s[1..]);
      a := [' '] + a;
      assert s == [s[0]] + s[1..];
    } else if s[|s| - 1] == ' ' {
      var front := s[..|s| - 1];
      a, b := TrimStrips(front);
      b := b + [' '];
      assert s == front + [' '];
    }
  }

  /** The site of a location: the location without the spaces around it, if anything is left. */
  ghost predicate SiteOfLocation(location: Option<string>, site: string) {
    if location.None? || Blank(location.value) then site == "Sans site" else Stripped(location.value, site)
  }

  lemma CleanSiteIs(location: Option<string>)
    ensures SiteOfLocation(location, CleanSite(location))
  {
    if location.Some? {
      var t := Trim(location.value);
      var a, b := TrimStrips(location.value);
      if t == "" {
        assert forall i :: 0 <= i < |location.value| ==>
                             location.value[i] == if i < |a| then a[i] else b[i - |a|];
      } else {
        assert location.value[|a|] == t[0];
      }
    }
  }

  /** In a consistent database an LR has the site of its Rocket's location, any other device that of its own. */
  lemma SitesMean(t: Tables, x: Id)
    requires Consistent(t) && x in t.devices
    ensures var d := t.devices[x];
            && d.site.Some?
            && (!d.kind.Lr? ==> SiteOfLocation(d.location, d.site.value))
            && (d.kind.Lr? ==>
                  && x in t.lrs
                  && match t.lrs[x].rocket
                     case None => d.site.value == "Sans site"
                     case Some(r) => r in t.devices && SiteOfLocation(t.devices[r].location, d.site.value))
  {
    assert TypedRow(t, x) && Fresh(t, x);
    CleanSiteIs(t.devices[x].location);
    if x in t.lrs && t.lrs[x].rocket.Some? {
      CleanSiteIs(t.devices[t.lrs[x].rocket.value].location);
    }
  }

  // ---------------------------------------------------------------- requests

  /** Type and location of every device are as before; the site is left to `SitesMean`. */
  ghost predicate SameDevices(t: Tables, v: Tables, but: set<Id>) {
    forall x :: x in t.devices && x !in but ==> SameDevice(t, v, x)
  }

  predicate SameDevice(t: Tables, v: Tables, x: Id)
    requires x in t.devices
  {
    x in v.devices && v.devices[x].kind == t.devices[x].kind && v.devices[x].location == t.devices[x].location
  }

  predicate Is(v: Tables, id: Id, kind: Kind, location: Option<string>) {
    id in v.devices && v.devices[id].kind == kind && v.devices[id].location == location
  }

  /** The rows of `lrs` but that of `id`, those under `id` without a Rocket. */
  ghost predicate DetachedFrom(t: Tables, v: Tables, id: Id) {
    && v.lrs.Keys == t.lrs.Keys - {id}
    && forall x :: x in v.lrs ==>
         v.lrs[x] == LrRow(if t.lrs[x].rocket == Some(id) then None else t.lrs[x].rocket, t.lrs[x].creds)
  }

  /** What a request should leave, sites aside. A request that cannot be met leaves everything as it was. */
  ghost predicate Outcome(t: Tables, r: Request, v: Tables) {
    match r
    case Create(id, kind, location, rocket, creds) =>
      if id in t.devices || (kind.Lr? && rocket.Some? && rocket.value !in t.rockets) then v == t
      else
        && v.devices.Keys == t.devices.Keys + {id} && Is(v, id, kind, location) && SameDevices(t, v, {})
        && v.rockets == (if kind.Rocket? then t.rockets[id := creds] else t.rockets)
        && v.lrs == (if kind.Lr? then t.lrs[id := LrRow(rocket, creds)] else t.lrs)
        && v.ptps == (if kind.PtpLitebeam? then t.ptps[id := creds] else t.ptps)
    case Relocate(ids, location) =>
      && v.devices.Keys == t.devices.Keys && v.rockets == t.rockets && v.lrs == t.lrs && v.ptps == t.ptps
      && (forall x :: x in t.devices && x in ids ==> Is(v, x, t.devices[x].kind, location))
      && (forall x :: x in t.devices && x !in ids ==> SameDevice(t, v, x))
    case Reassign(id, rocket) =>
      if id !in t.lrs || (rocket.Some? && rocket.value !in t.rockets) then v == t
      else
        && v.devices.Keys == t.devices.Keys && SameDevices(t, v, {}) && v.rockets == t.rockets && v.ptps == t.ptps
        && v.lrs == t.lrs[id := LrRow(rocket, t.lrs[id].creds)]
    case Remove(id) =>
      && v.devices.Keys == t.devices.Keys - {id} && SameDevices(t, v, {id})
      && v.rockets == t.rockets - {id} && v.ptps == t.ptps - {id} && DetachedFrom(t, v, id)
    case ToPtp(id) =>
      if id in t.rockets || id in t.lrs then
        && v.devices.Keys == t.devices.Keys && SameDevices(t, v, {id})
        && id in t.devices && Is(v, id, PtpLitebeam, t.devices[id].location)
        && v.rockets == t.rockets - {id} && DetachedFrom(t, v, id)
        && v.ptps.Keys == t.ptps.Keys + {id} && v.ptps - {id} == t.ptps - {id}
        && SameLogin(v.ptps[id], if id in t.rockets then t.rockets[id] else t.lrs[id].creds, 443)
      else v == t
    case PtpToLr(id) =>
      if id in t.ptps then
        && v.devices.Keys == t.devices.Keys && SameDevices(t, v, {id})
        && id in t.devices && Is(v, id, Lr, t.devices[id].location)
        && v.rockets == t.rockets && v.ptps == t.ptps - {id}
        && v.lrs.Keys == t.lrs.Keys + {id} && v.lrs - {id} == t.lrs - {id}
        && v.lrs[id].rocket == None && SameLogin(v.lrs[id].creds, t.ptps[id], 22)
      else v == t
  }

  lemma RunOne(t: Tables, a: Statement)
    ensures Run(t, [a]) == if Allowed(t, a) then Some(Effect(t, a)) else None
  {
    assert [a][1..] == [];
    if Allowed(t, a) {
      assert Run(Effect(t, a), []) == Some(Effect(t, a));
    }
  }

  lemma RunTwo(t: Tables, a: Statement, b: Statement)
    ensures Run(t, [a, b]) ==
            if Allowed(t, a) && Allowed(Effect(t, a), b) then Some(Effect(Effect(t, a), b)) else None
  {
    assert [a, b][1..] == [b];
    if Allowed(t, a) {
      RunOne(Effect(t, a), b);
    }
  }

  lemma CreateOutcome(t: Tables, r: Request)
    requires Consistent(t) && r.Create?
    ensures Outcome(t, r, Commit(t, r))
  {
    var body := Body(t, r);
    if |body| == 1 {
      RunOne(t, body[0]);
      assert body == [body[0]];
    } else {
      RunTwo(t, body[0], body[1]);
      assert body == [body[0], body[1]];
    }
  }

  lemma SetLocationOutcome(t: Tables, id: Id, location: Option<string>)
    ensures var v := Effect(t, SetLocation(id, location));
            && v.devices.Keys == t.devices.Keys && v.rockets == t.rockets && v.lrs == t.lrs && v.ptps == t.ptps
            && (id in t.devices ==> Is(v, id, t.devices[id].kind, location))
            && SameDevices(t, v, {id})
  {
  }

  lemma {:induction false} RelocateOutcome(t: Tables, ids: seq<Id>, location: Option<string>)
    ensures Run(t, Moves(ids, location)).Some?
    ensures Outcome(t, Relocate(ids, location), Run(t, Moves(ids, location)).value)
    decreases |ids|
  {
    if ids == [] {
    } else {
      var u := Effect(t, SetLocation(ids[0], location));
      SetLocationOutcome(t, ids[0], location);
      assert Moves(ids, location)[1..] == Moves(ids[1..], location);
      RelocateOutcome(u, ids[1..], location);
      assert ids == [ids[0]] + ids[1..];
    }
  }

  lemma OneStepOutcome(t: Tables, r: Request)
    requires Consistent(t) && (r.Reassign? || r.Remove?)
    ensures Outcome(t, r, Commit(t, r))
  {
    RunOne(t, Body(t, r)[0]);
  }

  lemma RocketToPtp(t: Tables, id: Id)
    requires Consistent(t) && id in t.rockets
    ensures Outcome(t, ToPtp(id), Commit(t, ToPtp(id)))
  {
    assert TypedRow(t, id);
    RunThree(t, InsertPtp(id, WithPort(t.rockets[id], 443)), DeleteRocket(id), SetKind(id, PtpLitebeam));
  }

  lemma LrToPtp(t: Tables, id: Id)
    requires Consistent(t) && id in t.lrs
    ensures Outcome(t, ToPtp(id), Commit(t, ToPtp(id)))
  {
    assert TypedRow(t, id);
    RunThree(t, InsertPtp(id, WithPort(t.lrs[id].creds, 443)), DeleteLr(id), SetKind(id, PtpLitebeam));
  }

  lemma ToPtpOutcome(t: Tables, id: Id)
    requires Consistent(t)
    ensures Outcome(t, ToPtp(id), Commit(t, ToPtp(id)))
  {
    if id in t.rockets {
      RocketToPtp(t, id);
    } else if id in t.lrs {
      LrToPtp(t, id);
    } else {
      assert Body(t, ToPtp(id)) == [];
    }
  }

  lemma PtpToLrOutcome(t: Tables, id: Id)
    requires Consistent(t)
    ensures Outcome(t, PtpToLr(id), Commit(t, PtpToLr(id)))
  {
    if id in t.devices {
      assert TypedRow(t, id);
    }
    if Body(t, PtpToLr(id)) != [] {
      RunThree(t, InsertLr(id, LrRow(None, WithPort(t.ptps[id], 22))), DeletePtp(id), SetKind(id, Lr));
    }
  }

  /** Every request leaves what it should, and a consistent database. */
  lemma RequestsDoWhatTheyShould(t: Tables, r: Request)
    requires Consistent(t)
    ensures Outcome(t, r, Commit(t, r)) && Consistent(Commit(t, r))
  {
    CommitStaysConsistent(t, r);
    match r
    case Create(_, _, _, _, _) => CreateOutcome(t, r);
    case Relocate(ids, location) => RelocateOutcome(t, ids, location);
    case Reassign(_, _) => OneStepOutcome(t, r);
    case Remove(_) => OneStepOutcome(t, r);
    case ToPtp(id) => ToPtpOutcome(t, id);
    case PtpToLr(id) => PtpToLrOutcome(t, id);
  }
}
