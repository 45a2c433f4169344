/**
 Whole transactions over the site triggers: any run of statements, the requests the application makes,
 and the migration that moved point-to-point LiteBeams to their own table.
 */
module SiteTransactions {
  import opened Wrappers
  import opened SiteTriggers

  // ---------------------------------------------------------------- any run of statements

  function Run(t: Tables, body: seq<Statement>): Option<Tables>
    decreases |body|
  {
    if body == [] then Some(t)
    else match Exec(t, body[0])
      case None => None
      case Some(u) => Run(u, body[1..])
  }

  ghost predicate AllHarmless(t: Tables, body: seq<Statement>)
    decreases |body|
  {
    body == [] ||
    (Allowed(t, body[0]) ==> Harmless(t, body[0]) && AllHarmless(Effect(t, body[0]), body[1..]))
  }

  lemma {:induction false} RunKeepsSites(t: Tables, body: seq<Statement>)
    requires Keys(t) && FreshSoFar(t) && Run(t, body).Some? && AllHarmless(t, body)
    ensures Keys(Run(t, body).value) && FreshSoFar(Run(t, body).value)
    decreases |body|
  {
    if body == [] {
    } else {
      KeysKept(t, body[0]);
      StatementKeepsSites(t, body[0]);
      RunKeepsSites(Effect(t, body[0]), body[1..]);
    }
  }

  /** A transaction of harmless statements that leaves every device with its subtype row leaves every site right. */
  lemma HarmlessTransaction(t: Tables, body: seq<Statement>)
    requires Consistent(t) && Run(t, body).Some? && AllHarmless(t, body)
    requires Typed(Run(t, body).value)
    ensures Consistent(Run(t, body).value)
  {
    RunKeepsSites(t, body);
    var u := Run(t, body).value;
    forall x | x in u.devices ensures Fresh(u, x) {
      assert TypedRow(u, x);
      assert Claimed(u, x);
    }
  }

  // ---------------------------------------------------------------- the application's requests

  datatype Request =
    | Create(id: Id, kind: Kind, location: Option<string>, rocket: Option<Id>, creds: Creds)
    | Relocate(ids: seq<Id>, location: Option<string>)  // a device, then the LRs that follow it
    | Reassign(id: Id, rocket: Option<Id>)
    | Remove(id: Id)
    | ToPtp(id: Id)
    | PtpToLr(id: Id)

  /** `COALESCE(ssh_port, port)` */
  function WithPort(c: Creds, port: int): Creds {
    if c.port.None? then c.(port := Some(port)) else c
  }

  /** The same user, password and fingerprint; the old port, or `port` where none was set. */
  predicate SameLogin(now: Creds, was: Creds, port: int) {
    && now.user == was.user && now.password == was.password && now.fingerprint == was.fingerprint
    && now.port == Some(was.port.GetOr(port))
  }

  function Moves(ids: seq<Id>, location: Option<string>): seq<Statement> {
    if ids == [] then [] else [SetLocation(ids[0], location)] + Moves(ids[1..], location)
  }

  function Body(t: Tables, r: Request): seq<Statement> {
    match r
    case Create(id, kind, location, rocket, creds) =>
      [InsertDevice(id, kind, location)] +
      (match kind
       case Rocket => [InsertRocket(id, creds)]
       case Lr => [InsertLr(id, LrRow(rocket, creds))]
       case PtpLitebeam => [InsertPtp(id, creds)]
       case Other(_) => [])
    case Relocate(ids, location) => Moves(ids, location)
    case Reassign(id, rocket) => [AssignRocket(id, rocket)]
    case Remove(id) => [DeleteDevice(id)]
    case ToPtp(id) =>
      if id in t.devices && t.devices[id].kind.Rocket? && id in t.rockets then
        [InsertPtp(id, WithPort(t.rockets[id], 443)), DeleteRocket(id), SetKind(id, PtpLitebeam)]
      else if id in t.devices && t.devices[id].kind.Lr? && id in t.lrs then
        [InsertPtp(id, WithPort(t.lrs[id].creds, 443)), DeleteLr(id), SetKind(id, PtpLitebeam)]
      else []
    case PtpToLr(id) =>
      if id in t.devices && t.devices[id].kind.PtpLitebeam? && id in t.ptps then
        [InsertLr(id, LrRow(None, WithPort(t.ptps[id], 22))), DeletePtp(id), SetKind(id, Lr)]
      else []
  }

  /** A request whose transaction fails is rolled back. */
  function Commit(t: Tables, r: Request): Tables {
    match Run(t, Body(t, r))
    case None => t
    case Some(u) => u
  }

  function Replay(t: Tables, rs: seq<Request>): Tables
    decreases |rs|
  {
    if rs == [] then t else Replay(Commit(t, rs[0]), rs[1..])
  }

  lemma {:induction false} HistoryStaysConsistent(t: Tables, rs: seq<Request>)
    requires Consistent(t)
    ensures Consistent(Replay(t, rs))
    decreases |rs|
  {
    if rs == [] {
    } else {
      CommitStaysConsistent(t, rs[0]);
      HistoryStaysConsistent(Commit(t, rs[0]), rs[1..]);
    }
  }

  lemma CommitStaysConsistent(t: Tables, r: Request)
    requires Consistent(t)
    ensures Consistent(Commit(t, r))
  {
    var body := Body(t, r);
    if Run(t, body).Some? {
      match r
      case Relocate(ids, location) => MovesStayConsistent(t, ids, location);
      case PtpToLr(id) => DemotionStaysConsistent(t, id);
      case Create(_, _, _, _, _) => CreationStaysConsistent(t, r);
      case ToPtp(id) => PromotionStaysConsistent(t, id);
      case Reassign(id, rocket) => OneStatement(t, AssignRocket(id, rocket));
      case Remove(id) => OneStatement(t, DeleteDevice(id));
    }
  }

  lemma OneStatement(t: Tables, s: Statement)
    requires Consistent(t) && Allowed(t, s)
    requires s.SetLocation? || s.AssignRocket? || s.DeleteDevice?
    ensures Run(t, [s]) == Some(Effect(t, s)) && Consistent(Effect(t, s))
  {
    var u := Effect(t, s);
    assert Run(u, []) == Some(u);
    assert [s][1..] == [];
    forall x | x in u.devices ensures TypedRow(u, x) {
      assert TypedRow(t, x);
    }
    assert AllHarmless(u, []);
    HarmlessTransaction(t, [s]);
  }

  lemma {:induction false} MovesStayConsistent(t: Tables, ids: seq<Id>, location: Option<string>)
    requires Consistent(t)
    ensures Run(t, Moves(ids, location)).Some? && Consistent(Run(t, Moves(ids, location)).value)
    decreases |ids|
  {
    if ids == [] {
    } else {
      var s := SetLocation(ids[0], location);
      OneStatement(t, s);
      assert Moves(ids, location)[1..] == Moves(ids[1..], location);
      MovesStayConsistent(Effect(t, s), ids[1..], location);
    }
  }

  lemma CreationStaysConsistent(t: Tables, r: Request)
    requires Consistent(t) && r.Create? && Run(t, Body(t, r)).Some?
    ensures Consistent(Run(t, Body(t, r)).value)
  {
    var body := Body(t, r);
    var u := Effect(t, body[0]);
    assert |body| <= 2 && (|body| == 2 ==> body[1..] == [body[1]]);
    var v := if |body| == 2 then Effect(u, body[1]) else u;
    assert Run(t, body) == Some(v) by {
      assert Run(v, []) == Some(v);
      if |body| == 2 {
        assert body[1..][1..] == [];
        assert Run(u, body[1..]) == Some(v);
      } else {
        assert body[1..] == [];
      }
    }
    assert AllHarmless(t, body) by {
      assert AllHarmless(v, []);
      if |body| == 2 {
        assert body[1..][1..] == [];
        assert AllHarmless(u, body[1..]);
      } else {
        assert body[1..] == [];
      }
    }
    forall x | x in v.devices ensures TypedRow(v, x) {
      if x != r.id {
        assert TypedRow(t, x);
      }
    }
    HarmlessTransaction(t, body);
  }

  lemma RunOfThree(t: Tables, a: Statement, b: Statement, c: Statement)
    requires Run(t, [a, b, c]).Some?
    ensures Allowed(t, a) && Allowed(Effect(t, a), b) && Allowed(Effect(Effect(t, a), b), c)
    ensures Run(t, [a, b, c]).value == Effect(Effect(Effect(t, a), b), c)
  {
    assert [a, b, c][1..] == [b, c] && [b, c][1..] == [c] && [c][1..] == [];
    assert Run(t, [a, b, c]) == Run(Effect(t, a), [b, c]);
    assert Run(Effect(t, a), [b, c]) == Run(Effect(Effect(t, a), b), [c]);
    var w := Effect(Effect(t, a), b);
    assert Run(w, [c]) == Run(Effect(w, c), []);
  }

  /** One request to promote is the migration for one device. */
  lemma PromotionStaysConsistent(t: Tables, id: Id)
    requires Consistent(t) && Run(t, Body(t, ToPtp(id))).Some?
    ensures Run(t, Body(t, ToPtp(id))).value == if Body(t, ToPtp(id)) == [] then t else Promoted(t, {id})
    ensures Consistent(Run(t, Body(t, ToPtp(id))).value)
  {
    var body := Body(t, ToPtp(id));
    if body != [] {
      assert TypedRow(t, id);
      RunOfThree(t, body[0], body[1], body[2]);
      assert body == [body[0], body[1], body[2]];
      if t.devices[id].kind.Rocket? {
        PromotedRocket(t, id);
      } else {
        PromotedLr(t, id);
      }
      PromotedConsistent(t, {id});
    }
  }

  lemma PromotedRocket(t: Tables, id: Id)
    requires Keys(t) && id in t.rockets && id !in t.lrs
    ensures var w := WithoutRockets(t.(ptps := t.ptps[id := WithPort(t.rockets[id], 443)]), {id});
            Effect(w, SetKind(id, PtpLitebeam)) == Promoted(t, {id})
  {
    assert t.ptps + MovedCreds(t, {id}) == t.ptps[id := WithPort(t.rockets[id], 443)];
    var w := WithoutRockets(t.(ptps := t.ptps[id := WithPort(t.rockets[id], 443)]), {id});
    assert w.lrs - {id} == w.lrs;
    assert WithKind(w.devices, {id}, PtpLitebeam) ==
           w.devices[id := WithOwnSite(w.devices[id].(kind := PtpLitebeam))];
  }

  lemma PromotedLr(t: Tables, id: Id)
    requires Keys(t) && id in t.lrs && id !in t.rockets
    ensures var w := t.(ptps := t.ptps[id := WithPort(t.lrs[id].creds, 443)], lrs := t.lrs - {id});
            Effect(w, SetKind(id, PtpLitebeam)) == Promoted(t, {id})
  {
    assert t.ptps + MovedCreds(t, {id}) == t.ptps[id := WithPort(t.lrs[id].creds, 443)];
    assert WithKind(t.devices, {id}, PtpLitebeam) ==
           t.devices[id := WithOwnSite(t.devices[id].(kind := PtpLitebeam))];
  }

  lemma DemotionStaysConsistent(t: Tables, id: Id)
    requires Consistent(t) && Run(t, Body(t, PtpToLr(id))).Some?
    ensures Consistent(Run(t, Body(t, PtpToLr(id))).value)
  {
    var body := Body(t, PtpToLr(id));
    if body != [] {
      RunOfThree(t, body[0], body[1], body[2]);
      assert body == [body[0], body[1], body[2]];
      var v := Run(t, body).value;
      forall x | x in v.devices ensures TypedRow(v, x) && Fresh(v, x) {
        assert TypedRow(t, x) && Fresh(t, x);
      }
    }
  }

  // ---------------------------------------------------------------- the migration

  /** The rows the two INSERT … SELECT statements put in `ptp_litebeams`. */
  function MovedCreds(t: Tables, ids: set<Id>): map<Id, Creds> {
    (map x | x in t.rockets && x in ids :: WithPort(t.rockets[x], 443)) +
    (map x | x in t.lrs && x in ids :: WithPort(t.lrs[x].creds, 443))
  }

  /** `UPDATE devices SET device_type = kind WHERE id IN ids`, with the trigger on each row. */
  function WithKind(devices: map<Id, Device>, ids: set<Id>, kind: Kind): map<Id, Device> {
    map x | x in devices :: if x in ids then WithOwnSite(devices[x].(kind := kind)) else devices[x]
  }

  /** The five statements one after the other: two inserts, two deletes, one update. */
  function Promoted(t: Tables, ids: set<Id>): Tables {
    var u := WithoutRockets(t.(ptps := t.ptps + MovedCreds(t, ids)), ids);
    u.(lrs := u.lrs - ids, devices := WithKind(u.devices, ids, PtpLitebeam))
  }

  predicate UnderMoved(t: Tables, ids: set<Id>, x: Id) {
    x in t.lrs && t.lrs[x].rocket.Some? && t.lrs[x].rocket.value in ids
  }

  /** What the migration leaves of device `x`: moved, left without a Rocket, or untouched. */
  ghost predicate MovedRight(t: Tables, u: Tables, ids: set<Id>, x: Id)
    requires x in t.devices
  {
    && x in u.devices
    && if x in ids then
         && x !in u.rockets && x !in u.lrs
         && u.devices[x] == Device(PtpLitebeam, t.devices[x].location, Some(CleanSite(t.devices[x].location)))
         && (x in t.rockets ==> x in u.ptps && SameLogin(u.ptps[x], t.rockets[x], 443))
         && (x in t.lrs ==> x in u.ptps && SameLogin(u.ptps[x], t.lrs[x].creds, 443))
         && (x !in t.rockets && x !in t.lrs ==> x !in u.ptps)
       else
         && (x in u.ptps <==> x in t.ptps) && (x in t.ptps ==> u.ptps[x] == t.ptps[x])
         && (x in u.rockets <==> x in t.rockets) && (x in t.rockets ==> u.rockets[x] == t.rockets[x])
         && (x in u.lrs <==> x in t.lrs)
         && (UnderMoved(t, ids, x) ==>
               && u.lrs[x] == LrRow(None, t.lrs[x].creds)
               && u.devices[x] == t.devices[x].(site := Some(NO_SITE)))
         && (!UnderMoved(t, ids, x) ==> u.devices[x] == t.devices[x] && (x in t.lrs ==> u.lrs[x] == t.lrs[x]))
  }

  lemma PromotionMovesRow(t: Tables, ids: set<Id>, x: Id)
    requires Consistent(t) && ids <= t.devices.Keys && ids !! t.ptps.Keys && x in t.devices
    ensures MovedRight(t, Promoted(t, ids), ids, x)
  {
    assert TypedRow(t, x);
    var moved := MovedCreds(t, ids);
    assert x in moved <==> x in ids && (x in t.rockets || x in t.lrs);
    var w := t.(ptps := t.ptps + moved);
    var u := WithoutRockets(w, ids);
    assert x in t.lrs && t.lrs[x].rocket.Some? ==> t.lrs[x].rocket.value in t.rockets;
    assert u.devices[x] == if UnderMoved(t, ids, x) then t.devices[x].(site := Some(NO_SITE)) else t.devices[x];
    assert x in t.lrs ==> u.lrs[x] == if UnderMoved(t, ids, x) then LrRow(None, t.lrs[x].creds) else t.lrs[x];
  }

  /** The database is consistent after the migration exactly when it selected Rockets and LRs only. */
  lemma PromotedConsistent(t: Tables, ids: set<Id>)
    requires Consistent(t) && ids <= t.devices.Keys && ids !! t.ptps.Keys
    ensures Consistent(Promoted(t, ids)) <==>
            forall x :: x in ids ==> t.devices[x].kind.Rocket? || t.devices[x].kind.Lr?
  {
    var u := Promoted(t, ids);
    assert u.devices.Keys == t.devices.Keys;
    forall x | x in t.devices
      ensures TypedRow(u, x) <==> (x in ids ==> t.devices[x].kind.Rocket? || t.devices[x].kind.Lr?)
      ensures Fresh(u, x)
    {
      PromotedRow(t, u, ids, x);
    }
    assert Keys(u);
  }

  lemma PromotedRow(t: Tables, u: Tables, ids: set<Id>, x: Id)
    requires Consistent(t) && ids <= t.devices.Keys && ids !! t.ptps.Keys && u == Promoted(t, ids)
    requires x in t.devices
    ensures x in u.devices && Fresh(u, x)
    ensures TypedRow(u, x) <==> (x in ids ==> t.devices[x].kind.Rocket? || t.devices[x].kind.Lr?)
  {
    assert TypedRow(t, x) && Fresh(t, x);
    PromotionMovesRow(t, ids, x);
    if x in t.lrs && t.lrs[x].rocket.Some? {
      PromotionMovesRow(t, ids, t.lrs[x].rocket.value);
    }
  }

  /** A radio promoted and demoted again keeps its credentials and ends without a Rocket or a site. */
  lemma DemotionUndoesPromotion(t: Tables, id: Id)
    requires Consistent(t) && id in t.lrs && id !in t.ptps
    ensures var u := Commit(t, ToPtp(id));
            var v := Commit(u, PtpToLr(id));
            && v.rockets == t.rockets && v.ptps == t.ptps
            && v.lrs.Keys == t.lrs.Keys && (forall x :: x in t.lrs && x != id ==> v.lrs[x] == t.lrs[x])
            && v.lrs[id].rocket == None && SameLogin(v.lrs[id].creds, t.lrs[id].creds, 443)
            && v.devices == t.devices[id := t.devices[id].(site := Some(NO_SITE))]
  {
    assert TypedRow(t, id);
    var creds := t.lrs[id].creds;
    var a := [InsertPtp(id, WithPort(creds, 443)), DeleteLr(id), SetKind(id, PtpLitebeam)];
    RunThree(t, a[0], a[1], a[2]);
    var u := Commit(t, ToPtp(id));
    var b := [InsertLr(id, LrRow(None, WithPort(u.ptps[id], 22))), DeletePtp(id), SetKind(id, Lr)];
    RunThree(u, b[0], b[1], b[2]);
  }

  lemma RunThree(t: Tables, a: Statement, b: Statement, c: Statement)
    requires Allowed(t, a) && Allowed(Effect(t, a), b) && Allowed(Effect(Effect(t, a), b), c)
    ensures Run(t, [a, b, c]) == Some(Effect(Effect(Effect(t, a), b), c))
  {
    assert [a, b, c][1..] == [b, c] && [b, c][1..] == [c] && [c][1..] == [];
    var w := Effect(Effect(t, a), b);
    assert Run(w, [c]) == Run(Effect(w, c), []);
    assert Run(Effect(t, a), [b, c]) == Run(w, [c]);
  }

  // ---------------------------------------------------------------- the backfill

  /** `UPDATE devices SET site = fn_resolve_site(id)` */
  function Backfilled(t: Tables): Tables {
    t.(devices := map x | x in t.devices :: t.devices[x].(site := Some(Resolve(t, x))))
  }

  lemma BackfillMakesConsistent(t: Tables)
    requires Keys(t)
    ensures Consistent(Backfilled(t)) <==> Typed(t)
    ensures forall x :: x in t.devices ==> Fresh(Backfilled(t), x)
  {
    var u := Backfilled(t);
    forall x | x in t.devices ensures Fresh(u, x) && (TypedRow(u, x) <==> TypedRow(t, x)) {}
  }
}
