/**
 The batch scripts over many clients: `mark_router_blocked`, `block_out_of_supervision` and
 `unblock_clients`, as they update the database and the router in place.
 */
module BlockScripts {
  import opened Wrappers
  import opened RouterBlock

  type Mac = string

  /** The columns the scripts touch; the times are those of the run. */
  datatype Lr = Lr(row: Row, blockedAt: Option<int>, reason: Option<string>, onRouterAt: Option<int>, toUnblock: bool)

  datatype Net = Net(lrs: map<Mac, Lr>, router: map<Mac, seq<Rule>>)

  function Rules(router: map<Mac, seq<Rule>>, mac: Mac): seq<Rule> {
    if mac in router then router[mac] else []
  }

  /** One client as both sides see it. */
  function View(net: Net, mac: Mac): (Option<Lr>, seq<Rule>) {
    (if mac in net.lrs then Some(net.lrs[mac]) else None, Rules(net.router, mac))
  }

  /** Both scripts that block write this. */
  function Marked(lr: Lr, reason: string, now: int): Lr {
    Lr(lr.row.(blocked := true, onRouter := true),
       if lr.row.blocked then lr.blockedAt else Some(now), Some(reason), Some(now), lr.toUnblock)
  }

  /**
   The row says that the client is blocked and cut on the router: the order keeps the time it had, the reason and the
   time of the cut are new, and what concerns the radio is as before.
   */
  predicate SaysCut(lr: Lr, was: Lr, reason: string, now: int) {
    && lr.row.blocked && lr.row.onRouter && lr.row.enforced == was.row.enforced
    && lr.row.abandoned == was.row.abandoned && lr.toUnblock == was.toUnblock
    && (was.row.blocked ==> lr.blockedAt == was.blockedAt) && (!was.row.blocked ==> lr.blockedAt == Some(now))
    && lr.reason == Some(reason) && lr.onRouterAt == Some(now)
  }

  // ---------------------------------------------------------------- mark_router_blocked

  /** `refused` are the MACs whose block request the router refuses during the run. */
  datatype Options = Options(reason: string, dryRun: bool, postMissing: bool, refused: set<Mac>, now: int)

  datatype Outcome = Written | Skipped | Missing | Unknown | Invalid

  /** One MAC of the list, `None` when it does not parse; `listed` is the router as listed at the start. */
  function MarkOne(net: Net, listed: map<Mac, seq<Rule>>, value: Option<Mac>, o: Options): (Net, Outcome) {
    if value.None? then (net, Invalid)
    else if value.value !in net.lrs then (net, Unknown)
    else
      var mac := value.value;
      var seen := Listing(Rules(listed, mac));
      if seen.None? && (!o.postMissing || (!o.dryRun && mac in o.refused)) then (net, Missing)
      else if seen.Some? && !seen.value.enabled then (net, Missing)
      else
        var asked := if seen.None? && !o.dryRun
                     then net.(router := net.router[mac := WithRule(Rules(net.router, mac))]) else net;
        if net.lrs[mac].row.blocked && net.lrs[mac].row.onRouter then (asked, Skipped)
        else if o.dryRun then (asked, Written)
        else (asked.(lrs := net.lrs[mac := Marked(net.lrs[mac], o.reason, o.now)]), Written)
  }

  function MarkAll(net: Net, listed: map<Mac, seq<Rule>>, values: seq<Option<Mac>>, o: Options)
    : (r: (Net, seq<Outcome>))
    ensures |r.1| == |values|
  {
    if values == [] then (net, [])
    else
      var before := MarkAll(net, listed, values[..|values| - 1], o);
      var last := MarkOne(before.0, listed, values[|values| - 1], o);
      (last.0, before.1 + [last.1])
  }

  /** What a MAC already handled once gives when it comes again. */
  function Again(outcome: Outcome, o: Options): Outcome {
    if outcome.Written? && !o.dryRun then Skipped else outcome
  }

  lemma MarkOneIsLocal(net: Net, other: Net, listed: map<Mac, seq<Rule>>, value: Option<Mac>, o: Options)
    requires value.Some? ==> View(net, value.value) == View(other, value.value)
    ensures MarkOne(net, listed, value, o).1 == MarkOne(other, listed, value, o).1
    ensures value.Some? ==>
              View(MarkOne(net, listed, value, o).0, value.value) ==
              View(MarkOne(other, listed, value, o).0, value.value)
    ensures forall mac :: value != Some(mac) ==> View(MarkOne(net, listed, value, o).0, mac) == View(net, mac)
  {
  }

  /** The same MAC again finds everything done. */
  lemma MarkOneTwice(net: Net, listed: map<Mac, seq<Rule>>, mac: Mac, o: Options)
    ensures var once := MarkOne(net, listed, Some(mac), o).0;
            View(MarkOne(once, listed, Some(mac), o).0, mac) == View(once, mac)
  {
  }

  /** What a run does to a client is what its first mention does. */
  lemma {:induction false} MarkAllByClient(
    net: Net, listed: map<Mac, seq<Rule>>, values: seq<Option<Mac>>, o: Options, mac: Mac)
    ensures var end := MarkAll(net, listed, values, o).0;
            View(end, mac) ==
            View(if Some(mac) in values then MarkOne(net, listed, Some(mac), o).0 else net, mac)
  {
    if values == [] {
    } else {
      var n := |values| - 1;
      MarkAllByClient(net, listed, values[..n], o, mac);
      var before := MarkAll(net, listed, values[..n], o).0;
      assert values == values[..n] + [values[n]];
      if values[n] == Some(mac) {
        var same := if Some(mac) in values[..n] then MarkOne(net, listed, Some(mac), o).0 else net;
        MarkOneIsLocal(before, same, listed, Some(mac), o);
        MarkOneTwice(net, listed, mac, o);
      } else {
        MarkOneIsLocal(before, before, listed, values[n], o);
      }
    }
  }

  lemma {:induction false} OutcomesByClient(
    net: Net, listed: map<Mac, seq<Rule>>, values: seq<Option<Mac>>, o: Options, i: nat)
    requires i < |values|
    ensures var first := MarkOne(net, listed, values[i], o).1;
            MarkAll(net, listed, values, o).1[i] == if values[i] in values[..i] then Again(first, o) else first
    decreases |values|
  {
    var n := |values| - 1;
    if i < n {
      OutcomesByClient(net, listed, values[..n], o, i);
      assert values[..n][..i] == values[..i];
    } else if values[i].Some? {
      var mac := values[i].value;
      var before := MarkAll(net, listed, values[..n], o).0;
      MarkAllByClient(net, listed, values[..n], o, mac);
      if Some(mac) in values[..n] {
        MarkOneIsLocal(before, MarkOne(net, listed, Some(mac), o).0, listed, Some(mac), o);
      } else {
        MarkOneIsLocal(before, net, listed, Some(mac), o);
      }
    }
  }

  /** A client ends marked with a rule that cuts, unless foreign rules of its MAC cut nobody. */
  lemma MarkedClientsAreCut(net: Net, values: seq<Option<Mac>>, o: Options, i: nat)
    requires !o.dryRun && i < |values|
    requires MarkAll(net, net.router, values, o).1[i].Written?
    ensures values[i].Some?
    ensures var end := MarkAll(net, net.router, values, o).0;
            var mac := values[i].value;
            && mac in net.lrs && mac in end.lrs
            && SaysCut(end.lrs[mac], net.lrs[mac], o.reason, o.now)
            && (Cuts(Rules(end.router, mac)) <==> Rules(net.router, mac) == [] || Cuts(Rules(net.router, mac)))
  {
    OutcomesByClient(net, net.router, values, o, i);
    if values[i].Some? {
      MarkAllByClient(net, net.router, values, o, values[i].value);
      EnabledListingCuts(Rules(net.router, values[i].value));
    }
  }

  /** The script takes the listing for a cut: an enabled forward rule, or none and one asked for and granted. */
  predicate TakenForCut(seen: Option<Rule>, mac: Mac, o: Options) {
    if seen.Some? then seen.value.enabled else o.postMissing && mac !in o.refused
  }

  /**
   What a run leaves of each row: marked exactly if its MAC is listed, taken for cut and not up to date.
   With `--post-missing` that includes a client whose only rules are off the forward chain and cut nobody.
   */
  lemma RowsAfterMarking(net: Net, values: seq<Option<Mac>>, o: Options, mac: Mac)
    requires !o.dryRun
    ensures var end := MarkAll(net, net.router, values, o).0;
            && (mac in end.lrs <==> mac in net.lrs)
            && (mac in net.lrs ==>
                  var lr := net.lrs[mac];
                  var writes := && Some(mac) in values && !(lr.row.blocked && lr.row.onRouter)
                                && TakenForCut(Listing(Rules(net.router, mac)), mac, o);
                  if writes then SaysCut(end.lrs[mac], lr, o.reason, o.now) else end.lrs[mac] == lr)
  {
    MarkAllByClient(net, net.router, values, o, mac);
    var end := MarkAll(net, net.router, values, o).0;
    var once := if Some(mac) in values then MarkOne(net, net.router, Some(mac), o).0 else net;
    assert View(end, mac).0 == View(once, mac).0;
  }

  /**
   How one MAC is reported, and what is done on the router: `Missing` when its rule is disabled or when there is none
   and none may be added or is granted, `Skipped` when the row already says what is found. A rule is added only
   where none is listed, whether or not the row is written then.
   */
  lemma MarkFilings(net: Net, mac: Mac, o: Options)
    ensures var (end, outcome) := MarkOne(net, net.router, Some(mac), o);
            var seen := Listing(Rules(net.router, mac));
            var done := mac in net.lrs && net.lrs[mac].row.blocked && net.lrs[mac].row.onRouter;
            var cut := if seen.Some? then seen.value.enabled else o.postMissing && (o.dryRun || mac !in o.refused);
            && (outcome.Unknown? <==> mac !in net.lrs)
            && (outcome.Missing? <==> mac in net.lrs && !cut)
            && (outcome.Skipped? <==> mac in net.lrs && cut && done)
            && (outcome.Written? <==> mac in net.lrs && cut && !done)
            && (outcome.Written? && !o.dryRun ==>
                  mac in end.lrs && SaysCut(end.lrs[mac], net.lrs[mac], o.reason, o.now))
            && (!outcome.Written? || o.dryRun ==> end.lrs == net.lrs)
            && (Rules(end.router, mac) != Rules(net.router, mac) ==>
                  !o.dryRun && Rules(net.router, mac) == [] && Rules(end.router, mac) == [CUTTING])
            && (outcome.Written? && !o.dryRun && Rules(net.router, mac) == [] ==> Rules(end.router, mac) == [CUTTING])
            && MarkOne(net, net.router, None, o) == (net, Invalid)
  {
  }

  /** The router would refuse a rule that the dry run counts on. */
  predicate RefusalAhead(net: Net, value: Option<Mac>, o: Options) {
    && value.Some? && value.value in net.lrs && o.postMissing
    && Listing(Rules(net.router, value.value)).None? && value.value in o.refused
  }

  /** A MAC that comes again, in any spelling, after the dry run has said it would be marked. */
  predicate MarkedBefore(net: Net, values: seq<Option<Mac>>, o: Options, i: nat)
    requires i < |values|
  {
    values[i] in values[..i] && MarkOne(net, net.router, values[i], o.(dryRun := true)).1.Written?
  }

  lemma DryRunForetellsLine(net: Net, values: seq<Option<Mac>>, o: Options, i: nat)
    requires i < |values|
    ensures MarkAll(net, net.router, values, o.(dryRun := true)).1[i] ==
            MarkAll(net, net.router, values, o.(dryRun := false)).1[i]
            <==> !RefusalAhead(net, values[i], o) && !MarkedBefore(net, values, o, i)
  {
    OutcomesByClient(net, net.router, values, o.(dryRun := true), i);
    OutcomesByClient(net, net.router, values, o.(dryRun := false), i);
  }

  /**
   A dry run changes nothing, and foretells every line of the real run exactly when the router refuses no
   rule it counts on and no MAC it would mark comes again.
   */
  lemma DryRunForetells(net: Net, values: seq<Option<Mac>>, o: Options)
    ensures MarkAll(net, net.router, values, o.(dryRun := true)).0 == net
    ensures MarkAll(net, net.router, values, o.(dryRun := true)).1 ==
            MarkAll(net, net.router, values, o.(dryRun := false)).1
            <==> forall i :: 0 <= i < |values| ==> !RefusalAhead(net, values[i], o) && !MarkedBefore(net, values, o, i)
  {
    DryRunChangesNothing(net, values, o.(dryRun := true));
    var dry := MarkAll(net, net.router, values, o.(dryRun := true)).1;
    var wet := MarkAll(net, net.router, values, o.(dryRun := false)).1;
    forall i | 0 <= i < |values|
      ensures dry[i] == wet[i] <==> !RefusalAhead(net, values[i], o) && !MarkedBefore(net, values, o, i)
    {
      DryRunForetellsLine(net, values, o, i);
    }
  }

  /** A client cut and not marked, its MAC listed twice: marked twice says the dry run, once does the real one. */
  lemma RepeatIsNotForetold(mac: Mac, lr: Lr, o: Options)
    requires !lr.row.onRouter
    ensures var net := Net(map[mac := lr], map[mac := [CUTTING]]);
            && MarkAll(net, net.router, [Some(mac), Some(mac)], o.(dryRun := true)).1 == [Written, Written]
            && MarkAll(net, net.router, [Some(mac), Some(mac)], o.(dryRun := false)).1 == [Written, Skipped]
  {
    var net, values := Net(map[mac := lr], map[mac := [CUTTING]]), [Some(mac), Some(mac)];
    assert Listing([CUTTING]) == Some(CUTTING);
    assert Some(mac) !in values[..0] && values[..1][0] == Some(mac);
    OutcomesByClient(net, net.router, values, o.(dryRun := true), 0);
    OutcomesByClient(net, net.router, values, o.(dryRun := true), 1);
    OutcomesByClient(net, net.router, values, o.(dryRun := false), 0);
    OutcomesByClient(net, net.router, values, o.(dryRun := false), 1);
  }

  lemma {:induction false} DryRunChangesNothing(net: Net, values: seq<Option<Mac>>, o: Options)
    requires o.dryRun
    ensures MarkAll(net, net.router, values, o).0 == net
  {
    if values == [] {
    } else {
      DryRunChangesNothing(net, values[..|values| - 1], o);
    }
  }

  /** A second run over the same list writes nothing: what was written is now up to date, the rest is as before. */
  lemma SecondRunWritesNothing(net: Net, values: seq<Option<Mac>>, o: Options)
    requires !o.dryRun
    ensures var first := MarkAll(net, net.router, values, o);
            var second := MarkAll(first.0, first.0.router, values, o);
            && second.0.lrs == first.0.lrs
            && (forall mac :: Rules(second.0.router, mac) == Rules(first.0.router, mac))
            && forall i :: 0 <= i < |values| ==> second.1[i] == Again(first.1[i], o)
  {
    var first := MarkAll(net, net.router, values, o);
    var mid := first.0;
    var second := MarkAll(mid, mid.router, values, o);
    forall mac ensures View(second.0, mac) == View(mid, mac) {
      MarkAllByClient(net, net.router, values, o, mac);
      MarkAllByClient(mid, mid.router, values, o, mac);
      if Some(mac) in values {
        ClientTwice(net, mid, mac, o);
      }
    }
    assert forall mac :: mac in second.0.lrs <==> View(second.0, mac).0.Some?;
    assert forall mac :: mac in mid.lrs <==> View(mid, mac).0.Some?;
    assert forall mac :: mac in mid.lrs ==> View(second.0, mac).0.value == View(mid, mac).0.value;
    forall mac ensures Rules(second.0.router, mac) == Rules(mid.router, mac) {
      assert View(second.0, mac) == View(mid, mac);
    }
    forall i | 0 <= i < |values| ensures second.1[i] == Again(first.1[i], o) {
      OutcomesByClient(net, net.router, values, o, i);
      OutcomesByClient(mid, mid.router, values, o, i);
      if values[i].Some? {
        MarkAllByClient(net, net.router, values, o, values[i].value);
        ClientTwice(net, mid, values[i].value, o);
      }
    }
  }

  lemma ClientTwice(net: Net, mid: Net, mac: Mac, o: Options)
    requires !o.dryRun && View(mid, mac) == View(MarkOne(net, net.router, Some(mac), o).0, mac)
    ensures View(MarkOne(mid, mid.router, Some(mac), o).0, mac) == View(mid, mac)
    ensures MarkOne(mid, mid.router, Some(mac), o).1 == Again(MarkOne(net, net.router, Some(mac), o).1, o)
  {
  }

  /** One client of the run takes exactly the steps of the machine, from a listing made just before. */
  lemma MarkOneIsTheMachine(net: Net, mac: Mac, o: Options)
    requires mac in net.lrs && !o.dryRun
    ensures var s := State(Rules(net.router, mac), net.lrs[mac].row, map[]);
            var end := MarkOne(net, net.router, Some(mac), o).0;
            Finish(Next(Next(s, List(0)), Mark(0, o.postMissing)), mac in o.refused)
            == State(Rules(end.router, mac), end.lrs[mac].row, map[])
  {
    var s := State(Rules(net.router, mac), net.lrs[mac].row, map[]);
    var t := Next(s, List(0));
    assert t.tasks - {0} == map[];
  }

  /** The rest of process 0 once it has read the row, with nobody else about. */
  function Finish(t: State, refused: bool): State
    requires 0 in t.tasks ==> t.tasks[0].WillBlock? || t.tasks[0].WillRecord?
  {
    if 0 !in t.tasks then t
    else
      var u := if t.tasks[0].WillBlock?
               then Next(t, Answer(0, !refused, if refused then t.rules else WithRule(t.rules))) else t;
      if 0 in u.tasks then Next(u, Commit(0)) else u
  }

  // ---------------------------------------------------------------- counting

  datatype Tally = Tally(written: nat, skipped: nat, missing: nat, unknown: nat, invalid: nat)

  function Count(os: seq<Outcome>, x: Outcome): nat {
    if os == [] then 0 else Count(os[..|os| - 1], x) + if os[|os| - 1] == x then 1 else 0
  }

  function TallyOf(os: seq<Outcome>): Tally {
    Tally(Count(os, Written), Count(os, Skipped), Count(os, Missing), Count(os, Unknown), Count(os, Invalid))
  }

  function Bumped(t: Tally, x: Outcome): Tally {
    match x
    case Written => t.(written := t.written + 1)
    case Skipped => t.(skipped := t.skipped + 1)
    case Missing => t.(missing := t.missing + 1)
    case Unknown => t.(unknown := t.unknown + 1)
    case Invalid => t.(invalid := t.invalid + 1)
  }

  /** One more MAC: one more outcome, and its counter one up. */
  lemma MarkStep(net: Net, listed: map<Mac, seq<Rule>>, values: seq<Option<Mac>>, i: nat, o: Options)
    requires i < |values|
    ensures var (before, os) := MarkAll(net, listed, values[..i], o);
            var (after, x) := MarkOne(before, listed, values[i], o);
            && MarkAll(net, listed, values[..i + 1], o) == (after, os + [x])
            && TallyOf(os + [x]) == Bumped(TallyOf(os), x)
  {
    assert values[..i + 1][..i] == values[..i];
    var (before, os) := MarkAll(net, listed, values[..i], o);
    assert (os + [MarkOne(before, listed, values[i], o).1])[..|os|] == os;
  }

  lemma {:induction false} TalliesAddUp(os: seq<Outcome>)
    ensures var t := TallyOf(os); t.written + t.skipped + t.missing + t.unknown + t.invalid == |os|
  {
    if os == [] {
    } else {
      TalliesAddUp(os[..|os| - 1]);
    }
  }

  // ---------------------------------------------------------------- block_out_of_supervision

  /** Where the script files a client; a row that has gone since the list was made is filed nowhere. */
  datatype Filing = Blocked | Already | Failed | Gone

  function BlockOneOf(net: Net, mac: Mac, reason: string, refused: bool, now: int): (Net, Filing) {
    if mac !in net.lrs then (net, Gone)
    else if net.lrs[mac].row.onRouter then (net, Already)
    else if refused then (net, Failed)
    else
      (Net(net.lrs[mac := Marked(net.lrs[mac], reason, now)],
           net.router[mac := WithRule(Rules(net.router, mac))]), Blocked)
  }

  /** Where a client is filed and what it is left with: only a blocked one is changed, and nobody else ever is. */
  lemma BlockFilings(net: Net, mac: Mac, reason: string, refused: bool, now: int)
    ensures var (end, filing) := BlockOneOf(net, mac, reason, refused, now);
            && (filing.Gone? <==> mac !in net.lrs)
            && (filing.Already? <==> mac in net.lrs && net.lrs[mac].row.onRouter)
            && (filing.Failed? <==> mac in net.lrs && !net.lrs[mac].row.onRouter && refused)
            && (filing.Blocked? <==> mac in net.lrs && !net.lrs[mac].row.onRouter && !refused)
            && (filing.Blocked? ==> mac in end.lrs && SaysCut(end.lrs[mac], net.lrs[mac], reason, now))
            && (filing.Blocked? ==>
                  (Cuts(Rules(end.router, mac)) <==> Rules(net.router, mac) == [] || Cuts(Rules(net.router, mac))))
            && (!filing.Blocked? ==> end == net)
            && (forall other :: other != mac ==> View(end, other) == View(net, other))
  {
  }

  /** The script, undisturbed, takes the machine's steps: the router first, the row after. */
  lemma BlockOneIsTheMachine(net: Net, mac: Mac, reason: string, refused: bool, now: int)
    requires mac in net.lrs
    ensures var s := State(Rules(net.router, mac), net.lrs[mac].row, map[]);
            var end := BlockOneOf(net, mac, reason, refused, now).0;
            Finish(Next(s, BlockOne(0)), refused) == State(Rules(end.router, mac), end.lrs[mac].row, map[])
  {
    var s := State(Rules(net.router, mac), net.lrs[mac].row, map[]);
    var t := Next(s, BlockOne(0));
    assert t.tasks - {0} == map[];
    if 0 in t.tasks && !refused {
      var u := Next(t, Answer(0, true, WithRule(t.rules)));
      assert u.tasks - {0} == map[];
    }
  }

  function BlockAll(net: Net, targets: seq<Mac>, reason: string, refused: set<Mac>, now: int): (r: (Net, seq<Filing>))
    ensures |r.1| == |targets|
  {
    if targets == [] then (net, [])
    else
      var mac := targets[|targets| - 1];
      var before := BlockAll(net, targets[..|targets| - 1], reason, refused, now);
      var last := BlockOneOf(before.0, mac, reason, mac in refused, now);
      (last.0, before.1 + [last.1])
  }

  /** The targets filed under `f`, in the order of the list. */
  function Those(targets: seq<Mac>, filings: seq<Filing>, f: Filing): seq<Mac>
    requires |targets| == |filings|
  {
    if targets == [] then []
    else
      var n := |targets| - 1;
      Those(targets[..n], filings[..n], f) + if filings[n] == f then [targets[n]] else []
  }

  lemma {:induction false} BlockAllByClient(
    net: Net, targets: seq<Mac>, reason: string, refused: set<Mac>, now: int, mac: Mac)
    ensures View(BlockAll(net, targets, reason, refused, now).0, mac) ==
            View(if mac in targets then BlockOneOf(net, mac, reason, mac in refused, now).0 else net, mac)
  {
    if targets == [] {
    } else {
      var n := |targets| - 1;
      BlockAllByClient(net, targets[..n], reason, refused, now, mac);
      assert targets == targets[..n] + [targets[n]];
    }
  }

  /**
   A run over distinct targets files each as if it were alone, and ends with every row and rule as its
   filing says; blocked clients are cut unless foreign rules of their MAC cut nobody.
   */
  lemma {:induction false} TargetsFiledAlone(
    net: Net, targets: seq<Mac>, reason: string, refused: set<Mac>, now: int, i: nat)
    requires i < |targets| && forall j, k :: 0 <= j < k < |targets| ==> targets[j] != targets[k]
    ensures var mac := targets[i];
            var (end, filings) := BlockAll(net, targets, reason, refused, now);
            && filings[i] == BlockOneOf(net, mac, reason, mac in refused, now).1
            && View(end, mac) == View(BlockOneOf(net, mac, reason, mac in refused, now).0, mac)
            && (filings[i].Blocked? ==>
                  mac in net.lrs && mac in end.lrs && SaysCut(end.lrs[mac], net.lrs[mac], reason, now))
            && (filings[i].Blocked? ==>
                  (Cuts(Rules(end.router, mac)) <==> Rules(net.router, mac) == [] || Cuts(Rules(net.router, mac))))
    decreases |targets|
  {
    var n := |targets| - 1;
    BlockAllByClient(net, targets, reason, refused, now, targets[i]);
    if i < n {
      TargetsFiledAlone(net, targets[..n], reason, refused, now, i);
    } else {
      BlockAllByClient(net, targets[..n], reason, refused, now, targets[n]);
    }
  }

  lemma {:induction false} FilingsAddUp(targets: seq<Mac>, filings: seq<Filing>)
    requires |targets| == |filings|
    ensures |Those(targets, filings, Blocked)| + |Those(targets, filings, Already)|
            + |Those(targets, filings, Failed)| + |Those(targets, filings, Gone)| == |targets|
  {
    if targets == [] {
    } else {
      FilingsAddUp(targets[..|targets| - 1], filings[..|targets| - 1]);
    }
  }

  // ---------------------------------------------------------------- the calls of the batch, interleaved

  /** A call of the batch: not begun, its rule asked for and granted with the row it read, or over. */
  datatype Phase = Waiting | Asked(lr: Lr) | Over(filing: Filing)

  /** One client and its call. */
  datatype Call = Call(lr: Option<Lr>, rules: seq<Rule>, phase: Phase)

  /** The call runs up to its next wait: first the row and the router, then the commit and the list. */
  function Turn(c: Call, reason: string, refused: bool, now: int): Call {
    match c.phase
    case Waiting =>
      if c.lr.None? then c.(phase := Over(Gone))
      else if c.lr.value.row.onRouter then c.(phase := Over(Already))
      else if refused then c.(phase := Over(Failed))
      else c.(rules := WithRule(c.rules), phase := Asked(c.lr.value))
    case Asked(lr) => c.(lr := Some(Marked(lr, reason, now)), phase := Over(Blocked))
    case Over(_) => c
  }

  function CallOf(net: Net, calls: map<Mac, Phase>, mac: Mac): Call {
    Call(View(net, mac).0, View(net, mac).1, if mac in calls then calls[mac] else Waiting)
  }

  /** The calls take turns in any order: `schedule` says whose turn it is. */
  function Interleave(net: Net, schedule: seq<Mac>, reason: string, refused: set<Mac>, now: int)
    : (Net, map<Mac, Phase>)
  {
    if schedule == [] then (net, map[])
    else
      var n := |schedule| - 1;
      var (before, calls) := Interleave(net, schedule[..n], reason, refused, now);
      TakeTurn(before, calls, schedule[n], reason, refused, now)
  }

  function TakeTurn(net: Net, calls: map<Mac, Phase>, mac: Mac, reason: string, refused: set<Mac>, now: int)
    : (Net, map<Mac, Phase>)
  {
    var c := Turn(CallOf(net, calls, mac), reason, mac in refused, now);
    (Net(if c.lr.Some? then net.lrs[mac := c.lr.value] else net.lrs, net.router[mac := c.rules]), calls[mac := c.phase])
  }

  lemma TurnIsLocal(
    net: Net, calls: map<Mac, Phase>, turn: Mac, reason: string, refused: set<Mac>, now: int, mac: Mac)
    ensures var (end, after) := TakeTurn(net, calls, turn, reason, refused, now);
            CallOf(end, after, mac) ==
            if turn == mac then Turn(CallOf(net, calls, mac), reason, mac in refused, now) else CallOf(net, calls, mac)
  {
  }

  function Turns(schedule: seq<Mac>, mac: Mac): nat {
    if schedule == [] then 0
    else Turns(schedule[..|schedule| - 1], mac) + if schedule[|schedule| - 1] == mac then 1 else 0
  }

  /** One client after `n` turns of its call, alone. */
  function Alone(net: Net, mac: Mac, n: nat, reason: string, refused: bool, now: int): Call {
    if n == 0 then CallOf(net, map[], mac) else Turn(Alone(net, mac, n - 1, reason, refused, now), reason, refused, now)
  }

  lemma {:induction false} OnlyOwnTurnsMatter(
    net: Net, schedule: seq<Mac>, reason: string, refused: set<Mac>, now: int, mac: Mac)
    ensures var (end, calls) := Interleave(net, schedule, reason, refused, now);
            CallOf(end, calls, mac) == Alone(net, mac, Turns(schedule, mac), reason, mac in refused, now)
  {
    if schedule == [] {
    } else {
      var n := |schedule| - 1;
      OnlyOwnTurnsMatter(net, schedule[..n], reason, refused, now, mac);
      var (before, calls) := Interleave(net, schedule[..n], reason, refused, now);
      TurnIsLocal(before, calls, schedule[n], reason, refused, now, mac);
    }
  }

  lemma {:induction false} TwoTurnsAreEnough(net: Net, mac: Mac, n: nat, reason: string, refused: bool, now: int)
    requires n >= 2
    ensures var (end, filing) := BlockOneOf(net, mac, reason, refused, now);
            Alone(net, mac, n, reason, refused, now) == Call(View(end, mac).0, View(end, mac).1, Over(filing))
  {
    if n == 2 {
      assert Alone(net, mac, 1, reason, refused, now) == Turn(CallOf(net, map[], mac), reason, refused, now);
    } else {
      TwoTurnsAreEnough(net, mac, n - 1, reason, refused, now);
    }
  }

  /** However the calls interleave, once all are over each client ends as in the run that takes them one by one. */
  lemma InterleavingDoesNotMatter(
    net: Net, targets: seq<Mac>, schedule: seq<Mac>, reason: string, refused: set<Mac>, now: int, i: nat)
    requires i < |targets| && forall j, k :: 0 <= j < k < |targets| ==> targets[j] != targets[k]
    requires Turns(schedule, targets[i]) >= 2
    ensures var (end, calls) := Interleave(net, schedule, reason, refused, now);
            var (one, filings) := BlockAll(net, targets, reason, refused, now);
            && View(end, targets[i]) == View(one, targets[i])
            && targets[i] in calls && calls[targets[i]] == Over(filings[i])
  {
    OnlyOwnTurnsMatter(net, schedule, reason, refused, now, targets[i]);
    TwoTurnsAreEnough(net, targets[i], Turns(schedule, targets[i]), reason, targets[i] in refused, now);
    TargetsFiledAlone(net, targets, reason, refused, now, i);
  }

  // ---------------------------------------------------------------- unblock_clients

  /**
   How `unblock_client` fares: the router's reply and the rules it leaves, and the radio's reply; or an
   exception on the way, before or after the intent is committed.
   */
  datatype Remote =
    | Answered(hasSsh: bool, cleared: bool, after: seq<Rule>, sshOk: bool, structural: bool)
    | Raised(committed: bool, cleared: bool, after: seq<Rule>)

  datatype UnblockFiling = NotFound | NotBlocked | WouldClear | Cleared | WouldRestore | Restored | Pending

  function WithoutIntent(lr: Lr): Lr {
    lr.(row := lr.row.(blocked := false, enforced := false), blockedAt := None, reason := None)
  }

  /** `unblock_client`: intent first, then the router, then the radio. */
  function UnblockClient(net: Net, mac: Mac, remote: Remote): (Net, bool)
    requires mac in net.lrs
  {
    var lr := WithoutIntent(net.lrs[mac]);
    var router := net.router[mac := remote.after];
    match remote
    case Raised(committed, _, _) =>
      (Net(if committed then net.lrs[mac := lr] else net.lrs, router), false)
    case Answered(hasSsh, cleared, _, sshOk, structural) =>
      var off := if cleared then lr.(row := lr.row.(onRouter := false), onRouterAt := None) else lr;
      var end := if !hasSsh then off
                 else off.(toUnblock := !sshOk, row := off.row.(abandoned := !sshOk && structural));
      (Net(net.lrs[mac := end], router), hasSsh && sshOk)
  }

  function UnblockOneOf(net: Net, mac: Mac, dryRun: bool, remote: Remote): (Net, UnblockFiling) {
    if mac !in net.lrs then (net, NotFound)
    else
      var lr := net.lrs[mac];
      if !lr.row.blocked then (net, NotBlocked)
      else if !lr.row.enforced then
        if dryRun then (net, WouldClear)
        else
          var row := lr.row.(blocked := false, abandoned := false);
          (net.(lrs := net.lrs[mac := Lr(row, None, None, lr.onRouterAt, false)]), Cleared)
      else if dryRun then (net, WouldRestore)
      else
        var (end, ok) := UnblockClient(net, mac, remote);
        (end, if ok then Restored else Pending)
  }

  /** The client as the machine sees it, nobody at work on it. */
  function Machine(net: Net, mac: Mac): State
    requires mac in net.lrs
  {
    State(Rules(net.router, mac), net.lrs[mac].row, map[])
  }

  /** Whether the first commit of `unblock_client`, that of the intent, went through. */
  predicate IntentSaved(remote: Remote) {
    remote.Raised? ==> remote.committed
  }

  /** What the radio's reply leaves of the row; without credentials, or after an exception, nothing changes. */
  function RadioOutcome(row: Row, remote: Remote): Row {
    if remote.Answered? && remote.hasSsh then row.(abandoned := !remote.sshOk && remote.structural) else row
  }

  /** The rest of process 0 after the router's reply: its commit, or the exception in its place. */
  function AfterReply(t: State, remote: Remote): State
    requires 0 in t.tasks ==> t.tasks[0].WillForget?
  {
    var u := if 0 !in t.tasks then t else if remote.Answered? then Next(t, Commit(0)) else Next(t, Crash(0));
    Next(u, Decide(RadioOutcome(u.row, remote)))
  }

  /** `unblock_client` takes the machine's steps: the intent, the row read, the removal, its commit, the radio. */
  lemma UnblockIsTheMachine(net: Net, mac: Mac, remote: Remote)
    requires mac in net.lrs && RemoveAnswer(Rules(net.router, mac), remote.cleared, remote.after)
    ensures var s, lr := Machine(net, mac), net.lrs[mac];
            var intent := if IntentSaved(remote) then WithoutIntent(lr).row else lr.row;
            var begun := Next(Next(s, Decide(intent)), Clear(0));
            && Possible(begun, Answer(0, remote.cleared, remote.after))
            && AfterReply(Next(begun, Answer(0, remote.cleared, remote.after)), remote)
               == Machine(UnblockClient(net, mac, remote).0, mac)
  {
    var lr := net.lrs[mac];
    var intent := if IntentSaved(remote) then WithoutIntent(lr).row else lr.row;
    var begun := Next(Next(Machine(net, mac), Decide(intent)), Clear(0));
    var t := Next(begun, Answer(0, remote.cleared, remote.after));
    assert t.tasks - {0} == map[];
  }

  /**
   A cleared order lets the client back online: the script leaves the router alone and the next pass of
   the job removes the rule, exactly when the row knew of the rule or none was cutting.
   */
  lemma ClearedClientsComeBack(net: Net, mac: Mac, remote: Remote, after: seq<Rule>)
    requires UnblockOneOf(net, mac, false, remote).1.Cleared?
    requires var s := Machine(UnblockOneOf(net, mac, false, remote).0, mac); PassPossible(s, 0, true, after)
    ensures var s := Machine(UnblockOneOf(net, mac, false, remote).0, mac);
            && s.rules == Rules(net.router, mac) && !Desired(s.row)
            && (!Cuts(Pass(s, 0, true, after).rules) <==> net.lrs[mac].row.onRouter || !Cuts(Rules(net.router, mac)))
  {
    var s := Machine(UnblockOneOf(net, mac, false, remote).0, mac);
    AnsweredPass(s, 0, after);
  }

  /**
   After `unblock_client`, whatever the router and the radio answered and however many rules the router
   removed before it failed, the job brings the router in line exactly when the row said there was a rule,
   or none of those left cuts.
   */
  lemma UnblockedClientsComeBack(net: Net, mac: Mac, remote: Remote)
    requires mac in net.lrs && (remote.Raised? ==> remote.committed)
    requires RemoveAnswer(Rules(net.router, mac), remote.cleared, remote.after)
    ensures var (end, ok) := UnblockClient(net, mac, remote);
            var s := Machine(end, mac);
            && !Desired(s.row)
            && (Repairable(s) <==> net.lrs[mac].row.onRouter || !Cuts(remote.after))
            && (ok && remote.cleared ==> s.rules == [] && !s.row.onRouter && !end.lrs[mac].toUnblock)
  {
  }

  /** Nothing is left of the order to block. */
  predicate OrderGone(lr: Lr) {
    !lr.row.blocked && !lr.row.enforced && lr.blockedAt == None && lr.reason == None
  }

  predicate SameCut(lr: Lr, was: Lr) {
    lr.row.onRouter == was.row.onRouter && lr.onRouterAt == was.onRouterAt
  }

  predicate SameRadio(lr: Lr, was: Lr) {
    lr.toUnblock == was.toUnblock && lr.row.abandoned == was.row.abandoned
  }

  /**
   What `unblock_client` leaves: the order is gone, except where an exception came before its commit, and the cut is
   taken back exactly when the router has answered that all rules are gone. The radio's failure keeps the unblocking
   under way, as abandoned if it is structural; without credentials nothing is known of the radio.
   */
  lemma UnblockingLeaves(net: Net, mac: Mac, remote: Remote)
    requires mac in net.lrs
    ensures var (end, ok) := UnblockClient(net, mac, remote);
            var was := net.lrs[mac];
            && mac in end.lrs && Rules(end.router, mac) == remote.after
            && (ok <==> remote.Answered? && remote.hasSsh && remote.sshOk)
            && var lr := end.lrs[mac];
               && (remote.Raised? && !remote.committed ==> lr == was)
               && (remote.Raised? && remote.committed ==> OrderGone(lr) && SameCut(lr, was) && SameRadio(lr, was))
               && (remote.Answered? ==>
                     && OrderGone(lr)
                     && (if remote.cleared then !lr.row.onRouter && lr.onRouterAt == None else SameCut(lr, was))
                     && (if !remote.hasSsh then SameRadio(lr, was)
                         else if remote.sshOk then !lr.toUnblock && !lr.row.abandoned
                         else lr.toUnblock && lr.row.abandoned == remote.structural))
  {
  }

  /**
   Where the script files a client and what it leaves: nothing changes in a dry run, for an unknown client or
   one that is not blocked; an order the radio never enforced is cleared; any other is `Restored` exactly when
   the radio answered that it lifted the block.
   */
  lemma UnblockFilings(net: Net, mac: Mac, dryRun: bool, remote: Remote)
    ensures var (end, filing) := UnblockOneOf(net, mac, dryRun, remote);
            && (filing.NotFound? <==> mac !in net.lrs)
            && (filing.NotBlocked? <==> mac in net.lrs && !net.lrs[mac].row.blocked)
            && (dryRun || filing.NotFound? || filing.NotBlocked? ==> end == net)
            && (mac in net.lrs && net.lrs[mac].row.blocked ==>
                  var row := net.lrs[mac].row;
                  && (filing.WouldClear? <==> dryRun && !row.enforced)
                  && (filing.WouldRestore? <==> dryRun && row.enforced)
                  && (filing.Cleared? <==> !dryRun && !row.enforced)
                  && (filing.Restored? <==>
                      !dryRun && row.enforced && remote.Answered? && remote.hasSsh && remote.sshOk)
                  && (filing.Pending? <==>
                      !dryRun && row.enforced && !(remote.Answered? && remote.hasSsh && remote.sshOk))
                  && (filing.Cleared? || filing.Restored? ==>
                        && mac in end.lrs && OrderGone(end.lrs[mac])
                        && !end.lrs[mac].row.abandoned && !end.lrs[mac].toUnblock)
                  && (filing.Cleared? ==> end.router == net.router && SameCut(end.lrs[mac], net.lrs[mac])))
            && (forall other :: other != mac ==> View(end, other) == View(net, other))
  {
  }

  // ---------------------------------------------------------------- the scripts in place

  class Network {
    var lrs: map<Mac, Lr>
    var router: map<Mac, seq<Rule>>

    function State(): Net
      reads this
    {
      Net(lrs, router)
    }

    constructor (net: Net)
      ensures State() == net
    {
      lrs, router := net.lrs, net.router;
    }

    method BlockByMac(mac: Mac, refused: bool) returns (ok: bool)
      modifies this`router
      ensures ok == !refused
      ensures router == if ok then old(router)[mac := WithRule(Rules(old(router), mac))] else old(router)
    {
      if refused {
        return false;
      }
      var present := Rules(router, mac);
      if present == [] {
        router := router[mac := [CUTTING]];
      } else {
        router := router[mac := present];
      }
      return true;
    }

    /** `mark_router_blocked.run`: one listing, then every MAC in turn, five counters. */
    method MarkRun(values: seq<Option<Mac>>, o: Options) returns (tally: Tally)
      modifies this
      ensures State() == MarkAll(old(State()), old(router), values, o).0
      ensures tally == TallyOf(MarkAll(old(State()), old(router), values, o).1)
      ensures tally.written + tally.skipped + tally.missing + tally.unknown + tally.invalid == |values|
    {
      var listed := router;
      var written, skipped, missing, unknown, invalid := 0, 0, 0, 0, 0;
      ghost var start := State();
      var i := 0;
      while i < |values|
        invariant 0 <= i <= |values|
        invariant State() == MarkAll(start, listed, values[..i], o).0
        invariant TallyOf(MarkAll(start, listed, values[..i], o).1) ==
                  Tally(written, skipped, missing, unknown, invalid)
      {
        MarkStep(start, listed, values, i, o);
        var value := values[i];
        i := i + 1;
        if value.None? {
          invalid := invalid + 1;
          continue;
        }
        var mac := value.value;
        if mac !in lrs {
          unknown := unknown + 1;
          continue;
        }
        var lr := lrs[mac];
        var rule := Listing(Rules(listed, mac));
        if rule.None? {
          if !o.postMissing {
            missing := missing + 1;
            continue;
          }
          if !o.dryRun {
            var ok := BlockByMac(mac, mac in o.refused);
            if !ok {
              missing := missing + 1;
              continue;
            }
          }
        } else if !rule.value.enabled {
          missing := missing + 1;
          continue;
        }
        if lr.row.blocked && lr.row.onRouter {
          skipped := skipped + 1;
          continue;
        }
        if o.dryRun {
          written := written + 1;
          continue;
        }
        if !lr.row.blocked {
          lr := lr.(row := lr.row.(blocked := true), blockedAt := Some(o.now));
        }
        lr := lr.(reason := Some(o.reason), row := lr.row.(onRouter := true), onRouterAt := Some(o.now));
        lrs := lrs[mac := lr];
        written := written + 1;
      }
      assert values[..i] == values;
      TalliesAddUp(MarkAll(start, listed, values, o).1);
      tally := Tally(written, skipped, missing, unknown, invalid);
    }

    /** `block_out_of_supervision._block_one`: the router first, then the row, then the shared lists. */
    method BlockOne(mac: Mac, reason: string, refused: bool, now: int, results: BlockResults)
      modifies this, results
      ensures State() == BlockOneOf(old(State()), mac, reason, refused, now).0
      ensures match BlockOneOf(old(State()), mac, reason, refused, now).1
              case Blocked =>
                results.Lists() == (old(results.blocked) + [mac], old(results.already), old(results.failed))
              case Already =>
                results.Lists() == (old(results.blocked), old(results.already) + [mac], old(results.failed))
              case Failed =>
                results.Lists() == (old(results.blocked), old(results.already), old(results.failed) + [mac])
              case Gone => results.Lists() == old(results.Lists())
    {
      if mac !in lrs {
        return;
      }
      var lr := lrs[mac];
      if lr.row.onRouter {
        results.already := results.already + [mac];
        return;
      }
      var ok := BlockByMac(mac, refused);
      if !ok {
        results.failed := results.failed + [mac];
        return;
      }
      if !lr.row.blocked {
        lr := lr.(row := lr.row.(blocked := true), blockedAt := Some(now));
      }
      lr := lr.(reason := Some(reason), row := lr.row.(onRouter := true), onRouterAt := Some(now));
      lrs := lrs[mac := lr];
      results.blocked := results.blocked + [mac];
    }

    /** `block_out_of_supervision.run`, the concurrent calls taken one after the other. */
    method BlockRun(targets: seq<Mac>, reason: string, refused: set<Mac>, now: int) returns (results: BlockResults)
      modifies this
      ensures fresh(results)
      ensures State() == BlockAll(old(State()), targets, reason, refused, now).0
      ensures var filings := BlockAll(old(State()), targets, reason, refused, now).1;
              results.Lists() ==
              (Those(targets, filings, Blocked), Those(targets, filings, Already), Those(targets, filings, Failed))
      ensures var gone := Those(targets, BlockAll(old(State()), targets, reason, refused, now).1, Gone);
              |results.blocked| + |results.already| + |results.failed| + |gone| == |targets|
    {
      results := new BlockResults();
      ghost var net := State();
      var i := 0;
      while i < |targets|
        invariant 0 <= i <= |targets|
        invariant State() == BlockAll(net, targets[..i], reason, refused, now).0
        invariant var filings := BlockAll(net, targets[..i], reason, refused, now).1;
                  results.Lists() == (Those(targets[..i], filings, Blocked), Those(targets[..i], filings, Already),
                                      Those(targets[..i], filings, Failed))
      {
        ghost var filings := BlockAll(net, targets[..i], reason, refused, now).1;
        assert targets[..i + 1][..i] == targets[..i];
        ghost var was, lists := State(), results.Lists();
        BlockOne(targets[i], reason, targets[i] in refused, now, results);
        i := i + 1;
        ghost var more := BlockAll(net, targets[..i], reason, refused, now).1;
        assert more[i - 1] == BlockOneOf(was, targets[i - 1], reason, targets[i - 1] in refused, now).1;
        assert results.blocked == lists.0 + if more[i - 1].Blocked? then [targets[i - 1]] else [];
        assert results.already == lists.1 + if more[i - 1].Already? then [targets[i - 1]] else [];
        assert results.failed == lists.2 + if more[i - 1].Failed? then [targets[i - 1]] else [];
        assert more[..i - 1] == filings && targets[..i][..i - 1] == targets[..i - 1];
        assert forall f :: Those(targets[..i], more, f) ==
                           Those(targets[..i - 1], filings, f) + if more[i - 1] == f then [targets[i - 1]] else [];
      }
      assert targets[..i] == targets;
      FilingsAddUp(targets, BlockAll(net, targets, reason, refused, now).1);
    }

    /** `unblock_clients._unblock_one` */
    method UnblockOne(mac: Mac, dryRun: bool, remote: Remote) returns (filing: UnblockFiling)
      modifies this
      ensures State() == UnblockOneOf(old(State()), mac, dryRun, remote).0
      ensures filing == UnblockOneOf(old(State()), mac, dryRun, remote).1
    {
      if mac !in lrs {
        return NotFound;
      }
      var lr := lrs[mac];
      if !lr.row.blocked {
        return NotBlocked;
      }
      if !lr.row.enforced {
        if dryRun {
          return WouldClear;
        }
        lr := lr.(row := lr.row.(blocked := false), blockedAt := None, reason := None);
        lr := lr.(toUnblock := false, row := lr.row.(abandoned := false));
        lrs := lrs[mac := lr];
        return Cleared;
      }
      if dryRun {
        return WouldRestore;
      }
      var (end, ok) := UnblockClient(State(), mac, remote);
      lrs, router := end.lrs, end.router;
      return if ok then Restored else Pending;
    }
  }

  /** The lists the concurrent calls share. */
  class BlockResults {
    var blocked: seq<Mac>
    var already: seq<Mac>
    var failed: seq<Mac>

    function Lists(): (seq<Mac>, seq<Mac>, seq<Mac>)
      reads this
    {
      (blocked, already, failed)
    }

    constructor ()
      ensures Lists() == ([], [], [])
    {
      blocked, already, failed := [], [], [];
    }
  }
}
