/**
 Cutting a client on the core router: what the database believes, what the router holds, and every
 process that moves the two, one step at a time.

 The machine follows one client, since every router command and every row is found by its MAC. A process
 reads the row, asks the router, and commits; any other step may come between, and it may crash.
 */
module RouterBlock {
  import opened Wrappers

  /** A drop rule for the client's MAC; only an enabled one on the forward chain cuts the client. */
  datatype Rule = Rule(forward: bool, enabled: bool)

  const CUTTING := Rule(true, true)

  predicate Cuts(rules: seq<Rule>) {
    CUTTING in rules
  }

  /** The block columns of a row of `lrs`; `onRouter` is `router_blocked`. */
  datatype Row = Row(blocked: bool, enforced: bool, abandoned: bool, onRouter: bool)

  /** `desired_router_block` */
  predicate Desired(row: Row) {
    row.blocked && (!row.enforced || row.abandoned)
  }

  // ---------------------------------------------------------------- the router

  /** Asking for a rule does nothing when some drop rule is there, whatever its chain and state. */
  function WithRule(rules: seq<Rule>): seq<Rule> {
    if rules == [] then [CUTTING] else rules
  }

  /** A refused request may still have taken effect. */
  predicate BlockAnswer(rules: seq<Rule>, ok: bool, after: seq<Rule>) {
    after == WithRule(rules) || (!ok && after == rules)
  }

  /** `rest` is left of `rules` when some of them are removed. */
  predicate LeftOf(rest: seq<Rule>, rules: seq<Rule>) {
    if rules == [] then rest == []
    else LeftOf(rest, rules[1..]) || (rest != [] && rest[0] == rules[0] && LeftOf(rest[1..], rules[1..]))
  }

  /** Removal takes every drop rule of the MAC and reports success only when none failed. */
  predicate RemoveAnswer(rules: seq<Rule>, ok: bool, after: seq<Rule>) {
    if ok then after == [] else LeftOf(after, rules)
  }

  /** What `mark_router_blocked` remembers of its one listing: the last forward rule of the MAC. */
  function Listing(rules: seq<Rule>): Option<Rule> {
    if rules == [] then None
    else if rules[|rules| - 1].forward then Some(rules[|rules| - 1])
    else Listing(rules[..|rules| - 1])
  }

  lemma {:induction false} EnabledListingCuts(rules: seq<Rule>)
    ensures Listing(rules).Some? && Listing(rules).value.enabled ==> Cuts(rules)
  {
    if rules == [] {
    } else {
      EnabledListingCuts(rules[..|rules| - 1]);
    }
  }

  // ---------------------------------------------------------------- processes and steps

  /** A process between two of its steps; `snap` is the row it read. */
  datatype Task =
    | Listed(seen: Option<Rule>)            // mark: the router listed, the row not read yet
    | WillBlock(snap: Row, script: bool)    // about to ask for a rule
    | WillRecord(snap: Row, script: bool)   // the rule is believed there; about to commit
    | WillRemove(snap: Row)                 // about to ask for the removal
    | WillForget(snap: Row)                 // the rules are believed gone; about to commit

  datatype State = State(rules: seq<Rule>, row: Row, tasks: map<nat, Task>)

  datatype Step =
    | BlockOne(p: nat)                       // block_out_of_supervision reads the row
    | Reconcile(p: nat)                      // the enforcement job reads the row
    | Clear(p: nat)                          // block_client or unblock_client drops the router rules
    | List(p: nat)                           // mark_router_blocked lists the router
    | Mark(p: nat, postMissing: bool)        // mark_router_blocked reads the row
    | Answer(p: nat, ok: bool, after: seq<Rule>)
    | Commit(p: nat)
    | Crash(p: nat)
    | Decide(row: Row)                       // intent and LR outcome change; `router_blocked` does not
    | ByHand(after: seq<Rule>)

  predicate Possible(s: State, step: Step) {
    match step
    case BlockOne(p) => p !in s.tasks
    case Reconcile(p) => p !in s.tasks
    case Clear(p) => p !in s.tasks
    case List(p) => p !in s.tasks
    case Mark(p, _) => p in s.tasks && s.tasks[p].Listed?
    case Answer(p, ok, after) =>
      && p in s.tasks
      && (s.tasks[p].WillBlock? || s.tasks[p].WillRemove?)
      && (s.tasks[p].WillBlock? ==> BlockAnswer(s.rules, ok, after))
      && (s.tasks[p].WillRemove? ==> RemoveAnswer(s.rules, ok, after))
    case Commit(p) => p in s.tasks && (s.tasks[p].WillRecord? || s.tasks[p].WillForget?)
    case Crash(p) => p in s.tasks
    case Decide(row) => row.onRouter == s.row.onRouter
    case ByHand(_) => true
  }

  function Next(s: State, step: Step): State
    requires Possible(s, step)
  {
    match step
    case BlockOne(p) =>
      if s.row.onRouter then s else s.(tasks := s.tasks[p := WillBlock(s.row, true)])
    case Reconcile(p) =>
      if Desired(s.row) == s.row.onRouter then s
      else if Desired(s.row) then s.(tasks := s.tasks[p := WillBlock(s.row, false)])
      else s.(tasks := s.tasks[p := WillRemove(s.row)])
    case Clear(p) => s.(tasks := s.tasks[p := WillRemove(s.row)])
    case List(p) => s.(tasks := s.tasks[p := Listed(Listing(s.rules))])
    case Mark(p, postMissing) =>
      var seen := s.tasks[p].seen;
      if seen.None? && postMissing then s.(tasks := s.tasks[p := WillBlock(s.row, true)])
      else if seen.Some? && seen.value.enabled then Settle(s, p, WillRecord(s.row, true))
      else s.(tasks := s.tasks - {p})
    case Answer(p, ok, after) =>
      var task := s.tasks[p];
      var u := s.(rules := after);
      if !ok then u.(tasks := u.tasks - {p})
      else if task.WillBlock? then Settle(u, p, WillRecord(task.snap, task.script))
      else u.(tasks := u.tasks[p := WillForget(task.snap)])
    case Commit(p) =>
      s.(row := Committed(s.row, s.tasks[p]), tasks := s.tasks - {p})
    case Crash(p) => s.(tasks := s.tasks - {p})
    case Decide(row) => s.(row := row)
    case ByHand(after) => s.(rules := after)
  }

  /** A row that already says it all is not written. */
  function Settle(s: State, p: nat, task: Task): State
    requires task.WillRecord?
  {
    if task.snap.blocked && task.snap.onRouter then s.(tasks := s.tasks - {p})
    else s.(tasks := s.tasks[p := task])
  }

  /** A commit writes only the columns whose value differs from the one read. */
  function Committed(row: Row, task: Task): Row
    requires task.WillRecord? || task.WillForget?
  {
    if task.WillForget? then (if task.snap.onRouter then row.(onRouter := false) else row)
    else
      var u := if task.script && !task.snap.blocked then row.(blocked := true) else row;
      if task.snap.onRouter then u else u.(onRouter := true)
  }

  // ---------------------------------------------------------------- safety

  /** The process is about to write that the rule is there. */
  predicate WillClaim(task: Task) {
    task.WillRecord? && !task.snap.onRouter
  }

  /** The process has had the rules removed and is about to write so. */
  predicate Forgets(task: Task) {
    task.WillForget? && task.snap.onRouter
  }

  predicate Claimed(s: State) {
    exists p :: p in s.tasks && WillClaim(s.tasks[p])
  }

  predicate Forgotten(s: State) {
    exists p :: p in s.tasks && Forgets(s.tasks[p])
  }

  predicate ClaimedBeside(s: State, p: nat) {
    exists q :: q in s.tasks && q != p && WillClaim(s.tasks[q])
  }

  predicate ForgottenBeside(s: State, p: nat) {
    exists q :: q in s.tasks && q != p && Forgets(s.tasks[q])
  }

  /** The rule is relied on: the row says it is there and nobody is about to take that back, or somebody will say so. */
  predicate Held(s: State) {
    (s.row.onRouter && !Forgotten(s)) || Claimed(s)
  }

  /**
   `router_blocked` implies a rule that cuts, now and whatever the processes in flight go on to write. An
   unblocking keeps it between the router's reply and its commit, when the flag is still up.
   */
  predicate Safe(s: State) {
    Held(s) ==> Cuts(s.rules)
  }

  /** The removal of `p`, once granted, leaves nobody who relies on the rule. */
  predicate GrantIsSafe(s: State, p: nat)
    requires p in s.tasks && s.tasks[p].WillRemove?
  {
    !Claimed(s) && (s.row.onRouter ==> s.tasks[p].snap.onRouter || Forgotten(s))
  }

  /** Whether a step keeps a safe state safe, from the state before it and, for an answer, the router's reply. */
  predicate Guard(s: State, step: Step)
    requires Possible(s, step)
  {
    match step
    case Mark(p, _) =>
      s.tasks[p].seen.Some? && s.tasks[p].seen.value.enabled && !s.row.onRouter ==> Cuts(s.rules)
    case Answer(p, ok, after) =>
      if s.tasks[p].WillBlock? then ok && !s.tasks[p].snap.onRouter ==> s.rules == [] || Cuts(s.rules)
      else if ok then GrantIsSafe(s, p)
      else Held(s) ==> Cuts(after)
    case Crash(p) =>
      Forgets(s.tasks[p]) && s.row.onRouter && !ForgottenBeside(s, p) ==> Cuts(s.rules)
    case ByHand(after) => Held(s) ==> Cuts(after)
    case _ => true
  }

  /** Who claims and who forgets after a step of process `p`. */
  lemma OneTaskChanges(s: State, t: State, p: nat)
    requires forall q :: q != p ==> (q in t.tasks <==> q in s.tasks) && (q in s.tasks ==> t.tasks[q] == s.tasks[q])
    ensures Claimed(s) <==> ClaimedBeside(s, p) || (p in s.tasks && WillClaim(s.tasks[p]))
    ensures Claimed(t) <==> ClaimedBeside(s, p) || (p in t.tasks && WillClaim(t.tasks[p]))
    ensures Forgotten(s) <==> ForgottenBeside(s, p) || (p in s.tasks && Forgets(s.tasks[p]))
    ensures Forgotten(t) <==> ForgottenBeside(s, p) || (p in t.tasks && Forgets(t.tasks[p]))
  {
    if q :| q in s.tasks && q != p && WillClaim(s.tasks[q]) {
      assert q in t.tasks && WillClaim(t.tasks[q]);
    }
    if q :| q in s.tasks && q != p && Forgets(s.tasks[q]) {
      assert q in t.tasks && Forgets(t.tasks[q]);
    }
    if q :| q in t.tasks && q != p && WillClaim(t.tasks[q]) {
      assert q in s.tasks && WillClaim(s.tasks[q]);
    }
    if q :| q in t.tasks && q != p && Forgets(t.tasks[q]) {
      assert q in s.tasks && Forgets(s.tasks[q]);
    }
  }

  lemma StepIsSafeExactlyWhenGuarded(s: State, step: Step)
    requires Safe(s) && Possible(s, step)
    ensures Safe(Next(s, step)) <==> Guard(s, step)
  {
    var t := Next(s, step);
    match step
    case BlockOne(p) => OneTaskChanges(s, t, p);
    case Reconcile(p) => OneTaskChanges(s, t, p);
    case Clear(p) => OneTaskChanges(s, t, p);
    case List(p) => OneTaskChanges(s, t, p);
    case Mark(p, _) => OneTaskChanges(s, t, p);
    case Answer(p, ok, after) => OneTaskChanges(s, t, p);
    case Commit(p) => OneTaskChanges(s, t, p);
    case Crash(p) => OneTaskChanges(s, t, p);
    case Decide(row) => assert Held(t) <==> Held(s);
    case ByHand(after) => assert Held(t) <==> Held(s);
  }

  lemma NothingIsLeftOf(rules: seq<Rule>)
    ensures LeftOf([], rules)
  {
    if rules == [] {
    } else {
      NothingIsLeftOf(rules[1..]);
    }
  }

  /**
   Before a request is sent: it keeps the state safe whatever the router replies exactly when, for a removal,
   nobody relies on the rule, since a refused removal may have taken it all the same; and for a block, when
   nothing will be claimed or no rule that cuts nobody is in the way. For a removal that is granted,
   `GrantIsSafe` is the exact condition.
   */
  lemma RequestIsSafeWhateverTheReply(s: State, p: nat)
    requires Safe(s) && p in s.tasks && (s.tasks[p].WillBlock? || s.tasks[p].WillRemove?)
    ensures (forall ok, after :: Possible(s, Answer(p, ok, after)) ==> Safe(Next(s, Answer(p, ok, after)))) <==>
            if s.tasks[p].WillRemove? then !Held(s)
            else s.tasks[p].snap.onRouter || s.rules == [] || Cuts(s.rules)
    ensures s.tasks[p].WillRemove? ==>
              ((forall after :: Possible(s, Answer(p, true, after)) ==> Safe(Next(s, Answer(p, true, after)))) <==>
               GrantIsSafe(s, p))
  {
    forall ok, after | Possible(s, Answer(p, ok, after))
      ensures Safe(Next(s, Answer(p, ok, after))) <==> Guard(s, Answer(p, ok, after))
    {
      StepIsSafeExactlyWhenGuarded(s, Answer(p, ok, after));
    }
    if s.tasks[p].WillRemove? {
      NothingIsLeftOf(s.rules);
      assert Possible(s, Answer(p, false, [])) && Possible(s, Answer(p, true, []));
    } else {
      assert Possible(s, Answer(p, true, WithRule(s.rules)));
    }
  }

  // ---------------------------------------------------------------- whole runs

  predicate Runs(s: State, steps: seq<Step>)
    decreases |steps|
  {
    steps == [] || (Possible(s, steps[0]) && Runs(Next(s, steps[0]), steps[1..]))
  }

  function After(s: State, steps: seq<Step>): State
    requires Runs(s, steps)
    decreases |steps|
  {
    if steps == [] then s else After(Next(s, steps[0]), steps[1..])
  }

  predicate AllGuarded(s: State, steps: seq<Step>)
    requires Runs(s, steps)
    decreases |steps|
  {
    steps == [] || (Guard(s, steps[0]) && AllGuarded(Next(s, steps[0]), steps[1..]))
  }

  predicate AlwaysSafe(s: State, steps: seq<Step>)
    requires Runs(s, steps)
    decreases |steps|
  {
    Safe(s) && (steps == [] || AlwaysSafe(Next(s, steps[0]), steps[1..]))
  }

  /** However the processes interleave and crash: safe throughout exactly when every step was guarded. */
  lemma {:induction false} RunIsSafeExactlyWhenGuarded(s: State, steps: seq<Step>)
    requires Safe(s) && Runs(s, steps)
    ensures AlwaysSafe(s, steps) <==> AllGuarded(s, steps)
    decreases |steps|
  {
    if steps == [] {
    } else {
      StepIsSafeExactlyWhenGuarded(s, steps[0]);
      if Safe(Next(s, steps[0])) {
        RunIsSafeExactlyWhenGuarded(Next(s, steps[0]), steps[1..]);
      } else {
        assert !AlwaysSafe(Next(s, steps[0]), steps[1..]);
      }
    }
  }

  // ---------------------------------------------------------------- runs that block and unblock

  /** The step reads the row to have the rules removed. */
  predicate BeginsRemoval(s: State, step: Step) {
    step.Clear? || (step.Reconcile? && s.row.onRouter && !Desired(s.row))
  }

  predicate Begins(step: Step) {
    step.BlockOne? || step.Reconcile? || step.Clear? || step.List?
  }

  predicate Removing(s: State) {
    exists p :: p in s.tasks && s.tasks[p].WillRemove?
  }

  /**
   Nobody touches the router by hand. From reading the row to the router's reply a removal has the client to
   itself, but for others that wait for their commit; refused with the flag up, it leaves a rule that cuts
   if there was one; granted, it does not crash before it has taken back the flag.
   */
  predicate Tidy(s: State, step: Step)
    requires Possible(s, step)
  {
    && !step.ByHand?
    && (Begins(step) ==> !Removing(s))
    && (BeginsRemoval(s, step) ==> forall p :: p in s.tasks ==> s.tasks[p].WillForget?)
    && (step.Answer? && s.tasks[step.p].WillRemove? && !step.ok && s.row.onRouter && Cuts(s.rules) ==>
          Cuts(step.after))
    && (step.Crash? && Forgets(s.tasks[step.p]) && s.row.onRouter ==> Cuts(s.rules))
  }

  predicate AllTidy(s: State, steps: seq<Step>)
    requires Runs(s, steps)
    decreases |steps|
  {
    steps == [] || (Tidy(s, steps[0]) && AllTidy(Next(s, steps[0]), steps[1..]))
  }

  /** Only rules of our own are on the router, listings are fresh, and removals have the client to themselves. */
  predicate Orderly(s: State) {
    && (forall r :: r in s.rules ==> r == CUTTING)
    && (forall p :: p in s.tasks ==> InOrder(s, p))
  }

  predicate InOrder(s: State, p: nat)
    requires p in s.tasks
  {
    && (s.tasks[p].Listed? && s.tasks[p].seen.Some? ==> Cuts(s.rules))
    && (s.tasks[p].WillRemove? ==>
          && (s.row.onRouter ==> s.tasks[p].snap.onRouter)
          && forall q :: q in s.tasks && q != p ==> s.tasks[q].WillForget?)
  }

  lemma TidyIsGuarded(s: State, step: Step)
    requires Safe(s) && Orderly(s) && Possible(s, step) && Tidy(s, step)
    ensures Guard(s, step)
  {
    if step.Answer? || step.Mark? {
      assert InOrder(s, step.p);
      assert s.rules != [] ==> s.rules[0] in s.rules;
    }
  }

  lemma {:induction false} LeftOfMembers(rest: seq<Rule>, rules: seq<Rule>, r: Rule)
    requires LeftOf(rest, rules) && r in rest
    ensures r in rules
    decreases |rules|
  {
    if LeftOf(rest, rules[1..]) {
      LeftOfMembers(rest, rules[1..], r);
    } else if r != rest[0] {
      assert r in rest[1..];
      LeftOfMembers(rest[1..], rules[1..], r);
    }
  }

  lemma OrderlyKept(s: State, step: Step)
    requires Orderly(s) && Possible(s, step) && Tidy(s, step)
    ensures Orderly(Next(s, step))
  {
    var t := Next(s, step);
    forall r | r in t.rules ensures r == CUTTING {
      if r !in s.rules && step.Answer? && s.tasks[step.p].WillRemove? && !step.ok {
        LeftOfMembers(step.after, s.rules, r);
      }
    }
    if step.Answer? {
      assert InOrder(s, step.p);
    }
    if step.Answer? || step.Mark? || step.List? {
      assert s.rules != [] ==> s.rules[0] in s.rules;
    }
    forall p | p in t.tasks ensures InOrder(t, p) {
      if p in s.tasks {
        assert InOrder(s, p);
      }
    }
  }

  /**
   With only our own rules on the router, blockings and unblockings by scripts, job and service may run in any
   number and crash, and every state is safe, as long as the run is tidy. So whenever it comes to rest the flag
   tells the truth.
   */
  lemma {:induction false} TidyRunsAreSafe(s: State, steps: seq<Step>)
    requires Safe(s) && Orderly(s) && Runs(s, steps) && AllTidy(s, steps)
    ensures AlwaysSafe(s, steps) && Safe(After(s, steps)) && Orderly(After(s, steps))
    ensures After(s, steps).tasks == map[] && After(s, steps).row.onRouter ==> Cuts(After(s, steps).rules)
    decreases |steps|
  {
    if steps == [] {
    } else {
      TidyIsGuarded(s, steps[0]);
      OrderlyKept(s, steps[0]);
      StepIsSafeExactlyWhenGuarded(s, steps[0]);
      TidyRunsAreSafe(Next(s, steps[0]), steps[1..]);
    }
  }

  // ---------------------------------------------------------------- what the job repairs

  /** One pass of the enforcement job over the router, nobody interfering. */
  function Pass(s: State, p: nat, ok: bool, after: seq<Rule>): State
    requires p !in s.tasks && PassPossible(s, p, ok, after)
  {
    var t := Next(s, Reconcile(p));
    if p !in t.tasks then t
    else
      var u := Next(t, Answer(p, ok, after));
      if p in u.tasks then Next(u, Commit(p)) else u
  }

  predicate PassPossible(s: State, p: nat, ok: bool, after: seq<Rule>)
    requires p !in s.tasks
  {
    Desired(s.row) != s.row.onRouter ==> Possible(Next(s, Reconcile(p)), Answer(p, ok, after))
  }

  predicate Aligned(s: State) {
    Cuts(s.rules) == Desired(s.row)
  }

  /** What the row and the rules must look like for the job ever to bring the router in line. */
  predicate Repairable(s: State) {
    if s.row.onRouter == Desired(s.row) then Aligned(s)
    else Desired(s.row) ==> s.rules == [] || Cuts(s.rules)
  }

  /**
   One answered pass settles the row: the flag is up exactly when the client is blocked and its radio does not
   enforce the block, or is given up. From a repairable state, and no other, the rule that cuts is there
   exactly then.
   */
  lemma AnsweredPass(s: State, p: nat, after: seq<Rule>)
    requires p !in s.tasks && PassPossible(s, p, true, after)
    ensures var t := Pass(s, p, true, after);
            var owed := s.row.blocked && (!s.row.enforced || s.row.abandoned);
            && t.row == Row(s.row.blocked, s.row.enforced, s.row.abandoned, owed) && t.tasks == s.tasks
            && ((Cuts(t.rules) <==> owed) <==> Repairable(s)) && (Repairable(t) <==> Repairable(s))
            && (owed == s.row.onRouter ==> t.rules == s.rules)
            && (owed && !s.row.onRouter ==> t.rules == if s.rules == [] then [CUTTING] else s.rules)
            && (!owed && s.row.onRouter ==> t.rules == [])
  {
    var t := Pass(s, p, true, after);
    assert t.tasks == s.tasks;
  }

  /** A pass the router refused decides nothing: the row is as before and what was repairable still is. */
  lemma RefusedPass(s: State, p: nat, after: seq<Rule>)
    requires p !in s.tasks && PassPossible(s, p, false, after)
    ensures var t := Pass(s, p, false, after);
            && t.row == s.row && t.tasks == s.tasks && (Repairable(t) <==> Repairable(s))
  {
    var t := Pass(s, p, false, after);
    assert t.tasks == s.tasks;
    if Desired(s.row) == s.row.onRouter {
      assert t == s;
    }
  }

  datatype Reply = Reply(ok: bool, after: seq<Rule>)

  predicate PassesPossible(s: State, p: nat, replies: seq<Reply>)
    requires p !in s.tasks
    decreases |replies|
  {
    replies == [] ||
    (PassPossible(s, p, replies[0].ok, replies[0].after) &&
     p !in Pass(s, p, replies[0].ok, replies[0].after).tasks &&
     PassesPossible(Pass(s, p, replies[0].ok, replies[0].after), p, replies[1..]))
  }

  function Passes(s: State, p: nat, replies: seq<Reply>): State
    requires p !in s.tasks && PassesPossible(s, p, replies)
    decreases |replies|
  {
    if replies == [] then s else Passes(Pass(s, p, replies[0].ok, replies[0].after), p, replies[1..])
  }

  /**
   After any number of passes, one of them answered: the flag is up exactly when the client is blocked and its
   radio does not enforce the block, or is given up; and the rule that cuts is there exactly then if, and only
   if, the state was repairable to begin with.
   */
  lemma {:induction false} JobRepairsTheRepairable(s: State, p: nat, replies: seq<Reply>)
    requires p !in s.tasks && PassesPossible(s, p, replies)
    ensures Repairable(Passes(s, p, replies)) <==> Repairable(s)
    ensures var t := Passes(s, p, replies);
            var owed := s.row.blocked && (!s.row.enforced || s.row.abandoned);
            (exists i :: 0 <= i < |replies| && replies[i].ok) || s.row.onRouter == owed ==>
              && t.row == Row(s.row.blocked, s.row.enforced, s.row.abandoned, owed)
              && ((Cuts(t.rules) <==> owed) <==> Repairable(s))
    decreases |replies|
  {
    if replies == [] {
    } else {
      var t := Pass(s, p, replies[0].ok, replies[0].after);
      if replies[0].ok {
        AnsweredPass(s, p, replies[0].after);
      } else {
        RefusedPass(s, p, replies[0].after);
      }
      JobRepairsTheRepairable(t, p, replies[1..]);
      if i :| 1 <= i < |replies| && replies[i].ok {
        assert replies[1..][i - 1].ok;
      }
    }
  }

  // ---------------------------------------------------------------- what is reported

  datatype Mechanism = ByLr | ByRouter

  /** `enforcement_state` */
  function ReportedCut(row: Row): Option<Mechanism> {
    if !row.blocked then None
    else if row.enforced && !row.abandoned then Some(ByLr)
    else if row.onRouter then Some(ByRouter)
    else None
  }

  /**
   In a safe state a reported router cut is real, unless a removal waits for its commit; a row the job has
   settled reports every order as enforced; and where the router is in line, a client reported as cut on its
   radio is not cut there as well.
   */
  lemma ReportsAreTrue(s: State)
    requires Safe(s)
    ensures ReportedCut(s.row) == Some(ByRouter) ==> Cuts(s.rules) || Forgotten(s)
    ensures s.row.onRouter == Desired(s.row) ==> (ReportedCut(s.row).Some? <==> s.row.blocked)
    ensures ReportedCut(s.row) == Some(ByLr) <==> s.row.blocked && s.row.enforced && !s.row.abandoned
    ensures Aligned(s) && ReportedCut(s.row) == Some(ByLr) ==> !Cuts(s.rules)
  {
  }

  // ---------------------------------------------------------------- how it goes wrong

  const ONLINE := Row(false, false, false, false)
  const ORDERED := Row(true, false, false, false)
  const COVERED := Row(true, false, false, true)

  /** A disabled rule of somebody else's is taken for a cut, and no pass of the job corrects it. */
  lemma DisabledRuleTakenForCut()
    ensures var s := State([Rule(true, false)], ONLINE, map[]);
            var steps := [BlockOne(0), Answer(0, true, [Rule(true, false)]), Commit(0)];
            && Safe(s) && Runs(s, steps)
            && After(s, steps) == State([Rule(true, false)], COVERED, map[])
            && !Safe(After(s, steps)) && !Repairable(After(s, steps))
  {
    var s := State([Rule(true, false)], ONLINE, map[]);
    var s1 := Next(s, BlockOne(0));
    var s2 := Next(s1, Answer(0, true, s.rules));
    var s3 := Next(s2, Commit(0));
    assert s3.tasks == map[];
    Steps3(s, BlockOne(0), Answer(0, true, s.rules), Commit(0));
  }

  lemma Steps3(s: State, a: Step, b: Step, c: Step)
    requires Possible(s, a) && Possible(Next(s, a), b) && Possible(Next(Next(s, a), b), c)
    ensures Runs(s, [a, b, c]) && After(s, [a, b, c]) == Next(Next(Next(s, a), b), c)
  {
    assert [a, b, c][1..] == [b, c] && [b, c][1..] == [c] && [c][1..] == [];
    var w := Next(Next(s, a), b);
    assert Runs(Next(w, c), []);
    assert Runs(w, [c]) && After(w, [c]) == After(Next(w, c), []);
    assert Runs(Next(s, a), [b, c]) && After(Next(s, a), [b, c]) == After(w, [c]);
  }

  /**
   An unblocking that crashes between the removal and its commit, then a new order to block: the row says
   the rule is there, so neither the job nor the script ever asks the router again.
   */
  lemma CrashAfterRemovalSticks()
    ensures var s := State([CUTTING], COVERED.(blocked := false), map[]);
            var steps := [Clear(0), Answer(0, true, []), Crash(0)];
            && Safe(s) && Runs(s, steps)
            && !Safe(After(s, steps)) && Repairable(After(s, steps))
            && Possible(After(s, steps), Decide(COVERED))
            && !Repairable(Next(After(s, steps), Decide(COVERED)))
  {
    var s := State([CUTTING], COVERED.(blocked := false), map[]);
    Steps3(s, Clear(0), Answer(0, true, []), Crash(0));
  }

  /** A blocking that crashes between the rule and its commit cuts a client nobody ordered cut, for good. */
  lemma CrashAfterBlockSticks()
    ensures var s := State([], ONLINE, map[]);
            var steps := [BlockOne(0), Answer(0, true, [CUTTING]), Crash(0)];
            && Runs(s, steps) && Safe(After(s, steps))
            && Cuts(After(s, steps).rules) && !Repairable(After(s, steps))
  {
    Steps3(State([], ONLINE, map[]), BlockOne(0), Answer(0, true, [CUTTING]), Crash(0));
  }

  /**
   An unblocking of a client who is online, an order to block that comes while its removal is under way,
   and the job in between: the removal takes the job's rule, and its commit changes no column, so the row
   keeps saying the rule is there.
   */
  lemma StaleRemovalSticks()
    ensures var s := State([], ONLINE, map[]);
            && Possible(s, Clear(1)) && Possible(Next(s, Clear(1)), Decide(ORDERED))
            && var ordered := Next(Next(s, Clear(1)), Decide(ORDERED));
               var steps := [Reconcile(2), Answer(2, true, [CUTTING]), Commit(2)];
               && Safe(s) && Runs(ordered, steps)
               && Safe(After(ordered, steps))
               && Possible(After(ordered, steps), Answer(1, true, []))
               && Possible(Next(After(ordered, steps), Answer(1, true, [])), Commit(1))
               && var t := Next(Next(After(ordered, steps), Answer(1, true, [])), Commit(1));
                  t.row == COVERED && t.rules == [] && !Safe(t) && !Repairable(t)
  {
    var s := State([], ONLINE, map[]);
    var ordered := Next(Next(s, Clear(1)), Decide(ORDERED));
    Steps3(ordered, Reconcile(2), Answer(2, true, [CUTTING]), Commit(2));
  }
}
