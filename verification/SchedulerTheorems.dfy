/** Safety of whole runs. */
module SchedulerTheorems {
  import opened Wrappers
  import opened Strings
  import opened Paths
  import opened Plans
  import opened Scheduler
  import opened SchedulerInvariants

  // ---------------------------------------------------------------- dispatch safety

  lemma SameGroupShared(plan: Plan, o: Outcomes, n: string, a: string, b: string)
    requires SameGroup(plan, a, b)
    ensures GroupSucceeds(plan, o, n, a) <==> GroupSucceeds(plan, o, n, b)
  {
    if GroupSucceeds(plan, o, n, a) {
      var x :| Ancestor(plan, x, n) && SameGroup(plan, a, x) && Succeeds(o, x);
      assert SameGroup(plan, b, x);
    }
    if GroupSucceeds(plan, o, n, b) {
      var x :| Ancestor(plan, x, n) && SameGroup(plan, b, x) && Succeeds(o, x);
      assert SameGroup(plan, a, x);
    }
  }

  /** What the tests promise about an admissible task. */
  lemma AdmissibleMeans(plan: Plan, o: Outcomes, n: string)
    requires Admissible(plan, o, n)
    ensures forall a :: Ancestor(plan, a, n) ==> a in o
    ensures forall a :: Ancestor(plan, a, n) ==>
      GroupSucceeds(plan, o, n, a) || forall b :: Ancestor(plan, b, n) && SameGroup(plan, a, b) ==>
        o[b].skip == SkipWhen
    ensures forall r, d :: r in plan.refs[n] && d in Producers(plan, r) && d in o ==>
      exists d' :: d' in Producers(plan, r) && Succeeds(o, d')
  {
    forall a, b | Ancestor(plan, a, n) && Ancestor(plan, b, n) && SameGroup(plan, a, b) && !GroupSucceeds(plan, o, n, a)
      ensures o[b].skip == SkipWhen
    {
      SameGroupShared(plan, o, n, a, b);
      assert b in o && !Succeeds(o, b);
      assert !Blocks(o, b);
    }
    forall r, d | r in plan.refs[n] && d in Producers(plan, r) && d in o
      ensures exists d' :: d' in Producers(plan, r) && Succeeds(o, d')
    {
      assert !RefMissing(plan, o, r);
    }
  }

  /** Dispatch safety: while a main task is in flight, every task with a path to it has its final
      outcome, every ancestor group has a success or consists of when-skips, and every main task
      whose results it refers to has a succeeded row. */
  lemma DispatchSafety(plan: Plan, es: seq<Event>, n: string)
    requires WellFormed(plan) && Exec(plan, es).Some?
    requires InMain(plan, Exec(plan, es).value.ctl) && n in Exec(plan, es).value.ctl.flights
    ensures
      var o := Exec(plan, es).value.outcomes;
      && n in plan.main && n in plan.refs
      && (forall a :: Ancestor(plan, a, n) ==> a in o)
      && (forall a :: Ancestor(plan, a, n) ==>
            GroupSucceeds(plan, o, n, a) || forall b :: Ancestor(plan, b, n) && SameGroup(plan, a, b) ==>
              o[b].skip == SkipWhen)
      && (forall r, d :: r in plan.refs[n] && d in Producers(plan, r) && d in plan.main ==>
            exists d' :: d' in Producers(plan, r) && Succeeds(o, d'))
  {
    RunInv(plan, es);
    var s := Exec(plan, es).value;
    MainOnly(plan, s.outcomes, s.ctl);
    assert UnderWay(plan, s.ctl, n);
    AdmissibleMeans(plan, s.outcomes, n);
    forall r, d | r in plan.refs[n] && d in Producers(plan, r) && d in plan.main ensures d in s.outcomes {
      ProducerIsAncestor(plan, n, r, d);
    }
  }

  /** When a main task is examined all its ancestors are present: the branch for an absent
      ancestor is never taken. */
  lemma NoAncestorIsAbsent(plan: Plan, es: seq<Event>, a: string)
    requires WellFormed(plan) && Exec(plan, es).Some?
    requires
      var c := Exec(plan, es).value.ctl;
      InMain(plan, c) && c.pos < |Batch(plan, c.lvl)| && Ancestor(plan, a, Batch(plan, c.lvl)[c.pos])
    ensures a in Exec(plan, es).value.outcomes
  {
    RunInv(plan, es);
    var s := Exec(plan, es).value;
    LevelIsSettled(plan, s.outcomes, s.ctl, Batch(plan, s.ctl.lvl)[s.ctl.pos]);
  }

  // ---------------------------------------------------------------- exactly one outcome each

  lemma {:induction false} PrefixRuns(plan: Plan, es: seq<Event>, k: nat)
    requires k <= |es| && Exec(plan, es).Some?
    ensures Exec(plan, es[..k]).Some?
    decreases |es|
  {
    if k == |es| {
      assert es[..k] == es;
    } else {
      assert es[..|es| - 1][..k] == es[..k];
      PrefixRuns(plan, es[..|es| - 1], k);
    }
  }

  /** Once a task has an outcome, every later state of the run has the same outcome for it. */
  lemma {:induction false} OutcomesAreFinal(plan: Plan, es: seq<Event>, k: nat)
    requires WellFormed(plan) && k <= |es| && Exec(plan, es).Some?
    ensures Exec(plan, es[..k]).Some? && Extends(Exec(plan, es[..k]).value.outcomes, Exec(plan, es).value.outcomes)
    decreases |es|
  {
    PrefixRuns(plan, es, k);
    if k == |es| {
      assert es[..k] == es;
    } else {
      var init := es[..|es| - 1];
      assert init[..k] == es[..k];
      OutcomesAreFinal(plan, init, k);
      RunInv(plan, init);
      StepInv(plan, Exec(plan, init).value, es[|es| - 1]);
    }
  }

  /** A finished run has an outcome for every main and every finally task, and for nothing else. */
  lemma EveryTaskHasAnOutcome(plan: Plan, es: seq<Event>)
    requires WellFormed(plan) && Exec(plan, es).Some? && Exec(plan, es).value.ctl.stage.Done?
    ensures Exec(plan, es).value.outcomes.Keys == plan.main + Elements(plan.finallys)
  {
    RunInv(plan, es);
    var s := Exec(plan, es).value;
    FinallyPassed(plan, s.ctl);
  }

  /** At the end of the finally phase everything has been passed. */
  lemma FinallyPassed(plan: Plan, c: Control)
    requires WellFormed(plan) && Shape(plan, c) && !InMain(plan, c)
    ensures forall n :: n in plan.main ==> Passed(plan, c.lvl, c.pos, n)
    ensures c.pos == |plan.finallys| ==> forall n :: Passed(plan, c.lvl, c.pos, n) <==>
      n in plan.main + Elements(plan.finallys)
  {
    forall n | n in plan.main ensures EarlierLevel(plan, c.lvl, n) {
      assert Placed(plan.levels, n);
      var i: nat :| InLevel(plan.levels, i, n);
    }
    if c.pos == |plan.finallys| {
      forall n ensures Passed(plan, c.lvl, c.pos, n) <==> n in plan.main + Elements(plan.finallys) {
        WalkedAll(plan.finallys, n);
        if Passed(plan, c.lvl, c.pos, n) { PassedIsTask(plan, c.lvl, c.pos, n); }
      }
    }
  }

  /** From the first finally step on, every main task has its outcome. */
  lemma MainIsTerminal(plan: Plan, s: State)
    requires WellFormed(plan) && Inv(plan, s) && !InMain(plan, s.ctl)
    ensures MainPart(plan, s.outcomes).Keys == plan.main
  {
    forall n | n in plan.main ensures n in s.outcomes {
      MainHasOutcome(plan, s.outcomes, s.ctl, n);
    }
  }

  lemma MainHasOutcome(plan: Plan, o: Outcomes, c: Control, n: string)
    requires WellFormed(plan) && Shape(plan, c) && Accounted(plan, o, c) && !InMain(plan, c) && n in plan.main
    ensures n in o
  {
    assert Placed(plan.levels, n);
    var i: nat :| InLevel(plan.levels, i, n);
    assert EarlierLevel(plan, c.lvl, n);
    assert n in c.flights ==> Walked(plan.finallys, c.pos, n);
  }

  // ---------------------------------------------------------------- direct predecessors suffice

  /** Without matrices the test over all ancestors is the test over direct predecessors: a
      blocking outcome propagates along every path, and a when-skip hides none. */
  lemma DirectPredecessorsSuffice(plan: Plan, es: seq<Event>)
    requires WellFormed(plan) && plan.parent == map[] && Exec(plan, es).Some?
    requires var s := Exec(plan, es).value; InMain(plan, s.ctl) && s.ctl.pos < |Batch(plan, s.ctl.lvl)|
    ensures
      var s := Exec(plan, es).value;
      var n := Batch(plan, s.ctl.lvl)[s.ctl.pos];
      UpstreamBlocks(plan, s.outcomes, n) <==> exists u :: Edge(plan.out, u, n) && Blocks(s.outcomes, u)
  {
    RunInv(plan, es);
    var s := Exec(plan, es).value;
    MainOnly(plan, s.outcomes, s.ctl);
    LevelIsSettled(plan, s.outcomes, s.ctl, Batch(plan, s.ctl.lvl)[s.ctl.pos]);
    PredecessorsSuffice(plan, s.outcomes, Batch(plan, s.ctl.lvl)[s.ctl.pos]);
  }

  lemma PredecessorsSuffice(plan: Plan, o: Outcomes, n: string)
    requires WellFormed(plan) && plan.parent == map[] && AllExplained(plan, o) && o.Keys <= plan.main
    requires Settled(plan, o, n)
    ensures UpstreamBlocks(plan, o, n) <==> exists u :: Edge(plan.out, u, n) && Blocks(o, u)
  {
    LevellingMeansAcyclic(plan.main, plan.out, plan.levels);
    if u :| Edge(plan.out, u, n) && Blocks(o, u) {
      EdgeReaches(plan.out, u, n);
      assert Ancestor(plan, u, n) && !GroupSucceeds(plan, o, n, u);
    }
    if a :| Ancestor(plan, a, n) && Blocks(o, a) {
      var u := ReachesLast(plan.out, a, n);
      if u != a {
        assert u in o by { EdgeReaches(plan.out, u, n); assert Ancestor(plan, u, n); }
        BlockingPropagates(plan, o, a, u);
      }
    }
  }

  lemma BlockingPropagates(plan: Plan, o: Outcomes, a: string, u: string)
    requires WellFormed(plan) && plan.parent == map[] && AllExplained(plan, o) && o.Keys <= plan.main
    requires a in plan.main && a != u && Reaches(plan.out, a, u) && Blocks(o, a) && u in o
    ensures Blocks(o, u)
  {
    assert Explained(plan, o, u);
    assert Ancestor(plan, a, u) && !GroupSucceeds(plan, o, u, a);
    assert UpstreamBlocks(plan, o, u);
  }

  // ---------------------------------------------------------------- every blocked task has a cause

  /** n refers to results that m was to produce, and no producer of them succeeded. */
  ghost predicate Consumes(plan: Plan, o: Outcomes, n: string, m: string) {
    n in plan.refs && exists r :: r in plan.refs[n] && m in Producers(plan, r) && RefMissing(plan, o, r)
  }

  /** m is a reason why n did not run. */
  ghost predicate CausedBy(plan: Plan, o: Outcomes, n: string, m: string) {
    m in o && Ancestor(plan, m, n) && ((Blocks(o, m) && !GroupSucceeds(plan, o, n, m)) || Consumes(plan, o, n, m))
  }

  /** A reason that needs no further reason: a task that ran without success, one stopped by a
      budget or cancellation, or a when-skipped task whose results are consumed. */
  ghost predicate RootCause(plan: Plan, o: Outcomes, n: string, m: string) {
    m in o &&
    ((o[m].skip == NoSkip && o[m].status != Succeeded) || o[m] == Stopped()
      || (o[m].skip == SkipWhen && Consumes(plan, o, n, m)))
  }

  /** Blocked tasks, each caused by the next, up to a root cause. */
  ghost predicate Justification(plan: Plan, o: Outcomes, c: seq<string>) {
    && |c| >= 2
    && (forall i :: 0 <= i < |c| - 1 ==> c[i] in o && o[c[i]] == BlockedOutcome() && CausedBy(plan, o, c[i], c[i + 1]))
    && RootCause(plan, o, c[|c| - 2], c[|c| - 1])
  }

  lemma ImmediateCause(plan: Plan, o: Outcomes, n: string) returns (m: string)
    requires WellFormed(plan) && o.Keys <= plan.main && n in o && Explained(plan, o, n) && o[n].skip == SkipBlocked
    ensures CausedBy(plan, o, n, m) && o[m].status != Succeeded && (o[m].skip == SkipWhen ==> Consumes(plan, o, n, m))
  {
    if UpstreamBlocks(plan, o, n) {
      m :| Ancestor(plan, m, n) && Blocks(o, m) && !GroupSucceeds(plan, o, n, m);
    } else {
      var r :| r in plan.refs[n] && RefMissing(plan, o, r);
      m :| m in Producers(plan, r) && m in o;
      ProducerIsAncestor(plan, n, r, m);
      assert !Succeeds(o, m);
    }
  }

  lemma {:induction false} CauseChain(plan: Plan, o: Outcomes, n: string, i: nat) returns (c: seq<string>)
    requires WellFormed(plan) && o.Keys <= plan.main && AllExplained(plan, o)
    requires n in o && o[n].skip == SkipBlocked && InLevel(plan.levels, i, n)
    ensures Justification(plan, o, c) && c[0] == n
    decreases i
  {
    var m := ImmediateCause(plan, o, n);
    assert Explained(plan, o, m) && Explained(plan, o, n);
    if o[m].skip == SkipBlocked {
      assert Placed(plan.levels, m);
      var j: nat :| InLevel(plan.levels, j, m);
      ReachesClimbs(plan.main, plan.out, plan.levels, m, n, j, i);
      var rest := CauseChain(plan, o, m, j);
      c := [n] + rest;
      ExtendJustification(plan, o, n, rest);
    } else {
      c := [n, m];
    }
  }

  lemma ExtendJustification(plan: Plan, o: Outcomes, n: string, rest: seq<string>)
    requires Justification(plan, o, rest) && n in o && o[n] == BlockedOutcome() && CausedBy(plan, o, n, rest[0])
    ensures Justification(plan, o, [n] + rest)
  {
    var c := [n] + rest;
    forall i | 0 <= i < |c| - 1 ensures c[i] in o && o[c[i]] == BlockedOutcome() && CausedBy(plan, o, c[i], c[i + 1]) {
      if i > 0 { assert c[i] == rest[i - 1] && c[i + 1] == rest[i]; }
    }
  }

  /** Every main task that did not run was stopped, or is linked by a finite chain of blocked
      tasks to a root cause. */
  lemma NotRunIsJustified(plan: Plan, es: seq<Event>, n: string) returns (c: seq<string>)
    requires WellFormed(plan) && Exec(plan, es).Some?
    requires
      var o := Exec(plan, es).value.outcomes;
      n in plan.main && n in o && o[n].skip !in {NoSkip, SkipWhen}
    ensures
      var m := MainPart(plan, Exec(plan, es).value.outcomes);
      m[n] == Stopped() || (Justification(plan, m, c) && c[0] == n)
  {
    RunInv(plan, es);
    var m := MainPart(plan, Exec(plan, es).value.outcomes);
    assert Explained(plan, m, n);
    c := [];
    if m[n].skip == SkipBlocked {
      assert Placed(plan.levels, n);
      var i: nat :| InLevel(plan.levels, i, n);
      c := CauseChain(plan, m, n, i);
    }
  }

  /** Whichever cause of a blocked task is followed, it is a root cause or blocked by a further cause. */
  lemma EveryCauseLeadsOn(plan: Plan, es: seq<Event>, n: string, m: string)
    requires WellFormed(plan) && Exec(plan, es).Some?
    requires CausedBy(plan, MainPart(plan, Exec(plan, es).value.outcomes), n, m)
    ensures
      var o := MainPart(plan, Exec(plan, es).value.outcomes);
      RootCause(plan, o, n, m) || (o[m] == BlockedOutcome() && exists d :: CausedBy(plan, o, m, d))
  {
    RunInv(plan, es);
    var o := MainPart(plan, Exec(plan, es).value.outcomes);
    assert Explained(plan, o, m);
    if o[m].skip == SkipBlocked {
      var d := ImmediateCause(plan, o, m);
    }
  }

  /** Following causes ends: a chain of causes climbs down the levels. */
  lemma {:induction false} CausesEnd(plan: Plan, o: Outcomes, c: seq<string>, i: nat)
    requires WellFormed(plan) && c != [] && InLevel(plan.levels, i, c[0])
    requires forall k :: 0 <= k < |c| - 1 ==> CausedBy(plan, o, c[k], c[k + 1])
    ensures |c| <= i + 1 <= |plan.levels|
    decreases |c|
  {
    if |c| > 1 {
      assert CausedBy(plan, o, c[0], c[1]);
      assert Placed(plan.levels, c[1]);
      var j: nat :| InLevel(plan.levels, j, c[1]);
      ReachesClimbs(plan.main, plan.out, plan.levels, c[1], c[0], j, i);
      CausesEnd(plan, o, c[1..], j);
    }
  }

  // ---------------------------------------------------------------- the run's status

  ghost predicate AnyStatus(o: Outcomes, st: Status) {
    exists n :: n in o && o[n].status == st
  }

  /** The join over the outcomes and the observed expiry of the tasks budget. */
  ghost function Expected(o: Outcomes, tasksExpired: bool): RunStatus {
    if tasksExpired || AnyStatus(o, TimedOut) then RunTimeout
    else if AnyStatus(o, Failed) || AnyStatus(o, InfraFailed) then RunFailed
    else RunSucceeded
  }

  /** What the run's status is while it goes on and when it is over. */
  ghost predicate StatusInv(plan: Plan, s: State) {
    && (s.tasksExpired ==> !InMain(plan, s.ctl) && !s.ctl.stage.Entering?)
    && (s.ctl.stage.Done? ==> !InMain(plan, s.ctl))
    && s.overall ==
       if !s.ctl.stage.Done? then Expected(s.outcomes, s.tasksExpired)
       else if s.clock.root == Canceled then RunCancelled
       else if BudgetDone(s.clock, false) then RunTimeout
       else Expected(s.outcomes, s.tasksExpired)
  }

  lemma ExpectedJoins(o: Outcomes, expired: bool, n: string, oc: Outcome)
    requires n !in o
    ensures Expected(o[n := oc], expired) == Join(Expected(o, expired), oc.status)
  {
    forall st ensures AnyStatus(o[n := oc], st) <==> AnyStatus(o, st) || oc.status == st {
      if AnyStatus(o, st) {
        var m :| m in o && o[m].status == st;
        assert o[n := oc][m].status == st;
      }
      if oc.status == st { assert o[n := oc][n].status == st; }
    }
  }

  lemma RecordingStatus(plan: Plan, s: State, d: Option<(string, Outcome)>)
    requires s.overall == Expected(s.outcomes, s.tasksExpired) && (d.Some? ==> d.value.0 !in s.outcomes)
    ensures Recording(plan, s, d).overall == Expected(Recording(plan, s, d).outcomes, s.tasksExpired)
    ensures Recording(plan, s, d).outcomes == WithDecision(s.outcomes, d)
  {
    if d.Some? {
      ExpectedJoins(s.outcomes, s.tasksExpired, d.value.0, d.value.1);
    }
  }

  lemma StepStatus(plan: Plan, s: State, e: Event)
    requires WellFormed(plan) && Inv(plan, s) && StatusInv(plan, s) && Enabled(plan, s, e)
    ensures StatusInv(plan, Apply(plan, s, e))
  {
    StepAccounts(plan, s, e);
    var d := Decided(plan, s.ctl, s.outcomes, e, Refuses(plan, s, e));
    RecordingStatus(plan, s, d);
    StatusParts(plan, s, e, Refuses(plan, s, e), d);
  }

  lemma StatusParts(plan: Plan, s: State, e: Event, refuses: bool, d: Option<(string, Outcome)>)
    requires Shape(plan, s.ctl) && StatusInv(plan, s) && Enabled(plan, s, e)
    requires refuses == Refuses(plan, s, e) && d == Decided(plan, s.ctl, s.outcomes, e, refuses)
    requires Recording(plan, s, d).overall == Expected(Recording(plan, s, d).outcomes, s.tasksExpired)
    ensures StatusInv(plan, Apply(plan, s, e))
  {
  }

  lemma {:induction false} RunStatusInv(plan: Plan, es: seq<Event>)
    requires WellFormed(plan) && Exec(plan, es).Some?
    ensures StatusInv(plan, Exec(plan, es).value)
  {
    if es != [] {
      var init := es[..|es| - 1];
      RunStatusInv(plan, init);
      RunInv(plan, init);
      StepStatus(plan, Exec(plan, init).value, es[|es| - 1]);
    }
  }

  /** The status of a finished run: cancelled, else timeout, else failed, else succeeded, by a join
      over the outcomes and the expired budgets that does not depend on completion order. */
  lemma FinalStatus(plan: Plan, es: seq<Event>)
    requires WellFormed(plan) && Exec(plan, es).Some? && Exec(plan, es).value.ctl.stage.Done?
    ensures
      var s := Exec(plan, es).value;
      s.overall ==
        if s.clock.root == Canceled then RunCancelled
        else if BudgetDone(s.clock, false) || s.tasksExpired || AnyStatus(s.outcomes, TimedOut) then RunTimeout
        else if AnyStatus(s.outcomes, Failed) || AnyStatus(s.outcomes, InfraFailed) then RunFailed
        else RunSucceeded
  {
    RunStatusInv(plan, es);
  }
}
