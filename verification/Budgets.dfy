/** What a run makes of contexts that end: which tasks still run, and what is recorded for them. */
module Budgets {
  import opened Wrappers
  import opened Paths
  import opened Plans
  import opened Scheduler
  import opened SchedulerInvariants
  import opened SchedulerTheorems

  /** The context of a phase has ended: the run's own, the pipeline's, or the phase's. */
  predicate Ended(clock: Clock, main: bool) {
    clock.root != Live || clock.pipeline || (main && clock.tasks) || (!main && clock.fin)
  }

  /** The task has passed its budget check or has an outcome. */
  ghost predicate BegunOrOver(s: State, n: string) {
    n in s.outcomes || (n in s.ctl.flights && s.ctl.flights[n].started)
  }

  /** An outcome of a task that never ran: stopped, or blocked by its inputs. */
  predicate NeverRan(oc: Outcome) {
    oc.status == NotRun && oc.skip in {SkipStopped, SkipBlocked} && oc.results.None?
  }

  lemma FlightPhase(plan: Plan, c: Control, n: string)
    requires WellFormed(plan) && Shape(plan, c) && n in c.flights
    ensures InMain(plan, c) <==> n in plan.main
  {
    assert Walked(Batch(plan, c.lvl), c.pos, n);
    var k :| 0 <= k < c.pos && k < |Batch(plan, c.lvl)| && Batch(plan, c.lvl)[k] == n;
    if InMain(plan, c) {
      assert InLevel(plan.levels, c.lvl, n);
    }
  }

  // ---------------------------------------------------------------- a stop stops

  /** The task's context has ended, and it has not run and will not. */
  ghost predicate Stayed(plan: Plan, s: State, n: string) {
    && Ended(s.clock, n in plan.main)
    && (n in s.outcomes ==> NeverRan(s.outcomes[n]))
    && (n in s.ctl.flights && n !in s.outcomes ==> !s.ctl.flights[n].started)
  }

  lemma EndedStays(plan: Plan, s: State, e: Event, main: bool)
    requires Enabled(plan, s, e) && Ended(s.clock, main)
    ensures Ended(Apply(plan, s, e).clock, main)
  {
  }

  lemma StayedStep(plan: Plan, s: State, e: Event, n: string)
    requires WellFormed(plan) && Inv(plan, s) && Enabled(plan, s, e) && Stayed(plan, s, n)
    ensures Stayed(plan, Apply(plan, s, e), n)
  {
    EndedStays(plan, s, e, n in plan.main);
    ApplyParts(plan, s, e);
    StepAccounts(plan, s, e);
    if n !in s.outcomes {
      StayedMove(plan, s, e, n);
    } else {
      StaysLanded(plan, Apply(plan, s, e), n);
    }
  }

  lemma StaysLanded(plan: Plan, s: State, n: string)
    requires Shape(plan, s.ctl) && Accounted(plan, s.outcomes, s.ctl) && n in s.outcomes
    ensures n !in s.ctl.flights
  {
  }

  /** A task that has not begun does not begin, and gets no outcome but that of one that never ran. */
  lemma StayedMove(plan: Plan, s: State, e: Event, n: string)
    requires WellFormed(plan) && Inv(plan, s) && Enabled(plan, s, e) && n !in s.outcomes && Stayed(plan, s, n)
    ensures
      var d := Decided(plan, s.ctl, s.outcomes, e, Refuses(plan, s, e));
      d.Some? && d.value.0 == n ==> NeverRan(d.value.1)
    ensures
      var c' := Move(plan, s.ctl, e, Refuses(plan, s, e), View(plan, s));
      n in c'.flights ==> !c'.flights[n].started
  {
    if n in s.ctl.flights {
      FlightPhase(plan, s.ctl, n);
    }
  }

  /** Once the context of its phase has ended no task begins: every task that had not begun by then is
      recorded as not run, stopped or blocked, in every later state that has an outcome for it. */
  lemma {:induction false} NothingBegins(plan: Plan, es: seq<Event>, k: nat, n: string)
    requires WellFormed(plan) && k <= |es| && Exec(plan, es).Some? && Exec(plan, es[..k]).Some?
    requires var s := Exec(plan, es[..k]).value; Ended(s.clock, n in plan.main) && !BegunOrOver(s, n)
    ensures Stayed(plan, Exec(plan, es).value, n)
    decreases |es|
  {
    if k == |es| {
      assert es[..k] == es;
    } else {
      var init := es[..|es| - 1];
      assert init[..k] == es[..k];
      NothingBegins(plan, init, k, n);
      RunInv(plan, init);
      StayedStep(plan, Exec(plan, init).value, es[|es| - 1], n);
    }
  }

  /** The task's level is still to come when the context has ended, or is being stopped. */
  ghost predicate StillToCome(plan: Plan, s: State, i: nat, n: string) {
    && Ended(s.clock, true)
    && if n in s.outcomes then s.outcomes[n] == Stopped()
       else s.ctl.lvl < i || (s.ctl.lvl == i && (s.ctl.stage.Entering? || s.ctl.stage.Stopping?))
  }

  lemma ComingIsNew(plan: Plan, o: Outcomes, c: Control, i: nat, n: string)
    requires WellFormed(plan) && Shape(plan, c) && Accounted(plan, o, c) && InLevel(plan.levels, i, n)
    requires c.lvl < i || (c.lvl == i && c.stage.Entering?)
    ensures n !in o
  {
    if Walked(Batch(plan, c.lvl), c.pos, n) {
      assert InLevel(plan.levels, c.lvl, n);
    }
  }

  /** A whole level is stopped: its tasks are not left out of it before all have outcomes. */
  lemma LevelIsLeft(plan: Plan, o: Outcomes, c: Control, i: nat, n: string)
    requires Shape(plan, c) && Accounted(plan, o, c) && InLevel(plan.levels, i, n) && c.lvl == i
    requires CanMove(plan, c, Barrier)
    ensures n in o
  {
    WalkedAll(Batch(plan, i), n);
    assert Passed(plan, i, c.pos, n);
  }

  lemma StillToComeStep(plan: Plan, s: State, e: Event, i: nat, n: string)
    requires WellFormed(plan) && Inv(plan, s) && Enabled(plan, s, e) && InLevel(plan.levels, i, n)
    requires StillToCome(plan, s, i, n)
    ensures StillToCome(plan, Apply(plan, s, e), i, n)
  {
    EndedStays(plan, s, e, true);
    ApplyParts(plan, s, e);
    StepAccounts(plan, s, e);
    if n !in s.outcomes {
      if s.ctl.lvl == i {
        StoppingStep(plan, s, e, i, n);
      } else {
        EarlierLevelStep(plan, s, e, i, n);
      }
    }
  }

  lemma StoppingStep(plan: Plan, s: State, e: Event, i: nat, n: string)
    requires WellFormed(plan) && Inv(plan, s) && Enabled(plan, s, e) && InLevel(plan.levels, i, n)
    requires StillToCome(plan, s, i, n) && n !in s.outcomes && s.ctl.lvl == i
    ensures
      var s' := Apply(plan, s, e);
      if n in s'.outcomes then s'.outcomes[n] == Stopped()
      else s'.ctl.lvl == i && (s'.ctl.stage.Entering? || s'.ctl.stage.Stopping?)
  {
    if e.Barrier? {
      LevelIsLeft(plan, s.outcomes, s.ctl, i, n);
    }
  }

  lemma EarlierLevelStep(plan: Plan, s: State, e: Event, i: nat, n: string)
    requires WellFormed(plan) && Inv(plan, s) && Enabled(plan, s, e) && InLevel(plan.levels, i, n) && s.ctl.lvl < i
    ensures
      var s' := Apply(plan, s, e);
      n !in s'.outcomes && (s'.ctl.lvl < i || (s'.ctl.lvl == i && s'.ctl.stage.Entering?))
  {
    StepAccounts(plan, s, e);
    ComingIsNew(plan, Apply(plan, s, e).outcomes, Apply(plan, s, e).ctl, i, n);
  }

  /** ... and every task of a level not yet entered is stopped without being examined. */
  lemma {:induction false} LaterLevelsAreStopped(plan: Plan, es: seq<Event>, k: nat, i: nat, n: string)
    requires WellFormed(plan) && k <= |es| && Exec(plan, es).Some? && Exec(plan, es[..k]).Some?
    requires InLevel(plan.levels, i, n)
    requires
      var s := Exec(plan, es[..k]).value;
      Ended(s.clock, true) && (s.ctl.lvl < i || (s.ctl.lvl == i && s.ctl.stage.Entering?))
    ensures StillToCome(plan, Exec(plan, es).value, i, n)
    decreases |es|
  {
    if k == |es| {
      assert es[..k] == es;
      RunInv(plan, es);
      var s := Exec(plan, es).value;
      ComingIsNew(plan, s.outcomes, s.ctl, i, n);
    } else {
      var init := es[..|es| - 1];
      assert init[..k] == es[..k];
      LaterLevelsAreStopped(plan, init, k, i, n);
      RunInv(plan, init);
      StillToComeStep(plan, Exec(plan, init).value, es[|es| - 1], i, n);
    }
  }

  // ---------------------------------------------------------------- nothing else stops

  /** Every stopped outcome, and a level being stopped, has its reason. */
  ghost predicate StoppedForCause(plan: Plan, s: State) {
    (s.ctl.stage.Stopping? ==> Ended(s.clock, true)) && StopsAreCaused(plan, s.outcomes, s.clock)
  }

  ghost predicate StopsAreCaused(plan: Plan, o: Outcomes, clock: Clock) {
    forall n :: n in o && o[n].skip == SkipStopped ==> Ended(clock, n in plan.main)
  }

  lemma DecisionIsCaused(plan: Plan, o: Outcomes, d: Option<(string, Outcome)>, clock: Clock, clock': Clock)
    requires StopsAreCaused(plan, o, clock) && forall main :: Ended(clock, main) ==> Ended(clock', main)
    requires d.Some? && d.value.1.skip == SkipStopped ==> Ended(clock, d.value.0 in plan.main)
    ensures StopsAreCaused(plan, WithDecision(o, d), clock')
  {
  }

  lemma StoppedForCauseStep(plan: Plan, s: State, e: Event)
    requires WellFormed(plan) && Inv(plan, s) && Enabled(plan, s, e) && StoppedForCause(plan, s)
    ensures StoppedForCause(plan, Apply(plan, s, e))
  {
    var s', d := Apply(plan, s, e), Decided(plan, s.ctl, s.outcomes, e, Refuses(plan, s, e));
    ApplyParts(plan, s, e);
    StepAccounts(plan, s, e);
    EndedOnlyGrows(plan, s, e);
    DecisionHasCause(plan, s, e);
    if d.Some? {
      DecidedIsTask(plan, s.ctl, s.outcomes, d);
    }
    DecisionIsCaused(plan, s.outcomes, d, s.clock, s'.clock);
    StoppingHasCause(plan, s, e);
  }

  lemma StoppingHasCause(plan: Plan, s: State, e: Event)
    requires Enabled(plan, s, e) && (s.ctl.stage.Stopping? ==> Ended(s.clock, true))
    ensures var s' := Apply(plan, s, e); s'.ctl.stage.Stopping? ==> Ended(s'.clock, true)
  {
  }

  lemma EndedOnlyGrows(plan: Plan, s: State, e: Event)
    requires Enabled(plan, s, e)
    ensures forall main :: Ended(s.clock, main) ==> Ended(Apply(plan, s, e).clock, main)
  {
    forall main | Ended(s.clock, main) ensures Ended(Apply(plan, s, e).clock, main) {
      EndedStays(plan, s, e, main);
    }
  }

  lemma DecisionHasCause(plan: Plan, s: State, e: Event)
    requires Shape(plan, s.ctl) && Enabled(plan, s, e) && StoppedForCause(plan, s)
    ensures
      var d := Decided(plan, s.ctl, s.outcomes, e, Refuses(plan, s, e));
      d.Some? && d.value.1.skip == SkipStopped ==> Ended(s.clock, InMain(plan, s.ctl))
  {
  }

  /** A task is stopped only if the context of its phase has ended. */
  lemma StoppedMeansEnded(plan: Plan, es: seq<Event>, n: string)
    requires WellFormed(plan) && Exec(plan, es).Some?
    ensures
      var s := Exec(plan, es).value;
      n in s.outcomes && s.outcomes[n].skip == SkipStopped ==> Ended(s.clock, n in plan.main)
  {
    StopsHaveCause(plan, es);
  }

  lemma {:induction false} StopsHaveCause(plan: Plan, es: seq<Event>)
    requires WellFormed(plan) && Exec(plan, es).Some?
    ensures StoppedForCause(plan, Exec(plan, es).value)
  {
    if es != [] {
      var init := es[..|es| - 1];
      StopsHaveCause(plan, init);
      RunInv(plan, init);
      StoppedForCauseStep(plan, Exec(plan, init).value, es[|es| - 1]);
    }
  }

  // ---------------------------------------------------------------- what is recorded

  /** What the source makes of a report: a failure is a timeout if the task's phase had ended and the run
      was not cancelled; everything else is recorded as reported. */
  ghost predicate RecordedAs(reported: Outcome, seen: Clock, main: bool, oc: Outcome) {
    && oc.results == reported.results
    && (oc.skip == SkipWhen <==> reported.status == Skipped) && (oc.skip == NoSkip <==> reported.status != Skipped)
    && if reported.status in {Failed, InfraFailed} && seen.root != Canceled
          && (seen.root == DeadlineExceeded || seen.pipeline || (main && seen.tasks) || (!main && seen.fin))
       then oc.status == TimedOut
       else oc.status == reported.status
  }

  /** The k-th event of the run reports n. */
  ghost predicate Reports(es: seq<Event>, k: nat, n: string) {
    k < |es| && es[k].Finish? && es[k].task == n
  }

  lemma FinishRecords(plan: Plan, s: State, e: Event)
    requires WellFormed(plan) && Inv(plan, s) && Enabled(plan, s, e) && e.Finish?
    ensures
      var s' := Apply(plan, s, e);
      e.task in s'.outcomes && RecordedAs(e.reported, e.seen, e.task in plan.main, s'.outcomes[e.task])
  {
    FlightPhase(plan, s.ctl, e.task);
  }

  /** Whatever is reported is recorded so, and stays. */
  lemma ReportIsRecorded(plan: Plan, es: seq<Event>, k: nat, n: string)
    requires WellFormed(plan) && Exec(plan, es).Some? && Reports(es, k, n)
    ensures
      var o := Exec(plan, es).value.outcomes;
      n in o && RecordedAs(es[k].reported, es[k].seen, n in plan.main, o[n])
  {
    assert es[..k + 1][..k] == es[..k];
    OutcomesAreFinal(plan, es, k);
    OutcomesAreFinal(plan, es, k + 1);
    RunInv(plan, es[..k]);
    FinishRecords(plan, Exec(plan, es[..k]).value, es[k]);
  }

  /** ... and a task with an outcome never ran exactly when nothing was reported for it. */
  lemma NeverRanWhen(plan: Plan, es: seq<Event>, n: string)
    requires WellFormed(plan) && Exec(plan, es).Some? && n in Exec(plan, es).value.outcomes
    ensures NeverRan(Exec(plan, es).value.outcomes[n]) <==> !exists k :: Reports(es, k, n)
  {
    RecordedWasReported(plan, es, n);
    if k :| Reports(es, k, n) {
      ReportIsRecorded(plan, es, k, n);
    }
  }

  lemma FirstOutcome(plan: Plan, s: State, e: Event, n: string)
    requires Enabled(plan, s, e) && n !in s.outcomes && n in Apply(plan, s, e).outcomes
    ensures NeverRan(Apply(plan, s, e).outcomes[n]) || (e.Finish? && e.task == n)
  {
  }

  lemma {:induction false} RecordedWasReported(plan: Plan, es: seq<Event>, n: string)
    requires WellFormed(plan) && Exec(plan, es).Some? && n in Exec(plan, es).value.outcomes
    ensures NeverRan(Exec(plan, es).value.outcomes[n]) || exists k :: Reports(es, k, n)
  {
    var init, e := es[..|es| - 1], es[|es| - 1];
    var s := Exec(plan, init).value;
    RunInv(plan, init);
    if n in s.outcomes {
      RecordedWasReported(plan, init, n);
      OutcomesAreFinal(plan, es, |es| - 1);
      if k :| Reports(init, k, n) {
        assert Reports(es, k, n);
      }
    } else {
      FirstOutcome(plan, s, e, n);
      assert e.Finish? && e.task == n ==> Reports(es, |es| - 1, n);
    }
  }

  // ---------------------------------------------------------------- the status of the run

  /** The k-th event enters the finally phase with the main tasks' context ended. */
  ghost predicate ExpiredAt(plan: Plan, es: seq<Event>, k: nat) {
    && k < |es| && es[k].Enter? && Exec(plan, es[..k]).Some?
    && var s := Exec(plan, es[..k]).value; !InMain(plan, s.ctl) && Ended(s.clock, true)
  }

  /** The main tasks' context had ended when the finally phase was entered. */
  ghost predicate Expired(plan: Plan, es: seq<Event>) {
    exists k: nat :: ExpiredAt(plan, es, k)
  }

  lemma ExpiredStep(plan: Plan, s: State, e: Event)
    requires Enabled(plan, s, e)
    ensures Apply(plan, s, e).tasksExpired <==>
      if e.Enter? && !InMain(plan, s.ctl) then Ended(s.clock, true) else s.tasksExpired
  {
  }

  ghost predicate EnteredOnce(plan: Plan, s: State) {
    s.tasksExpired ==> !InMain(plan, s.ctl) && !s.ctl.stage.Entering?
  }

  lemma EnteredStep(plan: Plan, s: State, e: Event)
    requires Enabled(plan, s, e) && EnteredOnce(plan, s) && Shape(plan, s.ctl)
    ensures EnteredOnce(plan, Apply(plan, s, e))
  {
  }

  lemma {:induction false} EnteredRun(plan: Plan, es: seq<Event>)
    requires WellFormed(plan) && Exec(plan, es).Some?
    ensures EnteredOnce(plan, Exec(plan, es).value)
  {
    if es != [] {
      var init := es[..|es| - 1];
      EnteredRun(plan, init);
      RunInv(plan, init);
      EnteredStep(plan, Exec(plan, init).value, es[|es| - 1]);
    }
  }

  lemma {:induction false} ExpiredWhen(plan: Plan, es: seq<Event>)
    requires WellFormed(plan) && Exec(plan, es).Some?
    ensures Exec(plan, es).value.tasksExpired <==> Expired(plan, es)
  {
    if es != [] {
      var init, last := es[..|es| - 1], |es| - 1;
      var s := Exec(plan, init).value;
      ExpiredWhen(plan, init);
      EnteredRun(plan, init);
      ExpiredStep(plan, s, es[last]);
      ExpiredBefore(plan, es);
      assert es[last].Enter? && !InMain(plan, s.ctl) ==> !s.tasksExpired || s.ctl.stage.Entering?;
    }
  }

  lemma ExpiredBefore(plan: Plan, es: seq<Event>)
    requires es != [] && Exec(plan, es[..|es| - 1]).Some?
    ensures
      Expired(plan, es) <==> Expired(plan, es[..|es| - 1]) || ExpiredAt(plan, es, |es| - 1)
  {
    var init, last := es[..|es| - 1], |es| - 1;
    forall k: nat | k < last ensures ExpiredAt(plan, es, k) <==> ExpiredAt(plan, init, k) {
      assert es[..k] == init[..k];
    }
    if k: nat :| ExpiredAt(plan, es, k) {
      assert k < last || k == last;
    }
    if k: nat :| ExpiredAt(plan, init, k) {
      assert ExpiredAt(plan, es, k);
    }
  }

  /** The status of a finished run, from what its contexts and its tasks came to. */
  lemma StatusOfRun(plan: Plan, es: seq<Event>)
    requires WellFormed(plan) && Exec(plan, es).Some? && Exec(plan, es).value.ctl.stage.Done?
    ensures
      var s := Exec(plan, es).value;
      s.overall ==
        if s.clock.root == Canceled then RunCancelled
        else if Ended(s.clock, false) || Expired(plan, es)
                || exists n :: n in s.outcomes && s.outcomes[n].status == TimedOut then RunTimeout
        else if exists n :: n in s.outcomes && s.outcomes[n].status in {Failed, InfraFailed} then RunFailed
        else RunSucceeded
  {
    FinalStatus(plan, es);
    ExpiredWhen(plan, es);
  }
}
