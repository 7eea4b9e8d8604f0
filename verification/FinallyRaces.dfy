/** A finally task that refers to one listed before it makes the end of a run depend on chance. */
module FinallyRaces {
  import opened Wrappers
  import opened Strings
  import opened Paths
  import opened Plans
  import opened Scheduler
  import opened SchedulerInvariants
  import opened SchedulerTheorems
  import opened Confluence
  import opened FinalState
  import opened Schedules

  function Report0(status: Status): Outcome {
    Outcome(status, NoSkip, None)
  }

  /** Every main task succeeds and every finally task fails. */
  function Failing(): Oracle {
    Oracle((n, results) => Report0(Succeeded), (n, results, outcomes) => Report0(Failed))
  }

  ghost function ReporterOf(plan: Plan, oracle: Oracle): Reporter {
    (s: State, n: string) => if n in s.ctl.flights then Report(plan, oracle, s, n) else Stopped()
  }

  /** No finally task has an outcome yet. */
  ghost predicate OnlyMain(plan: Plan, o: Outcomes) {
    forall n :: n in o ==> n in plan.main
  }

  /** What the schedules keep: main tasks succeed, finally tasks do not, and the j-th finally task is
      blocked in the eager schedule and runs in the lazy one. */
  ghost predicate Staged(plan: Plan, lazy: bool, j: nat, s: State)
    requires j < |plan.finallys|
  {
    var f := plan.finallys[j];
    && s.clock == Init().clock && !s.ctl.stage.Stopping?
    && StagedOutcomes(plan, lazy, j, s.outcomes)
    && (lazy && !InMain(plan, s.ctl) && s.ctl.pos < |plan.finallys| ==> OnlyMain(plan, s.outcomes))
    && (!lazy && !InMain(plan, s.ctl) ==> !UnderWay(plan, s.ctl, f))
  }

  ghost predicate StagedOutcomes(plan: Plan, lazy: bool, j: nat, o: Outcomes)
    requires j < |plan.finallys|
  {
    var f := plan.finallys[j];
    && (forall n :: n in o ==> (o[n].status == Succeeded <==> n in plan.main))
    && (f in o ==> o[f].skip == if lazy then NoSkip else SkipBlocked)
  }

  /** Where every main task succeeds nothing is blocked by a main task. */
  lemma NothingBlocks(plan: Plan, o: Outcomes, main: bool, n: string)
    requires n in plan.refs && OnlyMain(plan, o) && forall x :: x in o ==> o[x].status == Succeeded
    ensures !Blocked(plan, o, main, n)
  {
    forall r | r in plan.refs[n] ensures !RefMissing(plan, o, r) {
      forall d | d in Producers(plan, r) && d in o ensures Succeeds(o, d) {
      }
    }
  }

  /** The producers of a result of a finally task are finally tasks. */
  lemma FinallyProducers(plan: Plan, f: string, r: string)
    requires WellFormed(plan) && f in plan.finallys && f in Producers(plan, r)
    ensures forall d :: d in Producers(plan, r) ==> d in plan.finallys && d !in plan.main
  {
    forall d | d in Producers(plan, r) ensures d in plan.finallys && d !in plan.main {
      if r in plan.rows {
        assert f !in plan.main;
      }
    }
  }

  /** An earlier finally task that is over and did not succeed blocks. */
  lemma EarlierBlocks(plan: Plan, o: Outcomes, i: nat, j: nat)
    requires WellFormed(plan) && i < |plan.finallys| && j < |plan.finallys| && RefersBetween(plan, i, j)
    requires plan.finallys[i] in o && forall n :: n in o && n !in plan.main ==> o[n].status != Succeeded
    ensures MissingRefs(plan, o, plan.finallys[j])
  {
    var r :| r in plan.refs[plan.finallys[j]] && plan.finallys[i] in Producers(plan, r);
    FinallyProducers(plan, plan.finallys[i], r);
    assert RefMissing(plan, o, r);
  }

  /** What a step decides: nothing, a blocked finally task, or a report. */
  ghost predicate StagedDecision(plan: Plan, lazy: bool, j: nat, s: State, e: Event, d: Option<(string, Outcome)>)
    requires j < |plan.finallys|
  {
    d.Some? ==>
      var (n, oc) := d.value;
      && (oc.status == Succeeded <==> n in plan.main)
      && (n == plan.finallys[j] ==> oc.skip == if lazy then NoSkip else SkipBlocked)
      && (lazy && n !in plan.main ==> AllDispatched(plan, s.ctl))
  }

  /** What a finishing task gets: success in the main phase, failure in the finally phase. */
  lemma FinishDecides(plan: Plan, lazy: bool, s: State, e: Event)
    requires s.clock == Init().clock && e.Finish? && Obeys(plan, ReporterOf(plan, Failing()), lazy, s, e)
    ensures Decided(plan, s.ctl, s.outcomes, e, Refuses(plan, s, e))
      == Some((e.task, Report0(if InMain(plan, s.ctl) then Succeeded else Failed)))
  {
  }

  /** No other step but Check decides anything. */
  lemma OthersDecideNothing(plan: Plan, lazy: bool, s: State, e: Event)
    requires s.clock == Init().clock && !s.ctl.stage.Stopping? && !e.Finish? && !e.Check?
    requires Obeys(plan, ReporterOf(plan, Failing()), lazy, s, e)
    ensures Decided(plan, s.ctl, s.outcomes, e, Refuses(plan, s, e)).None?
  {
  }

  lemma MainChecks(plan: Plan, lazy: bool, j: nat, s: State)
    requires WellFormed(plan) && j < |plan.finallys| && Inv(plan, s) && Staged(plan, lazy, j, s) && InMain(plan, s.ctl)
    requires CanMove(plan, s.ctl, Check)
    ensures !Refuses(plan, s, Check)
  {
    MainOnly(plan, s.outcomes, s.ctl);
    LevelIsSettled(plan, s.outcomes, s.ctl, Batch(plan, s.ctl.lvl)[s.ctl.pos]);
    NothingBlocks(plan, s.outcomes, true, Batch(plan, s.ctl.lvl)[s.ctl.pos]);
  }

  lemma MainStepDecides(plan: Plan, lazy: bool, j: nat, s: State, e: Event)
    requires WellFormed(plan) && j < |plan.finallys| && Inv(plan, s) && Staged(plan, lazy, j, s) && InMain(plan, s.ctl)
    requires Obeys(plan, ReporterOf(plan, Failing()), lazy, s, e)
    ensures StagedDecision(plan, lazy, j, s, e, Decided(plan, s.ctl, s.outcomes, e, Refuses(plan, s, e)))
  {
    if e.Check? {
      MainChecks(plan, lazy, j, s);
    } else if e.Finish? {
      FinishDecides(plan, lazy, s, e);
      FlightIsTask(plan, s.ctl, e.task);
      assert plan.finallys[j] in plan.finallys;
    } else {
      OthersDecideNothing(plan, lazy, s, e);
    }
  }

  lemma FlightIsTask(plan: Plan, c: Control, n: string)
    requires WellFormed(plan) && Shape(plan, c) && n in c.flights
    ensures if InMain(plan, c) then n in plan.main else n in plan.finallys && n !in plan.main
  {
    assert Walked(Batch(plan, c.lvl), c.pos, n);
    var k :| 0 <= k < c.pos && k < |Batch(plan, c.lvl)| && Batch(plan, c.lvl)[k] == n;
    if InMain(plan, c) {
      assert InLevel(plan.levels, c.lvl, n);
    }
  }

  lemma FinallyChecks(plan: Plan, lazy: bool, i: nat, j: nat, s: State)
    requires WellFormed(plan) && i < j < |plan.finallys| && RefersBetween(plan, i, j)
    requires Inv(plan, s) && Staged(plan, lazy, j, s) && !InMain(plan, s.ctl) && CanMove(plan, s.ctl, Check)
    requires !lazy ==> s.ctl.flights == map[]
    ensures lazy ==> !Refuses(plan, s, Check)
    ensures !lazy && s.ctl.pos == j ==> Refuses(plan, s, Check)
  {
    var f := plan.finallys[s.ctl.pos];
    assert f in Elements(plan.finallys) && f in plan.refs;
    if lazy {
      NothingBlocks(plan, s.outcomes, false, f);
    } else if s.ctl.pos == j {
      LandedIsOver(plan, s.outcomes, s.ctl, i);
      EarlierBlocks(plan, s.outcomes, i, j);
    }
  }

  lemma FinallyStepDecides(plan: Plan, lazy: bool, i: nat, j: nat, s: State, e: Event)
    requires WellFormed(plan) && i < j < |plan.finallys| && RefersBetween(plan, i, j)
    requires Inv(plan, s) && Staged(plan, lazy, j, s) && !InMain(plan, s.ctl)
    requires Obeys(plan, ReporterOf(plan, Failing()), lazy, s, e)
    ensures StagedDecision(plan, lazy, j, s, e, Decided(plan, s.ctl, s.outcomes, e, Refuses(plan, s, e)))
  {
    if e.Check? {
      FinallyChecks(plan, lazy, i, j, s);
      assert plan.finallys[s.ctl.pos] in plan.finallys;
    } else if e.Finish? {
      FinishDecides(plan, lazy, s, e);
      FlightIsTask(plan, s.ctl, e.task);
      assert UnderWay(plan, s.ctl, e.task);
    } else {
      OthersDecideNothing(plan, lazy, s, e);
    }
  }

  /** With nothing in flight every finally task already passed has its outcome. */
  lemma LandedIsOver(plan: Plan, o: Outcomes, c: Control, i: nat)
    requires Shape(plan, c) && Accounted(plan, o, c) && !InMain(plan, c) && c.flights == map[] && i < c.pos
    ensures plan.finallys[i] in o
  {
    assert Walked(plan.finallys, c.pos, plan.finallys[i]);
    assert Passed(plan, c.lvl, c.pos, plan.finallys[i]);
  }

  // ---------------------------------------------------------------- every step keeps the stage

  /** What the step leaves of the places where the loops stand. */
  lemma StagedMove(plan: Plan, lazy: bool, i: nat, j: nat, s: State, e: Event)
    requires WellFormed(plan) && i < j < |plan.finallys| && RefersBetween(plan, i, j)
    requires Inv(plan, s) && Staged(plan, lazy, j, s) && Obeys(plan, ReporterOf(plan, Failing()), lazy, s, e)
    ensures
      var c' := Move(plan, s.ctl, e, Refuses(plan, s, e), View(plan, s));
      && !c'.stage.Stopping?
      && (!lazy && !InMain(plan, c') ==> !UnderWay(plan, c', plan.finallys[j]))
  {
    var c, c' := s.ctl, Move(plan, s.ctl, e, Refuses(plan, s, e), View(plan, s));
    var f := plan.finallys[j];
    if !lazy && !InMain(plan, c') && UnderWay(plan, c', f) {
      MoveUnderWay(plan, c, e, Refuses(plan, s, e), View(plan, s), f);
      if InMain(plan, c) {
        NotUnderWayInMain(plan, c, f);
      } else if e.Check? && !Refuses(plan, s, e) {
        FinallyChecks(plan, lazy, i, j, s);
      }
      assert false;
    }
  }

  lemma NotUnderWayInMain(plan: Plan, c: Control, f: string)
    requires WellFormed(plan) && Shape(plan, c) && InMain(plan, c) && f in plan.finallys
    ensures !UnderWay(plan, c, f)
  {
    forall n | UnderWay(plan, c, n) ensures n in plan.main {
      if n in c.flights {
        FlightIsTask(plan, c, n);
      } else {
        assert InLevel(plan.levels, c.lvl, n);
      }
    }
  }

  lemma DecisionStaged(plan: Plan, lazy: bool, j: nat, s: State, e: Event, d: Option<(string, Outcome)>)
    requires j < |plan.finallys| && StagedOutcomes(plan, lazy, j, s.outcomes)
      && StagedDecision(plan, lazy, j, s, e, d)
    ensures StagedOutcomes(plan, lazy, j, WithDecision(s.outcomes, d))
  {
  }

  /** While the lazy schedule dispatches the finally phase no finally task has an outcome. */
  lemma LazyWaits(plan: Plan, j: nat, s: State, e: Event)
    requires WellFormed(plan) && j < |plan.finallys| && Inv(plan, s) && Staged(plan, true, j, s)
    requires CanMove(plan, s.ctl, e)
    requires
      StagedDecision(plan, true, j, s, e, Decided(plan, s.ctl, s.outcomes, e, Refuses(plan, s, e)))
    requires
      var c' := Move(plan, s.ctl, e, Refuses(plan, s, e), View(plan, s));
      !InMain(plan, c') && c'.pos < |plan.finallys|
    ensures OnlyMain(plan, WithDecision(s.outcomes, Decided(plan, s.ctl, s.outcomes, e, Refuses(plan, s, e))))
  {
    if InMain(plan, s.ctl) {
      MainOnly(plan, s.outcomes, s.ctl);
    }
  }

  lemma StepDecides(plan: Plan, lazy: bool, i: nat, j: nat, s: State, e: Event)
    requires WellFormed(plan) && i < j < |plan.finallys| && RefersBetween(plan, i, j)
    requires Inv(plan, s) && Staged(plan, lazy, j, s) && Obeys(plan, ReporterOf(plan, Failing()), lazy, s, e)
    ensures StagedDecision(plan, lazy, j, s, e, Decided(plan, s.ctl, s.outcomes, e, Refuses(plan, s, e)))
  {
    if InMain(plan, s.ctl) {
      MainStepDecides(plan, lazy, j, s, e);
    } else {
      FinallyStepDecides(plan, lazy, i, j, s, e);
    }
  }

  lemma StagedStep(plan: Plan, lazy: bool, i: nat, j: nat, s: State, e: Event)
    requires WellFormed(plan) && i < j < |plan.finallys| && RefersBetween(plan, i, j)
    requires Inv(plan, s) && Staged(plan, lazy, j, s) && Obeys(plan, ReporterOf(plan, Failing()), lazy, s, e)
    ensures Staged(plan, lazy, j, Apply(plan, s, e))
  {
    var s' := Apply(plan, s, e);
    ApplyParts(plan, s, e);
    StepDecides(plan, lazy, i, j, s, e);
    DecisionStaged(plan, lazy, j, s, e, Decided(plan, s.ctl, s.outcomes, e, Refuses(plan, s, e)));
    if lazy && !InMain(plan, s'.ctl) && s'.ctl.pos < |plan.finallys| {
      LazyWaits(plan, j, s, e);
    }
    StagedMove(plan, lazy, i, j, s, e);
    ClockStays(plan, s, e);
  }

  lemma ClockStays(plan: Plan, s: State, e: Event)
    requires Enabled(plan, s, e) && !e.Tick?
    ensures Apply(plan, s, e).clock == s.clock
  {
  }

  // ---------------------------------------------------------------- two runs

  lemma {:induction false} ScheduledIsDeterministic(plan: Plan, oracle: Oracle, lazy: bool, es: seq<Event>)
    requires Exec(plan, es).Some? && Scheduled(plan, ReporterOf(plan, oracle), lazy, es)
    ensures Deterministic(plan, oracle, es)
  {
    if es != [] {
      ScheduledIsDeterministic(plan, oracle, lazy, es[..|es| - 1]);
    }
  }

  /** A finished run of the schedule, and the outcome of the j-th finally task in it. */
  lemma StagedRun(plan: Plan, lazy: bool, i: nat, j: nat) returns (es: seq<Event>)
    requires WellFormed(plan) && plan.maxParallel < 0 && i < j < |plan.finallys| && RefersBetween(plan, i, j)
    ensures Finishes(plan, Failing(), es)
    ensures
      var o := Exec(plan, es).value.outcomes;
      plan.finallys[j] in o && o[plan.finallys[j]].skip == if lazy then NoSkip else SkipBlocked
  {
    var rep := ReporterOf(plan, Failing());
    var inv := (s: State) => Staged(plan, lazy, j, s);
    forall s, e | Inv(plan, s) && inv(s) && Obeys(plan, rep, lazy, s, e) ensures inv(Apply(plan, s, e)) {
      StagedStep(plan, lazy, i, j, s, e);
    }
    es := RunAs(plan, rep, lazy, inv);
    ScheduledIsDeterministic(plan, Failing(), lazy, es);
    EveryTaskHasAnOutcome(plan, es);
    assert plan.finallys[j] in Elements(plan.finallys);
  }

  /** Every two finished runs, with any limits, end alike. */
  ghost predicate AlwaysConfluent(plan: Plan) {
    forall oracle, k, k', es, es' ::
      Finishes(plan.(maxParallel := k), oracle, es) && Finishes(plan.(maxParallel := k'), oracle, es') ==>
        EndAlike(plan, k, es, k', es')
  }

  ghost predicate EndAlike(plan: Plan, k: int, es: seq<Event>, k': int, es': seq<Event>)
    requires Exec(plan.(maxParallel := k), es).Some? && Exec(plan.(maxParallel := k'), es').Some?
  {
    var s, s' := Exec(plan.(maxParallel := k), es).value, Exec(plan.(maxParallel := k'), es').value;
    s.outcomes == s'.outcomes && s.results == s'.results && s.overall == s'.overall
  }

  /** Where a finally task refers to one listed before it, two runs without limit end differently: the
      task is blocked in one and runs in the other. */
  lemma EarlierReferenceRaces(plan: Plan, i: nat, j: nat) returns (es: seq<Event>, es': seq<Event>)
    requires WellFormed(plan) && i < j < |plan.finallys| && RefersBetween(plan, i, j)
    ensures
      var free := plan.(maxParallel := -1);
      Finishes(free, Failing(), es) && Finishes(free, Failing(), es') && !EndAlike(plan, -1, es, -1, es')
  {
    var free := plan.(maxParallel := -1);
    LimitAncestors(plan, -1);
    LimitRefers(plan, -1, i, j);
    es := StagedRun(free, true, i, j);
    es' := StagedRun(free, false, i, j);
  }

  lemma LimitRefers(plan: Plan, k: int, i: nat, j: nat)
    requires i < |plan.finallys| && j < |plan.finallys| && RefersBetween(plan, i, j)
    ensures RefersBetween(plan.(maxParallel := k), i, j)
  {
    var plan' := plan.(maxParallel := k);
    assert forall r :: Producers(plan', r) == Producers(plan, r);
  }

  /** For all behaviours of tasks, all interleavings and all limits the end of a run is the same
      exactly when no finally task refers to a finally task listed before it. */
  lemma ConfluentWhen(plan: Plan)
    requires WellFormed(plan)
    ensures AlwaysConfluent(plan) <==> FinallyOrdered(plan)
  {
    if FinallyOrdered(plan) {
      forall oracle, k, k', es, es' |
        Finishes(plan.(maxParallel := k), oracle, es) && Finishes(plan.(maxParallel := k'), oracle, es')
        ensures EndAlike(plan, k, es, k', es')
      {
        var plan' := plan.(maxParallel := k);
        LimitAncestors(plan, k);
        LimitOrdered(plan, k);
        assert plan'.(maxParallel := k') == plan.(maxParallel := k');
        Confluent(plan', k', oracle, es, es');
      }
    } else {
      var i, j :| 0 <= i < j < |plan.finallys| && RefersBetween(plan, i, j);
      var es, es' := EarlierReferenceRaces(plan, i, j);
      assert !AlwaysConfluent(plan);
    }
  }

  /** Two finally tasks, the second of which refers to the first. */
  lemma TwoFinallyTasks(encode: seq<string> -> string) returns (plan: Plan)
    ensures WellFormed(plan) && plan.main == {} && plan.finallys == ["a", "b"] && plan.refs["b"] == {"a"}
    ensures !FinallyOrdered(plan)
  {
    var refs: map<string, set<string>> := map["a" := {}, "b" := {"a"}];
    plan := Plan({}, map[], [], ["a", "b"], refs, map[], map[], -1, encode);
    assert RefersBetween(plan, 0, 1);
  }
}
