/** A main task that reads results of a task that is no ancestor of it reads them by chance. */
module SnapshotRaces {
  import opened Wrappers
  import Strings
  import opened Paths
  import opened Plans
  import opened Aggregation
  import opened Scheduler
  import opened SchedulerInvariants
  import opened SchedulerTheorems
  import opened Confluence
  import opened Schedules

  /** What tasks report when a main task may look at all the results it is given. */
  ghost function Unrestricted(plan: Plan, oracle: Oracle): Reporter {
    (s: State, n: string) =>
      if n !in s.ctl.flights then Stopped()
      else if InMain(plan, s.ctl) then oracle.main(n, s.ctl.flights[n].snapshot)
      else oracle.fin(n, s.ctl.flights[n].snapshot, MainPart(plan, s.outcomes))
  }

  /** A finished run without limit in which tasks report so. */
  ghost predicate FinishesUnrestricted(plan: Plan, oracle: Oracle, es: seq<Event>) {
    Exec(plan, es).Some? && ReportsUnrestricted(plan, oracle, es) && Exec(plan, es).value.ctl.stage.Done?
  }

  ghost predicate ReportsUnrestricted(plan: Plan, oracle: Oracle, es: seq<Event>) {
    es == [] ||
    (var init, e := es[..|es| - 1], es[|es| - 1];
     && ReportsUnrestricted(plan, oracle, init) && Exec(plan, init).Some? && !e.Tick?
     && (e.Finish? ==> e.reported == Unrestricted(plan, oracle)(Exec(plan, init).value, e.task)))
  }

  function Succeeding(): Outcome {
    Outcome(Succeeded, NoSkip, Some(map[]))
  }

  /** Every task succeeds, but the reader fails when it sees the other's results. */
  function Reading(reader: string, read: string): Oracle {
    Oracle((n, results) => if n == reader && read in results then Outcome(Failed, NoSkip, None) else Succeeding(),
           (n, results, outcomes) => Succeeding())
  }

  /** Task b of a level reads task a, listed before it in the level. */
  ghost predicate SameLevel(plan: Plan, lvl: nat, a: nat, b: nat) {
    lvl < |plan.levels| && a < b < |plan.levels[lvl]|
  }

  /** What the schedules keep: until the reader has its outcome every task succeeds, and the results the
      reader is given hold the other's exactly in the eager schedule. */
  ghost predicate Racing(plan: Plan, lazy: bool, lvl: nat, a: nat, b: nat, s: State)
    requires SameLevel(plan, lvl, a, b)
  {
    var reader, read, c := plan.levels[lvl][b], plan.levels[lvl][a], s.ctl;
    && s.clock == Init().clock && !c.stage.Stopping?
    && Reported(reader, lazy, s.outcomes)
    && (reader !in s.outcomes ==>
          && c.lvl <= lvl
          && (forall snapshot :: Given(plan, c, reader, snapshot) ==> (read in snapshot <==> !lazy))
          && (lazy && c.lvl == lvl && c.pos < |plan.levels[lvl]| ==> read !in s.outcomes)
          && (!lazy && c.lvl == lvl && c.pos == b && c.pending.Admitted? ==> read in s.outcomes))
  }

  /** The reader succeeds in the lazy schedule only, and before it every task succeeds. */
  ghost predicate Reported(reader: string, lazy: bool, o: Outcomes) {
    if reader in o then o[reader].status == if lazy then Succeeded else Failed
    else forall n :: n in o ==> o[n] == Succeeding()
  }

  lemma ReportedNext(reader: string, lazy: bool, o: Outcomes, d: Option<(string, Outcome)>)
    requires Reported(reader, lazy, o) && reader !in o
    requires d.Some? && d.value.0 != reader ==> d.value.1 == Succeeding()
    requires d.Some? && d.value.0 == reader ==> d.value.1.status == if lazy then Succeeded else Failed
    ensures Reported(reader, lazy, WithDecision(o, d))
  {
  }

  /** Where every main task succeeded nothing is blocked. */
  lemma NothingIsBlocked(plan: Plan, o: Outcomes, n: string)
    requires n in plan.refs && forall x :: x in o ==> o[x] == Succeeding()
    ensures !Blocked(plan, o, true, n)
  {
    forall r | r in plan.refs[n] ensures !RefMissing(plan, o, r) {
      forall d | d in Producers(plan, r) && d in o ensures Succeeds(o, d) {
      }
    }
  }

  /** A main task's results are there exactly when it has its outcome. */
  lemma ResultIsThere(plan: Plan, o: Outcomes, n: string)
    requires WellFormed(plan) && n in plan.main && o.Keys <= plan.main && forall x :: x in o ==> o[x] == Succeeding()
    ensures n in ResultsOf(plan, o) <==> n in o
  {
    ResultsOfKey(plan, o, n);
  }

  lemma LevelTask(plan: Plan, lvl: nat, k: nat)
    requires WellFormed(plan) && lvl < |plan.levels| && k < |plan.levels[lvl]|
    ensures plan.levels[lvl][k] in plan.main
  {
    assert InLevel(plan.levels, lvl, plan.levels[lvl][k]);
  }

  /** A task stands in one place of one level. */
  lemma OnePlace(plan: Plan, lvl: nat, k: nat, lvl': nat, k': nat)
    requires WellFormed(plan) && lvl < |plan.levels| && k < |plan.levels[lvl]|
    requires lvl' < |plan.levels| && k' < |plan.levels[lvl']| && plan.levels[lvl][k] == plan.levels[lvl'][k']
    ensures lvl == lvl' && k == k'
  {
    assert InLevel(plan.levels, lvl, plan.levels[lvl][k]) && InLevel(plan.levels, lvl', plan.levels[lvl'][k']);
    Strings.IncreasingIsInjective(plan.levels[lvl]);
  }

  // ---------------------------------------------------------------- every step keeps the race on

  /** What a step decides while the reader has no outcome: nothing but the reports of finishing tasks. */
  lemma RacingDecides(plan: Plan, lazy: bool, lvl: nat, a: nat, b: nat, s: State, e: Event)
    requires WellFormed(plan) && SameLevel(plan, lvl, a, b) && Inv(plan, s) && Racing(plan, lazy, lvl, a, b, s)
    requires plan.levels[lvl][b] !in s.outcomes
    requires Obeys(plan, Unrestricted(plan, Reading(plan.levels[lvl][b], plan.levels[lvl][a])), lazy, s, e)
    ensures !Refuses(plan, s, e)
    ensures
      var d := Decided(plan, s.ctl, s.outcomes, e, Refuses(plan, s, e));
      && (d.Some? ==> e.Finish? && d.value.0 == e.task)
      && (d.Some? && e.task != plan.levels[lvl][b] ==> d.value.1 == Succeeding())
      && (d.Some? && e.task == plan.levels[lvl][b] ==> d.value.1.status == if lazy then Succeeded else Failed)
  {
    var c, reader := s.ctl, plan.levels[lvl][b];
    if e.Check? {
      var n := Batch(plan, c.lvl)[c.pos];
      LevelIsSettled(plan, s.outcomes, c, n);
      NothingIsBlocked(plan, s.outcomes, n);
    } else if e.Finish? && e.task == reader {
      assert Given(plan, c, reader, c.flights[reader].snapshot);
    }
  }

  /** The reader is not past its level while it has no outcome. */
  lemma RacingLevel(plan: Plan, lazy: bool, lvl: nat, a: nat, b: nat, s: State, e: Event)
    requires WellFormed(plan) && SameLevel(plan, lvl, a, b) && Inv(plan, s) && Racing(plan, lazy, lvl, a, b, s)
    requires plan.levels[lvl][b] !in s.outcomes && CanMove(plan, s.ctl, e)
    ensures Move(plan, s.ctl, e, Refuses(plan, s, e), View(plan, s)).lvl <= lvl
  {
    var c, reader := s.ctl, plan.levels[lvl][b];
    if e.Barrier? && c.lvl == lvl {
      assert Walked(Batch(plan, lvl), c.pos, reader);
    }
  }

  /** The results the reader is given hold the other's in the eager schedule only. */
  lemma RacingGiven(plan: Plan, lazy: bool, lvl: nat, a: nat, b: nat, s: State, e: Event, snapshot: Results)
    requires WellFormed(plan) && SameLevel(plan, lvl, a, b) && Inv(plan, s) && Racing(plan, lazy, lvl, a, b, s)
    requires plan.levels[lvl][b] !in s.outcomes && CanMove(plan, s.ctl, e)
    requires Given(plan, Move(plan, s.ctl, e, Refuses(plan, s, e), View(plan, s)), plan.levels[lvl][b], snapshot)
    ensures plan.levels[lvl][a] in snapshot <==> !lazy
  {
    var c, reader, read := s.ctl, plan.levels[lvl][b], plan.levels[lvl][a];
    MoveGiven(plan, c, e, Refuses(plan, s, e), View(plan, s), reader, snapshot);
    if !Given(plan, c, reader, snapshot) {
      OnePlace(plan, lvl, b, c.lvl, c.pos);
      LevelTask(plan, lvl, a);
      MainOnly(plan, s.outcomes, c);
      ResultIsThere(plan, s.outcomes, read);
    }
  }

  /** In the lazy schedule the other task has no outcome before the level is dispatched. */
  lemma LazyHoldsBack(plan: Plan, lvl: nat, a: nat, b: nat, s: State, e: Event)
    requires WellFormed(plan) && SameLevel(plan, lvl, a, b) && Inv(plan, s) && Racing(plan, true, lvl, a, b, s)
    requires plan.levels[lvl][b] !in s.outcomes
    requires Obeys(plan, Unrestricted(plan, Reading(plan.levels[lvl][b], plan.levels[lvl][a])), true, s, e)
    ensures
      var s' := Apply(plan, s, e);
      s'.ctl.lvl == lvl && s'.ctl.pos < |plan.levels[lvl]| ==> plan.levels[lvl][a] !in s'.outcomes
  {
    ApplyParts(plan, s, e);
    RacingDecides(plan, true, lvl, a, b, s, e);
    if e.Barrier? && s.ctl.lvl + 1 == lvl {
      NotThereYet(plan, s.outcomes, s.ctl, lvl, a);
    }
  }

  lemma NotThereYet(plan: Plan, o: Outcomes, c: Control, lvl: nat, a: nat)
    requires WellFormed(plan) && c.lvl < lvl < |plan.levels| && a < |plan.levels[lvl]| && Accounted(plan, o, c)
    ensures plan.levels[lvl][a] !in o
  {
    var read := plan.levels[lvl][a];
    assert InLevel(plan.levels, lvl, read);
    if Walked(Batch(plan, c.lvl), c.pos, read) {
      assert InLevel(plan.levels, c.lvl, read);
    }
  }

  /** In the eager schedule the other task is over when the reader is examined. */
  lemma EagerIsOver(plan: Plan, lvl: nat, a: nat, b: nat, s: State, e: Event)
    requires WellFormed(plan) && SameLevel(plan, lvl, a, b) && Inv(plan, s) && Racing(plan, false, lvl, a, b, s)
    requires plan.levels[lvl][b] !in s.outcomes
    requires Obeys(plan, Unrestricted(plan, Reading(plan.levels[lvl][b], plan.levels[lvl][a])), false, s, e)
    ensures
      var s' := Apply(plan, s, e);
      s'.ctl.lvl == lvl && s'.ctl.pos == b && s'.ctl.pending.Admitted? ==> plan.levels[lvl][a] in s'.outcomes
  {
    ApplyParts(plan, s, e);
    StepAccounts(plan, s, e);
    if e.Check? && s.ctl.lvl == lvl && s.ctl.pos == b {
      assert Walked(plan.levels[lvl], b, plan.levels[lvl][a]);
      assert Passed(plan, lvl, b, plan.levels[lvl][a]);
    }
  }

  lemma RacingClock(plan: Plan, s: State, e: Event)
    requires Enabled(plan, s, e) && !e.Tick? && s.clock == Init().clock && !s.ctl.stage.Stopping?
    ensures var s' := Apply(plan, s, e); s'.clock == s.clock && !s'.ctl.stage.Stopping?
  {
  }

  lemma RacingStep(plan: Plan, lazy: bool, lvl: nat, a: nat, b: nat, s: State, e: Event)
    requires WellFormed(plan) && SameLevel(plan, lvl, a, b) && Inv(plan, s) && Racing(plan, lazy, lvl, a, b, s)
    requires Obeys(plan, Unrestricted(plan, Reading(plan.levels[lvl][b], plan.levels[lvl][a])), lazy, s, e)
    ensures Racing(plan, lazy, lvl, a, b, Apply(plan, s, e))
  {
    var reader, s' := plan.levels[lvl][b], Apply(plan, s, e);
    RacingClock(plan, s, e);
    StepAccounts(plan, s, e);
    if reader !in s.outcomes {
      ApplyParts(plan, s, e);
      RacingDecides(plan, lazy, lvl, a, b, s, e);
      ReportedNext(reader, lazy, s.outcomes, Decided(plan, s.ctl, s.outcomes, e, Refuses(plan, s, e)));
      RacingLevel(plan, lazy, lvl, a, b, s, e);
      forall snapshot | Given(plan, s'.ctl, reader, snapshot) ensures plan.levels[lvl][a] in snapshot <==> !lazy {
        RacingGiven(plan, lazy, lvl, a, b, s, e, snapshot);
      }
      if lazy {
        LazyHoldsBack(plan, lvl, a, b, s, e);
      } else {
        EagerIsOver(plan, lvl, a, b, s, e);
      }
    }
  }

  // ---------------------------------------------------------------- two runs

  lemma {:induction false} ScheduledReports(plan: Plan, oracle: Oracle, lazy: bool, es: seq<Event>)
    requires Exec(plan, es).Some? && Scheduled(plan, Unrestricted(plan, oracle), lazy, es)
    ensures ReportsUnrestricted(plan, oracle, es)
  {
    if es != [] {
      ScheduledReports(plan, oracle, lazy, es[..|es| - 1]);
    }
  }

  /** The run leaves the task with the status. */
  ghost predicate EndsWith(plan: Plan, es: seq<Event>, n: string, status: Status)
    requires Exec(plan, es).Some?
  {
    var o := Exec(plan, es).value.outcomes;
    n in o && o[n].status == status
  }

  lemma RacedRun(plan: Plan, lazy: bool, lvl: nat, a: nat, b: nat) returns (es: seq<Event>)
    requires WellFormed(plan) && plan.maxParallel < 0 && SameLevel(plan, lvl, a, b)
    ensures FinishesUnrestricted(plan, Reading(plan.levels[lvl][b], plan.levels[lvl][a]), es)
    ensures EndsWith(plan, es, plan.levels[lvl][b], if lazy then Succeeded else Failed)
  {
    var oracle := Reading(plan.levels[lvl][b], plan.levels[lvl][a]);
    var rep := Unrestricted(plan, oracle);
    var inv := (s: State) => Racing(plan, lazy, lvl, a, b, s);
    forall s, e | Inv(plan, s) && inv(s) && Obeys(plan, rep, lazy, s, e) ensures inv(Apply(plan, s, e)) {
      RacingStep(plan, lazy, lvl, a, b, s, e);
    }
    es := RunAs(plan, rep, lazy, inv);
    ScheduledReports(plan, oracle, lazy, es);
    EveryTaskHasAnOutcome(plan, es);
    LevelTask(plan, lvl, b);
  }

  /** A main task that reads a task listed before it in its own level, and so no ancestor of it, sees
      its results or not by chance: two finished runs without limit, with the same behaviour of every
      task, give it different outcomes. */
  lemma SameLevelReadRaces(plan: Plan, lvl: nat, a: nat, b: nat) returns (es: seq<Event>, es': seq<Event>)
    requires WellFormed(plan) && SameLevel(plan, lvl, a, b)
    ensures !Ancestor(plan, plan.levels[lvl][a], plan.levels[lvl][b])
    ensures
      var free, reader := plan.(maxParallel := -1), plan.levels[lvl][b];
      var oracle := Reading(reader, plan.levels[lvl][a]);
      && FinishesUnrestricted(free, oracle, es) && EndsWith(free, es, reader, Succeeded)
      && FinishesUnrestricted(free, oracle, es') && EndsWith(free, es', reader, Failed)
  {
    LimitAncestors(plan, -1);
    LevelIsFlat(plan, lvl, a, b);
    es := RacedRun(plan.(maxParallel := -1), true, lvl, a, b);
    es' := RacedRun(plan.(maxParallel := -1), false, lvl, a, b);
  }

  lemma LevelIsFlat(plan: Plan, lvl: nat, a: nat, b: nat)
    requires WellFormed(plan) && SameLevel(plan, lvl, a, b)
    ensures !Ancestor(plan, plan.levels[lvl][a], plan.levels[lvl][b])
  {
    var read, reader := plan.levels[lvl][a], plan.levels[lvl][b];
    assert InLevel(plan.levels, lvl, read) && InLevel(plan.levels, lvl, reader);
    if Ancestor(plan, read, reader) {
      ReachesClimbs(plan.main, plan.out, plan.levels, read, reader, lvl, lvl);
    }
  }
}
