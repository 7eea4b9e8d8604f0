/** Deterministic runs: one final state exists, and only one. */
module FinalState {
  import opened Plans
  import opened Aggregation
  import opened Scheduler
  import opened SchedulerInvariants
  import opened Confluence
  import opened Termination

  /** A finished run in which tasks report what the oracle says. */
  ghost predicate Finishes(plan: Plan, oracle: Oracle, es: seq<Event>) {
    Exec(plan, es).Some? && Deterministic(plan, oracle, es) && Exec(plan, es).value.ctl.stage.Done?
  }

  /** A step every oracle allows. */
  lemma NextStep(plan: Plan, oracle: Oracle, s: State) returns (e: Event)
    requires Shape(plan, s.ctl) && !s.ctl.stage.Done? && plan.maxParallel != 0
    ensures !e.Tick? && Enabled(plan, s, e) && Follows(plan, oracle, s, e)
  {
    e := NextMove(plan, s.ctl);
    if e.Finish? {
      e := Finish(e.task, Report(plan, oracle, s, e.task), s.clock);
    }
  }

  lemma AppendStep(plan: Plan, oracle: Oracle, es: seq<Event>, e: Event)
    requires Exec(plan, es).Some? && Deterministic(plan, oracle, es)
    requires Enabled(plan, Exec(plan, es).value, e) && Follows(plan, oracle, Exec(plan, es).value, e)
    ensures Exec(plan, es + [e]).Some? && Deterministic(plan, oracle, es + [e])
    ensures Exec(plan, es + [e]).value == Apply(plan, Exec(plan, es).value, e)
  {
    assert (es + [e])[..|es + [e]| - 1] == es;
  }

  lemma {:induction false} Completes(plan: Plan, oracle: Oracle, es: seq<Event>, work: nat) returns (all: seq<Event>)
    requires WellFormed(plan) && plan.maxParallel != 0 && Exec(plan, es).Some? && Deterministic(plan, oracle, es)
    requires Shape(plan, Exec(plan, es).value.ctl) && work == Work(plan, Exec(plan, es).value.ctl)
    ensures Finishes(plan, oracle, all)
    decreases work
  {
    var s := Exec(plan, es).value;
    if s.ctl.stage.Done? {
      all := es;
    } else {
      var e := NextStep(plan, oracle, s);
      AppendStep(plan, oracle, es, e);
      RunInv(plan, es + [e]);
      ApplyParts(plan, s, e);
      MoveWorks(plan, s.ctl, e, Refuses(plan, s, e), View(plan, s));
      WorkIsNatural(plan, Exec(plan, es + [e]).value.ctl);
      all := Completes(plan, oracle, es + [e], Work(plan, Exec(plan, es + [e]).value.ctl));
    }
  }

  /** Unless the limit is zero, every well-formed plan has a finished run for every oracle. */
  lemma FinishingRunExists(plan: Plan, oracle: Oracle) returns (es: seq<Event>)
    requires WellFormed(plan) && plan.maxParallel != 0
    ensures Finishes(plan, oracle, es)
  {
    RunInv(plan, []);
    WorkIsNatural(plan, Init().ctl);
    es := Completes(plan, oracle, [], Work(plan, Init().ctl));
  }

  /** The final outcomes, results and status exist, and are those of every finished run, whatever
      its interleaving and its limit. */
  lemma OneFinalState(plan: Plan, oracle: Oracle) returns (o: Outcomes, results: Results, status: RunStatus)
    requires WellFormed(plan) && FinallyOrdered(plan) && plan.maxParallel != 0
    ensures exists es :: Finishes(plan, oracle, es)
    ensures forall k, es :: Finishes(plan.(maxParallel := k), oracle, es) ==>
      var s := Exec(plan.(maxParallel := k), es).value; s.outcomes == o && s.results == results && s.overall == status
  {
    var es := FinishingRunExists(plan, oracle);
    var s := Exec(plan, es).value;
    o, results, status := s.outcomes, s.results, s.overall;
    forall k, es' | Finishes(plan.(maxParallel := k), oracle, es')
      ensures
        var s' := Exec(plan.(maxParallel := k), es').value;
        s'.outcomes == o && s'.results == results && s'.overall == status
    {
      Confluent(plan, k, oracle, es, es');
    }
  }
}
