/** Two extreme ways to run a plan without limit: every task lands before the next is examined, or a
    whole batch is dispatched before any task begins. */
module Schedules {
  import opened Plans
  import opened Scheduler
  import opened SchedulerInvariants
  import opened Termination

  /** What a task in flight reports in a state. */
  type Reporter = (State, string) -> Outcome

  /** The whole batch is dispatched. */
  predicate AllDispatched(plan: Plan, c: Control) {
    c.pos == |Batch(plan, c.lvl)| && c.pending.Idle?
  }

  /** A step of the lazy or the eager schedule. */
  ghost predicate Obeys(plan: Plan, rep: Reporter, lazy: bool, s: State, e: Event) {
    && !e.Tick? && Enabled(plan, s, e)
    && (e.Finish? ==> e.reported == rep(s, e.task))
    && (lazy && (e.Begin? || e.Finish?) ==> AllDispatched(plan, s.ctl))
    && (!lazy && e.Check? ==> s.ctl.flights == map[])
  }

  ghost predicate Scheduled(plan: Plan, rep: Reporter, lazy: bool, es: seq<Event>) {
    es == [] ||
    (var init := es[..|es| - 1];
     && Scheduled(plan, rep, lazy, init) && Exec(plan, init).Some?
     && Obeys(plan, rep, lazy, Exec(plan, init).value, es[|es| - 1]))
  }

  lemma NextObeys(plan: Plan, rep: Reporter, lazy: bool, s: State) returns (e: Event)
    requires Shape(plan, s.ctl) && !s.ctl.stage.Done? && plan.maxParallel < 0
    ensures Obeys(plan, rep, lazy, s, e)
  {
    if lazy && s.ctl.stage.Dispatching? && s.ctl.pos < |Batch(plan, s.ctl.lvl)| {
      e := match s.ctl.pending case Idle => Check case Admitted => Snapshot case Snapped(_) => Launch;
    } else {
      e := NextMove(plan, s.ctl);
      if e.Finish? {
        e := Finish(e.task, rep(s, e.task), s.clock);
      }
    }
  }

  /** Every step of the schedule keeps it. */
  ghost predicate Kept(plan: Plan, rep: Reporter, lazy: bool, inv: State -> bool) {
    forall s, e :: Inv(plan, s) && inv(s) && Obeys(plan, rep, lazy, s, e) ==> inv(Apply(plan, s, e))
  }

  lemma AppendScheduled(plan: Plan, rep: Reporter, lazy: bool, es: seq<Event>, e: Event)
    requires Exec(plan, es).Some? && Scheduled(plan, rep, lazy, es) && Obeys(plan, rep, lazy, Exec(plan, es).value, e)
    ensures Exec(plan, es + [e]).Some? && Scheduled(plan, rep, lazy, es + [e])
    ensures Exec(plan, es + [e]).value == Apply(plan, Exec(plan, es).value, e)
  {
    assert (es + [e])[..|es + [e]| - 1] == es;
  }

  lemma {:induction false} CompletesAs(plan: Plan, rep: Reporter, lazy: bool, inv: State -> bool, es: seq<Event>,
      work: nat)
    returns (all: seq<Event>)
    requires WellFormed(plan) && plan.maxParallel < 0 && Kept(plan, rep, lazy, inv)
    requires Exec(plan, es).Some? && Scheduled(plan, rep, lazy, es) && inv(Exec(plan, es).value)
    requires Inv(plan, Exec(plan, es).value) && work == Work(plan, Exec(plan, es).value.ctl)
    ensures Exec(plan, all).Some? && Scheduled(plan, rep, lazy, all) && Exec(plan, all).value.ctl.stage.Done?
    ensures inv(Exec(plan, all).value)
    decreases work
  {
    var s := Exec(plan, es).value;
    if s.ctl.stage.Done? {
      all := es;
    } else {
      var e := NextObeys(plan, rep, lazy, s);
      AppendScheduled(plan, rep, lazy, es, e);
      RunInv(plan, es + [e]);
      ApplyParts(plan, s, e);
      MoveWorks(plan, s.ctl, e, Refuses(plan, s, e), View(plan, s));
      WorkIsNatural(plan, Exec(plan, es + [e]).value.ctl);
      all := CompletesAs(plan, rep, lazy, inv, es + [e], Work(plan, Exec(plan, es + [e]).value.ctl));
    }
  }

  /** A finished run that follows the schedule, with whatever the schedule keeps. */
  lemma RunAs(plan: Plan, rep: Reporter, lazy: bool, inv: State -> bool) returns (es: seq<Event>)
    requires WellFormed(plan) && plan.maxParallel < 0 && Kept(plan, rep, lazy, inv) && inv(Init())
    ensures Exec(plan, es).Some? && Scheduled(plan, rep, lazy, es) && Exec(plan, es).value.ctl.stage.Done?
    ensures inv(Exec(plan, es).value)
  {
    RunInv(plan, []);
    WorkIsNatural(plan, Init().ctl);
    es := CompletesAs(plan, rep, lazy, inv, [], Work(plan, Init().ctl));
  }
}
