/** What every step of the scheduler keeps. */
module SchedulerInvariants {
  import opened Wrappers
  import opened Strings
  import opened Paths
  import opened Plans
  import opened Aggregation
  import opened Scheduler

  /** The outcomes of main tasks. */
  ghost function MainPart(plan: Plan, o: Outcomes): Outcomes {
    map n | n in o && n in plan.main :: o[n]
  }

  /** o' adds to o without changing it. */
  ghost predicate Extends(o: Outcomes, o': Outcomes) {
    forall n :: n in o ==> n in o' && o'[n] == o[n]
  }

  /** Every ancestor has its final outcome. */
  ghost predicate Settled(plan: Plan, o: Outcomes, n: string) {
    forall a :: Ancestor(plan, a, n) ==> a in o
  }

  /** Everything a main task refers to is an ancestor or not a main task. */
  lemma ProducerIsAncestor(plan: Plan, n: string, r: string, d: string)
    requires WellFormed(plan) && n in plan.main && r in plan.refs[n] && d in Producers(plan, r) && d in plan.main
    ensures Ancestor(plan, d, n)
  {
    EdgeReaches(plan.out, d, n);
    LevellingMeansAcyclic(plan.main, plan.out, plan.levels);
  }

  /** The two maps agree on what the ancestors and references of n are tested for. */
  ghost predicate AgreeFor(plan: Plan, o: Outcomes, o': Outcomes, n: string) {
    forall a :: Ancestor(plan, a, n) ==> a in o && a in o' && o[a] == o'[a]
  }

  lemma UpstreamSame(plan: Plan, o: Outcomes, o': Outcomes, n: string)
    requires AgreeFor(plan, o, o', n)
    ensures UpstreamBlocks(plan, o, n) <==> UpstreamBlocks(plan, o', n)
  {
    forall a | Ancestor(plan, a, n) ensures GroupSucceeds(plan, o, n, a) <==> GroupSucceeds(plan, o', n, a) {
      if GroupSucceeds(plan, o, n, a) {
        var b :| Ancestor(plan, b, n) && SameGroup(plan, a, b) && Succeeds(o, b);
        assert Succeeds(o', b);
      }
      if GroupSucceeds(plan, o', n, a) {
        var b :| Ancestor(plan, b, n) && SameGroup(plan, a, b) && Succeeds(o', b);
        assert Succeeds(o, b);
      }
    }
  }

  lemma MissingSame(plan: Plan, o: Outcomes, o': Outcomes, n: string)
    requires WellFormed(plan) && n in plan.main && AgreeFor(plan, o, o', n)
    requires o.Keys <= plan.main && o'.Keys <= plan.main
    ensures MissingRefs(plan, o, n) <==> MissingRefs(plan, o', n)
  {
    forall r | r in plan.refs[n] ensures RefMissing(plan, o, r) <==> RefMissing(plan, o', r) {
      forall d | d in Producers(plan, r) ensures (d in o <==> d in o') && (Succeeds(o, d) <==> Succeeds(o', d)) {
        if d in plan.main { ProducerIsAncestor(plan, n, r, d); }
      }
    }
  }

  lemma BlockedSame(plan: Plan, o: Outcomes, o': Outcomes, n: string)
    requires WellFormed(plan) && n in plan.main && AgreeFor(plan, o, o', n)
    requires o.Keys <= plan.main && o'.Keys <= plan.main
    ensures Blocked(plan, o, true, n) <==> Blocked(plan, o', true, n)
  {
    UpstreamSame(plan, o, o', n);
    MissingSame(plan, o, o', n);
  }

  // ---------------------------------------------------------------- the invariant

  /** A main task whose ancestors are final and which nothing keeps from running. */
  ghost predicate Admissible(plan: Plan, m: Outcomes, n: string) {
    n in plan.main && n in plan.refs && Settled(plan, m, n) && !Blocked(plan, m, true, n)
  }

  /** A main task's outcome is accounted for: stopped by a budget, blocked, or run when admissible. */
  ghost predicate Explained(plan: Plan, m: Outcomes, n: string)
    requires n in m
  {
    && n in plan.main && n in plan.refs && Settled(plan, m, n)
    && match m[n].skip
       case SkipStopped => m[n] == Stopped()
       case SkipBlocked => m[n] == BlockedOutcome() && Blocked(plan, m, true, n)
       case _ => !Blocked(plan, m, true, n)
  }

  ghost predicate AllExplained(plan: Plan, m: Outcomes) {
    forall n :: n in m ==> Explained(plan, m, n)
  }

  /** The task is between its admission and its outcome. */
  ghost predicate UnderWay(plan: Plan, c: Control, n: string) {
    n in c.flights || (!c.pending.Idle? && c.pos < |Batch(plan, c.lvl)| && n == Batch(plan, c.lvl)[c.pos])
  }

  ghost predicate AllAdmissible(plan: Plan, m: Outcomes, c: Control) {
    InMain(plan, c) ==> forall n :: UnderWay(plan, c, n) ==> Admissible(plan, m, n)
  }

  ghost predicate Inv(plan: Plan, s: State) {
    && Shape(plan, s.ctl)
    && Accounted(plan, s.outcomes, s.ctl)
    && s.results == ResultsOf(plan, s.outcomes)
    && AllExplained(plan, MainPart(plan, s.outcomes))
    && AllAdmissible(plan, MainPart(plan, s.outcomes), s.ctl)
  }

  // ---------------------------------------------------------------- it is kept

  lemma ExplainedStable(plan: Plan, m: Outcomes, m': Outcomes, n: string)
    requires WellFormed(plan) && Extends(m, m') && m.Keys <= plan.main && m'.Keys <= plan.main
    ensures n in m && Explained(plan, m, n) ==> Explained(plan, m', n)
    ensures Admissible(plan, m, n) ==> Admissible(plan, m', n)
  {
    if n in plan.main && n in plan.refs && Settled(plan, m, n) {
      assert AgreeFor(plan, m, m', n);
      BlockedSame(plan, m, m', n);
    }
  }

  /** The tasks of the level being worked on have all their ancestors settled. */
  lemma LevelIsSettled(plan: Plan, o: Outcomes, c: Control, n: string)
    requires WellFormed(plan) && Shape(plan, c) && Accounted(plan, o, c)
    requires InMain(plan, c) && n in Batch(plan, c.lvl)
    ensures n in plan.main && n in plan.refs && Settled(plan, o, n)
  {
    assert InLevel(plan.levels, c.lvl, n);
    forall a | Ancestor(plan, a, n) ensures a in o {
      assert Placed(plan.levels, a);
      var i: nat :| InLevel(plan.levels, i, a);
      ReachesClimbs(plan.main, plan.out, plan.levels, a, n, i, c.lvl);
      assert EarlierLevel(plan, c.lvl, a);
      if a in c.flights {
        assert Walked(Batch(plan, c.lvl), c.pos, a);
        assert InLevel(plan.levels, c.lvl, a);
      }
    }
  }

  lemma PassedIsTask(plan: Plan, lvl: nat, pos: nat, n: string)
    requires WellFormed(plan) && lvl <= |plan.levels| && Passed(plan, lvl, pos, n)
    ensures n in plan.main || (lvl == |plan.levels| && n in plan.finallys)
  {
    if EarlierLevel(plan, lvl, n) {
      var i: nat :| i < lvl && InLevel(plan.levels, i, n);
    } else if lvl < |plan.levels| {
      assert InLevel(plan.levels, lvl, n);
    }
  }

  lemma MainPartSame(plan: Plan, o: Outcomes)
    requires forall n :: n in o ==> n in plan.main
    ensures MainPart(plan, o) == o && o.Keys <= plan.main
  {
  }

  lemma OutcomeIsTask(plan: Plan, o: Outcomes, c: Control, n: string)
    requires WellFormed(plan) && c.lvl <= |plan.levels| && Accounted(plan, o, c) && n in o
    ensures n in plan.main || (!InMain(plan, c) && n in plan.finallys)
  {
    PassedIsTask(plan, c.lvl, c.pos, n);
  }

  /** In the main phase only main tasks have outcomes. */
  lemma MainOnly(plan: Plan, o: Outcomes, c: Control)
    requires WellFormed(plan) && Shape(plan, c) && Accounted(plan, o, c) && InMain(plan, c)
    ensures MainPart(plan, o) == o && o.Keys <= plan.main
  {
    forall n | n in o ensures n in plan.main {
      OutcomeIsTask(plan, o, c, n);
    }
    MainPartSame(plan, o);
  }

  lemma InitInv(plan: Plan)
    requires WellFormed(plan)
    ensures Inv(plan, Init())
  {
    var o: Outcomes := map[];
    assert Own(o) == map[];
    forall p | p in plan.rows ensures !HasAggregate(plan, o, p) {
      assert plan.rows[p][0] in plan.rows[p];
    }
    assert ResultsOf(plan, o) == map[];
    assert MainPart(plan, o) == map[];
  }

  /** What a step makes of the parts of the state. */
  lemma ApplyParts(plan: Plan, s: State, e: Event)
    requires Enabled(plan, s, e)
    ensures
      var refuses, s' := Refuses(plan, s, e), Apply(plan, s, e);
      var d := Decided(plan, s.ctl, s.outcomes, e, refuses);
      && s'.ctl == Move(plan, s.ctl, e, refuses, View(plan, s))
      && s'.outcomes == WithDecision(s.outcomes, d)
      && s'.results == if d.Some? then Recorded(plan, s.outcomes, s.results, d.value.0, d.value.1) else s.results
  {
  }

  lemma DecidedIsTask(plan: Plan, c: Control, o: Outcomes, d: Option<(string, Outcome)>)
    requires WellFormed(plan) && Shape(plan, c) && FirstDecision(plan, c, o, d) && d.Some?
    ensures d.value.0 in Batch(plan, c.lvl)
    ensures if InMain(plan, c) then d.value.0 in plan.main else d.value.0 in plan.finallys && d.value.0 !in plan.main
  {
    var n := d.value.0;
    if n in c.flights {
      assert Walked(Batch(plan, c.lvl), c.pos, n);
    }
    if InMain(plan, c) {
      assert InLevel(plan.levels, c.lvl, n);
    }
  }

  lemma OutcomesAreTasks(plan: Plan, o: Outcomes, c: Control)
    requires WellFormed(plan) && Shape(plan, c) && Accounted(plan, o, c)
    ensures o.Keys <= plan.main + Elements(plan.finallys) && o.Keys !! plan.rows.Keys
  {
    forall n | n in o ensures n in plan.main || n in plan.finallys {
      OutcomeIsTask(plan, o, c, n);
    }
  }

  /** The results map stays a function of the outcomes. */
  lemma StepResults(plan: Plan, s: State, e: Event)
    requires WellFormed(plan) && Inv(plan, s) && Enabled(plan, s, e)
    requires FirstDecision(plan, s.ctl, s.outcomes, Decided(plan, s.ctl, s.outcomes, e, Refuses(plan, s, e)))
    ensures Apply(plan, s, e).results == ResultsOf(plan, Apply(plan, s, e).outcomes)
  {
    ApplyParts(plan, s, e);
    var d := Decided(plan, s.ctl, s.outcomes, e, Refuses(plan, s, e));
    if d.Some? {
      DecidedIsTask(plan, s.ctl, s.outcomes, d);
      OutcomesAreTasks(plan, s.outcomes, s.ctl);
      assert d.value.0 in plan.main + Elements(plan.finallys);
      RecordedResults(plan, s.outcomes, d.value.0, d.value.1);
    }
  }

  /** What a main-phase step decides is explained. */
  lemma DecidedExplained(plan: Plan, o: Outcomes, c: Control, e: Event, refuses: bool)
    requires WellFormed(plan) && Shape(plan, c) && Accounted(plan, o, c) && InMain(plan, c) && CanMove(plan, c, e)
    requires o.Keys <= plan.main && AllAdmissible(plan, o, c)
    requires FirstDecision(plan, c, o, Decided(plan, c, o, e, refuses))
    requires e.Check? && Batch(plan, c.lvl)[c.pos] in plan.refs ==>
      refuses == Blocked(plan, o, true, Batch(plan, c.lvl)[c.pos])
    ensures
      var d := Decided(plan, c, o, e, refuses);
      d.Some? ==> Explained(plan, WithDecision(o, d), d.value.0)
  {
    var d := Decided(plan, c, o, e, refuses);
    if d.Some? {
      var n, o' := d.value.0, WithDecision(o, d);
      DecidedIsTask(plan, c, o, d);
      LevelIsSettled(plan, o, c, n);
      assert AgreeFor(plan, o, o', n);
      BlockedSame(plan, o, o', n);
      if e.Finish? {
        assert UnderWay(plan, c, n);
      }
    }
  }

  /** A step puts no task under way but the one it admits. */
  lemma MoveUnderWay(plan: Plan, c: Control, e: Event, refuses: bool, view: Results, n: string)
    requires Shape(plan, c) && CanMove(plan, c, e) && UnderWay(plan, Move(plan, c, e, refuses, view), n)
    ensures UnderWay(plan, c, n) || (e.Check? && !refuses && n == Batch(plan, c.lvl)[c.pos])
  {
  }

  lemma MainStepExplained(plan: Plan, s: State, e: Event)
    requires WellFormed(plan) && Inv(plan, s) && Enabled(plan, s, e) && InMain(plan, s.ctl)
    requires FirstDecision(plan, s.ctl, s.outcomes, Decided(plan, s.ctl, s.outcomes, e, Refuses(plan, s, e)))
    ensures
      var s' := Apply(plan, s, e);
      s'.outcomes.Keys <= plan.main && AllExplained(plan, s'.outcomes) && AllAdmissible(plan, s'.outcomes, s'.ctl)
  {
    var refuses := Refuses(plan, s, e);
    ApplyParts(plan, s, e);
    MainOnly(plan, s.outcomes, s.ctl);
    MainStepValues(plan, s.outcomes, s.ctl, e, refuses, View(plan, s));
  }

  lemma MainStepValues(plan: Plan, o: Outcomes, c: Control, e: Event, refuses: bool, view: Results)
    requires WellFormed(plan) && Shape(plan, c) && Accounted(plan, o, c) && InMain(plan, c) && CanMove(plan, c, e)
    requires o.Keys <= plan.main && AllExplained(plan, o) && AllAdmissible(plan, o, c)
    requires FirstDecision(plan, c, o, Decided(plan, c, o, e, refuses))
    requires e.Check? && Batch(plan, c.lvl)[c.pos] in plan.refs ==>
      refuses == Blocked(plan, o, true, Batch(plan, c.lvl)[c.pos])
    ensures
      var o' := WithDecision(o, Decided(plan, c, o, e, refuses));
      o'.Keys <= plan.main && AllExplained(plan, o') && AllAdmissible(plan, o', Move(plan, c, e, refuses, view))
  {
    var d, c' := Decided(plan, c, o, e, refuses), Move(plan, c, e, refuses, view);
    var o' := WithDecision(o, d);
    if d.Some? { DecidedIsTask(plan, c, o, d); }
    DecidedExplained(plan, o, c, e, refuses);
    forall n | n in o' ensures Explained(plan, o', n) {
      if n in o { ExplainedStable(plan, o, o', n); }
    }
    if InMain(plan, c') {
      forall n | UnderWay(plan, c', n) ensures Admissible(plan, o', n) {
        UnderWayIsAdmissible(plan, o, c, e, refuses, view, n);
        ExplainedStable(plan, o, o', n);
      }
    }
  }

  lemma UnderWayIsAdmissible(plan: Plan, o: Outcomes, c: Control, e: Event, refuses: bool, view: Results, n: string)
    requires WellFormed(plan) && Shape(plan, c) && Accounted(plan, o, c) && InMain(plan, c) && CanMove(plan, c, e)
    requires o.Keys <= plan.main && AllAdmissible(plan, o, c)
    requires e.Check? && Batch(plan, c.lvl)[c.pos] in plan.refs ==>
      refuses == Blocked(plan, o, true, Batch(plan, c.lvl)[c.pos])
    requires InMain(plan, Move(plan, c, e, refuses, view)) && UnderWay(plan, Move(plan, c, e, refuses, view), n)
    ensures Admissible(plan, o, n)
  {
    MoveUnderWay(plan, c, e, refuses, view, n);
    if e.Check? && n == Batch(plan, c.lvl)[c.pos] {
      LevelIsSettled(plan, o, c, n);
    }
  }

  /** Every step keeps the bounds and the accounts, and overwrites no outcome. */
  lemma StepAccounts(plan: Plan, s: State, e: Event)
    requires WellFormed(plan) && Shape(plan, s.ctl) && Accounted(plan, s.outcomes, s.ctl) && Enabled(plan, s, e)
    ensures
      var s' := Apply(plan, s, e);
      Shape(plan, s'.ctl) && Accounted(plan, s'.outcomes, s'.ctl) && Extends(s.outcomes, s'.outcomes)
    ensures FirstDecision(plan, s.ctl, s.outcomes, Decided(plan, s.ctl, s.outcomes, e, Refuses(plan, s, e)))
  {
    var refuses, c := Refuses(plan, s, e), s.ctl;
    ApplyParts(plan, s, e);
    MoveShape(plan, c, e, refuses, View(plan, s));
    if c.pos < |Batch(plan, c.lvl)| { NextIsNew(plan, c.lvl, c.pos); }
    MoveAccounted(plan, c, s.outcomes, e, refuses, View(plan, s));
  }

  /** Every step keeps what is known about the main tasks. */
  lemma StepExplains(plan: Plan, s: State, e: Event)
    requires WellFormed(plan) && Inv(plan, s) && Enabled(plan, s, e)
    requires FirstDecision(plan, s.ctl, s.outcomes, Decided(plan, s.ctl, s.outcomes, e, Refuses(plan, s, e)))
    ensures
      var s' := Apply(plan, s, e);
      AllExplained(plan, MainPart(plan, s'.outcomes)) && AllAdmissible(plan, MainPart(plan, s'.outcomes), s'.ctl)
  {
    if InMain(plan, s.ctl) {
      MainStepExplained(plan, s, e);
      assert MainPart(plan, Apply(plan, s, e).outcomes) == Apply(plan, s, e).outcomes;
    } else {
      FinallyKeepsMain(plan, s, e);
    }
  }

  /** Every step keeps the invariant and overwrites no outcome. */
  lemma StepInv(plan: Plan, s: State, e: Event)
    requires WellFormed(plan) && Inv(plan, s) && Enabled(plan, s, e)
    ensures Inv(plan, Apply(plan, s, e)) && Extends(s.outcomes, Apply(plan, s, e).outcomes)
  {
    StepAccounts(plan, s, e);
    StepResults(plan, s, e);
    StepExplains(plan, s, e);
  }

  /** The finally phase leaves the main outcomes alone. */
  lemma FinallyKeepsMain(plan: Plan, s: State, e: Event)
    requires WellFormed(plan) && Shape(plan, s.ctl) && Enabled(plan, s, e) && !InMain(plan, s.ctl)
    requires FirstDecision(plan, s.ctl, s.outcomes, Decided(plan, s.ctl, s.outcomes, e, Refuses(plan, s, e)))
    ensures MainPart(plan, Apply(plan, s, e).outcomes) == MainPart(plan, s.outcomes)
      && !InMain(plan, Apply(plan, s, e).ctl)
  {
    ApplyParts(plan, s, e);
    var d := Decided(plan, s.ctl, s.outcomes, e, Refuses(plan, s, e));
    if d.Some? { DecidedIsTask(plan, s.ctl, s.outcomes, d); }
  }

  /** The invariant holds after every run. */
  lemma {:induction false} RunInv(plan: Plan, es: seq<Event>)
    requires WellFormed(plan) && Exec(plan, es).Some?
    ensures Inv(plan, Exec(plan, es).value)
  {
    if es == [] {
      InitInv(plan);
    } else {
      RunInv(plan, es[..|es| - 1]);
      StepInv(plan, Exec(plan, es[..|es| - 1]).value, es[|es| - 1]);
    }
  }
}
