/** Without budgets, the interleaving and the parallelism limit do not matter. */
module Confluence {
  import opened Wrappers
  import opened Strings
  import opened Paths
  import opened Plans
  import opened Aggregation
  import opened Scheduler
  import opened SchedulerInvariants
  import opened SchedulerTheorems

  /** What tasks report: a main task given the results of its ancestors, a finally task given the
      results of the main phase and, for $(tasks.status) and its kind, the main tasks' outcomes. */
  datatype Oracle = Oracle(main: (string, Results) -> Outcome, fin: (string, Results, Outcomes) -> Outcome)

  /** Every producer of k comes before n. */
  ghost predicate Visible(plan: Plan, n: string, k: string) {
    forall d :: d in Producers(plan, k) ==> Ancestor(plan, d, n)
  }

  /** The results of n's ancestors, matrix aggregates included. */
  ghost function AncestorResults(plan: Plan, n: string, results: Results): Results {
    map k | k in results && Visible(plan, n, k) :: results[k]
  }

  /** The outcome a main task must have, given those of the others. */
  ghost function MainOutcome(plan: Plan, oracle: Oracle, m: Outcomes, n: string): Outcome
    requires n in plan.refs
  {
    if Blocked(plan, m, true, n) then BlockedOutcome()
    else Finished(Init().clock, true, oracle.main(n, AncestorResults(plan, n, ResultsOf(plan, m))))
  }

  /** The outcome a finally task must have, given those of the main tasks. */
  ghost function FinallyOutcome(plan: Plan, oracle: Oracle, m: Outcomes, n: string): Outcome
    requires n in plan.refs
  {
    if MissingRefs(plan, m, n) then BlockedOutcome()
    else Finished(Init().clock, false, oracle.fin(n, ResultsOf(plan, m), m))
  }

  ghost predicate Solves(plan: Plan, oracle: Oracle, m: Outcomes) {
    forall n :: n in m ==> n in plan.refs && m[n] == MainOutcome(plan, oracle, m, n)
  }

  /** The j-th finally task refers to results of the i-th. */
  ghost predicate RefersBetween(plan: Plan, i: nat, j: nat)
    requires i < |plan.finallys| && j < |plan.finallys|
  {
    var f, g := plan.finallys[i], plan.finallys[j];
    g in plan.refs && exists r :: r in plan.refs[g] && f in Producers(plan, r)
  }

  /** No finally task refers to a finally task listed before it. */
  ghost predicate FinallyOrdered(plan: Plan) {
    forall i, j :: 0 <= i < j < |plan.finallys| ==> !RefersBetween(plan, i, j)
  }

  // ---------------------------------------------------------------- the equations depend on ancestors only

  lemma OwnSame(o: Outcomes, o': Outcomes, n: string)
    requires n in o && n in o' && o[n] == o'[n]
    ensures (n in Own(o) <==> n in Own(o')) && (n in Own(o) ==> Own(o)[n] == Own(o')[n])
  {
  }

  lemma VisibleSame(plan: Plan, o: Outcomes, o': Outcomes, n: string, k: string)
    requires AgreeFor(plan, o, o', n) && Visible(plan, n, k)
    requires o.Keys !! plan.rows.Keys && o'.Keys !! plan.rows.Keys
    ensures k in ResultsOf(plan, o) <==> k in ResultsOf(plan, o')
    ensures k in ResultsOf(plan, o) ==> ResultsOf(plan, o)[k] == ResultsOf(plan, o')[k]
  {
    ResultsOfKey(plan, o, k);
    ResultsOfKey(plan, o', k);
    if k in plan.rows {
      forall r | r in plan.rows[k]
        ensures r in o && r in o' && (r in Own(o) <==> r in Own(o')) && (r in Own(o) ==> Own(o)[r] == Own(o')[r])
      {
        OwnSame(o, o', r);
      }
      TableSame(plan.rows[k], Own(o), Own(o'), plan.encode);
    } else {
      assert k in Producers(plan, k);
    }
  }

  lemma RestrictSame(plan: Plan, n: string, a: Results, b: Results)
    requires forall k :: Visible(plan, n, k) ==> (k in a <==> k in b) && (k in a && k in b ==> a[k] == b[k])
    ensures AncestorResults(plan, n, a) == AncestorResults(plan, n, b)
  {
  }

  lemma AncestorResultsSame(plan: Plan, o: Outcomes, o': Outcomes, n: string)
    requires AgreeFor(plan, o, o', n) && o.Keys !! plan.rows.Keys && o'.Keys !! plan.rows.Keys
    ensures AncestorResults(plan, n, ResultsOf(plan, o)) == AncestorResults(plan, n, ResultsOf(plan, o'))
  {
    var a, b := ResultsOf(plan, o), ResultsOf(plan, o');
    forall k | Visible(plan, n, k) ensures (k in a <==> k in b) && (k in a && k in b ==> a[k] == b[k]) {
      VisibleSame(plan, o, o', n, k);
    }
    RestrictSame(plan, n, a, b);
  }

  lemma MainIsNoParent(plan: Plan, o: Outcomes)
    requires WellFormed(plan) && o.Keys <= plan.main
    ensures o.Keys !! plan.rows.Keys
  {
  }

  lemma MainOutcomeSame(plan: Plan, oracle: Oracle, o: Outcomes, o': Outcomes, n: string)
    requires WellFormed(plan) && n in plan.main && AgreeFor(plan, o, o', n)
    requires o.Keys <= plan.main && o'.Keys <= plan.main
    ensures MainOutcome(plan, oracle, o, n) == MainOutcome(plan, oracle, o', n)
  {
    BlockedSame(plan, o, o', n);
    MainIsNoParent(plan, o);
    MainIsNoParent(plan, o');
    AncestorResultsSame(plan, o, o', n);
  }

  /** There is at most one way to give every main task its required outcome. */
  lemma {:induction false} SolutionIsUniqueAt(plan: Plan, oracle: Oracle, a: Outcomes, b: Outcomes, n: string, i: nat)
    requires WellFormed(plan) && a.Keys == plan.main && b.Keys == plan.main
    requires Solves(plan, oracle, a) && Solves(plan, oracle, b) && InLevel(plan.levels, i, n)
    ensures n in plan.main && a[n] == b[n]
    decreases i
  {
    forall x | Ancestor(plan, x, n) ensures a[x] == b[x] {
      assert Placed(plan.levels, x);
      var j: nat :| InLevel(plan.levels, j, x);
      ReachesClimbs(plan.main, plan.out, plan.levels, x, n, j, i);
      SolutionIsUniqueAt(plan, oracle, a, b, x, j);
    }
    MainOutcomeSame(plan, oracle, a, b, n);
  }

  lemma SolutionIsUnique(plan: Plan, oracle: Oracle, a: Outcomes, b: Outcomes)
    requires WellFormed(plan) && a.Keys == plan.main && b.Keys == plan.main
    requires Solves(plan, oracle, a) && Solves(plan, oracle, b)
    ensures a == b
  {
    forall n | n in plan.main ensures a[n] == b[n] {
      assert Placed(plan.levels, n);
      var i: nat :| InLevel(plan.levels, i, n);
      SolutionIsUniqueAt(plan, oracle, a, b, n, i);
    }
  }

  // ---------------------------------------------------------------- deterministic runs

  /** What the oracle has a task in flight report: of the results it was given a main task depends
      on its ancestors' only. */
  ghost function Report(plan: Plan, oracle: Oracle, s: State, n: string): Outcome
    requires n in s.ctl.flights
  {
    var snapshot := s.ctl.flights[n].snapshot;
    if InMain(plan, s.ctl) then oracle.main(n, AncestorResults(plan, n, snapshot))
    else oracle.fin(n, snapshot, MainPart(plan, s.outcomes))
  }

  /** No context ends, and a task reports what the oracle says. */
  ghost predicate Follows(plan: Plan, oracle: Oracle, s: State, e: Event) {
    match e
    case Tick(_) => false
    case Finish(n, reported, _) => n in s.ctl.flights ==> reported == Report(plan, oracle, s, n)
    case _ => true
  }

  ghost predicate Deterministic(plan: Plan, oracle: Oracle, es: seq<Event>) {
    es == [] ||
    (var init := es[..|es| - 1];
     Deterministic(plan, oracle, init) && Exec(plan, init).Some?
       && Follows(plan, oracle, Exec(plan, init).value, es[|es| - 1]))
  }

  /** The results a task under way was given, once they were taken. */
  ghost predicate Given(plan: Plan, c: Control, n: string, snapshot: Results) {
    (n in c.flights && c.flights[n].snapshot == snapshot) ||
    (c.pending.Snapped? && c.pos < |Batch(plan, c.lvl)| && n == Batch(plan, c.lvl)[c.pos]
      && c.pending.snapshot == snapshot)
  }

  ghost predicate MainFollows(plan: Plan, oracle: Oracle, m: Outcomes, c: Control) {
    && Solves(plan, oracle, m)
    && (InMain(plan, c) ==> forall n, snapshot :: Given(plan, c, n, snapshot) ==>
          AncestorResults(plan, n, snapshot) == AncestorResults(plan, n, ResultsOf(plan, m)))
  }

  ghost predicate FinallyFollows(plan: Plan, oracle: Oracle, s: State) {
    var m := MainPart(plan, s.outcomes);
    !InMain(plan, s.ctl) ==>
      && (!s.ctl.stage.Entering? ==> s.finallyResults == ResultsOf(plan, m))
      && (forall n, snapshot :: Given(plan, s.ctl, n, snapshot) ==> snapshot == ResultsOf(plan, m))
      && (forall n :: UnderWay(plan, s.ctl, n) ==> n in plan.refs && !MissingRefs(plan, m, n))
      && (forall n :: n in s.outcomes && n !in plan.main ==>
         n in plan.refs && s.outcomes[n] == FinallyOutcome(plan, oracle, m, n))
  }

  /** What a deterministic run keeps, whatever its finally tasks refer to. */
  ghost predicate MainDet(plan: Plan, oracle: Oracle, s: State) {
    && s.clock == Init().clock && !s.ctl.stage.Stopping? && !s.tasksExpired
    && MainFollows(plan, oracle, MainPart(plan, s.outcomes), s.ctl)
  }

  ghost predicate DetInv(plan: Plan, oracle: Oracle, s: State) {
    MainDet(plan, oracle, s) && FinallyFollows(plan, oracle, s)
  }

  /** A step takes no snapshot but the one the view gives. */
  lemma MoveGiven(plan: Plan, c: Control, e: Event, refuses: bool, view: Results, n: string, snapshot: Results)
    requires Shape(plan, c) && CanMove(plan, c, e) && Given(plan, Move(plan, c, e, refuses, view), n, snapshot)
    ensures Given(plan, c, n, snapshot) || (e.Snapshot? && snapshot == view)
    ensures UnderWay(plan, c, n)
  {
  }

  /** What a deterministic step decides in the main phase solves the equation. */
  lemma DecidedSolves(plan: Plan, oracle: Oracle, s: State, e: Event)
    requires WellFormed(plan) && Inv(plan, s) && Enabled(plan, s, e) && InMain(plan, s.ctl)
    requires MainDet(plan, oracle, s) && Follows(plan, oracle, s, e) && s.outcomes.Keys <= plan.main
    requires MainPart(plan, s.outcomes) == s.outcomes
    ensures
      var d := Decided(plan, s.ctl, s.outcomes, e, Refuses(plan, s, e));
      d.Some? ==> d.value.0 in plan.refs && d.value.1 == MainOutcome(plan, oracle, s.outcomes, d.value.0)
  {
    var c := s.ctl;
    match e
    case Check => NextIsNew(plan, c.lvl, c.pos);
    case Finish(n, _, _) =>
      assert UnderWay(plan, c, n) && Given(plan, c, n, c.flights[n].snapshot);
      assert Admissible(plan, s.outcomes, n);
    case _ =>
  }

  lemma DecidedSettled(plan: Plan, s: State, e: Event)
    requires WellFormed(plan) && Inv(plan, s) && Enabled(plan, s, e) && InMain(plan, s.ctl)
    ensures
      var d := Decided(plan, s.ctl, s.outcomes, e, Refuses(plan, s, e));
      d.Some? ==> d.value.0 !in s.outcomes && Settled(plan, s.outcomes, d.value.0)
  {
    StepAccounts(plan, s, e);
    var d := Decided(plan, s.ctl, s.outcomes, e, Refuses(plan, s, e));
    if d.Some? {
      DecidedIsTask(plan, s.ctl, s.outcomes, d);
      LevelIsSettled(plan, s.outcomes, s.ctl, d.value.0);
    }
  }

  /** A new outcome, the one the task must have, whose ancestors are settled. */
  ghost predicate RightDecision(plan: Plan, oracle: Oracle, o: Outcomes, d: Option<(string, Outcome)>) {
    d.Some? ==>
      && d.value.0 in plan.refs && d.value.0 !in o && Settled(plan, o, d.value.0)
      && d.value.1 == MainOutcome(plan, oracle, o, d.value.0)
  }

  lemma MainDecides(plan: Plan, oracle: Oracle, s: State, e: Event)
    requires WellFormed(plan) && Inv(plan, s) && Enabled(plan, s, e) && InMain(plan, s.ctl)
    requires MainDet(plan, oracle, s) && Follows(plan, oracle, s, e)
    ensures RightDecision(plan, oracle, s.outcomes, Decided(plan, s.ctl, s.outcomes, e, Refuses(plan, s, e)))
  {
    MainOnly(plan, s.outcomes, s.ctl);
    DecidedSettled(plan, s, e);
    DecidedSolves(plan, oracle, s, e);
  }

  lemma MainStepFollows(plan: Plan, oracle: Oracle, s: State, e: Event)
    requires WellFormed(plan) && Inv(plan, s) && Enabled(plan, s, e) && InMain(plan, s.ctl)
    requires MainDet(plan, oracle, s) && Follows(plan, oracle, s, e)
    ensures MainPart(plan, Apply(plan, s, e).outcomes) == Apply(plan, s, e).outcomes
    ensures MainFollows(plan, oracle, Apply(plan, s, e).outcomes, Apply(plan, s, e).ctl)
  {
    MainStepPart(plan, s, e);
    ApplyParts(plan, s, e);
    MainStepValue(plan, oracle, s, e);
  }

  lemma MainStepValue(plan: Plan, oracle: Oracle, s: State, e: Event)
    requires WellFormed(plan) && Inv(plan, s) && Enabled(plan, s, e) && InMain(plan, s.ctl)
    requires MainDet(plan, oracle, s) && Follows(plan, oracle, s, e)
    ensures
      var d := Decided(plan, s.ctl, s.outcomes, e, Refuses(plan, s, e));
      MainFollows(plan, oracle, WithDecision(s.outcomes, d), Move(plan, s.ctl, e, Refuses(plan, s, e), View(plan, s)))
  {
    var d := Decided(plan, s.ctl, s.outcomes, e, Refuses(plan, s, e));
    MainOnly(plan, s.outcomes, s.ctl);
    MainStepExtends(plan, s, e);
    MainDecides(plan, oracle, s, e);
    MainFollowsStable(plan, oracle, s.outcomes, WithDecision(s.outcomes, d), s.ctl, e, Refuses(plan, s, e),
      View(plan, s));
  }

  lemma MainStepExtends(plan: Plan, s: State, e: Event)
    requires WellFormed(plan) && Inv(plan, s) && Enabled(plan, s, e) && InMain(plan, s.ctl)
    ensures
      var o' := WithDecision(s.outcomes, Decided(plan, s.ctl, s.outcomes, e, Refuses(plan, s, e)));
      o'.Keys <= plan.main && AllExplained(plan, o') && Extends(s.outcomes, o')
  {
    StepAccounts(plan, s, e);
    MainStepPart(plan, s, e);
    ApplyParts(plan, s, e);
  }

  lemma MainStepPart(plan: Plan, s: State, e: Event)
    requires WellFormed(plan) && Inv(plan, s) && Enabled(plan, s, e) && InMain(plan, s.ctl)
    ensures
      var s' := Apply(plan, s, e);
      s'.outcomes.Keys <= plan.main && AllExplained(plan, s'.outcomes) && MainPart(plan, s'.outcomes) == s'.outcomes
  {
    StepAccounts(plan, s, e);
    MainStepExplained(plan, s, e);
    MainPartSame(plan, Apply(plan, s, e).outcomes);
  }

  lemma MainFollowsStable(plan: Plan, oracle: Oracle, o: Outcomes, o': Outcomes, c: Control, e: Event,
      refuses: bool, view: Results)
    requires WellFormed(plan) && Shape(plan, c) && CanMove(plan, c, e) && InMain(plan, c)
    requires o' == WithDecision(o, Decided(plan, c, o, e, refuses)) && Extends(o, o')
    requires o.Keys <= plan.main && o'.Keys <= plan.main && AllExplained(plan, o) && AllExplained(plan, o')
      && AllAdmissible(plan, o, c)
    requires MainFollows(plan, oracle, o, c) && view == ResultsOf(plan, o)
    requires RightDecision(plan, oracle, o, Decided(plan, c, o, e, refuses))
    ensures MainFollows(plan, oracle, o', Move(plan, c, e, refuses, view))
  {
    SolvesStable(plan, oracle, o, o', Decided(plan, c, o, e, refuses));
    var c' := Move(plan, c, e, refuses, view);
    if InMain(plan, c') {
      forall n, snapshot | Given(plan, c', n, snapshot)
        ensures AncestorResults(plan, n, snapshot) == AncestorResults(plan, n, ResultsOf(plan, o'))
      {
        MoveGiven(plan, c, e, refuses, view, n, snapshot);
        assert Admissible(plan, o, n);
        SnapshotStable(plan, o, o', n);
      }
    }
  }

  lemma SolvesStable(plan: Plan, oracle: Oracle, o: Outcomes, o': Outcomes, d: Option<(string, Outcome)>)
    requires WellFormed(plan) && o' == WithDecision(o, d) && Extends(o, o') && o.Keys <= plan.main
      && o'.Keys <= plan.main
    requires AllExplained(plan, o) && Solves(plan, oracle, o) && RightDecision(plan, oracle, o, d)
    ensures Solves(plan, oracle, o')
  {
    forall n | n in o' ensures n in plan.refs && o'[n] == MainOutcome(plan, oracle, o', n) {
      assert Settled(plan, o, n) by { if n in o { assert Explained(plan, o, n); } }
      MainOutcomeSame(plan, oracle, o, o', n);
    }
  }

  lemma SnapshotStable(plan: Plan, o: Outcomes, o': Outcomes, n: string)
    requires WellFormed(plan) && Extends(o, o') && o.Keys <= plan.main && o'.Keys <= plan.main && Settled(plan, o, n)
    ensures AncestorResults(plan, n, ResultsOf(plan, o)) == AncestorResults(plan, n, ResultsOf(plan, o'))
  {
    MainIsNoParent(plan, o);
    MainIsNoParent(plan, o');
    AncestorResultsSame(plan, o, o', n);
  }

  // ---------------------------------------------------------------- the finally phase

  /** When the j-th finally task is examined, the outcomes of finally tasks listed before it play no part. */
  lemma MissingInMain(plan: Plan, o: Outcomes, j: nat)
    requires FinallyOrdered(plan) && j < |plan.finallys| && plan.finallys[j] in plan.refs
    requires forall n :: n in o ==> n in plan.main || Walked(plan.finallys, j, n)
    ensures MissingRefs(plan, o, plan.finallys[j]) <==> MissingRefs(plan, MainPart(plan, o), plan.finallys[j])
  {
    var m := MainPart(plan, o);
    forall r | r in plan.refs[plan.finallys[j]] ensures RefMissing(plan, o, r) <==> RefMissing(plan, m, r) {
      NoEarlierProducer(plan, j, r);
      forall d | d in Producers(plan, r) ensures (d in o <==> d in m) && (Succeeds(o, d) <==> Succeeds(m, d)) {
      }
    }
  }

  lemma NoEarlierProducer(plan: Plan, j: nat, r: string)
    requires FinallyOrdered(plan) && j < |plan.finallys| && plan.finallys[j] in plan.refs
    requires r in plan.refs[plan.finallys[j]]
    ensures forall d :: d in Producers(plan, r) ==> !Walked(plan.finallys, j, d)
  {
    forall i | 0 <= i < j ensures plan.finallys[i] !in Producers(plan, r) {
      assert !RefersBetween(plan, i, j);
    }
  }

  /** In the finally phase outcomes belong to main tasks and to finally tasks already passed. */
  lemma PassedInFinally(plan: Plan, o: Outcomes, c: Control)
    requires WellFormed(plan) && Shape(plan, c) && Accounted(plan, o, c) && !InMain(plan, c)
    ensures forall n :: n in o ==> n in plan.main || Walked(plan.finallys, c.pos, n)
  {
    forall n | n in o ensures n in plan.main || Walked(plan.finallys, c.pos, n) {
      assert Passed(plan, c.lvl, c.pos, n);
      if EarlierLevel(plan, c.lvl, n) {
        var i: nat :| i < c.lvl && InLevel(plan.levels, i, n);
      }
    }
  }

  /** What a deterministic step decides in the finally phase is the finally task's outcome. */
  lemma FinallyDecided(plan: Plan, oracle: Oracle, s: State, e: Event)
    requires WellFormed(plan) && FinallyOrdered(plan) && Inv(plan, s) && Enabled(plan, s, e) && !InMain(plan, s.ctl)
    requires DetInv(plan, oracle, s) && Follows(plan, oracle, s, e)
    ensures
      var d := Decided(plan, s.ctl, s.outcomes, e, Refuses(plan, s, e));
      d.Some? ==>
        && d.value.0 in plan.refs
        && d.value.1 == FinallyOutcome(plan, oracle, MainPart(plan, s.outcomes), d.value.0)
  {
    var c, m := s.ctl, MainPart(plan, s.outcomes);
    StepAccounts(plan, s, e);
    var d := Decided(plan, c, s.outcomes, e, Refuses(plan, s, e));
    if d.Some? {
      var f := d.value.0;
      DecidedIsTask(plan, c, s.outcomes, d);
      assert f in Elements(plan.finallys);
      if e.Check? {
        PassedInFinally(plan, s.outcomes, c);
        MissingInMain(plan, s.outcomes, c.pos);
      } else if e.Finish? {
        assert Given(plan, c, f, c.flights[f].snapshot) && UnderWay(plan, c, f);
      }
    }
  }

  lemma FinallyAdmits(plan: Plan, s: State, e: Event)
    requires WellFormed(plan) && FinallyOrdered(plan) && Inv(plan, s) && Enabled(plan, s, e) && !InMain(plan, s.ctl)
    requires e.Check? && !Refuses(plan, s, e)
    ensures
      var n := Batch(plan, s.ctl.lvl)[s.ctl.pos];
      n in plan.refs && !MissingRefs(plan, MainPart(plan, s.outcomes), n)
  {
    NextIsNew(plan, s.ctl.lvl, s.ctl.pos);
    PassedInFinally(plan, s.outcomes, s.ctl);
    MissingInMain(plan, s.outcomes, s.ctl.pos);
  }

  /** On entering the finally phase the results are those of the main tasks. */
  lemma EnteringResults(plan: Plan, s: State)
    requires WellFormed(plan) && Inv(plan, s) && !InMain(plan, s.ctl) && s.ctl.stage.Entering?
    ensures s.results == ResultsOf(plan, MainPart(plan, s.outcomes))
  {
    forall n | n in s.outcomes ensures n in plan.main {
      assert EarlierLevel(plan, s.ctl.lvl, n);
      var i: nat :| i < s.ctl.lvl && InLevel(plan.levels, i, n);
    }
    MainPartSame(plan, s.outcomes);
  }

  lemma FinallyStaysUnderWay(plan: Plan, oracle: Oracle, s: State, e: Event)
    requires WellFormed(plan) && Inv(plan, s) && Enabled(plan, s, e) && !InMain(plan, s.ctl)
      && FinallyFollows(plan, oracle, s)
    requires FinallyOrdered(plan)
    ensures forall n :: UnderWay(plan, Apply(plan, s, e).ctl, n) ==>
      n in plan.refs && !MissingRefs(plan, MainPart(plan, s.outcomes), n)
  {
    var s', m, refuses := Apply(plan, s, e), MainPart(plan, s.outcomes), Refuses(plan, s, e);
    ApplyParts(plan, s, e);
    forall n | UnderWay(plan, s'.ctl, n) ensures n in plan.refs && !MissingRefs(plan, m, n) {
      MoveUnderWay(plan, s.ctl, e, refuses, View(plan, s), n);
      if e.Check? && !refuses { FinallyAdmits(plan, s, e); }
    }
  }

  /** The view finally tasks are given is that of the main tasks, from the first step on. */
  lemma FinallyViewFollows(plan: Plan, oracle: Oracle, s: State, e: Event)
    requires WellFormed(plan) && Inv(plan, s) && Enabled(plan, s, e) && !InMain(plan, s.ctl)
      && FinallyFollows(plan, oracle, s)
    ensures
      var s', m := Apply(plan, s, e), MainPart(plan, s.outcomes);
      && (!s'.ctl.stage.Entering? ==> s'.finallyResults == ResultsOf(plan, m))
      && (forall n, snapshot :: Given(plan, s'.ctl, n, snapshot) ==> snapshot == ResultsOf(plan, m))
  {
    var s', m, refuses := Apply(plan, s, e), MainPart(plan, s.outcomes), Refuses(plan, s, e);
    ApplyParts(plan, s, e);
    if s.ctl.stage.Entering? {
      EnteringResults(plan, s);
    }
    forall n, snapshot | Given(plan, s'.ctl, n, snapshot) ensures snapshot == ResultsOf(plan, m) {
      MoveGiven(plan, s.ctl, e, refuses, View(plan, s), n, snapshot);
    }
  }

  lemma FinallyOutcomesFollow(plan: Plan, oracle: Oracle, s: State, e: Event)
    requires WellFormed(plan) && FinallyOrdered(plan) && Inv(plan, s) && Enabled(plan, s, e) && !InMain(plan, s.ctl)
    requires DetInv(plan, oracle, s) && Follows(plan, oracle, s, e)
    ensures
      var o', m := Apply(plan, s, e).outcomes, MainPart(plan, s.outcomes);
      forall n :: n in o' && n !in plan.main ==> n in plan.refs && o'[n] == FinallyOutcome(plan, oracle, m, n)
  {
    ApplyParts(plan, s, e);
    FinallyDecided(plan, oracle, s, e);
    var d := Decided(plan, s.ctl, s.outcomes, e, Refuses(plan, s, e));
    DecisionFollows(plan, oracle, MainPart(plan, s.outcomes), s.outcomes, d);
  }

  lemma DecisionFollows(plan: Plan, oracle: Oracle, m: Outcomes, o: Outcomes, d: Option<(string, Outcome)>)
    requires forall n :: n in o && n !in plan.main ==> n in plan.refs && o[n] == FinallyOutcome(plan, oracle, m, n)
    requires d.Some? ==> d.value.0 in plan.refs && d.value.1 == FinallyOutcome(plan, oracle, m, d.value.0)
    ensures
      var o' := WithDecision(o, d);
      forall n :: n in o' && n !in plan.main ==> n in plan.refs && o'[n] == FinallyOutcome(plan, oracle, m, n)
  {
  }

  lemma FinallyStepFollows(plan: Plan, oracle: Oracle, s: State, e: Event)
    requires WellFormed(plan) && FinallyOrdered(plan) && Inv(plan, s) && Enabled(plan, s, e) && !InMain(plan, s.ctl)
    requires DetInv(plan, oracle, s) && Follows(plan, oracle, s, e)
    ensures FinallyFollows(plan, oracle, Apply(plan, s, e))
    ensures MainPart(plan, Apply(plan, s, e).outcomes) == MainPart(plan, s.outcomes)
      && !InMain(plan, Apply(plan, s, e).ctl)
  {
    StepAccounts(plan, s, e);
    FinallyKeepsMain(plan, s, e);
    FinallyViewFollows(plan, oracle, s, e);
    FinallyStaysUnderWay(plan, oracle, s, e);
    FinallyOutcomesFollow(plan, oracle, s, e);
  }

  // ---------------------------------------------------------------- whole runs

  lemma StepClock(plan: Plan, oracle: Oracle, s: State, e: Event)
    requires Enabled(plan, s, e) && MainDet(plan, oracle, s) && Follows(plan, oracle, s, e)
    ensures var s' := Apply(plan, s, e); s'.clock == Init().clock && !s'.ctl.stage.Stopping? && !s'.tasksExpired
  {
  }

  lemma DetStep(plan: Plan, oracle: Oracle, s: State, e: Event)
    requires WellFormed(plan) && FinallyOrdered(plan) && Inv(plan, s) && Enabled(plan, s, e)
    requires DetInv(plan, oracle, s) && Follows(plan, oracle, s, e)
    ensures DetInv(plan, oracle, Apply(plan, s, e))
  {
    MainDetStep(plan, oracle, s, e);
    if InMain(plan, s.ctl) {
      IntoFinally(plan, oracle, s, e);
    } else {
      FinallyStepFollows(plan, oracle, s, e);
    }
  }

  lemma MainDetStep(plan: Plan, oracle: Oracle, s: State, e: Event)
    requires WellFormed(plan) && Inv(plan, s) && Enabled(plan, s, e)
    requires MainDet(plan, oracle, s) && Follows(plan, oracle, s, e)
    ensures MainDet(plan, oracle, Apply(plan, s, e))
  {
    StepClock(plan, oracle, s, e);
    if InMain(plan, s.ctl) {
      MainStepFollows(plan, oracle, s, e);
    } else {
      StepAccounts(plan, s, e);
      FinallyKeepsMain(plan, s, e);
    }
  }

  lemma {:induction false} MainRun(plan: Plan, oracle: Oracle, es: seq<Event>)
    requires WellFormed(plan) && Exec(plan, es).Some? && Deterministic(plan, oracle, es)
    ensures MainDet(plan, oracle, Exec(plan, es).value)
  {
    if es == [] {
      assert MainPart(plan, Init().outcomes) == map[];
    } else {
      var init := es[..|es| - 1];
      MainRun(plan, oracle, init);
      RunInv(plan, init);
      MainDetStep(plan, oracle, Exec(plan, init).value, es[|es| - 1]);
    }
  }

  lemma IntoFinally(plan: Plan, oracle: Oracle, s: State, e: Event)
    requires WellFormed(plan) && Inv(plan, s) && Enabled(plan, s, e) && InMain(plan, s.ctl)
    ensures FinallyFollows(plan, oracle, Apply(plan, s, e))
  {
    ApplyParts(plan, s, e);
    MainStepPart(plan, s, e);
  }

  lemma {:induction false} DetRun(plan: Plan, oracle: Oracle, es: seq<Event>)
    requires WellFormed(plan) && FinallyOrdered(plan) && Exec(plan, es).Some? && Deterministic(plan, oracle, es)
    ensures DetInv(plan, oracle, Exec(plan, es).value)
  {
    if es == [] {
      assert MainPart(plan, Init().outcomes) == map[];
    } else {
      var init := es[..|es| - 1];
      DetRun(plan, oracle, init);
      RunInv(plan, init);
      DetStep(plan, oracle, Exec(plan, init).value, es[|es| - 1]);
    }
  }

  // ---------------------------------------------------------------- the limit plays no part

  lemma LimitAncestors(plan: Plan, k: int)
    ensures forall a, n :: Ancestor(plan.(maxParallel := k), a, n) <==> Ancestor(plan, a, n)
    ensures WellFormed(plan) ==> WellFormed(plan.(maxParallel := k))
  {
    var plan' := plan.(maxParallel := k);
    assert forall r :: Producers(plan', r) == Producers(plan, r);
    assert WellGrouped(plan) ==> WellGrouped(plan');
    assert RefsAreEdges(plan) ==> RefsAreEdges(plan');
  }

  lemma LimitBlocked(plan: Plan, k: int, o: Outcomes, n: string)
    requires n in plan.refs
    ensures UpstreamBlocks(plan.(maxParallel := k), o, n) <==> UpstreamBlocks(plan, o, n)
    ensures MissingRefs(plan.(maxParallel := k), o, n) <==> MissingRefs(plan, o, n)
  {
    var plan' := plan.(maxParallel := k);
    LimitAncestors(plan, k);
    assert forall a, b :: SameGroup(plan', a, b) <==> SameGroup(plan, a, b);
    assert forall a :: GroupSucceeds(plan', o, n, a) <==> GroupSucceeds(plan, o, n, a);
    assert forall r :: RefMissing(plan', o, r) <==> RefMissing(plan, o, r) by {
      assert forall r :: Producers(plan', r) == Producers(plan, r);
    }
  }

  lemma LimitResults(plan: Plan, k: int, o: Outcomes)
    ensures ResultsOf(plan.(maxParallel := k), o) == ResultsOf(plan, o)
  {
  }

  lemma LimitVisible(plan: Plan, k: int, n: string, results: Results)
    ensures AncestorResults(plan.(maxParallel := k), n, results) == AncestorResults(plan, n, results)
  {
    var plan' := plan.(maxParallel := k);
    LimitAncestors(plan, k);
    assert forall r :: Producers(plan', r) == Producers(plan, r);
    assert forall x :: Visible(plan', n, x) <==> Visible(plan, n, x);
  }

  lemma LimitSolves(plan: Plan, k: int, oracle: Oracle, m: Outcomes)
    requires Solves(plan.(maxParallel := k), oracle, m)
    ensures Solves(plan, oracle, m)
  {
    forall n | n in m ensures n in plan.refs && m[n] == MainOutcome(plan, oracle, m, n) {
      LimitBlocked(plan, k, m, n);
      LimitResults(plan, k, m);
      LimitVisible(plan, k, n, ResultsOf(plan, m));
    }
  }

  lemma LimitFinally(plan: Plan, k: int, oracle: Oracle, m: Outcomes, f: string)
    requires f in plan.refs
    ensures FinallyOutcome(plan.(maxParallel := k), oracle, m, f) == FinallyOutcome(plan, oracle, m, f)
  {
    LimitBlocked(plan, k, m, f);
    LimitResults(plan, k, m);
  }

  /** The main tasks of two finished deterministic runs have the same outcomes, whatever the
      interleavings, the limits on parallelism and the references of the finally tasks. */
  lemma MainConfluent(plan: Plan, k: int, oracle: Oracle, es: seq<Event>, es': seq<Event>)
    requires WellFormed(plan)
    requires Exec(plan, es).Some? && Deterministic(plan, oracle, es) && Exec(plan, es).value.ctl.stage.Done?
    requires
      var plan' := plan.(maxParallel := k);
      Exec(plan', es').Some? && Deterministic(plan', oracle, es') && Exec(plan', es').value.ctl.stage.Done?
    ensures
      var o, o' := Exec(plan, es).value.outcomes, Exec(plan.(maxParallel := k), es').value.outcomes;
      MainPart(plan, o) == MainPart(plan, o') && MainPart(plan, o).Keys == plan.main
  {
    var plan' := plan.(maxParallel := k);
    LimitAncestors(plan, k);
    FinishedMain(plan, oracle, es);
    FinishedMain(plan', oracle, es');
    var m, m' := MainPart(plan, Exec(plan, es).value.outcomes), MainPart(plan', Exec(plan', es').value.outcomes);
    LimitSolves(plan, k, oracle, m');
    SolutionIsUnique(plan, oracle, m, m');
  }

  lemma FinishedMain(plan: Plan, oracle: Oracle, es: seq<Event>)
    requires WellFormed(plan) && Exec(plan, es).Some? && Deterministic(plan, oracle, es)
    requires Exec(plan, es).value.ctl.stage.Done?
    ensures var m := MainPart(plan, Exec(plan, es).value.outcomes); m.Keys == plan.main && Solves(plan, oracle, m)
  {
    EveryTaskHasAnOutcome(plan, es);
    MainRun(plan, oracle, es);
  }

  /** What a finished deterministic run ends with, up to the one solution of the equations. */
  lemma DetOutcomes(plan: Plan, oracle: Oracle, es: seq<Event>)
    requires WellFormed(plan) && FinallyOrdered(plan) && Exec(plan, es).Some? && Deterministic(plan, oracle, es)
    requires Exec(plan, es).value.ctl.stage.Done?
    ensures
      var o := Exec(plan, es).value.outcomes;
      var m := MainPart(plan, o);
      && o.Keys == plan.main + Elements(plan.finallys) && m.Keys == plan.main && Solves(plan, oracle, m)
      && (forall f :: f in plan.finallys ==> f in plan.refs && f in o && o[f] == FinallyOutcome(plan, oracle, m, f))
  {
    var s := Exec(plan, es).value;
    EveryTaskHasAnOutcome(plan, es);
    RunInv(plan, es);
    DetRun(plan, oracle, es);
    forall f | f in plan.finallys
      ensures f in plan.refs && f in s.outcomes
        && s.outcomes[f] == FinallyOutcome(plan, oracle, MainPart(plan, s.outcomes), f)
    {
      assert f in Elements(plan.finallys) && f !in plan.main;
    }
  }

  lemma LimitOrdered(plan: Plan, k: int)
    ensures FinallyOrdered(plan.(maxParallel := k)) <==> FinallyOrdered(plan)
  {
    var plan' := plan.(maxParallel := k);
    assert forall r :: Producers(plan', r) == Producers(plan, r);
    assert forall i: nat, j: nat :: i < |plan.finallys| && j < |plan.finallys| ==>
      (RefersBetween(plan', i, j) <==> RefersBetween(plan, i, j));
  }

  /** Confluence, when no finally task refers to one listed before it: two finished runs in which no
      context ends, every main task's report is the same function of its ancestors' results and every
      finally task's of the main phase's results and outcomes end with the same outcomes, the same
      results, aggregates included, and the same status, whatever the interleavings and the limits on
      parallelism. */
  lemma Confluent(plan: Plan, k: int, oracle: Oracle, es: seq<Event>, es': seq<Event>)
    requires WellFormed(plan) && FinallyOrdered(plan)
    requires Exec(plan, es).Some? && Deterministic(plan, oracle, es) && Exec(plan, es).value.ctl.stage.Done?
    requires
      var plan' := plan.(maxParallel := k);
      Exec(plan', es').Some? && Deterministic(plan', oracle, es') && Exec(plan', es').value.ctl.stage.Done?
    ensures
      var s, s' := Exec(plan, es).value, Exec(plan.(maxParallel := k), es').value;
      s.outcomes == s'.outcomes && s.results == s'.results && s.overall == s'.overall
  {
    var plan' := plan.(maxParallel := k);
    var s, s' := Exec(plan, es).value, Exec(plan', es').value;
    LimitAncestors(plan, k);
    LimitOrdered(plan, k);
    DetOutcomes(plan, oracle, es);
    DetOutcomes(plan', oracle, es');
    SameOutcomes(plan, k, oracle, s.outcomes, s'.outcomes);
    RunInv(plan, es);
    RunInv(plan', es');
    LimitResults(plan, k, s.outcomes);
    DetRun(plan, oracle, es);
    DetRun(plan', oracle, es');
    FinalStatus(plan, es);
    FinalStatus(plan', es');
  }

  lemma SameOutcomes(plan: Plan, k: int, oracle: Oracle, o: Outcomes, o': Outcomes)
    requires WellFormed(plan) && o.Keys == plan.main + Elements(plan.finallys) && o'.Keys == o.Keys
    requires
      var plan' := plan.(maxParallel := k);
      var m, m' := MainPart(plan, o), MainPart(plan', o');
      && m.Keys == plan.main && m'.Keys == plan.main && Solves(plan, oracle, m) && Solves(plan', oracle, m')
      && (forall f :: f in plan.finallys ==> f in plan.refs && o[f] == FinallyOutcome(plan, oracle, m, f))
      && (forall f :: f in plan.finallys ==> f in plan.refs && o'[f] == FinallyOutcome(plan', oracle, m', f))
    ensures o == o'
  {
    var plan' := plan.(maxParallel := k);
    var m, m' := MainPart(plan, o), MainPart(plan', o');
    LimitSolves(plan, k, oracle, m');
    SolutionIsUnique(plan, oracle, m, m');
    forall n | n in o ensures o[n] == o'[n] {
      if n in plan.main {
        assert m[n] == m'[n];
      } else {
        LimitFinally(plan, k, oracle, m, n);
      }
    }
  }
}
