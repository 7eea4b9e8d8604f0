/** The scheduling loop of RunPipeline as a transition system over labelled events. */
module Scheduler {
  import opened Wrappers
  import opened Strings
  import opened Paths
  import opened Plans
  import opened Aggregation

  datatype RunStatus = RunSucceeded | RunFailed | RunTimeout | RunCancelled

  /** How the root context ended, if it did. */
  datatype Root = Live | Canceled | DeadlineExceeded

  /** The contexts: root, and the pipeline, tasks and finally budgets below it. */
  datatype Clock = Clock(root: Root, pipeline: bool, tasks: bool, fin: bool)

  /** A goroutine: the results it was given, and whether it has passed its budget check. */
  datatype Flight = Flight(snapshot: Results, started: bool)

  /** How far the dispatching goroutine has come with the task at pos. */
  datatype Pending = Idle | Admitted | Snapped(snapshot: Results)

  datatype Stage = Entering | Stopping | Dispatching | Done

  /** Where the loops stand: level lvl of the main graph is being worked on, and
      lvl == |levels| is the finally phase. */
  datatype Control = Control(lvl: nat, stage: Stage, pos: nat, pending: Pending, flights: map<string, Flight>)

  datatype State = State(
    clock: Clock,
    outcomes: Outcomes,
    results: Results,
    overall: RunStatus,
    tasksExpired: bool,
    finallyResults: Results,
    ctl: Control)

  /** A task's goroutine reads the contexts when the backend returns and records the outcome later:
      seen holds the contexts as they were read. */
  datatype Event =
    | Tick(clock: Clock)
    | Enter
    | Stop
    | Check
    | Snapshot
    | Launch
    | Begin(task: string)
    | Finish(task: string, reported: Outcome, seen: Clock)
    | Barrier

  // ---------------------------------------------------------------- pieces of a step

  function Batch(plan: Plan, lvl: nat): seq<string> {
    if lvl < |plan.levels| then plan.levels[lvl] else plan.finallys
  }

  predicate InMain(plan: Plan, c: Control) {
    c.lvl < |plan.levels|
  }

  predicate PipelineDone(clock: Clock) {
    clock.root != Live || clock.pipeline
  }

  /** tasksCtx.Err() != nil in the main phase, finallyCtx.Err() != nil in the finally phase. */
  predicate BudgetDone(clock: Clock, main: bool) {
    PipelineDone(clock) || if main then clock.tasks else clock.fin
  }

  /** Contexts only ever go from live to done. */
  predicate Later(a: Clock, b: Clock) {
    (a.root != Live ==> b.root == a.root) && (a.pipeline ==> b.pipeline) && (a.tasks ==> b.tasks) && (a.fin ==> b.fin)
  }

  function Stopped(): Outcome {
    Outcome(NotRun, SkipStopped, None)
  }

  function BlockedOutcome(): Outcome {
    Outcome(NotRun, SkipBlocked, None)
  }

  /** reclassifyBudgetKill, then the skip kind finishTask sets. */
  function Finished(clock: Clock, main: bool, oc: Outcome): Outcome {
    var status :=
      if BudgetDone(clock, main) && clock.root != Canceled && oc.status in {Failed, InfraFailed} then TimedOut
      else oc.status;
    Outcome(status, if status == Skipped then SkipWhen else NoSkip, oc.results)
  }

  /** The status join of finishTask. */
  function Join(overall: RunStatus, status: Status): RunStatus {
    match status
    case TimedOut => RunTimeout
    case Failed => if overall == RunTimeout then RunTimeout else RunFailed
    case InfraFailed => if overall == RunTimeout then RunTimeout else RunFailed
    case _ => overall
  }

  ghost predicate Blocked(plan: Plan, o: Outcomes, main: bool, n: string)
    requires n in plan.refs
  {
    (main && UpstreamBlocks(plan, o, n)) || MissingRefs(plan, o, n)
  }

  // ---------------------------------------------------------------- the transition system

  function Init(): State {
    State(Clock(Live, false, false, false), map[], map[], RunSucceeded, false, map[],
      Control(0, Entering, 0, Idle, map[]))
  }

  /** errgroup's limit: a negative limit means none. */
  predicate SlotFree(plan: Plan, c: Control) {
    plan.maxParallel < 0 || |c.flights| < plan.maxParallel
  }

  predicate Enabled(plan: Plan, s: State, e: Event) {
    match e
    case Tick(clock) => !s.ctl.stage.Done? && Later(s.clock, clock)
    case Finish(_, _, seen) => CanMove(plan, s.ctl, e) && Later(seen, s.clock)
    case _ => CanMove(plan, s.ctl, e)
  }

  predicate CanMove(plan: Plan, c: Control, e: Event) {
    match e
    case Tick(_) => true
    case Enter => c.stage.Entering?
    case Stop => c.stage.Stopping? && c.pos < |Batch(plan, c.lvl)|
    case Check => c.stage.Dispatching? && c.pending.Idle? && c.pos < |Batch(plan, c.lvl)|
    case Snapshot => c.stage.Dispatching? && c.pending.Admitted?
    case Launch => c.stage.Dispatching? && c.pending.Snapped? && c.pos < |Batch(plan, c.lvl)| && SlotFree(plan, c)
    case Begin(n) => n in c.flights && !c.flights[n].started
    case Finish(n, _, _) => n in c.flights && c.flights[n].started
    case Barrier =>
      (c.stage.Dispatching? || c.stage.Stopping?) && c.pos == |Batch(plan, c.lvl)| && c.pending.Idle?
        && c.flights == map[]
  }

  /** What the step finds: a task that must not run at Check, an expired budget at Enter and Begin. */
  ghost predicate Refuses(plan: Plan, s: State, e: Event)
    requires CanMove(plan, s.ctl, e)
  {
    match e
    case Check =>
      var n := Batch(plan, s.ctl.lvl)[s.ctl.pos];
      n in plan.refs && Blocked(plan, s.outcomes, InMain(plan, s.ctl), n)
    case _ => BudgetDone(s.clock, InMain(plan, s.ctl))
  }

  /** The results a task dispatched now is given. */
  function View(plan: Plan, s: State): Results {
    if InMain(plan, s.ctl) then s.results else s.finallyResults
  }

  /** How the loops move, given what the step found. */
  function Move(plan: Plan, c: Control, e: Event, refuses: bool, view: Results): Control
    requires CanMove(plan, c, e)
  {
    match e
    case Tick(_) => c
    case Enter => c.(stage := if InMain(plan, c) && refuses then Stopping else Dispatching)
    case Stop => c.(pos := c.pos + 1)
    case Check => if refuses then c.(pos := c.pos + 1) else c.(pending := Admitted)
    case Snapshot => c.(pending := Snapped(view))
    case Launch =>
      c.(pending := Idle, pos := c.pos + 1,
        flights := c.flights[Batch(plan, c.lvl)[c.pos] := Flight(c.pending.snapshot, false)])
    case Begin(n) =>
      if refuses then c.(flights := c.flights - {n}) else c.(flights := c.flights[n := c.flights[n].(started := true)])
    case Finish(n, _, _) => c.(flights := c.flights - {n})
    case Barrier => if InMain(plan, c) then c.(lvl := c.lvl + 1, stage := Entering, pos := 0) else c.(stage := Done)
  }

  /** The task that gets an outcome in this step, if any. */
  function Decided(plan: Plan, c: Control, o: Outcomes, e: Event,
      refuses: bool): Option<(string, Outcome)>
    requires CanMove(plan, c, e)
  {
    match e
    case Stop =>
      var n := Batch(plan, c.lvl)[c.pos];
      if n in o then None else Some((n, Stopped()))
    case Check => if refuses then Some((Batch(plan, c.lvl)[c.pos], BlockedOutcome())) else None
    case Begin(n) => if refuses then Some((n, Stopped())) else None
    case Finish(n, reported, seen) => Some((n, Finished(seen, InMain(plan, c), reported)))
    case _ => None
  }

  function WithDecision(o: Outcomes, d: Option<(string, Outcome)>): Outcomes {
    match d
    case None => o
    case Some((n, oc)) => o[n := oc]
  }

  /** The outcome map, results map and status with the decision recorded. */
  function Recording(plan: Plan, s: State, d: Option<(string, Outcome)>): State {
    match d
    case None => s
    case Some((n, oc)) =>
      s.(outcomes := WithDecision(s.outcomes, d),
         results := Recorded(plan, s.outcomes, s.results, n, oc),
         overall := Join(s.overall, oc.status))
  }

  ghost function Apply(plan: Plan, s: State, e: Event): State
    requires Enabled(plan, s, e)
  {
    var refuses := Refuses(plan, s, e);
    var d := Decided(plan, s.ctl, s.outcomes, e, refuses);
    var t := Recording(plan, s, d).(ctl := Move(plan, s.ctl, e, refuses, View(plan, s)));
    match e
    case Tick(clock) => t.(clock := clock)
    case Enter =>
      if InMain(plan, s.ctl) then t
      else
        // The main tasks are over: the tasks budget is read once more and the finally view taken.
        t.(tasksExpired := BudgetDone(s.clock, true), finallyResults := s.results,
           overall := if BudgetDone(s.clock, true) then RunTimeout else s.overall)
    case Barrier =>
      if InMain(plan, s.ctl) then t
      else
        t.(overall :=
             if s.clock.root == Canceled then RunCancelled
             else if BudgetDone(s.clock, false) then RunTimeout
             else s.overall)
    case _ => t
  }

  /** The state after the events, from the start, if they can happen one after the other. */
  ghost function Exec(plan: Plan, es: seq<Event>): Option<State> {
    if es == [] then Some(Init())
    else match Exec(plan, es[..|es| - 1])
      case Some(s) => if Enabled(plan, s, es[|es| - 1]) then Some(Apply(plan, s, es[|es| - 1])) else None
      case None => None
  }

  // ---------------------------------------------------------------- where a state stands

  ghost predicate EarlierLevel(plan: Plan, lvl: nat, n: string) {
    exists i: nat :: i < lvl && InLevel(plan.levels, i, n)
  }

  /** n is among the first pos tasks of the batch. */
  ghost predicate Walked(batch: seq<string>, pos: nat, n: string) {
    exists k :: 0 <= k < pos && k < |batch| && batch[k] == n
  }

  /** The dispatching loop is past the task. */
  ghost predicate Passed(plan: Plan, lvl: nat, pos: nat, n: string) {
    EarlierLevel(plan, lvl, n) || Walked(Batch(plan, lvl), pos, n)
  }

  /** The bounds that hold throughout. */
  ghost predicate Shape(plan: Plan, c: Control) {
    && c.lvl <= |plan.levels| && c.pos <= |Batch(plan, c.lvl)|
    && (c.stage.Entering? ==> c.pos == 0)
    && (c.stage.Done? ==> c.lvl == |plan.levels| && c.pos == |Batch(plan, c.lvl)|)
    && (!c.stage.Dispatching? ==> c.pending.Idle? && c.flights == map[])
    && (!c.pending.Idle? ==> c.pos < |Batch(plan, c.lvl)|)
    && (c.stage.Stopping? ==> InMain(plan, c))
    && (forall n :: n in c.flights ==> Walked(Batch(plan, c.lvl), c.pos, n))
    && (plan.maxParallel >= 0 ==> |c.flights| <= plan.maxParallel)
  }

  /** Outcomes belong exactly to the tasks passed and no longer in flight. */
  ghost predicate Accounted(plan: Plan, o: Outcomes, c: Control) {
    AccountedAt(plan, o, c.lvl, c.pos, c.flights.Keys)
  }

  ghost predicate AccountedAt(plan: Plan, o: Outcomes, lvl: nat, pos: nat, flying: set<string>) {
    forall n :: n in o <==> Passed(plan, lvl, pos, n) && n !in flying
  }

  lemma WalkedNext(batch: seq<string>, pos: nat, n: string)
    requires pos < |batch|
    ensures Walked(batch, pos + 1, n) <==> Walked(batch, pos, n) || n == batch[pos]
  {
    if n == batch[pos] {
      assert Walked(batch, pos + 1, n);
    }
  }

  lemma WalkedAll(batch: seq<string>, n: string)
    ensures Walked(batch, |batch|, n) <==> n in batch
  {
  }

  /** The task at pos has not been passed. */
  lemma NextIsNew(plan: Plan, lvl: nat, pos: nat)
    requires WellFormed(plan) && lvl <= |plan.levels| && pos < |Batch(plan, lvl)|
    ensures !Passed(plan, lvl, pos, Batch(plan, lvl)[pos])
    ensures Batch(plan, lvl)[pos] in plan.refs && (lvl < |plan.levels| <==> Batch(plan, lvl)[pos] in plan.main)
  {
    var n := Batch(plan, lvl)[pos];
    if lvl < |plan.levels| {
      assert InLevel(plan.levels, lvl, n);
      IncreasingIsInjective(plan.levels[lvl]);
    } else {
      assert n in Elements(plan.finallys);
    }
  }

  lemma NextLevelPassed(plan: Plan, lvl: nat, n: string)
    requires lvl < |plan.levels|
    ensures Passed(plan, lvl + 1, 0, n) <==> Passed(plan, lvl, |Batch(plan, lvl)|, n)
  {
    WalkedAll(Batch(plan, lvl), n);
    if EarlierLevel(plan, lvl + 1, n) {
      var i: nat :| i < lvl + 1 && InLevel(plan.levels, i, n);
    }
    if n in plan.levels[lvl] {
      assert InLevel(plan.levels, lvl, n);
    }
    assert !Walked(Batch(plan, lvl + 1), 0, n);
  }

  lemma WalkedMore(batch: seq<string>, pos: nat)
    requires pos < |batch|
    ensures forall n :: Walked(batch, pos + 1, n) <==> Walked(batch, pos, n) || n == batch[pos]
  {
    forall n ensures Walked(batch, pos + 1, n) <==> Walked(batch, pos, n) || n == batch[pos] {
      WalkedNext(batch, pos, n);
    }
  }

  /** The bounds are kept. */
  lemma MoveShape(plan: Plan, c: Control, e: Event, refuses: bool, view: Results)
    requires Shape(plan, c) && CanMove(plan, c, e)
    ensures Shape(plan, Move(plan, c, e, refuses, view))
  {
    match e
    case Begin(n) => FlightShape(plan, c, e, refuses, view);
    case Finish(n, _, _) => FlightShape(plan, c, e, refuses, view);
    case Launch => LaunchShape(plan, c, refuses, view);
    case Stop => WalkedMore(Batch(plan, c.lvl), c.pos);
    case Check => WalkedMore(Batch(plan, c.lvl), c.pos);
    case _ =>
  }

  lemma LaunchShape(plan: Plan, c: Control, refuses: bool, view: Results)
    requires Shape(plan, c) && CanMove(plan, c, Launch)
    ensures Shape(plan, Move(plan, c, Launch, refuses, view))
  {
    WalkedMore(Batch(plan, c.lvl), c.pos);
    FlightsGrow(c.flights, Batch(plan, c.lvl)[c.pos], Flight(c.pending.snapshot, false));
  }

  lemma FlightShape(plan: Plan, c: Control, e: Event, refuses: bool, view: Results)
    requires Shape(plan, c) && CanMove(plan, c, e) && (e.Begin? || e.Finish?)
    ensures Shape(plan, Move(plan, c, e, refuses, view))
  {
    FlightsShrink(c.flights, e.task, c.flights[e.task].(started := true));
  }

  lemma FlightsGrow(f: map<string, Flight>, n: string, x: Flight)
    ensures |f[n := x]| <= |f| + 1
  {
    assert f[n := x].Keys == f.Keys + {n};
  }

  lemma FlightsShrink(f: map<string, Flight>, n: string, x: Flight)
    requires n in f
    ensures |f - {n}| == |f| - 1 && |f[n := x]| == |f|
  {
    assert (f - {n}).Keys == f.Keys - {n};
    assert f[n := x].Keys == f.Keys;
  }

  /** The task at pos is new. */
  ghost predicate NextFresh(plan: Plan, lvl: nat, pos: nat) {
    pos < |Batch(plan, lvl)| ==> !Passed(plan, lvl, pos, Batch(plan, lvl)[pos])
  }

  /** The next task is passed, with an outcome or in flight. */
  lemma AccountNext(plan: Plan, o: Outcomes, lvl: nat, pos: nat, flying: set<string>, oc: Outcome)
    requires pos < |Batch(plan, lvl)| && NextFresh(plan, lvl, pos)
    requires AccountedAt(plan, o, lvl, pos, flying) && forall m :: m in flying ==> Walked(Batch(plan, lvl), pos, m)
    ensures
      var n := Batch(plan, lvl)[pos];
      n !in o && AccountedAt(plan, o[n := oc], lvl, pos + 1, flying) && AccountedAt(plan, o, lvl, pos + 1, flying + {n})
  {
    WalkedMore(Batch(plan, lvl), pos);
  }

  /** A task in flight gets its outcome. */
  lemma AccountLanded(plan: Plan, o: Outcomes, lvl: nat, pos: nat, flying: set<string>, n: string, oc: Outcome)
    requires AccountedAt(plan, o, lvl, pos, flying) && n in flying && Walked(Batch(plan, lvl), pos, n)
    ensures n !in o && AccountedAt(plan, o[n := oc], lvl, pos, flying - {n})
  {
  }

  lemma AccountLevel(plan: Plan, o: Outcomes, lvl: nat)
    requires lvl < |plan.levels| && AccountedAt(plan, o, lvl, |Batch(plan, lvl)|, {})
    ensures AccountedAt(plan, o, lvl + 1, 0, {})
  {
    forall n ensures Passed(plan, lvl + 1, 0, n) <==> Passed(plan, lvl, |Batch(plan, lvl)|, n) {
      NextLevelPassed(plan, lvl, n);
    }
  }

  /** What is decided is decided for the first time, for the next task or one in flight. */
  ghost predicate FirstDecision(plan: Plan, c: Control, o: Outcomes, d: Option<(string, Outcome)>) {
    d.Some? ==>
      && d.value.0 !in o
      && (d.value.0 in c.flights || (c.pos < |Batch(plan, c.lvl)| && d.value.0 == Batch(plan, c.lvl)[c.pos]))
  }

  /** Every outcome stays accounted for. */
  ghost predicate StaysAccounted(plan: Plan, c: Control, o: Outcomes, d: Option<(string, Outcome)>, c': Control) {
    FirstDecision(plan, c, o, d) && Accounted(plan, WithDecision(o, d), c')
  }

  lemma PassingAccounted(plan: Plan, c: Control, o: Outcomes, e: Event, refuses: bool, view: Results)
    requires Shape(plan, c) && NextFresh(plan, c.lvl, c.pos) && CanMove(plan, c, e) && Accounted(plan, o, c)
    requires e.Stop? || e.Check? || e.Launch?
    ensures StaysAccounted(plan, c, o, Decided(plan, c, o, e, refuses), Move(plan, c, e, refuses, view))
  {
    var n := Batch(plan, c.lvl)[c.pos];
    AccountNext(plan, o, c.lvl, c.pos, c.flights.Keys, if e.Stop? then Stopped() else BlockedOutcome());
    if e.Launch? {
      assert Move(plan, c, e, refuses, view).flights.Keys == c.flights.Keys + {n};
    }
  }

  lemma LandingAccounted(plan: Plan, c: Control, o: Outcomes, e: Event, refuses: bool, view: Results)
    requires Shape(plan, c) && CanMove(plan, c, e) && Accounted(plan, o, c)
    requires e.Begin? || e.Finish?
    ensures StaysAccounted(plan, c, o, Decided(plan, c, o, e, refuses), Move(plan, c, e, refuses, view))
  {
    var n := e.task;
    var oc := if e.Begin? then Stopped() else Finished(e.seen, InMain(plan, c), e.reported);
    AccountLanded(plan, o, c.lvl, c.pos, c.flights.Keys, n, oc);
    assert (c.flights - {n}).Keys == c.flights.Keys - {n};
    assert c.flights[n := c.flights[n].(started := true)].Keys == c.flights.Keys;
  }

  lemma MoveAccounted(plan: Plan, c: Control, o: Outcomes, e: Event, refuses: bool, view: Results)
    requires Shape(plan, c) && NextFresh(plan, c.lvl, c.pos) && CanMove(plan, c, e) && Accounted(plan, o, c)
    ensures StaysAccounted(plan, c, o, Decided(plan, c, o, e, refuses), Move(plan, c, e, refuses, view))
  {
    if e.Stop? || e.Check? || e.Launch? {
      PassingAccounted(plan, c, o, e, refuses, view);
    } else if e.Begin? || e.Finish? {
      LandingAccounted(plan, c, o, e, refuses, view);
    } else if e.Barrier? && InMain(plan, c) {
      AccountLevel(plan, o, c.lvl);
    }
  }
}
