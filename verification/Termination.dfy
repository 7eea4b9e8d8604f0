/** Runs neither get stuck nor go on forever. */
module Termination {
  import opened Plans
  import opened Scheduler
  import opened SchedulerInvariants

  /** Until the run is over some step other than the clock's is possible, if the limit lets any task run. */
  lemma Progress(plan: Plan, es: seq<Event>) returns (e: Event)
    requires WellFormed(plan) && plan.maxParallel != 0 && Exec(plan, es).Some? && !Exec(plan, es).value.ctl.stage.Done?
    ensures !e.Tick? && Enabled(plan, Exec(plan, es).value, e)
  {
    RunInv(plan, es);
    e := NextMove(plan, Exec(plan, es).value.ctl);
  }

  lemma NextMove(plan: Plan, c: Control) returns (e: Event)
    requires Shape(plan, c) && !c.stage.Done? && plan.maxParallel != 0
    ensures !e.Tick? && CanMove(plan, c, e) && (e.Finish? ==> e.seen == Init().clock)
    ensures e.Check? ==> c.flights == map[]
  {
    if c.stage.Entering? {
      e := Enter;
    } else if c.flights != map[] {
      assert c.flights.Keys != {};
      var n :| n in c.flights;
      e := if c.flights[n].started then Finish(n, Stopped(), Init().clock) else Begin(n);
    } else if c.pos == |Batch(plan, c.lvl)| {
      e := Barrier;
    } else if c.stage.Stopping? {
      e := Stop;
    } else {
      e := match c.pending case Idle => Check case Admitted => Snapshot case Snapped(_) => Launch;
    }
  }

  /** Tasks not yet passed when level lvl begins. */
  ghost function Remaining(plan: Plan, lvl: nat): nat
    requires lvl <= |plan.levels|
    decreases |plan.levels| - lvl
  {
    if lvl == |plan.levels| then |plan.finallys| else |plan.levels[lvl]| + Remaining(plan, lvl + 1)
  }

  ghost function Unstarted(f: map<string, Flight>): set<string> {
    set n | n in f && !f[n].started
  }

  ghost function StageWork(st: Stage): nat {
    match st case Entering => 2 case Stopping => 1 case Dispatching => 1 case Done => 0
  }

  ghost function PendingWork(p: Pending): nat {
    match p case Idle => 0 case Admitted => 1 case Snapped(_) => 2
  }

  /** An upper bound on the steps still to come. */
  ghost function Work(plan: Plan, c: Control): int
    requires c.lvl <= |plan.levels|
  {
    5 * (Remaining(plan, c.lvl) - c.pos) + 2 * (|plan.levels| - c.lvl) + StageWork(c.stage) - PendingWork(c.pending)
    + |c.flights| + |Unstarted(c.flights)|
  }

  lemma WorkIsNatural(plan: Plan, c: Control)
    requires Shape(plan, c)
    ensures Work(plan, c) >= 0
  {
    assert Remaining(plan, c.lvl) >= |Batch(plan, c.lvl)|;
  }

  lemma LaunchFlight(f: map<string, Flight>, n: string, x: Flight)
    requires !x.started
    ensures |f[n := x]| + |Unstarted(f[n := x])| <= |f| + |Unstarted(f)| + 2
  {
    assert f[n := x].Keys == f.Keys + {n};
    assert Unstarted(f[n := x]) == Unstarted(f) + {n};
  }

  lemma StartFlight(f: map<string, Flight>, n: string)
    requires n in f && !f[n].started
    ensures var g := f[n := f[n].(started := true)]; |g| + |Unstarted(g)| == |f| + |Unstarted(f)| - 1
  {
    var g := f[n := f[n].(started := true)];
    assert g.Keys == f.Keys;
    assert Unstarted(f) == Unstarted(g) + {n};
  }

  lemma LandFlight(f: map<string, Flight>, n: string)
    requires n in f
    ensures |f - {n}| + |Unstarted(f - {n})| < |f| + |Unstarted(f)|
  {
    assert (f - {n}).Keys == f.Keys - {n};
    assert Unstarted(f - {n}) == Unstarted(f) - {n};
  }

  /** Every step but the clock's uses up work. */
  lemma MoveWorks(plan: Plan, c: Control, e: Event, refuses: bool, view: map<string, map<string, string>>)
    requires Shape(plan, c) && CanMove(plan, c, e) && !e.Tick?
    ensures Move(plan, c, e, refuses, view).lvl <= |plan.levels|
      && Work(plan, Move(plan, c, e, refuses, view)) < Work(plan, c)
  {
    match e
    case Launch => LaunchFlight(c.flights, Batch(plan, c.lvl)[c.pos], Flight(c.pending.snapshot, false));
    case Begin(n) =>
      StartFlight(c.flights, n);
      LandFlight(c.flights, n);
    case Finish(n, _, _) => LandFlight(c.flights, n);
    case _ =>
  }

  /** The steps that are not the clock's. */
  ghost function Steps(es: seq<Event>): nat {
    if es == [] then 0 else Steps(es[..|es| - 1]) + if es[|es| - 1].Tick? then 0 else 1
  }

  /** However the steps interleave and whenever contexts end, a run takes at most five steps for
      each task and two for each level: with Progress, every run comes to its end. */
  lemma {:induction false} RunsAreBounded(plan: Plan, es: seq<Event>)
    requires WellFormed(plan) && Exec(plan, es).Some?
    ensures Exec(plan, es).value.ctl.lvl <= |plan.levels|
    ensures Steps(es) + Work(plan, Exec(plan, es).value.ctl) <= 5 * Remaining(plan, 0) + 2 * |plan.levels| + 2
    ensures Steps(es) <= 5 * Remaining(plan, 0) + 2 * |plan.levels| + 2
  {
    RunInv(plan, es);
    WorkIsNatural(plan, Exec(plan, es).value.ctl);
    if es == [] {
      assert Unstarted(map[]) == {};
    } else {
      var init, e := es[..|es| - 1], es[|es| - 1];
      RunsAreBounded(plan, init);
      RunInv(plan, init);
      var s := Exec(plan, init).value;
      ApplyParts(plan, s, e);
      if !e.Tick? {
        MoveWorks(plan, s.ctl, e, Refuses(plan, s, e), View(plan, s));
      }
    }
  }
}
