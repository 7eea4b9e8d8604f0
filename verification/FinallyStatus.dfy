/** $(tasks.status) and $(tasks.<name>.status), as finally tasks see them. */
module FinallyStatus {
  import opened Types
  import opened Plans
  import opened Scheduler
  import opened SchedulerInvariants
  import opened SchedulerTheorems
  import SchedulingGraph

  datatype ExecStatus = ExecSucceeded | ExecFailed | ExecCompleted | ExecNone

  /** Rows of a matrix are counted under the name of the task they expand. */
  function GroupName(t: PipelineTask): string {
    if t.info.Some? then t.info.value.parent else t.name
  }

  predicate FailureClass(status: Status) {
    status in {Failed, InfraFailed, TimedOut, Cancelled}
  }

  predicate HasFailed(o: Outcomes, t: PipelineTask) {
    t.name in o && FailureClass(o[t.name].status)
  }

  predicate HasSucceeded(o: Outcomes, t: PipelineTask) {
    t.name in o && o[t.name].status == Succeeded
  }

  datatype Tally = Tally(all: nat, ok: nat, failed: nat)

  function Count(g: Tally, o: Outcomes, t: PipelineTask): Tally {
    Tally(g.all + 1,
          if HasSucceeded(o, t) then g.ok + 1 else g.ok,
          if HasFailed(o, t) then g.failed + 1 else g.failed)
  }

  /** The counts of the group with this name. */
  function TallyOf(ts: seq<PipelineTask>, o: Outcomes, name: string): Tally {
    if ts == [] then Tally(0, 0, 0)
    else
      var g, t := TallyOf(ts[..|ts| - 1], o, name), ts[|ts| - 1];
      if GroupName(t) == name then Count(g, o, t) else g
  }

  /** A row of the matrix task with that name, or the task of that name that is no row. */
  ghost predicate InGroup(ts: seq<PipelineTask>, name: string, t: PipelineTask) {
    t in ts && (t.info.Some? ==> t.info.value.parent == name) && (t.info.None? ==> t.name == name)
  }

  ghost predicate IsGroup(ts: seq<PipelineTask>, name: string) {
    exists t :: InGroup(ts, name, t)
  }

  lemma TallyNext(ts: seq<PipelineTask>, o: Outcomes, i: nat, name: string)
    requires i < |ts|
    ensures TallyOf(ts[..i + 1], o, name) ==
      if GroupName(ts[i]) == name then Count(TallyOf(ts[..i], o, name), o, ts[i]) else TallyOf(ts[..i], o, name)
  {
    assert ts[..i + 1][..i] == ts[..i];
  }

  /** What the counts say about the members of the group. */
  lemma {:induction false} TallyMeans(ts: seq<PipelineTask>, o: Outcomes, name: string)
    ensures
      var g := TallyOf(ts, o, name);
      && g.ok <= g.all
      && (g.all > 0 <==> IsGroup(ts, name))
      && (g.failed > 0 <==> exists t :: InGroup(ts, name, t) && HasFailed(o, t))
      && (g.ok == g.all <==> forall t :: InGroup(ts, name, t) ==> HasSucceeded(o, t))
  {
    if ts != [] {
      var init, last := ts[..|ts| - 1], ts[|ts| - 1];
      TallyMeans(init, o, name);
      assert forall t :: InGroup(ts, name, t) <==> InGroup(init, name, t) || (t == last && GroupName(last) == name);
      assert GroupName(last) == name ==> InGroup(ts, name, last);
      assert IsGroup(ts, name) <==> IsGroup(init, name) || GroupName(last) == name;
    }
  }

  /** The task is over with one of the statuses. */
  predicate EndedIn(o: Outcomes, t: PipelineTask, statuses: set<Status>) {
    t.name in o && o[t.name].status in statuses
  }

  lemma EndsAre(o: Outcomes, t: PipelineTask)
    ensures HasFailed(o, t) <==> EndedIn(o, t, {Failed, InfraFailed, TimedOut, Cancelled})
    ensures HasSucceeded(o, t) <==> EndedIn(o, t, {Succeeded})
  {
  }

  ghost predicate GroupFailed(ts: seq<PipelineTask>, o: Outcomes, name: string) {
    exists t :: InGroup(ts, name, t) && EndedIn(o, t, {Failed, InfraFailed, TimedOut, Cancelled})
  }

  ghost predicate GroupSucceeded(ts: seq<PipelineTask>, o: Outcomes, name: string) {
    forall t :: InGroup(ts, name, t) ==> EndedIn(o, t, {Succeeded})
  }

  ghost predicate AllDone(ts: seq<PipelineTask>, o: Outcomes) {
    forall t :: t in ts ==> t.name in o
  }

  function TallyIn(groups: map<string, Tally>, name: string): Tally {
    if name in groups then groups[name] else Tally(0, 0, 0)
  }

  /** The groups hold the counts of the tasks. */
  ghost predicate Tallied(ts: seq<PipelineTask>, o: Outcomes, groups: map<string, Tally>) {
    forall n :: TallyOf(ts, o, n) == TallyIn(groups, n)
  }

  lemma TalliedNext(ts: seq<PipelineTask>, o: Outcomes, i: nat, groups: map<string, Tally>)
    requires i < |ts| && Tallied(ts[..i], o, groups)
    ensures
      var name := GroupName(ts[i]);
      Tallied(ts[..i + 1], o, groups[name := Count(TallyIn(groups, name), o, ts[i])])
  {
    var name := GroupName(ts[i]);
    var groups' := groups[name := Count(TallyIn(groups, name), o, ts[i])];
    forall n ensures TallyOf(ts[..i + 1], o, n) == TallyIn(groups', n) {
      TallyNext(ts, o, i, n);
    }
  }

  /** The first loop of computeFinallyStatus. */
  method CountGroups(ts: seq<PipelineTask>, o: Outcomes)
    returns (groups: map<string, Tally>, order: seq<string>, allDone: bool)
    ensures forall n :: n in groups ==> groups[n] == TallyOf(ts, o, n)
    ensures forall n :: n in groups <==> n in order
    ensures forall n :: n in order <==> IsGroup(ts, n)
    ensures allDone <==> AllDone(ts, o)
  {
    groups, order, allDone := map[], [], true;
    for i := 0 to |ts|
      invariant Tallied(ts[..i], o, groups)
      invariant forall n :: n in groups <==> n in order
      invariant forall n :: n in groups ==> groups[n].all > 0
      invariant allDone <==> forall k :: 0 <= k < i ==> ts[k].name in o
    {
      var t := ts[i];
      var name := GroupName(t);
      TalliedNext(ts, o, i, groups);
      ghost var counted := groups[name := Count(TallyIn(groups, name), o, t)];
      if name !in groups {
        groups := groups[name := Tally(0, 0, 0)];
        order := order + [name];
      }
      groups := groups[name := Count(groups[name], o, t)];
      assert groups == counted;
      if t.name !in o {
        allDone := false;
      }
    }
    assert ts[..|ts|] == ts;
    forall n ensures n in order <==> IsGroup(ts, n) { TallyMeans(ts, o, n); }
  }

  function Judged(g: Tally): ExecStatus {
    if g.failed > 0 then ExecFailed else if g.ok == g.all then ExecSucceeded else ExecNone
  }

  /** The second loop. */
  method JudgeGroups(groups: map<string, Tally>, order: seq<string>)
    returns (per: map<string, ExecStatus>, anyFailed: bool, anySkipped: bool)
    requires forall n :: n in order ==> n in groups
    ensures forall n :: n in per <==> n in order
    ensures forall n :: n in per ==> per[n] == Judged(groups[n])
    ensures anyFailed <==> exists n :: n in per && per[n] == ExecFailed
    ensures anySkipped <==> exists n :: n in per && per[n] == ExecNone
  {
    per, anyFailed, anySkipped := map[], false, false;
    for i := 0 to |order|
      invariant forall n :: n in per <==> n in order[..i]
      invariant forall n :: n in per ==> per[n] == Judged(groups[n])
      invariant anyFailed <==> exists n :: n in per && per[n] == ExecFailed
      invariant anySkipped <==> exists n :: n in per && per[n] == ExecNone
    {
      assert order[..i + 1] == order[..i] + [order[i]];
      var g := groups[order[i]];
      ghost var before := per;
      if g.failed > 0 {
        per := per[order[i] := ExecFailed];
        anyFailed := true;
      } else if g.ok == g.all {
        per := per[order[i] := ExecSucceeded];
      } else {
        per := per[order[i] := ExecNone];
        anySkipped := true;
      }
      assert forall n :: n in before ==> n in per && per[n] == before[n];
      assert per[order[i]] == Judged(g);
    }
    assert order[..|order|] == order;
  }

  /** computeFinallyStatus. */
  method ComputeFinallyStatus(ts: seq<PipelineTask>, o: Outcomes)
    returns (aggregate: ExecStatus, per: map<string, ExecStatus>)
    ensures aggregate == ExecNone <==> !AllDone(ts, o)
    ensures aggregate == ExecFailed <==>
      AllDone(ts, o) && exists t :: t in ts && EndedIn(o, t, {Failed, InfraFailed, TimedOut, Cancelled})
    ensures aggregate == ExecSucceeded <==> forall t :: t in ts ==> EndedIn(o, t, {Succeeded})
    ensures forall n :: n in per <==> IsGroup(ts, n)
    ensures forall n :: n in per ==> per[n] != ExecCompleted
    ensures forall n :: n in per ==> (per[n] == ExecFailed <==> GroupFailed(ts, o, n))
    ensures forall n :: n in per ==> (per[n] == ExecSucceeded <==> GroupSucceeded(ts, o, n))
  {
    var groups, order, allDone := CountGroups(ts, o);
    var anyFailed, anySkipped;
    per, anyFailed, anySkipped := JudgeGroups(groups, order);
    forall n | n in per
      ensures (per[n] == ExecFailed <==> GroupFailed(ts, o, n))
        && (per[n] == ExecSucceeded <==> GroupSucceeded(ts, o, n))
    {
      GroupStatus(ts, o, n);
    }
    Overall(ts, o, per);
    aggregate :=
      if !allDone then ExecNone
      else if anyFailed then ExecFailed
      else if anySkipped then ExecCompleted
      else ExecSucceeded;
  }

  lemma GroupStatus(ts: seq<PipelineTask>, o: Outcomes, name: string)
    requires IsGroup(ts, name)
    ensures Judged(TallyOf(ts, o, name)) == ExecFailed <==> GroupFailed(ts, o, name)
    ensures Judged(TallyOf(ts, o, name)) == ExecSucceeded <==> GroupSucceeded(ts, o, name)
  {
    TallyMeans(ts, o, name);
    forall t ensures HasFailed(o, t) <==> EndedIn(o, t, {Failed, InfraFailed, TimedOut, Cancelled})
      ensures HasSucceeded(o, t) <==> EndedIn(o, t, {Succeeded})
    {
      EndsAre(o, t);
    }
    if GroupFailed(ts, o, name) {
      var t :| InGroup(ts, name, t) && HasFailed(o, t);
      assert !HasSucceeded(o, t);
    }
  }

  /** What the groups say together. */
  lemma Overall(ts: seq<PipelineTask>, o: Outcomes, per: map<string, ExecStatus>)
    requires forall n :: n in per <==> IsGroup(ts, n)
    requires forall n :: n in per ==> per[n] != ExecCompleted && (per[n] == ExecFailed <==> GroupFailed(ts, o, n))
    requires forall n :: n in per ==> (per[n] == ExecSucceeded <==> GroupSucceeded(ts, o, n))
    ensures (exists n :: n in per && per[n] == ExecFailed) <==>
      exists t :: t in ts && EndedIn(o, t, {Failed, InfraFailed, TimedOut, Cancelled})
    ensures (forall n :: n in per ==> per[n] == ExecSucceeded) <==> forall t :: t in ts ==> EndedIn(o, t, {Succeeded})
  {
    forall t | t in ts ensures InGroup(ts, GroupName(t), t) && GroupName(t) in per {
      assert InGroup(ts, GroupName(t), t);
    }
  }

  /** In every reachable state of the finally phase all main tasks are done: $(tasks.status) is never None. */
  lemma StatusIsKnown(pl: Pipeline, plan: Plan, es: seq<Event>)
    requires WellFormed(plan) && plan.main == SchedulingGraph.ByName(pl.tasks).Keys
    requires Exec(plan, es).Some? && !InMain(plan, Exec(plan, es).value.ctl)
    ensures AllDone(pl.tasks, Exec(plan, es).value.outcomes)
  {
    RunInv(plan, es);
    var s := Exec(plan, es).value;
    MainIsTerminal(plan, s);
    forall t | t in pl.tasks ensures t.name in s.outcomes {
      assert t.name in MainPart(plan, s.outcomes);
    }
  }
}
