/** The graph RunPipeline builds from an expanded pipeline, and the plan it schedules from. */
module SchedulingGraph {
  import opened Strings
  import opened Paths
  import opened Types
  import opened References
  import opened Expansion
  import opened Dag
  import opened Plans

  /** main: later tasks of the same name win. */
  function ByName(ts: seq<PipelineTask>): (m: map<string, PipelineTask>)
    ensures forall n :: n in m ==> m[n] in ts && m[n].name == n
    ensures forall t :: t in ts ==> t.name in m
  {
    if ts == [] then map[]
    else
      var m := ByName(ts[..|ts| - 1]);
      m[ts[|ts| - 1].name := ts[|ts| - 1]]
  }

  /** matrixExpansions: matrix task name to its rows' names, in order. */
  function Expansions(ts: seq<PipelineTask>): map<string, seq<string>> {
    if ts == [] then map[]
    else
      var m, t := Expansions(ts[..|ts| - 1]), ts[|ts| - 1];
      if t.info.None? then m
      else m[t.info.value.parent := (if t.info.value.parent in m then m[t.info.value.parent] else []) + [t.name]]
  }

  method MatrixExpansions(tasks: seq<PipelineTask>, fins: seq<PipelineTask>) returns (m: map<string, seq<string>>)
    ensures m == Expansions(tasks + fins)
  {
    m := map[];
    var all := tasks + fins;
    for i := 0 to |all|
      invariant m == Expansions(all[..i])
    {
      assert all[..i + 1][..i] == all[..i];
      if all[i].info.Some? {
        var p := all[i].info.value.parent;
        m := m[p := (if p in m then m[p] else []) + [all[i].name]];
      }
    }
    assert all[..|all|] == all;
  }

  predicate SameMatrixParent(a: PipelineTask, b: PipelineTask) {
    a.info.Some? && b.info.Some? && a.info.value.parent == b.info.value.parent
  }

  /** u is a main task whose results t waits for. */
  predicate Wanted(main: map<string, PipelineTask>, u: string, t: PipelineTask) {
    u in main && u != t.name && !SameMatrixParent(main[u], t)
  }

  predicate WantedFor(main: map<string, PipelineTask>,
      exps: map<string, seq<string>>, ref: string, u: string, t: PipelineTask) {
    u in RefNames(ref, exps) && Wanted(main, u, t)
  }

  ghost predicate ImplicitEdge(pl: Pipeline, u: string, t: PipelineTask) {
    exists ref :: ref in ImplicitRefs(t) && WantedFor(ByName(pl.tasks), Expansions(AllTasks(pl)), ref, u, t)
  }

  ghost predicate EdgeInto(pl: Pipeline, u: string, t: PipelineTask) {
    u in t.runAfter || ImplicitEdge(pl, u, t)
  }

  /** The edges of the scheduling graph. */
  ghost predicate SchedulingEdge(pl: Pipeline, u: string, v: string) {
    exists t :: t in pl.tasks && t.name == v && EdgeInto(pl, u, t)
  }

  /** The producers a task waits for, over all its references. */
  method WantedProducers(pl: Pipeline, main: map<string, PipelineTask>, exps: map<string, seq<string>>, t: PipelineTask)
    returns (deps: seq<string>)
    requires main == ByName(pl.tasks) && exps == Expansions(AllTasks(pl))
    ensures forall u :: u in deps <==> ImplicitEdge(pl, u, t)
  {
    var refs := ImplicitParamEdges(t);
    deps := CollectWanted(refs, main, exps, t);
    ghost var names := ImplicitRefs(t);
    assert forall ref :: ref in names <==> ref in refs by {
      assert forall ref :: ref in Elements(refs) <==> ref in refs;
    }
  }

  method CollectWanted(refs: seq<string>, main: map<string, PipelineTask>,
      exps: map<string, seq<string>>, t: PipelineTask)
    returns (deps: seq<string>)
    ensures forall u :: u in deps <==> exists ref :: ref in refs && WantedFor(main, exps, ref, u, t)
  {
    deps := [];
    for i := 0 to |refs|
      invariant forall u :: u in deps <==> exists k :: 0 <= k < i && WantedFor(main, exps, refs[k], u, t)
    {
      var more := FilterWanted(RefNames(refs[i], exps), main, t);
      assert forall u :: u in more <==> WantedFor(main, exps, refs[i], u, t);
      deps := deps + more;
    }
  }

  method FilterWanted(names: seq<string>, main: map<string, PipelineTask>, t: PipelineTask) returns (r: seq<string>)
    ensures forall u :: u in r <==> u in names && Wanted(main, u, t)
  {
    r := [];
    for j := 0 to |names|
      invariant forall u :: u in r <==> u in names[..j] && Wanted(main, u, t)
    {
      assert names[..j + 1] == names[..j] + [names[j]];
      if names[j] !in main {
        continue;
      }
      if names[j] == t.name || SameMatrixParent(main[names[j]], t) {
        continue;
      }
      r := r + [names[j]];
    }
    assert names[..|names|] == names;
  }

  method AddEdges(g: Graph, deps: seq<string>, v: string)
    requires g.Valid()
    modifies g
    ensures g.Valid() && g.nodes == old(g.nodes)
    ensures forall x, y :: Edge(g.outs, x, y) <==> Edge(old(g.outs), x, y) || (x in deps && y == v)
  {
    for i := 0 to |deps|
      invariant g.Valid() && g.nodes == old(g.nodes)
      invariant forall x, y :: Edge(g.outs, x, y) <==> Edge(old(g.outs), x, y) || (x in deps[..i] && y == v)
    {
      assert deps[..i + 1] == deps[..i] + [deps[i]];
      g.AddEdge(deps[i], v);
    }
    assert deps[..|deps|] == deps;
  }

  ghost predicate Edgeless(out: Adjacency) {
    forall u, v :: !Edge(out, u, v)
  }

  method AddBareNode(g: Graph, n: string)
    requires g.Valid() && Edgeless(g.outs)
    modifies g
    ensures g.Valid() && g.nodes == old(g.nodes) + {n} && Edgeless(g.outs)
  {
    g.AddNode(n);
    forall u, v ensures !Edge(g.outs, u, v) {
      assert !Edge(old(g.outs), u, v);
    }
  }

  lemma ByNameNext(ts: seq<PipelineTask>, i: nat)
    requires i < |ts|
    ensures ByName(ts[..i + 1]) == ByName(ts[..i])[ts[i].name := ts[i]]
  {
    assert ts[..i + 1][..i] == ts[..i];
  }

  method AddNodes(g: Graph, ts: seq<PipelineTask>) returns (main: map<string, PipelineTask>)
    requires g.Valid() && g.nodes == {} && Edgeless(g.outs)
    modifies g
    ensures g.Valid() && g.nodes == main.Keys && main == ByName(ts) && Edgeless(g.outs)
  {
    main := map[];
    for i := 0 to |ts|
      invariant g.Valid() && g.nodes == main.Keys && main == ByName(ts[..i]) && Edgeless(g.outs)
    {
      ByNameNext(ts, i);
      AddBareNode(g, ts[i].name);
      main := main[ts[i].name := ts[i]];
    }
    assert ts[..|ts|] == ts;
  }

  /** The edges into the first i tasks. */
  ghost predicate EdgeAmong(pl: Pipeline, i: nat, u: string, v: string)
    requires i <= |pl.tasks|
  {
    exists k :: 0 <= k < i && pl.tasks[k].name == v && EdgeInto(pl, u, pl.tasks[k])
  }

  lemma EdgeAmongNext(pl: Pipeline, i: nat, u: string, v: string)
    requires i < |pl.tasks|
    ensures EdgeAmong(pl, i + 1, u, v) <==>
      EdgeAmong(pl, i, u, v) || (pl.tasks[i].name == v && EdgeInto(pl, u, pl.tasks[i]))
  {
    if pl.tasks[i].name == v && EdgeInto(pl, u, pl.tasks[i]) {
      assert EdgeAmong(pl, i + 1, u, v);
    }
  }

  lemma EdgeAmongAll(pl: Pipeline, u: string, v: string)
    ensures EdgeAmong(pl, |pl.tasks|, u, v) <==> SchedulingEdge(pl, u, v)
  {
    if SchedulingEdge(pl, u, v) {
      var t :| t in pl.tasks && t.name == v && EdgeInto(pl, u, t);
      var k :| 0 <= k < |pl.tasks| && pl.tasks[k] == t;
    }
  }

  /** All nodes first, then all edges, so that the graph stays valid. */
  method BuildDag(pl: Pipeline) returns (g: Graph)
    ensures fresh(g) && g.Valid() && g.nodes == ByName(pl.tasks).Keys
    ensures forall u, v :: Edge(g.outs, u, v) <==> SchedulingEdge(pl, u, v)
  {
    g := new Graph();
    var main := AddNodes(g, pl.tasks);
    var exps := MatrixExpansions(pl.tasks, pl.finallyTasks);
    for i := 0 to |pl.tasks|
      invariant fresh(g) && g.Valid() && g.nodes == main.Keys
      invariant forall u, v :: Edge(g.outs, u, v) <==> EdgeAmong(pl, i, u, v)
    {
      var t := pl.tasks[i];
      var producers := WantedProducers(pl, main, exps, t);
      AddEdges(g, t.runAfter + producers, t.name);
      forall u, v
        ensures EdgeAmong(pl, i + 1, u, v) <==> EdgeAmong(pl, i, u, v) || (t.name == v && EdgeInto(pl, u, t))
      {
        EdgeAmongNext(pl, i, u, v);
      }
    }
    forall u, v ensures EdgeAmong(pl, |pl.tasks|, u, v) <==> SchedulingEdge(pl, u, v) { EdgeAmongAll(pl, u, v); }
  }

  // ---------------------------------------------------------------- the plan

  /** What the engine takes for granted about names after expansion: they are distinct, no matrix
      parent's name is a task's name, a matrix lives in one phase, and no task refers to its own
      results or its own matrix parent's. */
  ghost predicate WellNamed(pl: Pipeline) {
    DistinctNames(AllTasks(pl)) && ParentsApart(AllTasks(pl)) && PhasesApart(pl) && NoSelfReference(pl)
  }

  ghost predicate ParentsApart(all: seq<PipelineTask>) {
    forall t, u :: t in all && u in all && t.info.Some? ==> t.info.value.parent != u.name
  }

  ghost predicate PhasesApart(pl: Pipeline) {
    forall t, u :: t in pl.tasks && u in pl.finallyTasks ==> !SameMatrixParent(t, u)
  }

  ghost predicate NoSelfReference(pl: Pipeline) {
    && (forall t, ref :: t in pl.tasks && ref in ImplicitRefs(t) ==>
       ref != t.name && (t.info.Some? ==> ref != t.info.value.parent))
    && (forall t, u :: t in pl.tasks && u in pl.tasks && u.name in ImplicitRefs(t) ==> !SameMatrixParent(u, t))
  }

  ghost function RefsOf(ts: seq<PipelineTask>): map<string, set<string>> {
    if ts == [] then map[] else RefsOf(ts[..|ts| - 1])[ts[|ts| - 1].name := ImplicitRefs(ts[|ts| - 1])]
  }

  function ParentsOf(ts: seq<PipelineTask>): map<string, string> {
    if ts == [] then map[]
    else
      var m, t := ParentsOf(ts[..|ts| - 1]), ts[|ts| - 1];
      if t.info.Some? then m[t.name := t.info.value.parent] else m
  }

  /** The plan of an expanded pipeline, given its graph and its levels. */
  ghost function PlanOf(pl: Pipeline, out: Adjacency,
      levels: seq<seq<string>>, maxParallel: int, encode: seq<string> -> string): Plan {
    var all := AllTasks(pl);
    Plan(ByName(pl.tasks).Keys, out, levels, TaskNames(pl.finallyTasks), RefsOf(all), ParentsOf(all), Expansions(all),
      maxParallel, encode)
  }

  ghost predicate DistinctNames(ts: seq<PipelineTask>) {
    forall i, j :: 0 <= i < j < |ts| ==> ts[i].name != ts[j].name
  }

  lemma {:induction false} RefsOfTask(ts: seq<PipelineTask>, t: PipelineTask)
    requires DistinctNames(ts)
    ensures t in ts ==> t.name in RefsOf(ts) && RefsOf(ts)[t.name] == ImplicitRefs(t)
  {
    if ts != [] {
      var init, last := ts[..|ts| - 1], ts[|ts| - 1];
      RefsOfTask(init, t);
      assert forall u :: u in ts <==> u in init || u == last;
      assert forall u :: u in init ==> u.name != last.name;
    }
  }

  lemma {:induction false} ParentsOfTask(ts: seq<PipelineTask>, n: string)
    requires DistinctNames(ts)
    ensures n in ParentsOf(ts) <==> exists u :: u in ts && u.name == n && u.info.Some?
    ensures n in ParentsOf(ts) ==>
      exists u :: u in ts && u.name == n && u.info.Some? && u.info.value.parent == ParentsOf(ts)[n]
  {
    if ts != [] {
      var init, last := ts[..|ts| - 1], ts[|ts| - 1];
      ParentsOfTask(init, n);
      assert forall u :: u in ts <==> u in init || u == last;
      assert forall u :: u in init ==> u.name != last.name;
    }
  }

  ghost predicate RowOf(ts: seq<PipelineTask>, p: string, r: string) {
    exists u :: u in ts && u.name == r && u.info.Some? && u.info.value.parent == p
  }

  lemma {:induction false} ExpansionsRows(ts: seq<PipelineTask>, p: string)
    ensures p in Expansions(ts) <==> exists r :: RowOf(ts, p, r)
    ensures p in Expansions(ts) ==> Expansions(ts)[p] != [] && forall r :: r in Expansions(ts)[p] <==> RowOf(ts, p, r)
  {
    if ts != [] {
      var init, last := ts[..|ts| - 1], ts[|ts| - 1];
      ExpansionsRows(init, p);
      forall r
        ensures RowOf(ts, p, r) <==>
          RowOf(init, p, r) || (last.info.Some? && last.info.value.parent == p && last.name == r)
      {
        if RowOf(ts, p, r) {
          var u :| u in ts && u.name == r && u.info.Some? && u.info.value.parent == p;
          assert u in init || u == last;
        }
      }
      if p in Expansions(init) {
        var r :| RowOf(init, p, r);
        assert RowOf(ts, p, r);
      }
      assert last.info.Some? && last.info.value.parent == p ==> RowOf(ts, p, last.name);
    }
  }

  /** The names of the rows of p among the tasks, in order. */
  function RowNamesOf(ts: seq<PipelineTask>, p: string): seq<string> {
    if ts == [] then []
    else
      var t := ts[|ts| - 1];
      RowNamesOf(ts[..|ts| - 1], p) + if t.info.Some? && t.info.value.parent == p then [t.name] else []
  }

  /** The map lists the rows of each matrix task in the order of the tasks. */
  lemma {:induction false} ExpansionsInOrder(ts: seq<PipelineTask>, p: string)
    ensures p in Expansions(ts) <==> RowNamesOf(ts, p) != []
    ensures p in Expansions(ts) ==> Expansions(ts)[p] == RowNamesOf(ts, p)
  {
    if ts != [] {
      ExpansionsInOrder(ts[..|ts| - 1], p);
    }
  }

  lemma {:induction false} RowNamesAppend(a: seq<PipelineTask>, b: seq<PipelineTask>, p: string)
    ensures RowNamesOf(a + b, p) == RowNamesOf(a, p) + RowNamesOf(b, p)
  {
    if b == [] {
      assert a + b == a;
    } else {
      assert (a + b)[..|a + b| - 1] == a + b[..|b| - 1];
      RowNamesAppend(a, b[..|b| - 1], p);
    }
  }

  /** Tasks that are all rows of p, and tasks none of which is. */
  lemma {:induction false} RowNamesOfGroup(ts: seq<PipelineTask>, p: string)
    ensures (forall t :: t in ts ==> t.info.Some? && t.info.value.parent == p) ==> RowNamesOf(ts, p) == TaskNames(ts)
    ensures (forall t :: t in ts ==> t.info.Some? ==> t.info.value.parent != p) ==> RowNamesOf(ts, p) == []
  {
    if ts != [] {
      var init, last := ts[..|ts| - 1], ts[|ts| - 1];
      RowNamesOfGroup(init, p);
      assert forall t :: t in ts <==> t in init || t == last;
      assert TaskNames(ts) == TaskNames(init) + [last.name];
    }
  }

  lemma {:induction false} RowNamesRelinked(ts: seq<PipelineTask>, rewrite: map<string, seq<string>>, p: string)
    ensures RowNamesOf(WithRunAfter(ts, rewrite), p) == RowNamesOf(ts, p)
  {
    if ts != [] {
      RowNamesRelinked(ts[..|ts| - 1], rewrite, p);
      assert WithRunAfter(ts, rewrite)[..|ts| - 1] == WithRunAfter(ts[..|ts| - 1], rewrite);
    }
  }

  lemma SameNameSameTask(pl: Pipeline, t: PipelineTask, u: PipelineTask)
    requires DistinctNames(AllTasks(pl)) && t in AllTasks(pl) && u in AllTasks(pl) && t.name == u.name
    ensures t == u
  {
    var all := AllTasks(pl);
    var i :| 0 <= i < |all| && all[i] == t;
    var j :| 0 <= j < |all| && all[j] == u;
  }

  /** A main task and a finally task have different names. */
  lemma PhasesDiffer(pl: Pipeline, t: PipelineTask, u: PipelineTask)
    requires DistinctNames(AllTasks(pl)) && t in pl.tasks && u in pl.finallyTasks
    ensures t.name != u.name
  {
    var all := AllTasks(pl);
    var i :| 0 <= i < |pl.tasks| && pl.tasks[i] == t;
    var j :| 0 <= j < |pl.finallyTasks| && pl.finallyTasks[j] == u;
    assert all[i] == t && all[|pl.tasks| + j] == u;
  }

  /** What the plan's rows are. */
  lemma RowTask(pl: Pipeline, p: string, r: string) returns (t: PipelineTask)
    requires p in Expansions(AllTasks(pl)) && r in Expansions(AllTasks(pl))[p]
    ensures t in AllTasks(pl) && t.name == r && t.info.Some? && t.info.value.parent == p
  {
    ExpansionsRows(AllTasks(pl), p);
    t :| t in AllTasks(pl) && t.name == r && t.info.Some? && t.info.value.parent == p;
  }

  lemma InMainNames(pl: Pipeline, t: PipelineTask)
    requires DistinctNames(AllTasks(pl)) && t in AllTasks(pl)
    ensures t.name in ByName(pl.tasks) <==> t in pl.tasks
    ensures t.name in TaskNames(pl.finallyTasks) <==> t in pl.finallyTasks
    ensures t in pl.tasks ==> ByName(pl.tasks)[t.name] == t
  {
    if t.name in ByName(pl.tasks) {
      SameNameSameTask(pl, t, ByName(pl.tasks)[t.name]);
    }
    if t.name in TaskNames(pl.finallyTasks) {
      var j :| 0 <= j < |pl.finallyTasks| && TaskNames(pl.finallyTasks)[j] == t.name;
      SameNameSameTask(pl, t, pl.finallyTasks[j]);
    }
    if t in pl.finallyTasks {
      var j :| 0 <= j < |pl.finallyTasks| && pl.finallyTasks[j] == t;
      assert TaskNames(pl.finallyTasks)[j] == t.name;
    }
  }

  lemma PlanIsGrouped(pl: Pipeline, plan: Plan)
    requires WellNamed(pl) && plan.main == ByName(pl.tasks).Keys && plan.finallys == TaskNames(pl.finallyTasks)
    requires plan.parent == ParentsOf(AllTasks(pl)) && plan.rows == Expansions(AllTasks(pl))
    ensures WellGrouped(plan)
  {
    PlanParentsList(AllTasks(pl));
    PlanParentsApart(pl);
    PlanRowsGrouped(pl);
    PlanRowsInPhase(pl);
  }

  lemma PlanParentsList(all: seq<PipelineTask>)
    requires DistinctNames(all)
    ensures ParentsList(ParentsOf(all), Expansions(all))
  {
    forall n | n in ParentsOf(all)
      ensures ParentsOf(all)[n] in Expansions(all) && n in Expansions(all)[ParentsOf(all)[n]]
    {
      TaskIsRow(all, n);
    }
  }

  lemma PlanParentsApart(pl: Pipeline)
    requires ParentsApart(AllTasks(pl))
    ensures NoParentIsTask(Expansions(AllTasks(pl)), ByName(pl.tasks).Keys, TaskNames(pl.finallyTasks))
  {
    var rows := Expansions(AllTasks(pl));
    forall p | p in rows ensures p !in ByName(pl.tasks).Keys && p !in TaskNames(pl.finallyTasks) && rows[p] != [] {
      ParentIsNoTask(pl, p);
    }
  }

  lemma PlanRowsGrouped(pl: Pipeline)
    requires DistinctNames(AllTasks(pl))
    ensures RowsAreGrouped(Expansions(AllTasks(pl)), ParentsOf(AllTasks(pl)), ByName(pl.tasks).Keys,
      TaskNames(pl.finallyTasks))
  {
    var rows, parent := Expansions(AllTasks(pl)), ParentsOf(AllTasks(pl));
    forall p, r | p in rows && r in rows[p]
      ensures r in parent && parent[r] == p && (r in ByName(pl.tasks).Keys || r in TaskNames(pl.finallyTasks))
    {
      RowIsGrouped(pl, p, r);
    }
  }

  lemma PlanRowsInPhase(pl: Pipeline)
    requires DistinctNames(AllTasks(pl)) && PhasesApart(pl)
    ensures RowsShareAPhase(Expansions(AllTasks(pl)), ByName(pl.tasks).Keys)
  {
    var rows := Expansions(AllTasks(pl));
    forall p, r, q | p in rows && r in rows[p] && q in rows[p]
      ensures r in ByName(pl.tasks).Keys <==> q in ByName(pl.tasks).Keys
    {
      SiblingsShareAPhase(pl, p, r, q);
    }
  }

  lemma TaskIsRow(all: seq<PipelineTask>, n: string)
    requires DistinctNames(all) && n in ParentsOf(all)
    ensures ParentsOf(all)[n] in Expansions(all) && n in Expansions(all)[ParentsOf(all)[n]]
  {
    ParentsOfTask(all, n);
    assert RowOf(all, ParentsOf(all)[n], n);
    ExpansionsRows(all, ParentsOf(all)[n]);
  }

  lemma SiblingsShareAPhase(pl: Pipeline, p: string, r: string, q: string)
    requires DistinctNames(AllTasks(pl)) && PhasesApart(pl)
    requires p in Expansions(AllTasks(pl)) && r in Expansions(AllTasks(pl))[p] && q in Expansions(AllTasks(pl))[p]
    ensures r in ByName(pl.tasks) <==> q in ByName(pl.tasks)
  {
    var t := RowTask(pl, p, r);
    var u := RowTask(pl, p, q);
    InMainNames(pl, t);
    InMainNames(pl, u);
    assert SameMatrixParent(t, u) && SameMatrixParent(u, t);
  }

  /** Where a task's name is used, the task is. */
  lemma NamedTask(pl: Pipeline, n: string)
    requires forall u :: u in AllTasks(pl) ==> u.name != n
    ensures n !in ByName(pl.tasks) && n !in TaskNames(pl.finallyTasks)
  {
    assert forall u :: u in pl.tasks ==> u in AllTasks(pl);
    forall j | 0 <= j < |pl.finallyTasks| ensures TaskNames(pl.finallyTasks)[j] != n {
      assert pl.finallyTasks[j] in AllTasks(pl);
    }
  }

  lemma ParentIsNoTask(pl: Pipeline, p: string)
    requires ParentsApart(AllTasks(pl)) && p in Expansions(AllTasks(pl))
    ensures p !in ByName(pl.tasks) && p !in TaskNames(pl.finallyTasks) && Expansions(AllTasks(pl))[p] != []
  {
    ExpansionsRows(AllTasks(pl), p);
    var t := RowTask(pl, p, Expansions(AllTasks(pl))[p][0]);
    NamedTask(pl, p);
  }

  lemma RowIsGrouped(pl: Pipeline, p: string, r: string)
    requires DistinctNames(AllTasks(pl)) && p in Expansions(AllTasks(pl)) && r in Expansions(AllTasks(pl))[p]
    ensures r in ParentsOf(AllTasks(pl)) && ParentsOf(AllTasks(pl))[r] == p
    ensures r in ByName(pl.tasks) || r in TaskNames(pl.finallyTasks)
  {
    var t := RowTask(pl, p, r);
    ParentsOfTask(AllTasks(pl), r);
    var u :| u in AllTasks(pl) && u.name == r && u.info.Some? && u.info.value.parent == ParentsOf(AllTasks(pl))[r];
    SameNameSameTask(pl, t, u);
    InMainNames(pl, t);
  }

  /** A row of a referenced matrix belongs to that matrix. */
  lemma ReferencedRow(pl: Pipeline, ref: string, d: string)
    requires DistinctNames(AllTasks(pl)) && ref in Expansions(AllTasks(pl)) && d in Expansions(AllTasks(pl))[ref]
      && d in ByName(pl.tasks)
    ensures var u := ByName(pl.tasks)[d]; u.info.Some? && u.info.value.parent == ref
  {
    var r := RowTask(pl, ref, d);
    InMainNames(pl, r);
  }

  /** Every main task a task refers to is one it has an edge from. */
  lemma ReferencedIsEdge(pl: Pipeline, t: PipelineTask, ref: string, d: string)
    requires DistinctNames(AllTasks(pl)) && NoSelfReference(pl) && t in pl.tasks && ref in ImplicitRefs(t)
    requires d in RefNames(ref, Expansions(AllTasks(pl))) && d in ByName(pl.tasks)
    ensures SchedulingEdge(pl, d, t.name)
  {
    ReferencedIsWanted(pl, t, ref, d, ByName(pl.tasks), Expansions(AllTasks(pl)));
    assert EdgeInto(pl, d, t);
  }

  lemma ReferencedIsWanted(pl: Pipeline, t: PipelineTask, ref: string, d: string, main: map<string, PipelineTask>,
      exps: map<string, seq<string>>)
    requires main == ByName(pl.tasks) && exps == Expansions(AllTasks(pl))
    requires DistinctNames(AllTasks(pl)) && NoSelfReference(pl) && t in pl.tasks && ref in ImplicitRefs(t)
    requires d in RefNames(ref, exps) && d in main
    ensures WantedFor(main, exps, ref, d, t)
  {
    if ref in exps {
      ReferencedRow(pl, ref, d);
      InMainNames(pl, t);
    }
  }

  lemma TaskKeys(pl: Pipeline)
    requires DistinctNames(AllTasks(pl))
    ensures RefsOf(AllTasks(pl)).Keys == ByName(pl.tasks).Keys + Elements(TaskNames(pl.finallyTasks))
  {
    forall n ensures n in RefsOf(AllTasks(pl)) <==> n in ByName(pl.tasks) || n in TaskNames(pl.finallyTasks) {
      TaskKey(pl, n);
    }
  }

  lemma TaskKey(pl: Pipeline, n: string)
    requires DistinctNames(AllTasks(pl))
    ensures n in RefsOf(AllTasks(pl)) <==> n in ByName(pl.tasks) || n in TaskNames(pl.finallyTasks)
  {
    KeysOfRefs(AllTasks(pl), n);
    if u :| u in AllTasks(pl) && u.name == n {
      InMainNames(pl, u);
    } else {
      NamedTask(pl, n);
    }
  }

  lemma {:induction false} KeysOfRefs(ts: seq<PipelineTask>, n: string)
    ensures n in RefsOf(ts) <==> exists u :: u in ts && u.name == n
  {
    if ts != [] {
      KeysOfRefs(ts[..|ts| - 1], n);
      assert forall u :: u in ts <==> u in ts[..|ts| - 1] || u == ts[|ts| - 1];
    }
  }

  lemma PlanRefsAreEdges(pl: Pipeline, plan: Plan)
    requires WellNamed(pl) && plan.main == ByName(pl.tasks).Keys && plan.refs == RefsOf(AllTasks(pl))
      && plan.rows == Expansions(AllTasks(pl))
    requires forall u, v :: Edge(plan.out, u, v) <==> SchedulingEdge(pl, u, v)
    ensures RefsAreEdges(plan)
  {
    forall n, r, d | n in plan.main && n in plan.refs && r in plan.refs[n] && d in Producers(plan, r) && d in plan.main
      ensures Edge(plan.out, d, n)
    {
      var t := ByName(pl.tasks)[n];
      assert DistinctNames(AllTasks(pl)) && t in AllTasks(pl);
      RefsOfTask(AllTasks(pl), t);
      ReferencedIsEdge(pl, t, r, d);
    }
  }

  lemma FinallyNames(pl: Pipeline)
    requires DistinctNames(AllTasks(pl))
    ensures Distinct(TaskNames(pl.finallyTasks))
    ensures forall n :: n in TaskNames(pl.finallyTasks) ==> n !in ByName(pl.tasks)
  {
    var all := AllTasks(pl);
    forall i, j | 0 <= i < j < |pl.finallyTasks| ensures pl.finallyTasks[i].name != pl.finallyTasks[j].name {
      assert all[|pl.tasks| + i] == pl.finallyTasks[i] && all[|pl.tasks| + j] == pl.finallyTasks[j];
    }
    forall n | n in TaskNames(pl.finallyTasks) ensures n !in ByName(pl.tasks) {
      var j :| 0 <= j < |pl.finallyTasks| && TaskNames(pl.finallyTasks)[j] == n;
      if n in ByName(pl.tasks) {
        PhasesDiffer(pl, ByName(pl.tasks)[n], pl.finallyTasks[j]);
      }
    }
  }

  /** The scheduler's preconditions hold of what RunPipeline builds. */
  lemma PlanIsWellFormed(pl: Pipeline, out: Adjacency,
      levels: seq<seq<string>>, maxParallel: int, encode: seq<string> -> string)
    requires WellNamed(pl) && forall u, v :: Edge(out, u, v) <==> SchedulingEdge(pl, u, v)
    requires Closed(ByName(pl.tasks).Keys, out) && Levelling(ByName(pl.tasks).Keys, out, levels)
    ensures WellFormed(PlanOf(pl, out, levels, maxParallel, encode))
  {
    var plan := PlanOf(pl, out, levels, maxParallel, encode);
    assert DistinctNames(AllTasks(pl));
    TaskKeys(pl);
    FinallyNames(pl);
    PlanIsGrouped(pl, plan);
    PlanRefsAreEdges(pl, plan);
  }
}
