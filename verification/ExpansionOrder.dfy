/** Matrix expansion preserves the order of tasks. */
module ExpansionOrder {
  import opened Wrappers
  import opened Paths
  import opened Types
  import opened References
  import opened Odometer
  import opened Matrices
  import opened Expansion
  import opened SchedulingGraph
  import opened Dag
  import Plans

  // ---------------------------------------------------------------- before expansion

  ghost predicate CanExpand(pl: Pipeline) {
    AllExpandable(pl.tasks) && AllExpandable(pl.finallyTasks)
  }

  /** c is one of the tasks that t becomes. */
  ghost predicate IsChild(t: PipelineTask, c: PipelineTask) {
    Expandable(t) && c in Children(t)
  }

  /** Every row and every task without a matrix. */
  ghost function AllRows(pl: Pipeline): seq<PipelineTask>
    requires CanExpand(pl)
  {
    ExpandedList(pl.tasks) + ExpandedList(pl.finallyTasks)
  }

  ghost predicate IsMatrix(ts: seq<PipelineTask>, t: PipelineTask) {
    t in ts && t.matrix.Some?
  }

  /** A pipeline as written, every matrix of which has a row. */
  ghost predicate Written(ts: seq<PipelineTask>) {
    forall t :: t in ts ==> Expandable(t) && t.info.None? && Children(t) != []
  }

  ghost predicate NoRowNamesMatrix(pl: Pipeline)
    requires CanExpand(pl)
  {
    forall t, c :: IsMatrix(AllTasks(pl), t) && c in AllRows(pl) ==> c.name != t.name
  }

  /** Names are distinct before and after expansion, and no row has the name of a matrix. */
  ghost predicate Apart(pl: Pipeline) {
    && CanExpand(pl) && Written(AllTasks(pl))
    && DistinctNames(AllTasks(pl)) && DistinctNames(AllRows(pl)) && NoRowNamesMatrix(pl)
  }

  /** The matrix has the task among its values or its include params. */
  ghost predicate MatrixMentions(m: Matrix, ref: string) {
    || (exists i, j :: 0 <= i < |m.params| && 0 <= j < |m.params[i].value| && ref in ResultRefs(m.params[i].value[j]))
    || (exists i :: 0 <= i < |m.include_| && ref in ParamRefs(m.include_[i].params))
  }

  /** What t refers to, counting the values of its matrix. */
  ghost predicate Mentions(t: PipelineTask, ref: string) {
    ref in ImplicitRefs(t) || (t.matrix.Some? && MatrixMentions(t.matrix.value, ref))
  }

  /** The tasks whose results t consumes: those that it or one of its rows refers to. */
  ghost predicate Consumes(t: PipelineTask, ref: string) {
    exists c :: IsChild(t, c) && ref in ImplicitRefs(c)
  }

  /** A name stands for a task when it is the task's or one of its rows'. */
  ghost predicate StandsFor(name: string, t: PipelineTask) {
    name == t.name || (t.matrix.Some? && exists c :: IsChild(t, c) && c.name == name)
  }

  /** t waits for u before expansion. */
  ghost predicate Follows(u: PipelineTask, t: PipelineTask) {
    || (exists d :: d in t.runAfter && StandsFor(d, u))
    || (u != t && exists ref :: Consumes(t, ref) && StandsFor(ref, u))
  }

  ghost predicate OriginalEdge(pl: Pipeline, u: string, v: string) {
    exists s, t :: s in pl.tasks && t in pl.tasks && s.name == u && t.name == v && Follows(s, t)
  }

  ghost function OriginalNames(pl: Pipeline): set<string> {
    set t | t in pl.tasks :: t.name
  }

  /** The graph of the pipeline as written. */
  ghost function OriginalGraph(pl: Pipeline): (g: Adjacency)
    ensures forall u, v :: Edge(g, u, v) <==> OriginalEdge(pl, u, v)
  {
    map u | u in OriginalNames(pl) :: set v | v in OriginalNames(pl) && OriginalEdge(pl, u, v)
  }

  /** Every runAfter entry of a main task stands for a main task. */
  ghost predicate RunAfterKnown(pl: Pipeline) {
    forall t, d :: t in pl.tasks && d in t.runAfter ==> exists u :: u in pl.tasks && StandsFor(d, u)
  }

  // ---------------------------------------------------------------- rows and where they come from

  lemma {:induction false} ListedComesFrom(ts: seq<PipelineTask>, c: PipelineTask) returns (t: PipelineTask)
    requires AllExpandable(ts) && c in ExpandedList(ts)
    ensures t in ts && IsChild(t, c)
  {
    var init, last := ts[..|ts| - 1], ts[|ts| - 1];
    if c in Children(last) {
      t := last;
    } else {
      t := ListedComesFrom(init, c);
    }
  }

  lemma {:induction false} ChildIsListed(ts: seq<PipelineTask>, t: PipelineTask, c: PipelineTask)
    requires AllExpandable(ts) && t in ts && IsChild(t, c)
    ensures c in ExpandedList(ts)
  {
    var init, last := ts[..|ts| - 1], ts[|ts| - 1];
    if t != last {
      ChildIsListed(init, t, c);
    }
  }

  function Relinked(c: PipelineTask, rewrite: map<string, seq<string>>): PipelineTask {
    c.(runAfter := Rewritten(c.runAfter, rewrite))
  }

  /** Where a task of an expanded list comes from. */
  lemma Origin(ts: seq<PipelineTask>, rewrite: map<string, seq<string>>, x: PipelineTask)
    returns (t: PipelineTask, c: PipelineTask)
    requires AllExpandable(ts) && x in WithRunAfter(ExpandedList(ts), rewrite)
    ensures t in ts && IsChild(t, c) && x == Relinked(c, rewrite)
  {
    var i :| 0 <= i < |ExpandedList(ts)| && WithRunAfter(ExpandedList(ts), rewrite)[i] == x;
    c := ExpandedList(ts)[i];
    t := ListedComesFrom(ts, c);
  }

  lemma Image(ts: seq<PipelineTask>, rewrite: map<string, seq<string>>, t: PipelineTask, c: PipelineTask)
    requires AllExpandable(ts) && t in ts && IsChild(t, c)
    ensures Relinked(c, rewrite) in WithRunAfter(ExpandedList(ts), rewrite)
  {
    ChildIsListed(ts, t, c);
    var i :| 0 <= i < |ExpandedList(ts)| && ExpandedList(ts)[i] == c;
    assert WithRunAfter(ExpandedList(ts), rewrite)[i] == Relinked(c, rewrite);
  }

  /** What a child keeps of its task. */
  lemma ChildIs(t: PipelineTask, c: PipelineTask)
    requires IsChild(t, c) && t.info.None?
    ensures c.runAfter == t.runAfter && c.when == t.when && c.resolverParams == t.resolverParams
    ensures t.matrix.None? ==> c == t
    ensures t.matrix.Some? ==> c.info.Some? && c.info.value.parent == t.name
    ensures StandsFor(c.name, t)
  {
  }

  lemma DistinctPieces(a: seq<PipelineTask>, b: seq<PipelineTask>, c: PipelineTask, d: PipelineTask)
    requires DistinctNames(a + b)
    ensures DistinctNames(a) && DistinctNames(b)
    ensures c in a && d in b ==> c.name != d.name
  {
    var s := a + b;
    forall i, j | 0 <= i < j < |a| ensures a[i].name != a[j].name {
      assert s[i] == a[i] && s[j] == a[j];
    }
    forall i, j | 0 <= i < j < |b| ensures b[i].name != b[j].name {
      assert s[|a| + i] == b[i] && s[|a| + j] == b[j];
    }
    if c in a && d in b {
      var i :| 0 <= i < |a| && a[i] == c;
      var j :| 0 <= j < |b| && b[j] == d;
      assert s[i] == c && s[|a| + j] == d;
    }
  }

  /** Rows of different tasks have different names. */
  lemma {:induction false} RowsDiffer(ts: seq<PipelineTask>, t: PipelineTask, u: PipelineTask, c: PipelineTask,
      d: PipelineTask)
    requires AllExpandable(ts) && DistinctNames(ExpandedList(ts)) && t in ts && u in ts && t != u && IsChild(t, c)
      && IsChild(u, d)
    ensures c.name != d.name
  {
    var init, last := ts[..|ts| - 1], ts[|ts| - 1];
    DistinctPieces(ExpandedList(init), Children(last), c, d);
    DistinctPieces(ExpandedList(init), Children(last), d, c);
    if t == last {
      ChildIsListed(init, u, d);
    } else if u == last {
      ChildIsListed(init, t, c);
    } else {
      RowsDiffer(init, t, u, c, d);
    }
  }

  lemma RowsDifferAnywhere(pl: Pipeline, t: PipelineTask, u: PipelineTask, c: PipelineTask, d: PipelineTask)
    requires CanExpand(pl) && DistinctNames(AllRows(pl))
    requires t in AllTasks(pl) && u in AllTasks(pl) && t != u && IsChild(t, c) && IsChild(u, d)
    ensures c.name != d.name
  {
    DistinctPieces(ExpandedList(pl.tasks), ExpandedList(pl.finallyTasks), c, d);
    DistinctPieces(ExpandedList(pl.tasks), ExpandedList(pl.finallyTasks), d, c);
    if t in pl.tasks && u in pl.tasks {
      RowsDiffer(pl.tasks, t, u, c, d);
    } else if t in pl.tasks {
      ChildIsListed(pl.tasks, t, c);
      ChildIsListed(pl.finallyTasks, u, d);
    } else if u in pl.tasks {
      ChildIsListed(pl.finallyTasks, t, c);
      ChildIsListed(pl.tasks, u, d);
    } else {
      RowsDiffer(pl.finallyTasks, t, u, c, d);
    }
  }

  /** The row names tell the tasks apart, and differ from the matrices' names. */
  lemma RowNames(pl: Pipeline, t: PipelineTask, u: PipelineTask, c: PipelineTask)
    requires Apart(pl) && t in AllTasks(pl) && u in AllTasks(pl) && IsChild(t, c)
    ensures u.matrix.Some? ==> c.name != u.name
    ensures forall d :: t != u && IsChild(u, d) ==> c.name != d.name
  {
    if t in pl.tasks {
      ChildIsListed(pl.tasks, t, c);
    } else {
      ChildIsListed(pl.finallyTasks, t, c);
    }
    assert c in AllRows(pl);
    assert u.matrix.Some? ==> IsMatrix(AllTasks(pl), u);
    forall d | t != u && IsChild(u, d) ensures c.name != d.name { RowsDifferAnywhere(pl, t, u, c, d); }
  }

  // ---------------------------------------------------------------- runAfter

  lemma {:induction false} RewrittenMember(deps: seq<string>, rewrite: map<string, seq<string>>, x: string)
    ensures x in Rewritten(deps, rewrite) <==> exists d :: d in deps && x in Plans.RefNames(d, rewrite)
  {
    if deps != [] {
      var init, last := deps[..|deps| - 1], deps[|deps| - 1];
      RewrittenMember(init, rewrite, x);
      assert forall d :: d in deps <==> d in init || d == last;
      assert Rewritten(deps, rewrite) == Rewritten(init, rewrite) + Plans.RefNames(last, rewrite);
    }
  }

  lemma {:induction false} RenamingsAre(ts: seq<PipelineTask>,
      before: map<string, seq<string>>, t: PipelineTask, d: string)
    requires AllExpandable(ts) && DistinctNames(ts)
    ensures IsMatrix(ts, t) ==>
      t.name in Renamings(ts, before) && Renamings(ts, before)[t.name] == TaskNames(Children(t))
    ensures d in Renamings(ts, before) <==> d in before || exists u :: IsMatrix(ts, u) && u.name == d
    ensures d in before && (forall u :: u in ts ==> u.name != d) ==>
      d in Renamings(ts, before) && Renamings(ts, before)[d] == before[d]
  {
    if ts != [] {
      var init, last := ts[..|ts| - 1], ts[|ts| - 1];
      RenamingsAre(init, before, t, d);
      LastMatrix(ts);
    }
  }

  lemma LastMatrix(ts: seq<PipelineTask>)
    requires DistinctNames(ts) && ts != []
    ensures
      var init, last := ts[..|ts| - 1], ts[|ts| - 1];
      && (forall u :: u in ts <==> u in init || u == last) && (forall u :: u in init ==> u.name != last.name)
      && (forall u :: IsMatrix(ts, u) <==> IsMatrix(init, u) || (u == last && last.matrix.Some?))
  {
  }

  lemma DistinctParts(pl: Pipeline)
    requires DistinctNames(AllTasks(pl))
    ensures DistinctNames(pl.tasks) && DistinctNames(pl.finallyTasks)
    ensures forall t, u :: t in pl.tasks && u in pl.finallyTasks ==> t.name != u.name
  {
    var all := AllTasks(pl);
    forall i, j | 0 <= i < j < |pl.tasks| ensures pl.tasks[i].name != pl.tasks[j].name {
      assert all[i] == pl.tasks[i] && all[j] == pl.tasks[j];
    }
    forall i, j | 0 <= i < j < |pl.finallyTasks| ensures pl.finallyTasks[i].name != pl.finallyTasks[j].name {
      assert all[|pl.tasks| + i] == pl.finallyTasks[i] && all[|pl.tasks| + j] == pl.finallyTasks[j];
    }
    forall t, u | t in pl.tasks && u in pl.finallyTasks ensures t.name != u.name { PhasesDiffer(pl, t, u); }
  }

  /** The rewrite map holds the rows of each matrix, and nothing else. */
  lemma RewriteMapIs(pl: Pipeline, d: string)
    requires CanExpand(pl) && DistinctNames(AllTasks(pl))
    ensures forall t :: IsMatrix(AllTasks(pl), t) ==>
      t.name in RewriteMap(pl) && RewriteMap(pl)[t.name] == TaskNames(Children(t))
    ensures d in RewriteMap(pl) <==> exists t :: IsMatrix(AllTasks(pl), t) && t.name == d
  {
    DistinctParts(pl);
    var before := Renamings(pl.tasks, map[]);
    assert forall t :: IsMatrix(AllTasks(pl), t) <==> IsMatrix(pl.tasks, t) || IsMatrix(pl.finallyTasks, t);
    forall t | IsMatrix(AllTasks(pl), t)
      ensures t.name in RewriteMap(pl) && RewriteMap(pl)[t.name] == TaskNames(Children(t))
    {
      RenamingsAre(pl.tasks, map[], t, t.name);
      RenamingsAre(pl.finallyTasks, before, t, t.name);
    }
    if |pl.tasks| + |pl.finallyTasks| > 0 {
      var any := AllTasks(pl)[0];
      RenamingsAre(pl.tasks, map[], any, d);
      RenamingsAre(pl.finallyTasks, before, any, d);
    }
  }

  lemma RowNamed(t: PipelineTask, x: string)
    requires Expandable(t)
    ensures x in TaskNames(Children(t)) <==> exists c :: IsChild(t, c) && c.name == x
  {
    var cs := Children(t);
    if x in TaskNames(cs) {
      var i :| 0 <= i < |cs| && TaskNames(cs)[i] == x;
      assert IsChild(t, cs[i]);
    }
    if c :| IsChild(t, c) && c.name == x {
      var i :| 0 <= i < |cs| && cs[i] == c;
      assert TaskNames(cs)[i] == x;
    }
  }

  /** What a runAfter entry becomes, seen from a row: it holds the row exactly when it is the name of
      the row's task or, for a row of a matrix, the row's own name. */
  lemma EntryBecomes(pl: Pipeline, t: PipelineTask, c: PipelineTask, d: string)
    requires Apart(pl) && t in AllTasks(pl) && IsChild(t, c)
    ensures c.name in Plans.RefNames(d, RewriteMap(pl)) <==> d == t.name || (t.matrix.Some? && d == c.name)
  {
    RewriteMapIs(pl, d);
    if u :| IsMatrix(AllTasks(pl), u) && u.name == d {
      MatrixEntryBecomes(pl, t, c, u);
    } else {
      ChildIs(t, c);
      assert t.matrix.Some? ==> IsMatrix(AllTasks(pl), t);
      assert Plans.RefNames(d, RewriteMap(pl)) == [d];
    }
  }

  lemma MatrixEntryBecomes(pl: Pipeline, t: PipelineTask, c: PipelineTask, u: PipelineTask)
    requires Apart(pl) && t in AllTasks(pl) && IsChild(t, c) && IsMatrix(AllTasks(pl), u)
    ensures u.name != c.name && (c.name in TaskNames(Children(u)) <==> u.name == t.name)
  {
    RowNamed(u, c.name);
    RowNames(pl, t, u, c);
    if u.name == t.name {
      SameNameSameTask(pl, t, u);
    }
  }

  /** A runAfter edge between two tasks becomes one between every pair of their rows, and no other
      runAfter edge appears than those the pipeline writes itself by naming a row. */
  lemma RunAfterIsPreserved(pl: Pipeline, t: PipelineTask, u: PipelineTask, c: PipelineTask)
    requires Apart(pl) && t in AllTasks(pl) && IsChild(t, c)
    ensures c.name in Rewritten(u.runAfter, RewriteMap(pl)) <==>
      t.name in u.runAfter || (t.matrix.Some? && c.name in u.runAfter)
  {
    RewrittenMember(u.runAfter, RewriteMap(pl), c.name);
    forall d ensures c.name in Plans.RefNames(d, RewriteMap(pl)) <==> d == t.name || (t.matrix.Some? && d == c.name) {
      EntryBecomes(pl, t, c, d);
    }
  }

  // ---------------------------------------------------------------- references

  ghost predicate SomeParamRefers(ps: seq<Param>, ref: string) {
    exists p :: p in ps && ref in ValueRefs(p.value)
  }

  lemma {:induction false} ParamRefsAre(ps: seq<Param>, ref: string)
    ensures ref in ParamRefs(ps) <==> SomeParamRefers(ps, ref)
  {
    if ps != [] {
      var init, last := ps[..|ps| - 1], ps[|ps| - 1];
      ParamRefsAre(init, ref);
      assert forall p :: p in ps <==> p in init || p == last;
    }
  }

  lemma {:induction false} AdditionalFromRow(base: seq<Param>, row: seq<Param>, p: Param)
    requires p in Additional(base, row)
    ensures p in row
  {
    if row != [] {
      var init := row[..|row| - 1];
      if p in Additional(base, init) {
        AdditionalFromRow(base, init, p);
      }
    }
  }

  lemma MergedFrom(base: seq<Param>, row: seq<Param>, p: Param)
    requires p in Merged(base, row)
    ensures p in base || p in row
  {
    if p in Additional(base, row) {
      AdditionalFromRow(base, row, p);
    } else {
      var i :| 0 <= i < |base| && Overridden(base, row)[i] == p;
    }
  }

  /** A row's param refers to what the matrix mentions. */
  lemma RowRefs(m: Matrix, i: nat, p: Param, ref: string)
    requires NoEmptyValue(m) && i < |Rows(m)| && p in Rows(m)[i].params && ref in ValueRefs(p.value)
    ensures MatrixMentions(m, ref)
  {
    if i < Cross(m) {
      ValueOfDigits(Lens(m.params), i);
      var idxs := Digits(Lens(m.params), i);
      var k :| 0 <= k < |m.params| && RowAt(m.params, idxs)[k] == p;
      assert ref in ResultRefs(m.params[k].value[idxs[k]]);
    } else {
      var inc := m.include_[i - Cross(m)];
      assert Rows(m)[Cross(m) + (i - Cross(m))].params == inc.params;
      ParamRefsAre(inc.params, ref);
      assert SomeParamRefers(inc.params, ref);
    }
  }

  /** Expansion adds no reference. */
  lemma ChildRefs(t: PipelineTask, c: PipelineTask, ref: string)
    requires IsChild(t, c) && t.info.None? && ref in ImplicitRefs(c)
    ensures Mentions(t, ref)
  {
    ChildIs(t, c);
    if ref in ParamRefs(c.params) && t.matrix.Some? {
      ChildParamRefs(t, c, ref);
    }
  }

  lemma ChildParamRefs(t: PipelineTask, c: PipelineTask, ref: string)
    requires IsChild(t, c) && t.matrix.Some? && ref in ParamRefs(c.params)
    ensures ref in ParamRefs(t.params) || MatrixMentions(t.matrix.value, ref)
  {
    var rows := Rows(t.matrix.value);
    var i :| 0 <= i < |rows| && c == Child(t, rows, i);
    ParamRefsAre(c.params, ref);
    var p :| p in c.params && ref in ValueRefs(p.value);
    MergedFrom(t.params, rows[i].params, p);
    if p in t.params {
      ParamRefsAre(t.params, ref);
      assert SomeParamRefers(t.params, ref);
    } else {
      RowRefs(t.matrix.value, i, p, ref);
    }
  }

  // ---------------------------------------------------------------- edges

  /** A task of the expanded pipeline's main phase, and where it comes from. */
  ghost predicate RowFrom(pl: Pipeline, t: PipelineTask, c: PipelineTask, x: PipelineTask)
    requires CanExpand(pl)
  {
    t in pl.tasks && IsChild(t, c) && x == Relinked(c, RewriteMap(pl))
  }

  lemma MainOrigin(pl: Pipeline, x: PipelineTask) returns (t: PipelineTask, c: PipelineTask)
    requires CanExpand(pl) && x in Expanded(pl).tasks
    ensures RowFrom(pl, t, c, x)
  {
    t, c := Origin(pl.tasks, RewriteMap(pl), x);
  }

  /** The task that a node of the expanded graph comes from. */
  function Projected(main: map<string, PipelineTask>, n: string): string {
    if n in main && main[n].info.Some? then main[n].info.value.parent else n
  }

  lemma RowProjects(pl: Pipeline, t: PipelineTask, c: PipelineTask, x: PipelineTask, main: map<string, PipelineTask>)
    requires CanExpand(pl) && RowFrom(pl, t, c, x) && t.info.None? && x.name in main && main[x.name] == x
    ensures Projected(main, x.name) == t.name
  {
    ChildIs(t, c);
  }

  lemma RunAfterProjects(pl: Pipeline, t: PipelineTask, c: PipelineTask, u: PipelineTask)
    requires Apart(pl) && t in pl.tasks && IsChild(t, c) && c.name in Rewritten(u.runAfter, RewriteMap(pl))
    ensures Follows(t, u)
  {
    RunAfterIsPreserved(pl, t, u, c);
    ChildIs(t, c);
    if t.name in u.runAfter {
      assert StandsFor(t.name, t);
    } else {
      assert StandsFor(c.name, t);
    }
  }

  lemma ReferenceProjects(t: PipelineTask, u: PipelineTask, d: PipelineTask, ref: string)
    requires IsChild(u, d) && u.info.None? && ref in ImplicitRefs(d) && StandsFor(ref, t) && t != u
    ensures Follows(t, u)
  {
    assert Consumes(u, ref);
  }

  // ---------------------------------------------------------------- names after expansion

  lemma RelinkedDistinct(a: seq<PipelineTask>, rewrite: map<string, seq<string>>)
    requires DistinctNames(a)
    ensures DistinctNames(WithRunAfter(a, rewrite))
  {
  }

  /** Any task of the expanded pipeline, and where it comes from. */
  lemma AnyOrigin(pl: Pipeline, x: PipelineTask) returns (t: PipelineTask, c: PipelineTask)
    requires CanExpand(pl) && x in AllTasks(Expanded(pl))
    ensures t in AllTasks(pl) && IsChild(t, c) && x == Relinked(c, RewriteMap(pl))
    ensures x in Expanded(pl).tasks ==> t in pl.tasks
    ensures x !in Expanded(pl).tasks ==> t in pl.finallyTasks
  {
    if x in Expanded(pl).tasks {
      t, c := Origin(pl.tasks, RewriteMap(pl), x);
    } else {
      t, c := Origin(pl.finallyTasks, RewriteMap(pl), x);
    }
  }

  lemma ExpandedNames(pl: Pipeline)
    requires CanExpand(pl) && DistinctNames(AllRows(pl))
    ensures DistinctNames(AllTasks(Expanded(pl)))
  {
    RelinkedDistinct(AllRows(pl), RewriteMap(pl));
    RelinkedParts(ExpandedList(pl.tasks), ExpandedList(pl.finallyTasks), RewriteMap(pl));
  }

  lemma RelinkedParts(a: seq<PipelineTask>, b: seq<PipelineTask>, rewrite: map<string, seq<string>>)
    ensures WithRunAfter(a + b, rewrite) == WithRunAfter(a, rewrite) + WithRunAfter(b, rewrite)
  {
  }

  /** No task consumes its own results or those of a row of its own matrix. */
  ghost predicate NoSelfConsumption(pl: Pipeline) {
    forall t, ref :: t in pl.tasks && Consumes(t, ref) ==> !StandsFor(ref, t)
  }

  lemma ParentOf(pl: Pipeline, x: PipelineTask) returns (t: PipelineTask)
    requires Apart(pl) && x in AllTasks(Expanded(pl)) && x.info.Some?
    ensures IsMatrix(AllTasks(pl), t) && x.info.value.parent == t.name
    ensures x in Expanded(pl).tasks ==> t in pl.tasks
    ensures x !in Expanded(pl).tasks ==> t in pl.finallyTasks
    ensures StandsFor(x.name, t)
  {
    var c;
    t, c := AnyOrigin(pl, x);
    ChildIs(t, c);
  }

  /** What scheduling takes for granted holds of an expanded pipeline. */
  lemma ExpandedIsWellNamed(pl: Pipeline)
    requires Apart(pl) && NoSelfConsumption(pl)
    ensures WellNamed(Expanded(pl))
  {
    ExpandedNames(pl);
    ExpandedParentsApart(pl);
    ExpandedPhasesApart(pl);
    forall x, ref | x in Expanded(pl).tasks && ref in ImplicitRefs(x)
      ensures ref != x.name && (x.info.Some? ==> ref != x.info.value.parent)
    {
      RowRefersElsewhere(pl, x, ref);
    }
    forall x, y | x in Expanded(pl).tasks && y in Expanded(pl).tasks && y.name in ImplicitRefs(x)
      ensures !SameMatrixParent(y, x)
    {
      RowRefersOutside(pl, x, y);
    }
  }

  lemma ExpandedParentsApart(pl: Pipeline)
    requires Apart(pl)
    ensures ParentsApart(AllTasks(Expanded(pl)))
  {
    forall x, y | x in AllTasks(Expanded(pl)) && y in AllTasks(Expanded(pl)) && x.info.Some?
      ensures x.info.value.parent != y.name
    {
      var t := ParentOf(pl, x);
      var u, d := AnyOrigin(pl, y);
      RowNames(pl, u, t, d);
    }
  }

  lemma ExpandedPhasesApart(pl: Pipeline)
    requires Apart(pl)
    ensures PhasesApart(Expanded(pl))
  {
    ExpandedNames(pl);
    DistinctParts(pl);
    forall x, y | x in Expanded(pl).tasks && y in Expanded(pl).finallyTasks ensures !SameMatrixParent(x, y) {
      PhasesDiffer(Expanded(pl), x, y);
      if x.info.Some? && y.info.Some? {
        MatricesDiffer(pl, x, y);
      }
    }
  }

  lemma MatricesDiffer(pl: Pipeline, x: PipelineTask, y: PipelineTask)
    requires Apart(pl) && x in Expanded(pl).tasks && y in Expanded(pl).finallyTasks && x.info.Some? && y.info.Some?
    ensures x.info.value.parent != y.info.value.parent
  {
    DistinctParts(pl);
    var t, c := Origin(pl.tasks, RewriteMap(pl), x);
    var u, d := Origin(pl.finallyTasks, RewriteMap(pl), y);
    ChildIs(t, c);
    ChildIs(u, d);
  }

  lemma RowRefersElsewhere(pl: Pipeline, x: PipelineTask, ref: string)
    requires Apart(pl) && NoSelfConsumption(pl) && x in Expanded(pl).tasks && ref in ImplicitRefs(x)
    ensures ref != x.name && (x.info.Some? ==> ref != x.info.value.parent)
  {
    var t, c := MainOrigin(pl, x);
    ChildIs(t, c);
    assert Consumes(t, ref);
  }

  lemma RowRefersOutside(pl: Pipeline, x: PipelineTask, y: PipelineTask)
    requires Apart(pl) && NoSelfConsumption(pl) && x in Expanded(pl).tasks && y in Expanded(pl).tasks
      && y.name in ImplicitRefs(x)
    ensures !SameMatrixParent(y, x)
  {
    var t, c := MainOrigin(pl, x);
    ChildIs(t, c);
    assert Consumes(t, y.name);
    if y.info.Some? {
      var u := ParentOf(pl, y);
      if u.name == t.name {
        SameNameSameTask(pl, t, u);
      }
    }
  }

  // ---------------------------------------------------------------- rows in order

  lemma ChildRowNames(u: PipelineTask, p: string)
    requires Expandable(u) && u.info.None?
    ensures RowNamesOf(Children(u), p) == if u.matrix.Some? && u.name == p then TaskNames(Children(u)) else []
  {
    forall c | c in Children(u) ensures u.matrix.Some? ==> c.info.Some? && c.info.value.parent == u.name
      ensures u.matrix.None? ==> c.info.None?
    {
      ChildIs(u, c);
    }
    RowNamesOfGroup(Children(u), p);
  }

  lemma {:induction false} ListRowNames(ts: seq<PipelineTask>, t: PipelineTask)
    requires AllExpandable(ts) && DistinctNames(ts) && t.matrix.Some? && Expandable(t)
    requires forall u :: u in ts ==> u.info.None? && (u.name == t.name ==> u == t)
    ensures RowNamesOf(ExpandedList(ts), t.name) == if t in ts then TaskNames(Children(t)) else []
  {
    if ts != [] {
      var init, last := ts[..|ts| - 1], ts[|ts| - 1];
      ListRowNames(init, t);
      ListRowNamesLast(init, last, t);
      LastIsNew(ts);
      assert ExpandedList(ts) == ExpandedList(init) + Children(last);
    }
  }

  lemma LastIsNew(ts: seq<PipelineTask>)
    requires DistinctNames(ts) && ts != []
    ensures forall u :: u in ts <==> u in ts[..|ts| - 1] || u == ts[|ts| - 1]
    ensures ts[|ts| - 1] !in ts[..|ts| - 1]
  {
    assert forall u :: u in ts[..|ts| - 1] ==> u.name != ts[|ts| - 1].name;
  }

  lemma ListRowNamesLast(init: seq<PipelineTask>, last: PipelineTask, t: PipelineTask)
    requires AllExpandable(init) && Expandable(last) && t.matrix.Some? && Expandable(t)
    requires last.info.None? && (last.name == t.name ==> last == t)
    ensures RowNamesOf(ExpandedList(init) + Children(last), t.name) ==
      RowNamesOf(ExpandedList(init), t.name) + if last == t then TaskNames(Children(t)) else []
  {
    ChildRowNames(last, t.name);
    RowNamesAppend(ExpandedList(init), Children(last), t.name);
  }

  /** The scheduler lists the rows of a matrix task in the order of the matrix. */
  lemma RowsAreInOrder(pl: Pipeline, t: PipelineTask)
    requires Apart(pl) && IsMatrix(AllTasks(pl), t)
    ensures var rows := Expansions(AllTasks(Expanded(pl))); t.name in rows && rows[t.name] == TaskNames(Children(t))
  {
    var ex := Expanded(pl);
    RowsOfPhases(pl, t);
    ExpansionsInOrder(AllTasks(ex), t.name);
    RowNamesAppend(ex.tasks, ex.finallyTasks, t.name);
    RowNamesRelinked(ExpandedList(pl.tasks), RewriteMap(pl), t.name);
    RowNamesRelinked(ExpandedList(pl.finallyTasks), RewriteMap(pl), t.name);
    assert |TaskNames(Children(t))| > 0;
  }

  lemma RowsOfPhases(pl: Pipeline, t: PipelineTask)
    requires Apart(pl) && IsMatrix(AllTasks(pl), t)
    ensures RowNamesOf(ExpandedList(pl.tasks), t.name) + RowNamesOf(ExpandedList(pl.finallyTasks), t.name) ==
      TaskNames(Children(t))
  {
    DistinctParts(pl);
    forall u | u in AllTasks(pl) && u.name == t.name ensures u == t {
      SameNameSameTask(pl, u, t);
    }
    assert forall u :: u in pl.tasks || u in pl.finallyTasks ==> u in AllTasks(pl);
    ListRowNames(pl.tasks, t);
    ListRowNames(pl.finallyTasks, t);
    assert t in pl.tasks ==> t !in pl.finallyTasks;
  }

  // ---------------------------------------------------------------- the expanded graph

  /** A reference that scheduling takes to mean a row stands for the row's task. */
  lemma ReferenceStandsFor(pl: Pipeline, ex: Pipeline, x: PipelineTask, t: PipelineTask, c: PipelineTask, ref: string)
    requires Apart(pl) && ex == Expanded(pl) && RowFrom(pl, t, c, x) && x in ex.tasks
    requires x.name in Plans.RefNames(ref, Expansions(AllTasks(ex)))
    ensures StandsFor(ref, t)
  {
    ChildIs(t, c);
    if ref in Expansions(AllTasks(ex)) {
      ExpandedNames(pl);
      RowOfReference(ex, x, ref);
    }
  }

  lemma RowOfReference(ex: Pipeline, x: PipelineTask, ref: string)
    requires DistinctNames(AllTasks(ex)) && x in ex.tasks && ref in Expansions(AllTasks(ex))
      && x.name in Expansions(AllTasks(ex))[ref]
    ensures x.info.Some? && x.info.value.parent == ref
  {
    InMainNames(ex, x);
    ReferencedRow(ex, ref, x.name);
  }

  /** Rows of one task share its matrix, or are the one task. */
  lemma RowsOfOneTask(pl: Pipeline, x: PipelineTask, y: PipelineTask, t: PipelineTask, c: PipelineTask, d: PipelineTask)
    requires CanExpand(pl) && t.info.None? && RowFrom(pl, t, c, x) && RowFrom(pl, t, d, y)
    ensures x.name == y.name || SameMatrixParent(x, y)
  {
    ChildIs(t, c);
    ChildIs(t, d);
  }

  /** Two rows the implicit rule joins come from different tasks, and one consumes the other. */
  lemma ImplicitProjects(pl: Pipeline, ex: Pipeline, x: PipelineTask, y: PipelineTask, t: PipelineTask,
      c: PipelineTask, u: PipelineTask, d: PipelineTask)
    requires Apart(pl) && ex == Expanded(pl) && RowFrom(pl, t, c, x) && RowFrom(pl, u, d, y) && x in ex.tasks
    requires ImplicitEdge(ex, x.name, y)
    ensures t != u && Follows(t, u)
  {
    ExpandedNames(pl);
    InMainNames(ex, x);
    var ref :| ref in ImplicitRefs(y) && WantedFor(ByName(ex.tasks), Expansions(AllTasks(ex)), ref, x.name, y);
    ReferenceStandsFor(pl, ex, x, t, c, ref);
    if t == u {
      RowsOfOneTask(pl, x, y, t, c, d);
      assert false;
    }
    ReferenceProjects(t, u, d, ref);
  }

  /** Every edge of the expanded graph between known tasks comes from an edge of the original. */
  lemma EdgeProjects(pl: Pipeline, main: map<string, PipelineTask>, n: string, m: string)
    requires Apart(pl) && main == ByName(Expanded(pl).tasks) && SchedulingEdge(Expanded(pl), n, m) && n in main
    ensures OriginalEdge(pl, Projected(main, n), Projected(main, m))
  {
    var ex := Expanded(pl);
    var y :| y in ex.tasks && y.name == m && EdgeInto(ex, n, y);
    var x := main[n];
    ExpandedNames(pl);
    InMainNames(ex, y);
    var t, c := MainOrigin(pl, x);
    var u, d := MainOrigin(pl, y);
    RowProjects(pl, t, c, x, main);
    RowProjects(pl, u, d, y, main);
    if n in y.runAfter {
      ChildIs(u, d);
      RunAfterProjects(pl, t, c, u);
    } else {
      ImplicitProjects(pl, ex, x, y, t, c, u, d);
    }
  }

  /** A node of the expanded graph is a row of a main task. */
  lemma NodeIsRow(pl: Pipeline, n: string)
    requires CanExpand(pl)
    ensures n in ByName(Expanded(pl).tasks) <==> exists t, c :: t in pl.tasks && IsChild(t, c) && c.name == n
  {
    if n in ByName(Expanded(pl).tasks) {
      var t, c := MainOrigin(pl, ByName(Expanded(pl).tasks)[n]);
      assert t in pl.tasks && IsChild(t, c) && c.name == n;
    }
    if t, c :| t in pl.tasks && IsChild(t, c) && c.name == n {
      Image(pl.tasks, RewriteMap(pl), t, c);
    }
  }

  ghost predicate IsNode(pl: Pipeline, n: string)
    requires CanExpand(pl)
  {
    n in ByName(Expanded(pl).tasks)
  }

  /** What a known runAfter entry becomes is known, and only then. */
  lemma EntryIsKnown(pl: Pipeline, d: string)
    requires Apart(pl)
    ensures (forall n :: n in Plans.RefNames(d, RewriteMap(pl)) ==> IsNode(pl, n)) <==>
      exists u :: u in pl.tasks && StandsFor(d, u)
  {
    if u :| u in pl.tasks && StandsFor(d, u) {
      forall n | n in Plans.RefNames(d, RewriteMap(pl)) ensures IsNode(pl, n) {
        KnownBecomesNode(pl, u, d, n);
      }
    }
    if forall n :: n in Plans.RefNames(d, RewriteMap(pl)) ==> IsNode(pl, n) {
      var n := SomeRow(pl, d);
      NodeIsRow(pl, n);
      var t, c :| t in pl.tasks && IsChild(t, c) && c.name == n;
      EntryBecomes(pl, t, c, d);
      ChildIs(t, c);
    }
  }

  lemma SomeRow(pl: Pipeline, d: string) returns (n: string)
    requires Apart(pl)
    ensures n in Plans.RefNames(d, RewriteMap(pl))
  {
    RewriteMapIs(pl, d);
    n := d;
    if t :| IsMatrix(AllTasks(pl), t) && t.name == d {
      n := TaskNames(Children(t))[0];
    }
  }

  lemma KnownBecomesNode(pl: Pipeline, u: PipelineTask, d: string, n: string)
    requires Apart(pl) && u in pl.tasks && StandsFor(d, u) && n in Plans.RefNames(d, RewriteMap(pl))
    ensures IsNode(pl, n)
  {
    RewriteMapIs(pl, d);
    NodeIsRow(pl, n);
    if t :| IsMatrix(AllTasks(pl), t) && t.name == d {
      if d == u.name {
        SameNameSameTask(pl, t, u);
        RowNamed(t, n);
      } else {
        var c :| IsChild(u, c) && c.name == d;
        RowNames(pl, u, t, c);
        assert false;
      }
    } else {
      assert n == d;
      if d == u.name {
        assert !IsMatrix(AllTasks(pl), u);
        assert IsChild(u, u);
      }
    }
  }

  /** The graph is the one scheduling builds from the expanded pipeline. */
  ghost predicate GraphOf(pl: Pipeline, out: Adjacency)
    requires CanExpand(pl)
  {
    forall n, m :: Edge(out, n, m) <==> SchedulingEdge(Expanded(pl), n, m)
  }

  /** The expanded graph has no unknown node exactly when every runAfter entry is known. */
  lemma ExpandedIsClosed(pl: Pipeline, out: Adjacency)
    requires Apart(pl) && GraphOf(pl, out)
    ensures Closed(ByName(Expanded(pl).tasks).Keys, out) <==> RunAfterKnown(pl)
  {
    if RunAfterKnown(pl) {
      forall n, m | Edge(out, n, m) ensures IsNode(pl, n) && IsNode(pl, m) {
        EdgeFromKnown(pl, n, m);
      }
    }
    if Closed(ByName(Expanded(pl).tasks).Keys, out) {
      forall t, d | t in pl.tasks && d in t.runAfter ensures exists u :: u in pl.tasks && StandsFor(d, u) {
        ClosedMeansKnown(pl, out, t, d);
      }
    }
  }

  lemma ClosedMeansKnown(pl: Pipeline, out: Adjacency, t: PipelineTask, d: string)
    requires Apart(pl) && GraphOf(pl, out) && Closed(ByName(Expanded(pl).tasks).Keys, out) && t in pl.tasks
      && d in t.runAfter
    ensures exists u :: u in pl.tasks && StandsFor(d, u)
  {
    forall n | n in Plans.RefNames(d, RewriteMap(pl)) ensures IsNode(pl, n) {
      EntryIsEdge(pl, t, d, n);
      assert Edge(out, n, Children(t)[0].name);
    }
    EntryIsKnown(pl, d);
  }

  lemma EdgeFromKnown(pl: Pipeline, n: string, m: string)
    requires Apart(pl) && RunAfterKnown(pl) && SchedulingEdge(Expanded(pl), n, m)
    ensures IsNode(pl, n) && IsNode(pl, m)
  {
    var y :| y in Expanded(pl).tasks && y.name == m && EdgeInto(Expanded(pl), n, y);
    if n in y.runAfter {
      var u, d := MainOrigin(pl, y);
      ChildIs(u, d);
      RewrittenMember(u.runAfter, RewriteMap(pl), n);
      var e :| e in u.runAfter && n in Plans.RefNames(e, RewriteMap(pl));
      EntryIsKnown(pl, e);
    }
  }

  lemma EntryIsEdge(pl: Pipeline, t: PipelineTask, d: string, n: string)
    requires Apart(pl) && t in pl.tasks && d in t.runAfter && n in Plans.RefNames(d, RewriteMap(pl))
    ensures SchedulingEdge(Expanded(pl), n, Children(t)[0].name)
  {
    var c := Children(t)[0];
    assert IsChild(t, c);
    ChildIs(t, c);
    Image(pl.tasks, RewriteMap(pl), t, c);
    RewrittenMember(t.runAfter, RewriteMap(pl), n);
    assert EdgeInto(Expanded(pl), n, Relinked(c, RewriteMap(pl)));
  }

  /** A map of nodes that takes edges to edges takes cycles to cycles. */
  lemma AcyclicProjection(out: Adjacency, below: Adjacency, f: string -> string)
    requires forall n, m :: Edge(out, n, m) ==> Edge(below, f(n), f(m))
    requires Acyclic(below)
    ensures Acyclic(out)
  {
    forall n | Reaches(out, n, n) ensures false {
      var p :| PathFromTo(out, p, n, n);
      var q := seq(|p|, i requires 0 <= i < |p| => f(p[i]));
      assert PathFromTo(below, q, f(n), f(n));
      assert Reaches(below, f(n), f(n));
    }
  }

  // ---------------------------------------------------------------- cycles

  /** A pipeline refers to a matrix by its name, never by the name of one of its rows. */
  ghost predicate ByTaskName(pl: Pipeline) {
    forall t, u, name ::
      (t in pl.tasks && u in pl.tasks && (name in t.runAfter || Consumes(t, name)) && StandsFor(name, u))
      ==> name == u.name
  }

  /** n is a row of the main task named u. */
  ghost predicate RowNamedBy(pl: Pipeline, u: string, n: string) {
    exists t, c :: t in pl.tasks && t.name == u && IsChild(t, c) && c.name == n
  }

  /** The rows a reference to a task by its name stands for. */
  lemma NameMeansRows(pl: Pipeline, t: PipelineTask, c: PipelineTask)
    requires Apart(pl) && t in pl.tasks && IsChild(t, c)
    ensures c.name in Plans.RefNames(t.name, Expansions(AllTasks(Expanded(pl))))
  {
    var all := AllTasks(Expanded(pl));
    if t.matrix.Some? {
      assert IsMatrix(AllTasks(pl), t);
      RowsAreInOrder(pl, t);
      RowNamed(t, c.name);
    } else {
      ChildIs(t, c);
      Image(pl.tasks, RewriteMap(pl), t, c);
      ExpandedParentsApart(pl);
      ExpansionsRows(all, t.name);
      assert Relinked(c, RewriteMap(pl)) in all;
      assert t.name !in Expansions(all);
    }
  }

  /** A task's row waits for every row of the tasks it consumes. */
  lemma ReferenceLifts(pl: Pipeline, s: PipelineTask, c: PipelineTask, t: PipelineTask, d: PipelineTask)
    requires Apart(pl) && s in pl.tasks && t in pl.tasks && s != t && IsChild(s, c) && IsChild(t, d)
    requires s.name in ImplicitRefs(d)
    ensures SchedulingEdge(Expanded(pl), c.name, d.name)
  {
    var ex := Expanded(pl);
    var x, y := Relinked(c, RewriteMap(pl)), Relinked(d, RewriteMap(pl));
    Image(pl.tasks, RewriteMap(pl), s, c);
    Image(pl.tasks, RewriteMap(pl), t, d);
    NameMeansRows(pl, s, c);
    ExpandedNames(pl);
    InMainNames(ex, x);
    RowNames(pl, s, t, c);
    NotSiblings(pl, s, c, t, d);
    assert WantedFor(ByName(ex.tasks), Expansions(AllTasks(ex)), s.name, c.name, y);
    assert EdgeInto(ex, c.name, y);
  }

  lemma NotSiblings(pl: Pipeline, s: PipelineTask, c: PipelineTask, t: PipelineTask, d: PipelineTask)
    requires Apart(pl) && s in pl.tasks && t in pl.tasks && s != t && IsChild(s, c) && IsChild(t, d)
    ensures !SameMatrixParent(c, d)
  {
    assert s in AllTasks(pl) && t in AllTasks(pl);
    ChildIs(s, c);
    ChildIs(t, d);
    if s.name == t.name {
      SameNameSameTask(pl, s, t);
    }
  }

  lemma RunAfterLifts(pl: Pipeline, s: PipelineTask, c: PipelineTask, t: PipelineTask, d: PipelineTask)
    requires Apart(pl) && s in pl.tasks && t in pl.tasks && IsChild(s, c) && IsChild(t, d) && s.name in t.runAfter
    ensures SchedulingEdge(Expanded(pl), c.name, d.name)
  {
    assert s in AllTasks(pl) && t in AllTasks(pl);
    ChildIs(t, d);
    RunAfterIsPreserved(pl, s, t, c);
    Image(pl.tasks, RewriteMap(pl), t, d);
    assert EdgeInto(Expanded(pl), c.name, Relinked(d, RewriteMap(pl)));
  }

  /** An edge of the pipeline as written becomes edges from all rows of the one to some row of the other. */
  lemma EdgeLifts(pl: Pipeline, out: Adjacency, u: string, v: string) returns (n: string)
    requires Apart(pl) && GraphOf(pl, out) && ByTaskName(pl) && OriginalEdge(pl, u, v)
    ensures RowNamedBy(pl, v, n) && forall m :: RowNamedBy(pl, u, m) ==> Edge(out, m, n)
  {
    var s, t :| s in pl.tasks && t in pl.tasks && s.name == u && t.name == v && Follows(s, t);
    assert t in AllTasks(pl);
    var d := Children(t)[0];
    var after := s.name in t.runAfter;
    if !after {
      var ref :| Consumes(t, ref) && StandsFor(ref, s);
      d :| IsChild(t, d) && ref in ImplicitRefs(d);
    }
    n := d.name;
    assert IsChild(t, d);
    forall m | RowNamedBy(pl, u, m) ensures Edge(out, m, n) {
      var s', c :| s' in pl.tasks && s'.name == u && IsChild(s', c) && c.name == m;
      SameNameSameTask(pl, s, s');
      if after {
        RunAfterLifts(pl, s, c, t, d);
      } else {
        ReferenceLifts(pl, s, c, t, d);
      }
    }
  }

  /** Every edge below becomes edges from all rows of the one node to some row of the other. */
  ghost predicate EdgesLift(out: Adjacency, below: Adjacency, row: (string, string) -> bool) {
    forall u, v :: Edge(below, u, v) ==> exists n :: EdgeLiftsTo(out, row, u, v, n)
  }

  ghost predicate EdgeLiftsTo(out: Adjacency, row: (string, string) -> bool, u: string, v: string, n: string) {
    row(v, n) && forall m :: row(u, m) ==> Edge(out, m, n)
  }

  /** ... and then every path below becomes paths from all rows of its first node to a row of its last. */
  lemma {:induction false} PathLifts(out: Adjacency, below: Adjacency, row: (string, string) -> bool, p: seq<string>)
    returns (n: string)
    requires EdgesLift(out, below, row) && Path(below, p)
    ensures row(p[|p| - 1], n) && forall m :: row(p[0], m) ==> Reaches(out, m, n)
  {
    var i := |p| - 2;
    assert Edge(below, p[i], p[i + 1]);
    n :| EdgeLiftsTo(out, row, p[i], p[i + 1], n);
    var before := "";
    if i > 0 {
      before := PathLifts(out, below, row, p[..i + 1]);
    }
    forall m | row(p[0], m) ensures Reaches(out, m, n) {
      if i == 0 {
        EdgeReaches(out, m, n);
      } else {
        EdgeReaches(out, before, n);
        ReachesTransitive(out, m, before, n);
      }
    }
  }

  lemma AcyclicLifting(out: Adjacency, below: Adjacency, row: (string, string) -> bool)
    requires EdgesLift(out, below, row) && Acyclic(out)
    ensures Acyclic(below)
  {
    forall u | Reaches(below, u, u) ensures false {
      var p :| PathFromTo(below, p, u, u);
      var n := PathLifts(out, below, row, p);
    }
  }

  lemma CycleLifts(pl: Pipeline, out: Adjacency)
    requires Apart(pl) && GraphOf(pl, out) && ByTaskName(pl) && Acyclic(out)
    ensures Acyclic(OriginalGraph(pl))
  {
    var row := (u: string, n: string) => RowNamedBy(pl, u, n);
    forall u, v | Edge(OriginalGraph(pl), u, v) ensures exists n :: EdgeLiftsTo(out, row, u, v, n) {
      var n := EdgeLifts(pl, out, u, v);
      assert EdgeLiftsTo(out, row, u, v, n);
    }
    AcyclicLifting(out, OriginalGraph(pl), row);
  }

  /** The expanded graph can be levelled. */
  ghost predicate Levelled(pl: Pipeline, out: Adjacency)
    requires CanExpand(pl)
  {
    Closed(ByName(Expanded(pl).tasks).Keys, out) && Acyclic(out)
  }

  /** The pipeline as written: every runAfter entry is known and there is no cycle. */
  ghost predicate Sound(pl: Pipeline) {
    RunAfterKnown(pl) && Acyclic(OriginalGraph(pl))
  }

  /** Where matrices are referred to by name, the expanded graph has levels exactly when every runAfter
      entry is known and the pipeline as written is acyclic. */
  lemma ExpandedHasLevelsWhen(pl: Pipeline, out: Adjacency)
    requires Apart(pl) && GraphOf(pl, out) && ByTaskName(pl)
    ensures Levelled(pl, out) <==> Sound(pl)
  {
    ExpandedIsClosed(pl, out);
    if Sound(pl) {
      ExpandedHasLevels(pl, out);
    } else if Acyclic(out) {
      CycleLifts(pl, out);
    }
  }

  /** What levelling the expanded graph tells of the pipeline as written. */
  lemma LevelsTell(pl: Pipeline, out: Adjacency)
    requires Apart(pl) && GraphOf(pl, out)
    ensures Sound(pl) ==> Levelled(pl, out)
    ensures Levelled(pl, out) ==> RunAfterKnown(pl)
    ensures ByTaskName(pl) ==> (Levelled(pl, out) <==> Sound(pl))
  {
    ExpandedIsClosed(pl, out);
    if Sound(pl) {
      ExpandedHasLevels(pl, out);
    }
    if ByTaskName(pl) {
      ExpandedHasLevelsWhen(pl, out);
    }
  }

  /** An acyclic pipeline whose runAfter entries are known expands to a graph that has levels. */
  lemma ExpandedHasLevels(pl: Pipeline, out: Adjacency)
    requires Apart(pl) && GraphOf(pl, out) && Sound(pl)
    ensures Levelled(pl, out)
  {
    ExpandedIsClosed(pl, out);
    var main := ByName(Expanded(pl).tasks);
    var f := n => Projected(main, n);
    forall n, m | Edge(out, n, m) ensures Edge(OriginalGraph(pl), f(n), f(m)) {
      EdgeProjects(pl, main, n, m);
    }
    AcyclicProjection(out, OriginalGraph(pl), f);
  }

  // ---------------------------------------------------------------- preparing a run

  datatype PrepareError = BadMatrix(matrix: MatrixError) | BadGraph(graph: LevelsError)

  /** The start of RunPipeline: expand, build the graph, level it. */
  method Prepare(pl: Pipeline) returns (r: Result<(Pipeline, seq<seq<string>>), PrepareError>, g: Graph)
    ensures fresh(g) && g.Valid()
    ensures r.Ok? ==> CanExpand(pl) && r.value.0 == Expanded(pl) && GraphOf(pl, g.outs)
    ensures r.Ok? ==> Levelling(ByName(r.value.0.tasks).Keys, g.outs, r.value.1)
    ensures r.Err? && r.error.BadMatrix? <==> !CanExpand(pl)
    ensures Apart(pl) && Sound(pl) ==> r.Ok?
    ensures Apart(pl) && r.Ok? ==> RunAfterKnown(pl)
    ensures Apart(pl) && ByTaskName(pl) ==> (r.Ok? <==> Sound(pl))
    ensures Apart(pl) && NoSelfConsumption(pl) && r.Ok? ==>
      forall maxParallel, encode :: Plans.WellFormed(PlanOf(r.value.0, g.outs, r.value.1, maxParallel, encode))
  {
    var expanded := ExpandMatrix(pl);
    if expanded.Err? {
      g := new Graph();
      return Err(BadMatrix(expanded.error)), g;
    }
    g := BuildDag(expanded.value);
    var levels := g.Levels();
    assert levels.Ok? <==> Levelled(pl, g.outs);
    if Apart(pl) {
      LevelsTell(pl, g.outs);
    }
    if levels.Err? {
      return Err(BadGraph(levels.error)), g;
    }
    if Apart(pl) && NoSelfConsumption(pl) {
      ExpandedIsWellNamed(pl);
      forall maxParallel, encode
        ensures Plans.WellFormed(PlanOf(expanded.value, g.outs, levels.value, maxParallel, encode))
      {
        PlanIsWellFormed(expanded.value, g.outs, levels.value, maxParallel, encode);
      }
    }
    return Ok((expanded.value, levels.value)), g;
  }
}
