/** From a pipeline as written to the end of its run. */
module Engine {
  import opened Strings
  import opened Paths
  import opened Types
  import opened Resolver
  import opened References
  import opened Binding
  import opened Expansion
  import opened SchedulingGraph
  import opened ExpansionOrder
  import Plans
  import opened Scheduler
  import opened SchedulerInvariants
  import opened SchedulerTheorems
  import Aggregation
  import Confluence

  /** The plan of a prepared pipeline. */
  ghost predicate PlanFor(pl: Pipeline, plan: Plans.Plan)
    requires CanExpand(pl)
  {
    GraphOf(pl, plan.out) && plan == PlanOf(Expanded(pl), plan.out, plan.levels, plan.maxParallel, plan.encode)
      && Levelling(plan.main, plan.out, plan.levels)
  }

  lemma PreparedIsWellFormed(pl: Pipeline, plan: Plans.Plan)
    requires Apart(pl) && NoSelfConsumption(pl) && RunAfterKnown(pl) && PlanFor(pl, plan)
    ensures Plans.WellFormed(plan)
  {
    ExpandedIsWellNamed(pl);
    ExpandedIsClosed(pl, plan.out);
    PlanIsWellFormed(Expanded(pl), plan.out, plan.levels, plan.maxParallel, plan.encode);
  }

  /** A finished run of a pipeline has one outcome for every row of every task, and no other. */
  lemma EveryRowHasAnOutcome(pl: Pipeline, plan: Plans.Plan, es: seq<Event>, n: string)
    requires Apart(pl) && NoSelfConsumption(pl) && RunAfterKnown(pl) && PlanFor(pl, plan)
    requires Exec(plan, es).Some? && Exec(plan, es).value.ctl.stage.Done?
    ensures n in Exec(plan, es).value.outcomes <==> exists t, c :: t in AllTasks(pl) && IsChild(t, c) && c.name == n
  {
    PreparedIsWellFormed(pl, plan);
    EveryTaskHasAnOutcome(plan, es);
    var ex := Expanded(pl);
    ExpandedNames(pl);
    TaskKey(ex, n);
    KeysOfRefs(AllTasks(ex), n);
    if u :| u in AllTasks(ex) && u.name == n {
      var t, c := AnyOrigin(pl, u);
      assert t in AllTasks(pl) && IsChild(t, c) && c.name == n;
    }
    if t, c :| t in AllTasks(pl) && IsChild(t, c) && c.name == n {
      RowIsListed(pl, t, c);
    }
  }

  lemma RowIsListed(pl: Pipeline, t: PipelineTask, c: PipelineTask)
    requires CanExpand(pl) && t in AllTasks(pl) && IsChild(t, c)
    ensures exists u :: u in AllTasks(Expanded(pl)) && u.name == c.name
  {
    if t in pl.tasks {
      Image(pl.tasks, RewriteMap(pl), t, c);
    } else {
      Image(pl.finallyTasks, RewriteMap(pl), t, c);
    }
    assert Relinked(c, RewriteMap(pl)) in AllTasks(Expanded(pl));
  }

  // ---------------------------------------------------------------- inputs are final

  /** A main task does not refer to finally tasks. */
  ghost predicate RefersToMain(plan: Plans.Plan, n: string)
    requires n in plan.refs
  {
    forall r, d :: r in plan.refs[n] && d in Plans.Producers(plan, r) ==> d !in plan.finallys
  }

  lemma OutcomesAreNoParents(plan: Plans.Plan, o: Plans.Outcomes)
    requires Plans.WellFormed(plan) && o.Keys <= plan.main + Elements(plan.finallys)
    ensures o.Keys !! plan.rows.Keys
  {
  }

  /** Once a main task's ancestors are final, so is every results entry it refers to. */
  lemma ReferencedResultIsFinal(plan: Plans.Plan, o: Plans.Outcomes, o': Plans.Outcomes, n: string, r: string)
    requires Plans.WellFormed(plan) && Settled(plan, o, n) && Extends(o, o') && n in plan.main && n in plan.refs
      && r in plan.refs[n]
    requires o.Keys <= plan.main + Elements(plan.finallys) && o'.Keys <= plan.main + Elements(plan.finallys)
    requires RefersToMain(plan, n)
    ensures
      var a, b := Aggregation.ResultsOf(plan, o), Aggregation.ResultsOf(plan, o');
      (r in a <==> r in b) && (r in a ==> a[r] == b[r])
  {
    OutcomesAreNoParents(plan, o);
    OutcomesAreNoParents(plan, o');
    if r in plan.rows || r in plan.main {
      forall d | d in Plans.Producers(plan, r) ensures Plans.Ancestor(plan, d, n) {
        assert d in plan.main;
        ProducerIsAncestor(plan, n, r, d);
      }
      Confluence.VisibleSame(plan, o, o', n, r);
    } else {
      assert r in Plans.Producers(plan, r);
      Aggregation.ResultsOfKey(plan, o, r);
      Aggregation.ResultsOfKey(plan, o', r);
    }
  }

  /** What a main task is given is final: its params, when expressions and resolver params, evaluated with
      the results at the moment they are copied for it, have the value they would have with the results at any
      later point of the run. */
  lemma InputsAreFinal(plan: Plans.Plan, es: seq<Event>, k: nat, pt: PipelineTask, ctx: Context)
    requires Plans.WellFormed(plan) && k <= |es| && Exec(plan, es).Some? && Exec(plan, es[..k]).Some?
    requires
      var s := Exec(plan, es[..k]).value;
      InMain(plan, s.ctl) && UnderWay(plan, s.ctl, pt.name) && ctx.results == s.results
    requires pt.name in plan.refs && plan.refs[pt.name] == ImplicitRefs(pt) && RefersToMain(plan, pt.name)
    requires forall s :: Evaluated(s, pt) ==> Accepted(s)
    ensures SameInputs(pt, EvaluatorOf(ctx), EvaluatorOf(ctx.(results := Exec(plan, es).value.results)))
  {
    ReferencedResultsAreFinal(plan, es, k, pt.name);
    InputsReadOnlyScannedTasks(pt, ctx, Exec(plan, es).value.results);
  }

  lemma ReferencedResultsAreFinal(plan: Plans.Plan, es: seq<Event>, k: nat, n: string)
    requires Plans.WellFormed(plan) && k <= |es| && Exec(plan, es).Some? && Exec(plan, es[..k]).Some?
    requires InMain(plan, Exec(plan, es[..k]).value.ctl) && UnderWay(plan, Exec(plan, es[..k]).value.ctl, n)
    requires n in plan.refs && RefersToMain(plan, n)
    ensures SameOn(plan.refs[n], Exec(plan, es[..k]).value.results, Exec(plan, es).value.results)
  {
    var s, s' := Exec(plan, es[..k]).value, Exec(plan, es).value;
    RunInv(plan, es[..k]);
    RunInv(plan, es);
    OutcomesAreFinal(plan, es, k);
    OutcomesAreTasks(plan, s.outcomes, s.ctl);
    OutcomesAreTasks(plan, s'.outcomes, s'.ctl);
    assert Admissible(plan, MainPart(plan, s.outcomes), n);
    assert Settled(plan, s.outcomes, n);
    forall r | r in plan.refs[n]
      ensures (r in s.results <==> r in s'.results) && (r in s.results ==> s.results[r] == s'.results[r])
    {
      ReferencedResultIsFinal(plan, s.outcomes, s'.outcomes, n, r);
    }
  }

  // ---------------------------------------------------------------- aggregates

  /** The task ran and reported the result. */
  predicate HasResult(o: Plans.Outcomes, n: string, k: string) {
    n in o && o[n].status != Plans.Skipped && o[n].results.Some? && k in o[n].results.value
  }

  /** Result k of row i of a matrix task, empty when the row reported no such result. */
  ghost function RowResult(t: PipelineTask, o: Plans.Outcomes, i: nat, k: string): string
    requires Expandable(t) && i < |Children(t)|
  {
    var n := Children(t)[i].name;
    if HasResult(o, n, k) then o[n].results.value[k] else ""
  }

  ghost function RowResults(t: PipelineTask, o: Plans.Outcomes, k: string): seq<string>
    requires Expandable(t)
  {
    seq(|Children(t)|, i requires 0 <= i < |Children(t)| => RowResult(t, o, i, k))
  }

  /** Some row of the task reported the result. */
  ghost predicate SomeRowProduced(t: PipelineTask, o: Plans.Outcomes, k: string)
    requires Expandable(t)
  {
    exists c :: IsChild(t, c) && HasResult(o, c.name, k)
  }

  /** The entry is what the rows produced: for each result one array, in the order of the matrix. */
  ghost predicate IsAggregate(t: PipelineTask, o: Plans.Outcomes,
      encode: seq<string> -> string, entry: map<string, string>)
    requires Expandable(t)
  {
    && (forall k :: k in entry <==> SomeRowProduced(t, o, k))
    && (forall k :: k in entry ==> entry[k] == encode(RowResults(t, o, k)))
  }

  lemma TableIsAggregate(t: PipelineTask, o: Plans.Outcomes, encode: seq<string> -> string)
    requires Expandable(t)
    ensures IsAggregate(t, o, encode, Aggregation.Table(TaskNames(Children(t)), Aggregation.Own(o), encode))
  {
    var rows, own := TaskNames(Children(t)), Aggregation.Own(o);
    forall k ensures k in Aggregation.ResultNames(rows, own) <==> SomeRowProduced(t, o, k) {
      ProducedByRow(t, o, k);
    }
    forall k ensures Aggregation.Column(rows, own, k) == RowResults(t, o, k) {
    }
  }

  lemma ProducedByRow(t: PipelineTask, o: Plans.Outcomes, k: string)
    requires Expandable(t)
    ensures k in Aggregation.ResultNames(TaskNames(Children(t)), Aggregation.Own(o)) <==> SomeRowProduced(t, o, k)
  {
    var rows, own := TaskNames(Children(t)), Aggregation.Own(o);
    if k in Aggregation.ResultNames(rows, own) {
      var n :| n in rows && n in own && k in own[n];
      RowNamed(t, n);
      var c :| IsChild(t, c) && c.name == n;
    }
    if c :| IsChild(t, c) && HasResult(o, c.name, k) {
      RowNamed(t, c.name);
      assert c.name in rows && c.name in own && k in own[c.name];
    }
  }

  /** A matrix task of the pipeline, with its rows in the plan. */
  lemma PlannedRows(pl: Pipeline, plan: Plans.Plan, t: PipelineTask)
    requires Apart(pl) && PlanFor(pl, plan) && IsMatrix(AllTasks(pl), t)
    ensures t.name in plan.rows && plan.rows[t.name] == TaskNames(Children(t))
  {
    RowsAreInOrder(pl, t);
  }

  /** In every reachable state a matrix task has an entry exactly when all its rows have outcomes and
      some row produced a result, and the entry holds, for each result of any row, the rows' values
      in the order of the matrix. */
  lemma AggregateIsInRowOrder(pl: Pipeline, plan: Plans.Plan, es: seq<Event>, t: PipelineTask)
    requires Apart(pl) && NoSelfConsumption(pl) && RunAfterKnown(pl) && PlanFor(pl, plan) && IsMatrix(AllTasks(pl), t)
    requires Exec(plan, es).Some?
    ensures
      var s := Exec(plan, es).value;
      && (t.name in s.results <==> AllRowsDone(t, s.outcomes) && exists k :: SomeRowProduced(t, s.outcomes, k))
      && (t.name in s.results ==> IsAggregate(t, s.outcomes, plan.encode, s.results[t.name]))
  {
    var s := Exec(plan, es).value;
    PreparedIsWellFormed(pl, plan);
    RunInv(plan, es);
    OutcomesAreTasks(plan, s.outcomes, s.ctl);
    PlannedRows(pl, plan, t);
    AggregateEntry(plan, s.outcomes, t);
  }

  lemma AggregateEntry(plan: Plans.Plan, o: Plans.Outcomes, t: PipelineTask)
    requires Expandable(t) && t.name in plan.rows && plan.rows[t.name] == TaskNames(Children(t)) && t.name !in o
    ensures
      var results := Aggregation.ResultsOf(plan, o);
      && (t.name in results <==> AllRowsDone(t, o) && exists k :: SomeRowProduced(t, o, k))
      && (t.name in results ==> IsAggregate(t, o, plan.encode, results[t.name]))
  {
    Aggregation.ResultsOfKey(plan, o, t.name);
    TableIsAggregate(t, o, plan.encode);
    RowsDone(t, o);
    SomethingProduced(t, o);
  }

  ghost predicate AllRowsDone(t: PipelineTask, o: Plans.Outcomes) {
    forall c :: IsChild(t, c) ==> c.name in o
  }

  lemma RowsDone(t: PipelineTask, o: Plans.Outcomes)
    requires Expandable(t)
    ensures Aggregation.AllTerminal(TaskNames(Children(t)), o) <==> AllRowsDone(t, o)
  {
    forall n ensures n in TaskNames(Children(t)) <==> exists c :: IsChild(t, c) && c.name == n {
      RowNamed(t, n);
    }
  }

  lemma SomethingProduced(t: PipelineTask, o: Plans.Outcomes)
    requires Expandable(t)
    ensures Aggregation.ResultNames(TaskNames(Children(t)), Aggregation.Own(o)) != {} <==>
      exists k :: SomeRowProduced(t, o, k)
  {
    var names := Aggregation.ResultNames(TaskNames(Children(t)), Aggregation.Own(o));
    forall k ensures k in names <==> SomeRowProduced(t, o, k) {
      ProducedByRow(t, o, k);
    }
  }

  /** Any other task has an entry exactly when it ran and reported results, and the entry is what it reported. */
  lemma EntryIsReported(plan: Plans.Plan, es: seq<Event>, n: string)
    requires Plans.WellFormed(plan) && Exec(plan, es).Some? && n !in plan.rows
    ensures
      var s := Exec(plan, es).value;
      && (n in s.results <==>
            n in s.outcomes && s.outcomes[n].status != Plans.Skipped && s.outcomes[n].results.Some?)
      && (n in s.results ==> s.results[n] == s.outcomes[n].results.value)
  {
    RunInv(plan, es);
    Aggregation.ResultsOfKey(plan, Exec(plan, es).value.outcomes, n);
  }

  /** Once there, the entry stays as it is to the end of the run. */
  lemma AggregateIsFinal(pl: Pipeline, plan: Plans.Plan, es: seq<Event>, k: nat, t: PipelineTask)
    requires Apart(pl) && NoSelfConsumption(pl) && RunAfterKnown(pl) && PlanFor(pl, plan) && IsMatrix(AllTasks(pl), t)
    requires k <= |es| && Exec(plan, es).Some? && Exec(plan, es[..k]).Some?
      && t.name in Exec(plan, es[..k]).value.results
    ensures t.name in Exec(plan, es).value.results
    ensures Exec(plan, es).value.results[t.name] == Exec(plan, es[..k]).value.results[t.name]
  {
    var s, s' := Exec(plan, es[..k]).value, Exec(plan, es).value;
    PreparedIsWellFormed(pl, plan);
    RunInv(plan, es[..k]);
    RunInv(plan, es);
    OutcomesAreFinal(plan, es, k);
    OutcomesAreTasks(plan, s.outcomes, s.ctl);
    OutcomesAreTasks(plan, s'.outcomes, s'.ctl);
    PlannedRows(pl, plan, t);
    EntryIsFinal(plan, s.outcomes, s'.outcomes, t.name);
  }

  lemma EntryIsFinal(plan: Plans.Plan, o: Plans.Outcomes, o': Plans.Outcomes, p: string)
    requires p in plan.rows && p !in o && p !in o' && Extends(o, o') && p in Aggregation.ResultsOf(plan, o)
    ensures p in Aggregation.ResultsOf(plan, o')
      && Aggregation.ResultsOf(plan, o')[p] == Aggregation.ResultsOf(plan, o)[p]
  {
    Aggregation.ResultsOfKey(plan, o, p);
    Aggregation.ResultsOfKey(plan, o', p);
    Aggregation.TableSame(plan.rows[p], Aggregation.Own(o), Aggregation.Own(o'), plan.encode);
  }
}
