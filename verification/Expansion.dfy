/** Replacing matrix tasks by their rows. */
module Expansion {
  import opened Wrappers
  import opened Text
  import opened Types
  import opened Matrices

  // ---------------------------------------------------------------- merging params

  /** The last entry with the name, which is the one that binds. */
  function LastOf(ps: seq<Param>, name: string): (r: Option<Param>)
    ensures r.Some? ==> r.value in ps && r.value.name == name
  {
    if ps == [] then None
    else if ps[|ps| - 1].name == name then Some(ps[|ps| - 1])
    else LastOf(ps[..|ps| - 1], name)
  }

  predicate Names(ps: seq<Param>, name: string) {
    exists i :: 0 <= i < |ps| && ps[i].name == name
  }

  /** The base entries, each replaced by the row's entry of the same name. */
  function Overridden(base: seq<Param>, row: seq<Param>): (r: seq<Param>)
    ensures |r| == |base|
  {
    seq(|base|, i requires 0 <= i < |base| => match LastOf(row, base[i].name) case Some(p) => p case None => base[i])
  }

  /** The row's entries that the base does not have. */
  function Additional(base: seq<Param>, row: seq<Param>): seq<Param> {
    if row == [] then []
    else
      var p := row[|row| - 1];
      Additional(base, row[..|row| - 1]) + if Names(base, p.name) then [] else [p]
  }

  function Merged(base: seq<Param>, row: seq<Param>): seq<Param> {
    Overridden(base, row) + Additional(base, row)
  }

  method LastByName(row: seq<Param>) returns (last: map<string, Param>)
    ensures forall n :: LastOf(row, n) == if n in last then Some(last[n]) else None
  {
    last := map[];
    for i := 0 to |row|
      invariant forall n :: LastOf(row[..i], n) == if n in last then Some(last[n]) else None
    {
      assert row[..i + 1][..i] == row[..i];
      last := last[row[i].name := row[i]];
    }
    assert row[..|row|] == row;
  }

  method Override(base: seq<Param>, row: seq<Param>, last: map<string, Param>)
    returns (out: seq<Param>, emitted: set<string>)
    requires forall n :: LastOf(row, n) == if n in last then Some(last[n]) else None
    ensures out == Overridden(base, row) && forall n :: n in emitted <==> Names(base, n)
  {
    out, emitted := [], {};
    for i := 0 to |base|
      invariant |out| == i && forall j :: 0 <= j < i ==> out[j] == Overridden(base, row)[j]
      invariant forall n :: n in emitted <==> exists j :: 0 <= j < i && base[j].name == n
    {
      out := out + [if base[i].name in last then last[base[i].name] else base[i]];
      emitted := emitted + {base[i].name};
    }
  }

  method MergeParams(base: seq<Param>, row: seq<Param>) returns (out: seq<Param>)
    ensures out == Merged(base, row)
  {
    var last := LastByName(row);
    var emitted;
    out, emitted := Override(base, row, last);
    for i := 0 to |row|
      invariant out == Overridden(base, row) + Additional(base, row[..i])
    {
      assert row[..i + 1][..i] == row[..i];
      if row[i].name !in emitted {
        out := out + [row[i]];
      }
    }
    assert row[..|row|] == row;
  }

  lemma {:induction false} LastOfAppend(a: seq<Param>, b: seq<Param>, name: string)
    ensures LastOf(a + b, name) == if LastOf(b, name).Some? then LastOf(b, name) else LastOf(a, name)
  {
    if b == [] {
      assert a + b == a;
    } else {
      assert (a + b)[..|a + b| - 1] == a + b[..|b| - 1];
      LastOfAppend(a, b[..|b| - 1], name);
    }
  }

  lemma {:induction false} LastOfNames(ps: seq<Param>, name: string)
    ensures LastOf(ps, name).Some? <==> Names(ps, name)
  {
    if ps != [] {
      LastOfNames(ps[..|ps| - 1], name);
      if Names(ps, name) && ps[|ps| - 1].name != name {
        var i :| 0 <= i < |ps| && ps[i].name == name;
        assert ps[..|ps| - 1][i].name == name;
      }
    }
  }

  lemma {:induction false} LastOverridden(base: seq<Param>, row: seq<Param>, name: string)
    ensures LastOf(Overridden(base, row), name) ==
      if !Names(base, name) then None else if LastOf(row, name).Some? then LastOf(row, name) else LastOf(base, name)
  {
    if base != [] {
      var init := base[..|base| - 1];
      LastOverridden(init, row, name);
      assert Overridden(base, row)[..|base| - 1] == Overridden(init, row);
      assert Names(base, name) <==> Names(init, name) || base[|base| - 1].name == name by {
        if Names(base, name) && base[|base| - 1].name != name {
          var i :| 0 <= i < |base| && base[i].name == name;
          assert init[i].name == name;
        }
        if Names(init, name) {
          var i :| 0 <= i < |init| && init[i].name == name;
          assert base[i].name == name;
        }
      }
    }
  }

  lemma {:induction false} LastAdditional(base: seq<Param>, row: seq<Param>, name: string)
    ensures LastOf(Additional(base, row), name) == if Names(base, name) then None else LastOf(row, name)
  {
    if row != [] {
      var p := row[|row| - 1];
      LastAdditional(base, row[..|row| - 1], name);
      if !Names(base, p.name) {
        LastOfAppend(Additional(base, row[..|row| - 1]), [p], name);
        assert [p][..0] == [];
      } else {
        assert Additional(base, row) == Additional(base, row[..|row| - 1]);
      }
    }
  }

  /** Merging binds each name as the row does where the row has it, and as the base does elsewhere. */
  lemma MergedBinds(base: seq<Param>, row: seq<Param>, name: string)
    ensures LastOf(Merged(base, row), name) == if LastOf(row, name).Some? then LastOf(row, name) else LastOf(base, name)
  {
    LastOfAppend(Overridden(base, row), Additional(base, row), name);
    LastOverridden(base, row, name);
    LastAdditional(base, row, name);
    LastOfNames(base, name);
  }

  // ---------------------------------------------------------------- expanding a list

  function RowName(parent: string, i: nat, includeName: string): string {
    if includeName != "" then includeName else parent + "-" + Itoa(i)
  }

  /** Row i of a matrix task, as a task. */
  function Child(pt: PipelineTask, rows: seq<Row>, i: nat): PipelineTask
    requires i < |rows|
  {
    pt.(matrix := None,
        name := RowName(pt.name, i, rows[i].includeName),
        params := Merged(pt.params, rows[i].params),
        info := Some(MatrixInfo(pt.name, i, |rows|, ParamMap(rows[i].params), rows[i].includeName)))
  }

  /** Nothing else binds a name in the row's map than the last of the row's params with that name. */
  lemma {:induction false} ParamMapBinds(ps: seq<Param>, name: string)
    ensures name in ParamMap(ps) <==> LastOf(ps, name).Some?
    ensures name in ParamMap(ps) ==> ParamMap(ps)[name] == TextOf(LastOf(ps, name).value.value)
  {
    if ps != [] {
      ParamMapBinds(ps[..|ps| - 1], name);
    }
  }

  predicate Expandable(pt: PipelineTask) {
    pt.matrix.Some? ==> Accepts(pt.matrix.value)
  }

  /** What a task becomes. */
  ghost function Children(pt: PipelineTask): (r: seq<PipelineTask>)
    requires Expandable(pt)
    ensures pt.matrix.None? ==> r == [pt]
    ensures pt.matrix.Some? ==>
      |r| == |Rows(pt.matrix.value)| && forall i :: 0 <= i < |r| ==> r[i] == Child(pt, Rows(pt.matrix.value), i)
  {
    if pt.matrix.None? then [pt]
    else
      var rows := Rows(pt.matrix.value);
      seq(|rows|, i requires 0 <= i < |rows| => Child(pt, rows, i))
  }

  /** Row i of a matrix task: it is named after its include entry or numbered from 0, keeps what the task
      says of order, conditions and resolver, and binds the row's params over the task's. */
  lemma RowIs(pt: PipelineTask, i: nat, name: string)
    requires Expandable(pt) && pt.matrix.Some? && i < |Children(pt)|
    ensures
      var row, c := Rows(pt.matrix.value)[i], Children(pt)[i];
      && c.name == (if row.includeName != "" then row.includeName else pt.name + "-" + Itoa(i))
      && c.matrix.None? && c.runAfter == pt.runAfter && c.when == pt.when && c.resolverParams == pt.resolverParams
      && LastOf(c.params, name) == (if LastOf(row.params, name).Some? then LastOf(row.params, name)
                                    else LastOf(pt.params, name))
    ensures
      var row, info := Rows(pt.matrix.value)[i], Children(pt)[i].info;
      && info.Some? && info.value.parent == pt.name && info.value.index == i && info.value.of == |Children(pt)|
      && info.value.includeName == row.includeName
      && (name in info.value.params <==> LastOf(row.params, name).Some?)
      && (name in info.value.params ==> info.value.params[name] == TextOf(LastOf(row.params, name).value.value))
  {
    MergedBinds(pt.params, Rows(pt.matrix.value)[i].params, name);
    ParamMapBinds(Rows(pt.matrix.value)[i].params, name);
  }

  predicate AllExpandable(ts: seq<PipelineTask>) {
    forall i :: 0 <= i < |ts| ==> Expandable(ts[i])
  }

  function TaskNames(ts: seq<PipelineTask>): (r: seq<string>)
    ensures |r| == |ts| && forall i :: 0 <= i < |ts| ==> r[i] == ts[i].name
  {
    seq(|ts|, i requires 0 <= i < |ts| => ts[i].name)
  }

  ghost function ExpandedList(ts: seq<PipelineTask>): seq<PipelineTask>
    requires AllExpandable(ts)
  {
    if ts == [] then [] else ExpandedList(ts[..|ts| - 1]) + Children(ts[|ts| - 1])
  }

  /** Matrix task name to the names of its rows. */
  ghost function Renamings(ts: seq<PipelineTask>, before: map<string, seq<string>>): map<string, seq<string>>
    requires AllExpandable(ts)
  {
    if ts == [] then before
    else
      var pt := ts[|ts| - 1];
      var m := Renamings(ts[..|ts| - 1], before);
      if pt.matrix.None? then m else m[pt.name := TaskNames(Children(pt))]
  }

  method ExpandTask(pt: PipelineTask) returns (r: Result<seq<PipelineTask>, MatrixError>)
    requires pt.matrix.Some?
    ensures r.Ok? <==> Expandable(pt)
    ensures r.Ok? ==> r.value == Children(pt)
  {
    var rows := MaterializeRows(pt.matrix.value);
    if rows.Err? {
      return Err(rows.error);
    }
    var out := ExpandRows(pt, rows.value);
    assert out == Children(pt);
    return Ok(out);
  }

  method ExpandRows(pt: PipelineTask, rows: seq<Row>) returns (out: seq<PipelineTask>)
    ensures |out| == |rows| && forall i :: 0 <= i < |rows| ==> out[i] == Child(pt, rows, i)
  {
    out := [];
    for i := 0 to |rows|
      invariant |out| == i && forall j :: 0 <= j < i ==> out[j] == Child(pt, rows, j)
    {
      var row := rows[i];
      var params := MergeParams(pt.params, row.params);
      var contributed := RowParamMap(row.params);
      var child := pt.(matrix := None, name := RowName(pt.name, i, row.includeName), params := params,
                       info := Some(MatrixInfo(pt.name, i, |rows|, contributed, row.includeName)));
      out := out + [child];
    }
  }

  /** expandList: fails at the first matrix that is rejected. */
  method ExpandList(ts: seq<PipelineTask>, rewrite: map<string, seq<string>>)
    returns (r: Result<(seq<PipelineTask>, map<string, seq<string>>), MatrixError>)
    ensures r.Ok? <==> AllExpandable(ts)
    ensures r.Ok? ==> r.value == (ExpandedList(ts), Renamings(ts, rewrite))
  {
    var out: seq<PipelineTask>, names := [], rewrite;
    for i := 0 to |ts|
      invariant AllExpandable(ts[..i]) && out == ExpandedList(ts[..i]) && names == Renamings(ts[..i], rewrite)
    {
      var pt := ts[i];
      if pt.matrix.None? {
        out := out + [pt];
      } else {
        var rows := ExpandTask(pt);
        if rows.Err? {
          return Err(rows.error);
        }
        out := out + rows.value;
        names := names[pt.name := TaskNames(rows.value)];
      }
      ExpandNext(ts, i, rewrite);
    }
    assert ts[..|ts|] == ts;
    return Ok((out, names));
  }

  lemma ExpandNext(ts: seq<PipelineTask>, i: nat, rewrite: map<string, seq<string>>)
    requires i < |ts| && AllExpandable(ts[..i]) && Expandable(ts[i])
    ensures AllExpandable(ts[..i + 1])
    ensures ExpandedList(ts[..i + 1]) == ExpandedList(ts[..i]) + Children(ts[i])
    ensures Renamings(ts[..i + 1], rewrite) ==
      if ts[i].matrix.None? then Renamings(ts[..i], rewrite)
      else Renamings(ts[..i], rewrite)[ts[i].name := TaskNames(Children(ts[i]))]
  {
    assert ts[..i + 1][..i] == ts[..i];
  }

  function Rewritten(deps: seq<string>, rewrite: map<string, seq<string>>): seq<string> {
    if deps == [] then []
    else
      var d := deps[|deps| - 1];
      Rewritten(deps[..|deps| - 1], rewrite) + if d in rewrite then rewrite[d] else [d]
  }

  method RewriteRunAfter(deps: seq<string>, rewrite: map<string, seq<string>>) returns (out: seq<string>)
    ensures out == Rewritten(deps, rewrite)
  {
    out := [];
    for i := 0 to |deps|
      invariant out == Rewritten(deps[..i], rewrite)
    {
      assert deps[..i + 1][..i] == deps[..i];
      out := out + if deps[i] in rewrite then rewrite[deps[i]] else [deps[i]];
    }
    assert deps[..|deps|] == deps;
  }

  function WithRunAfter(ts: seq<PipelineTask>, rewrite: map<string, seq<string>>): (r: seq<PipelineTask>)
    ensures |r| == |ts|
    ensures forall i :: 0 <= i < |ts| ==> r[i] == ts[i].(runAfter := Rewritten(ts[i].runAfter, rewrite))
  {
    seq(|ts|, i requires 0 <= i < |ts| => ts[i].(runAfter := Rewritten(ts[i].runAfter, rewrite)))
  }

  method RewriteAll(ts: seq<PipelineTask>, rewrite: map<string, seq<string>>) returns (r: seq<PipelineTask>)
    ensures r == WithRunAfter(ts, rewrite)
  {
    r := [];
    for i := 0 to |ts|
      invariant |r| == i && forall j :: 0 <= j < i ==> r[j] == ts[j].(runAfter := Rewritten(ts[j].runAfter, rewrite))
    {
      var deps := RewriteRunAfter(ts[i].runAfter, rewrite);
      r := r + [ts[i].(runAfter := deps)];
    }
  }

  ghost function AllTasks(pl: Pipeline): seq<PipelineTask> {
    pl.tasks + pl.finallyTasks
  }

  ghost function RewriteMap(pl: Pipeline): map<string, seq<string>>
    requires AllExpandable(pl.tasks) && AllExpandable(pl.finallyTasks)
  {
    Renamings(pl.finallyTasks, Renamings(pl.tasks, map[]))
  }

  /** The pipeline with every matrix task replaced by its rows. */
  ghost function Expanded(pl: Pipeline): Pipeline
    requires AllExpandable(pl.tasks) && AllExpandable(pl.finallyTasks)
  {
    Pipeline(WithRunAfter(ExpandedList(pl.tasks), RewriteMap(pl)),
      WithRunAfter(ExpandedList(pl.finallyTasks), RewriteMap(pl)))
  }

  /** expandMatrix; a pipeline without matrices is returned as it is. */
  method ExpandMatrix(pl: Pipeline) returns (r: Result<Pipeline, MatrixError>)
    ensures r.Ok? <==> AllExpandable(pl.tasks) && AllExpandable(pl.finallyTasks)
    ensures r.Ok? ==> r.value == Expanded(pl)
  {
    if (forall i :: 0 <= i < |pl.tasks| ==> pl.tasks[i].matrix.None?)
      && (forall i :: 0 <= i < |pl.finallyTasks| ==> pl.finallyTasks[i].matrix.None?) {
      NoMatrix(pl.tasks, map[]);
      NoMatrix(pl.finallyTasks, map[]);
      RelinkNothing(pl.tasks);
      RelinkNothing(pl.finallyTasks);
      return Ok(pl);
    }
    var tasks := ExpandList(pl.tasks, map[]);
    if tasks.Err? {
      return Err(tasks.error);
    }
    var fins := ExpandList(pl.finallyTasks, tasks.value.1);
    if fins.Err? {
      return Err(fins.error);
    }
    var newTasks := RewriteAll(tasks.value.0, fins.value.1);
    var newFinally := RewriteAll(fins.value.0, fins.value.1);
    return Ok(Pipeline(newTasks, newFinally));
  }

  lemma {:induction false} RewriteNothing(deps: seq<string>)
    ensures Rewritten(deps, map[]) == deps
  {
    if deps != [] {
      RewriteNothing(deps[..|deps| - 1]);
    }
  }

  lemma {:induction false} NoMatrix(ts: seq<PipelineTask>, before: map<string, seq<string>>)
    requires forall i :: 0 <= i < |ts| ==> ts[i].matrix.None?
    ensures AllExpandable(ts) && ExpandedList(ts) == ts && Renamings(ts, before) == before
  {
    if ts != [] {
      NoMatrix(ts[..|ts| - 1], before);
      assert ts == ts[..|ts| - 1] + [ts[|ts| - 1]];
    }
  }

  lemma RelinkNothing(ts: seq<PipelineTask>)
    ensures WithRunAfter(ts, map[]) == ts
  {
    forall i | 0 <= i < |ts| ensures WithRunAfter(ts, map[])[i] == ts[i] {
      RewriteNothing(ts[i].runAfter);
    }
  }
}
