/** What the scheduling loop works from, and the two tests it makes before it starts a task. */
module Plans {
  import opened Wrappers
  import opened Strings
  import opened Paths
  import Dag

  datatype Status = Succeeded | Failed | InfraFailed | TimedOut | Cancelled | Skipped | NotRun

  /** Why a task did not run. */
  datatype Skip = NoSkip | SkipWhen | SkipBlocked | SkipStopped

  datatype Outcome = Outcome(status: Status, skip: Skip, results: Option<map<string, string>>)

  type Outcomes = map<string, Outcome>

  /** refs holds the task names a task's params, when expressions and resolver params mention, as
      written; parent maps a matrix row to the task it expands, rows a matrix task to its rows in order. */
  datatype Plan = Plan(
    main: set<string>,
    out: Adjacency,
    levels: seq<seq<string>>,
    finallys: seq<string>,
    refs: map<string, set<string>>,
    parent: map<string, string>,
    rows: map<string, seq<string>>,
    maxParallel: int,
    encode: seq<string> -> string)

  /** expandRefNames: the rows of a matrix task, or the task itself. */
  function RefNames(name: string, rows: map<string, seq<string>>): seq<string> {
    if name in rows then rows[name] else [name]
  }

  /** The tasks that produce the results of the named task. */
  function Producers(plan: Plan, name: string): seq<string> {
    RefNames(name, plan.rows)
  }

  /** Rows of one matrix task form one group; any other task is its own group. */
  predicate SameGroup(plan: Plan, a: string, b: string) {
    a == b || (a in plan.parent && b in plan.parent && plan.parent[a] == plan.parent[b])
  }

  ghost predicate Ancestor(plan: Plan, a: string, n: string) {
    a in plan.main && a != n && Reaches(plan.out, a, n)
  }

  ghost predicate Distinct(s: seq<string>) {
    forall i, j :: 0 <= i < j < |s| ==> s[i] != s[j]
  }

  /** Matrix bookkeeping: rows are tasks, parents are not, and a matrix lives in one phase. */
  ghost predicate WellGrouped(plan: Plan) {
    && ParentsList(plan.parent, plan.rows)
    && NoParentIsTask(plan.rows, plan.main, plan.finallys)
    && RowsAreGrouped(plan.rows, plan.parent, plan.main, plan.finallys)
    && RowsShareAPhase(plan.rows, plan.main)
  }

  ghost predicate ParentsList(parent: map<string, string>, rows: map<string, seq<string>>) {
    forall n :: n in parent ==> parent[n] in rows && n in rows[parent[n]]
  }

  ghost predicate NoParentIsTask(rows: map<string, seq<string>>, main: set<string>, finallys: seq<string>) {
    forall p :: p in rows ==> p !in main && p !in finallys && rows[p] != []
  }

  ghost predicate RowsAreGrouped(
    rows: map<string, seq<string>>, parent: map<string, string>, main: set<string>, finallys: seq<string>)
  {
    forall p, r :: p in rows && r in rows[p] ==> r in parent && parent[r] == p && (r in main || r in finallys)
  }

  ghost predicate RowsShareAPhase(rows: map<string, seq<string>>, main: set<string>) {
    forall p, r, q :: p in rows && r in rows[p] && q in rows[p] ==> (r in main <==> q in main)
  }

  /** Every task a main task refers to comes before it. */
  ghost predicate RefsAreEdges(plan: Plan) {
    forall n, r, d ::
      n in plan.main && n in plan.refs && r in plan.refs[n] && d in Producers(plan, r) && d in plan.main ==>
        Edge(plan.out, d, n)
  }

  ghost predicate WellFormed(plan: Plan) {
    && plan.refs.Keys == plan.main + Elements(plan.finallys)
    && Closed(plan.main, plan.out) && Levelling(plan.main, plan.out, plan.levels)
    && Distinct(plan.finallys) && (forall n :: n in plan.finallys ==> n !in plan.main)
    && WellGrouped(plan)
    && RefsAreEdges(plan)
  }

  // ---------------------------------------------------------------- the dispatch tests

  /** Neither a success nor a when-skip: dependents must not run. */
  predicate Blocking(oc: Outcome) {
    oc.status != Succeeded && oc.skip != SkipWhen
  }

  predicate Succeeds(o: Outcomes, n: string) {
    n in o && o[n].status == Succeeded
  }

  predicate Blocks(o: Outcomes, n: string) {
    n in o && Blocking(o[n])
  }

  /** Some ancestor in a's group succeeded. */
  ghost predicate GroupSucceeds(plan: Plan, o: Outcomes, n: string, a: string) {
    exists b :: Ancestor(plan, b, n) && SameGroup(plan, a, b) && Succeeds(o, b)
  }

  /** Some ancestor group holds a blocking outcome and no success. */
  ghost predicate UpstreamBlocks(plan: Plan, o: Outcomes, n: string) {
    exists a :: Ancestor(plan, a, n) && Blocks(o, a) && !GroupSucceeds(plan, o, n, a)
  }

  /** ... and one of the outcomes in such a group is a task that ran. */
  ghost predicate UpstreamFailed(plan: Plan, o: Outcomes, n: string) {
    exists a :: Ancestor(plan, a, n) && Blocks(o, a) && !GroupSucceeds(plan, o, n, a) && o[a].status != NotRun
  }

  /** Some producer of r is terminal and none succeeded. */
  predicate RefMissing(plan: Plan, o: Outcomes, r: string) {
    (exists d :: d in Producers(plan, r) && d in o) && (forall d :: d in Producers(plan, r) ==> !Succeeds(o, d))
  }

  ghost predicate MissingRefs(plan: Plan, o: Outcomes, n: string)
    requires n in plan.refs
  {
    exists r :: r in plan.refs[n] && RefMissing(plan, o, r)
  }

  /** The key under which an ancestor is grouped. */
  datatype GroupKey = Rows(parent: string) | Single(name: string)

  function KeyOf(plan: Plan, n: string): GroupKey {
    if n in plan.parent then Rows(plan.parent[n]) else Single(n)
  }

  datatype Group = Group(anyOK: bool, blocking: bool, anyFailed: bool)

  /** One ancestor's contribution to its group. */
  function Add(g: Group, o: Outcomes, a: string): Group {
    if a !in o then g
    else if o[a].status == Succeeded then g.(anyOK := true)
    else if o[a].skip == SkipWhen then g
    else Group(g.anyOK, true, g.anyFailed || o[a].status != NotRun)
  }

  /** What the listed ancestors with key k amount to. */
  function Summary(plan: Plan, o: Outcomes, seen: seq<string>, k: GroupKey): Group {
    if seen == [] then Group(false, false, false)
    else
      var a := seen[|seen| - 1];
      var g := Summary(plan, o, seen[..|seen| - 1], k);
      if KeyOf(plan, a) == k then Add(g, o, a) else g
  }

  ghost predicate Listed(plan: Plan, seen: seq<string>, k: GroupKey, a: string) {
    a in seen && KeyOf(plan, a) == k
  }

  lemma {:induction false} SummaryMeans(plan: Plan, o: Outcomes, seen: seq<string>, k: GroupKey)
    ensures var g := Summary(plan, o, seen, k);
      && (g.anyOK <==> exists a :: Listed(plan, seen, k, a) && Succeeds(o, a))
      && (g.blocking <==> exists a :: Listed(plan, seen, k, a) && Blocks(o, a))
      && (g.anyFailed <==> exists a :: Listed(plan, seen, k, a) && Blocks(o, a) && o[a].status != NotRun)
  {
    if seen != [] {
      var init := seen[..|seen| - 1];
      SummaryMeans(plan, o, init, k);
      assert forall a :: Listed(plan, seen, k, a) <==>
        Listed(plan, init, k, a) || (a == seen[|seen| - 1] && KeyOf(plan, a) == k);
    }
  }

  method GatherGroups(plan: Plan, o: Outcomes, ancestors: seq<string>) returns (groups: map<GroupKey, Group>)
    ensures forall a :: a in ancestors ==> KeyOf(plan, a) in groups
    ensures forall k :: k in groups ==> groups[k] == Summary(plan, o, ancestors, k)
  {
    groups := map[];
    for i := 0 to |ancestors|
      invariant forall j :: 0 <= j < i ==> KeyOf(plan, ancestors[j]) in groups
      invariant forall k :: k in groups ==> groups[k] == Summary(plan, o, ancestors[..i], k)
      invariant forall k :: k !in groups ==> Summary(plan, o, ancestors[..i], k) == Group(false, false, false)
    {
      var a := ancestors[i];
      var k := KeyOf(plan, a);
      var g := if k in groups then groups[k] else Group(false, false, false);
      if a in o {
        if o[a].status == Succeeded {
          g := g.(anyOK := true);
        } else if o[a].skip == SkipWhen {
        } else {
          g := g.(blocking := true);
          if o[a].status != NotRun {
            g := g.(anyFailed := true);
          }
        }
      }
      assert ancestors[..i + 1][..i] == ancestors[..i];
      groups := groups[k := g];
    }
    assert ancestors[..|ancestors|] == ancestors;
  }

  /** Does some group block, and does some blocking group hold a task that ran? */
  method AnyGroupBlocks(groups: map<GroupKey, Group>) returns (blocked: bool, failed: bool)
    ensures blocked <==> exists k :: k in groups && !groups[k].anyOK && groups[k].blocking
    ensures failed <==> exists k :: k in groups && !groups[k].anyOK && groups[k].blocking && groups[k].anyFailed
  {
    blocked, failed := false, false;
    var todo := groups.Keys;
    while todo != {}
      invariant todo <= groups.Keys
      invariant blocked <==> exists k :: k in groups && k !in todo && !groups[k].anyOK && groups[k].blocking
      invariant failed <==>
        exists k :: k in groups && k !in todo && !groups[k].anyOK && groups[k].blocking && groups[k].anyFailed
      decreases todo
    {
      var k :| k in todo;
      todo := todo - {k};
      if groups[k].anyOK || !groups[k].blocking {
        continue;
      }
      blocked := true;
      if groups[k].anyFailed {
        failed := true;
      }
    }
  }

  datatype BlockReason = UpstreamFailure | ParentSkipped

  /** upstreamBlocksDispatch, with the reason it reports. */
  method UpstreamBlocksDispatch(g: Dag.Graph, plan: Plan, target: string, o: Outcomes) returns (r: Option<BlockReason>)
    requires g.nodes == plan.main && g.outs == plan.out
    ensures r.Some? <==> UpstreamBlocks(plan, o, target)
    ensures r == Some(UpstreamFailure) <==> UpstreamFailed(plan, o, target)
  {
    var ancestors := g.Upstream(target);
    var groups := GatherGroups(plan, o, ancestors);
    var blocked, failed := AnyGroupBlocks(groups);
    assert forall a :: a in ancestors <==> Ancestor(plan, a, target);
    BlockedGroups(plan, o, target, ancestors, groups);
    return if !blocked then None else if failed then Some(UpstreamFailure) else Some(ParentSkipped);
  }

  /** A blocking group is a group with a blocking ancestor and no success. */
  lemma GroupOfAncestor(plan: Plan, o: Outcomes, n: string, ancestors: seq<string>, a: string)
    requires forall b :: b in ancestors <==> Ancestor(plan, b, n)
    requires a in ancestors
    ensures Summary(plan, o, ancestors, KeyOf(plan, a)).anyOK <==> GroupSucceeds(plan, o, n, a)
  {
    var k := KeyOf(plan, a);
    SummaryMeans(plan, o, ancestors, k);
    assert forall b :: Listed(plan, ancestors, k, b) <==> Ancestor(plan, b, n) && SameGroup(plan, a, b);
  }

  lemma BlockedGroups(plan: Plan, o: Outcomes, n: string, ancestors: seq<string>, groups: map<GroupKey, Group>)
    requires forall b :: b in ancestors <==> Ancestor(plan, b, n)
    requires forall a :: a in ancestors ==> KeyOf(plan, a) in groups
    requires forall k :: k in groups ==> groups[k] == Summary(plan, o, ancestors, k)
    ensures UpstreamBlocks(plan, o, n) <==> exists k :: k in groups && !groups[k].anyOK && groups[k].blocking
    ensures UpstreamFailed(plan, o, n) <==>
      exists k :: k in groups && !groups[k].anyOK && groups[k].blocking && groups[k].anyFailed
  {
    forall a | a in ancestors
      ensures KeyOf(plan, a) in groups && (groups[KeyOf(plan, a)].anyOK <==> GroupSucceeds(plan, o, n, a))
    {
      GroupOfAncestor(plan, o, n, ancestors, a);
    }
    forall k | k in groups
      ensures groups[k].blocking <==> exists a :: Listed(plan, ancestors, k, a) && Blocks(o, a)
      ensures groups[k].anyFailed <==>
        exists a :: Listed(plan, ancestors, k, a) && Blocks(o, a) && o[a].status != NotRun
    {
      SummaryMeans(plan, o, ancestors, k);
    }
    if UpstreamBlocks(plan, o, n) {
      var a :| Ancestor(plan, a, n) && Blocks(o, a) && !GroupSucceeds(plan, o, n, a);
      assert Listed(plan, ancestors, KeyOf(plan, a), a);
    }
    if UpstreamFailed(plan, o, n) {
      var a :| Ancestor(plan, a, n) && Blocks(o, a) && !GroupSucceeds(plan, o, n, a) && o[a].status != NotRun;
      assert Listed(plan, ancestors, KeyOf(plan, a), a);
    }
  }

  /** Some listed task is terminal and none succeeded. */
  method NoneSucceeded(producers: seq<string>, o: Outcomes) returns (r: bool)
    ensures r <==> (exists d :: d in producers && d in o) && (forall d :: d in producers ==> !Succeeds(o, d))
  {
    var terminal, ok := false, false;
    for j := 0 to |producers|
      invariant terminal <==> exists i :: 0 <= i < j && producers[i] in o
      invariant ok <==> exists i :: 0 <= i < j && Succeeds(o, producers[i])
    {
      var d := producers[j];
      if d !in o {
        continue;
      }
      terminal := true;
      if o[d].status == Succeeded {
        ok := true;
      }
    }
    return terminal && !ok;
  }

  /** missingResultRefs: the first missing reference in sorted order, if any. */
  method MissingResultRefs(plan: Plan, n: string, o: Outcomes) returns (r: Option<string>)
    requires n in plan.refs
    ensures r.Some? <==> MissingRefs(plan, o, n)
    ensures r.Some? ==> r.value in plan.refs[n] && RefMissing(plan, o, r.value)
  {
    var names := SortedListing(plan.refs[n]);
    for i := 0 to |names|
      invariant forall j :: 0 <= j < i ==> !RefMissing(plan, o, names[j])
    {
      var ref := names[i];
      var missing := NoneSucceeded(Producers(plan, ref), o);
      assert ref in Elements(names);
      if missing {
        return Some(ref);
      }
    }
    assert forall ref :: ref in plan.refs[n] ==> ref in Elements(names);
    return None;
  }
}
