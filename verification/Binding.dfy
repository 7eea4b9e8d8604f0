/** Param binding and when-evaluation read only the results of tasks the scheduler waits for. */
module Binding {
  import opened Wrappers
  import opened Text
  import opened Resolver
  import opened Templates
  import opened Types
  import opened References

  type Results = map<string, map<string, string>>

  // ---------------------------------------------------------------- what runOne evaluates

  /** How strings and arguments are substituted. */
  datatype Evaluator = Evaluator(sub: string -> Result<string, string>, arg: string -> Result<seq<string>, string>)

  /** Strict substitution against a context. */
  function EvaluatorOf(ctx: Context): Evaluator {
    Evaluator(s => Substitute(s, ctx, Strict), ArgOf(ctx, Strict))
  }

  /** Substitution of every field of an object value; None on any error. */
  ghost function BindFields(fields: map<string, string>, ev: Evaluator): Option<map<string, string>> {
    if forall k :: k in fields ==> ev.sub(fields[k]).Ok? then Some(map k | k in fields :: ev.sub(fields[k]).value)
    else None
  }

  /** bindTaskParamValue; None is a substitution error. */
  ghost function BindValue(v: ParamValue, ev: Evaluator): Option<ParamValue> {
    match v
    case ArrayValue(items) =>
      (match Args(items, ev.arg) case Ok(out) => Some(ArrayValue(out)) case Err(_) => None)
    case ObjectValue(fields) =>
      (match BindFields(fields, ev) case Some(out) => Some(ObjectValue(out)) case None => None)
    case StringValue(s) =>
      if IsArrayStarRef(s) then
        (match Args([s], ev.arg) case Ok(out) => Some(ArrayValue(out)) case Err(_) => None)
      else
        (match ev.sub(s) case Ok(out) => Some(StringValue(out)) case Err(_) => None)
  }

  method BindTaskParamValue(v: ParamValue, ctx: Context) returns (r: Option<ParamValue>)
    ensures r == BindValue(v, EvaluatorOf(ctx))
  {
    match v
    case ArrayValue(items) =>
      var out := SubstituteArgs(items, ctx, Strict);
      r := match out case Ok(vs) => Some(ArrayValue(vs)) case Err(_) => None;
    case ObjectValue(fields) =>
      var out := BindEachField(fields, EvaluatorOf(ctx));
      r := match out case Some(m) => Some(ObjectValue(m)) case None => None;
    case StringValue(s) =>
      if IsArrayStarRef(s) {
        var out := SubstituteArgs([s], ctx, Strict);
        r := match out case Ok(vs) => Some(ArrayValue(vs)) case Err(_) => None;
      } else {
        r := match Substitute(s, ctx, Strict) case Ok(t) => Some(StringValue(t)) case Err(_) => None;
      }
  }

  method BindEachField(fields: map<string, string>, ev: Evaluator) returns (r: Option<map<string, string>>)
    ensures r == BindFields(fields, ev)
  {
    var out: map<string, string> := map[];
    var todo := fields.Keys;
    while todo != {}
      invariant todo <= fields.Keys && out.Keys == fields.Keys - todo
      invariant forall k :: k in out ==> ev.sub(fields[k]) == Ok(out[k])
      decreases todo
    {
      var k :| k in todo;
      var s := ev.sub(fields[k]);
      if s.Err? {
        return None;
      }
      out := out[k := s.value];
      todo := todo - {k};
    }
    assert out == map k | k in fields :: ev.sub(fields[k]).value;
    return Some(out);
  }

  /** One when expression; None is a substitution error. */
  function WhenHolds(w: WhenExpression, ev: Evaluator): Option<bool> {
    match (ev.sub(w.input), Args(w.values, ev.arg))
    case (Ok(input), Ok(values)) =>
      Some(match w.operator case In => input in values case NotIn => input !in values case OtherOperator => true)
    case _ => None
  }

  /** evaluateWhen: left to right, stopping at the first error or the first failing expression. */
  function EvaluateWhen(ws: seq<WhenExpression>, ev: Evaluator): Option<bool> {
    if ws == [] then Some(true)
    else if WhenHolds(ws[0], ev) == Some(true) then EvaluateWhen(ws[1..], ev)
    else WhenHolds(ws[0], ev)
  }

  /** The strings of a list one by one, no array spliced; None on any error. */
  function Each(ss: seq<string>, ev: Evaluator): Option<seq<string>> {
    if ss == [] then Some([])
    else
      match (Each(ss[..|ss| - 1], ev), ev.sub(ss[|ss| - 1]))
      case (Some(front), Ok(v)) => Some(front + [v])
      case _ => None
  }

  /** A resolver param with every string of it substituted; None is a substitution error. */
  ghost function ResolverValue(v: ParamValue, ev: Evaluator): Option<ParamValue> {
    match v
    case StringValue(s) => (match ev.sub(s) case Ok(t) => Some(StringValue(t)) case Err(_) => None)
    case ArrayValue(items) => (match Each(items, ev) case Some(out) => Some(ArrayValue(out)) case None => None)
    case ObjectValue(fields) =>
      (match BindFields(fields, ev) case Some(out) => Some(ObjectValue(out)) case None => None)
  }

  /** The params a resolver is asked with, before arrays and objects are written as strings. */
  ghost function ResolverInputs(ps: seq<Param>, ev: Evaluator): Option<map<string, ParamValue>> {
    if ps == [] then Some(map[])
    else
      var p := ps[|ps| - 1];
      match (ResolverInputs(ps[..|ps| - 1], ev), ResolverValue(p.value, ev))
      case (Some(front), Some(v)) => Some(front[p.name := v])
      case _ => None
  }

  method SubstituteEach(ss: seq<string>, ctx: Context) returns (r: Option<seq<string>>)
    ensures r == Each(ss, EvaluatorOf(ctx))
  {
    var out: seq<string> := [];
    for i := 0 to |ss|
      invariant Each(ss[..i], EvaluatorOf(ctx)) == Some(out)
    {
      assert ss[..i + 1][..i] == ss[..i];
      var s := Substitute(ss[i], ctx, Strict);
      if s.Err? {
        EachFails(ss, i + 1, EvaluatorOf(ctx));
        return None;
      }
      out := out + [s.value];
    }
    assert ss[..|ss|] == ss;
    return Some(out);
  }

  /** Each string becomes what it is substituted to, if all of them can be. */
  lemma {:induction false} EachMeans(ss: seq<string>, ev: Evaluator)
    ensures Each(ss, ev).Some? <==> forall i :: 0 <= i < |ss| ==> ev.sub(ss[i]).Ok?
    ensures Each(ss, ev).Some? ==>
      |Each(ss, ev).value| == |ss| && forall i :: 0 <= i < |ss| ==> ev.sub(ss[i]) == Ok(Each(ss, ev).value[i])
  {
    if ss != [] {
      EachMeans(ss[..|ss| - 1], ev);
    }
  }

  lemma {:induction false} EachFails(ss: seq<string>, i: nat, ev: Evaluator)
    requires i <= |ss| && Each(ss[..i], ev).None?
    ensures Each(ss, ev).None?
    decreases |ss| - i
  {
    if i == |ss| {
      assert ss[..i] == ss;
    } else {
      assert ss[..i + 1][..i] == ss[..i];
      EachFails(ss, i + 1, ev);
    }
  }

  method SubstituteResolverValue(v: ParamValue, ctx: Context) returns (r: Option<ParamValue>)
    ensures r == ResolverValue(v, EvaluatorOf(ctx))
  {
    match v
    case StringValue(s) =>
      r := match Substitute(s, ctx, Strict) case Ok(t) => Some(StringValue(t)) case Err(_) => None;
    case ArrayValue(items) =>
      var out := SubstituteEach(items, ctx);
      r := match out case Some(vs) => Some(ArrayValue(vs)) case None => None;
    case ObjectValue(fields) =>
      var out := BindEachField(fields, EvaluatorOf(ctx));
      r := match out case Some(m) => Some(ObjectValue(m)) case None => None;
  }

  /** The first half of lookupTaskSpecLazy: resolver params are substituted where the task is dispatched. */
  method SubstituteResolverParams(ps: seq<Param>, ctx: Context) returns (r: Option<map<string, ParamValue>>)
    ensures r == ResolverInputs(ps, EvaluatorOf(ctx))
  {
    var out: map<string, ParamValue> := map[];
    for i := 0 to |ps|
      invariant ResolverInputs(ps[..i], EvaluatorOf(ctx)) == Some(out)
    {
      assert ps[..i + 1][..i] == ps[..i];
      var v := SubstituteResolverValue(ps[i].value, ctx);
      if v.None? {
        InputsFail(ps, i + 1, EvaluatorOf(ctx));
        return None;
      }
      out := out[ps[i].name := v.value];
    }
    assert ps[..|ps|] == ps;
    return Some(out);
  }

  lemma {:induction false} InputsFail(ps: seq<Param>, i: nat, ev: Evaluator)
    requires i <= |ps| && ResolverInputs(ps[..i], ev).None?
    ensures ResolverInputs(ps, ev).None?
    decreases |ps| - i
  {
    if i == |ps| {
      assert ps[..i] == ps;
    } else {
      assert ps[..i + 1][..i] == ps[..i];
      InputsFail(ps, i + 1, ev);
    }
  }

  /** The list an expression's values come to, whole arrays spliced. */
  function ValuesOf(w: WhenExpression, ctx: Context): Result<seq<string>, string> {
    Args(w.values, ArgOf(ctx, Strict))
  }

  /** The input and the values of the expression resolve. */
  predicate Resolves(w: WhenExpression, ctx: Context) {
    Substitute(w.input, ctx, Strict).Ok? && ValuesOf(w, ctx).Ok?
  }

  /** ... and the input is among the values where it has to be, and not where it must not be. */
  predicate Satisfied(w: WhenExpression, ctx: Context) {
    && Resolves(w, ctx)
    && (w.operator.In? ==> Substitute(w.input, ctx, Strict).value in ValuesOf(w, ctx).value)
    && (w.operator.NotIn? ==> Substitute(w.input, ctx, Strict).value !in ValuesOf(w, ctx).value)
  }

  /** The i-th expression is the first that is not satisfied. */
  ghost predicate FirstUnsatisfied(ws: seq<WhenExpression>, ctx: Context, i: nat) {
    i < |ws| && !Satisfied(ws[i], ctx) && forall j :: 0 <= j < i ==> Satisfied(ws[j], ctx)
  }

  /** What the loop over the expressions decides. */
  ghost predicate DecidesWhen(ws: seq<WhenExpression>, ctx: Context, r: Option<bool>) {
    && (r == Some(true) <==> forall i :: 0 <= i < |ws| ==> Satisfied(ws[i], ctx))
    && (r == Some(false) <==> exists i: nat :: FirstUnsatisfied(ws, ctx, i) && Resolves(ws[i], ctx))
    && (r == None <==> exists i: nat :: FirstUnsatisfied(ws, ctx, i) && !Resolves(ws[i], ctx))
  }

  lemma DecidedAt(ws: seq<WhenExpression>, ctx: Context, i: nat)
    requires FirstUnsatisfied(ws, ctx, i)
    ensures DecidesWhen(ws, ctx, if Resolves(ws[i], ctx) then Some(false) else None)
  {
    OneFirst(ws, ctx, i);
  }

  lemma OneFirst(ws: seq<WhenExpression>, ctx: Context, i: nat)
    requires FirstUnsatisfied(ws, ctx, i)
    ensures forall k: nat :: FirstUnsatisfied(ws, ctx, k) ==> k == i
  {
  }

  /** evaluateWhen as the loop over the expressions. */
  method RunWhen(ws: seq<WhenExpression>, ctx: Context) returns (r: Option<bool>)
    ensures r == EvaluateWhen(ws, EvaluatorOf(ctx)) && DecidesWhen(ws, ctx, r)
  {
    ghost var ev := EvaluatorOf(ctx);
    for i := 0 to |ws|
      invariant EvaluateWhen(ws, ev) == EvaluateWhen(ws[i..], ev)
      invariant forall j :: 0 <= j < i ==> Satisfied(ws[j], ctx)
    {
      assert ws[i..][1..] == ws[i + 1..];
      var input := Substitute(ws[i].input, ctx, Strict);
      if input.Err? {
        DecidedAt(ws, ctx, i);
        return None;
      }
      var values := SubstituteArgs(ws[i].values, ctx, Strict);
      if values.Err? {
        DecidedAt(ws, ctx, i);
        return None;
      }
      var match_ := input.value in values.value;
      if (ws[i].operator.In? && !match_) || (ws[i].operator.NotIn? && match_) {
        DecidedAt(ws, ctx, i);
        return Some(false);
      }
    }
    return Some(true);
  }

  // ---------------------------------------------------------------- what that depends on

  /** Two result maps agree on the given tasks. */
  ghost predicate SameOn(names: set<string>, a: Results, b: Results) {
    forall t :: t in names ==> (t in a <==> t in b) && (t in a && t in b ==> a[t] == b[t])
  }

  lemma {:induction false} ExpandSame(x: string, f: Resolve, g: Resolve)
    requires AllRefs(x, key => f(key) == g(key))
    ensures Expand(x, f) == Expand(x, g)
    decreases |x|
  {
    if x != [] {
      var n := RefLength(x);
      if n > 0 {
        ExpandSame(x[n..], f, g);
      } else {
        ExpandSame(x[1..], f, g);
      }
    }
  }

  lemma {:induction false} RefsBoth(x: string, p: string -> bool, q: string -> bool, r: string -> bool)
    requires AllRefs(x, p) && AllRefs(x, q) && forall key :: p(key) && q(key) ==> r(key)
    ensures AllRefs(x, r)
    decreases |x|
  {
    if x != [] {
      var n := RefLength(x);
      if n > 0 {
        RefsBoth(x[n..], p, q, r);
      } else {
        RefsBoth(x[1..], p, q, r);
      }
    }
  }

  /** A lookup reads no results but those of the task ReadOf names. */
  lemma LookupReads(scope: Scope, ctx: Context, results: Results)
    requires ReadOf(scope).Some? ==> SameOn({ReadOf(scope).value.0}, ctx.results, results)
    ensures LookupIn(scope, ctx) == LookupIn(scope, ctx.(results := results))
  {
    var ctx' := ctx.(results := results);
    match scope
    case Params(rest) => SameParamLookup(rest, ctx, ctx');
    case Tasks(rest) => TasksRead(rest, ctx, ctx');
    case Workspaces(rest) => SameWorkspaceLookup(rest, ctx, ctx');
    case Steps(key) => SameStepsLookup(key, ctx, ctx');
    case _ =>
  }

  lemma SameParamLookup(rest: string, a: Context, b: Context)
    requires b == a.(results := b.results)
    ensures LookupParam(rest, a) == LookupParam(rest, b)
  {
  }

  lemma SameWorkspaceLookup(rest: string, a: Context, b: Context)
    requires b == a.(results := b.results)
    ensures LookupWorkspace(rest, a) == LookupWorkspace(rest, b)
  {
  }

  lemma SameStepsLookup(key: string, a: Context, b: Context)
    requires b == a.(results := b.results)
    ensures LookupSteps(key, a) == LookupSteps(key, b)
  {
  }

  lemma TasksRead(rest: string, a: Context, b: Context)
    requires b == a.(results := b.results)
    requires ReadOf(Tasks(rest)).Some? ==> SameOn({ReadOf(Tasks(rest)).value.0}, a.results, b.results)
    ensures LookupTasks(rest, a) == LookupTasks(rest, b)
  {
    var parts := SplitDots(rest, 3);
    if rest != "status" && NamesResult(parts) {
      assert parts[0] in {parts[0]};
    }
    if rest != "status" {
      TaskPartsRead(parts, a, b);
    }
  }

  lemma TaskPartsRead(parts: seq<string>, a: Context, b: Context)
    requires b == a.(results := b.results)
    requires NamesResult(parts) ==> (parts[0] in a.results <==> parts[0] in b.results)
    requires NamesResult(parts) && parts[0] in a.results ==> a.results[parts[0]] == b.results[parts[0]]
    ensures LookupTaskParts(parts, a) == LookupTaskParts(parts, b)
  {
    if NamesResult(parts) {
      TaskResultRead(parts[0], parts[2], a, b);
    }
  }

  lemma TaskResultRead(task: string, sel: string, a: Context, b: Context)
    requires a.json == b.json && (task in a.results <==> task in b.results)
    requires task in a.results ==> a.results[task] == b.results[task]
    ensures LookupTaskResult(task, sel, a) == LookupTaskResult(task, sel, b)
  {
  }

  /** The reference reads no results, or those of one of the tasks. */
  predicate ReadWithin(scope: Scope, names: set<string>) {
    ReadOf(scope).Some? ==> ReadOf(scope).value.0 in names
  }

  function ReadsIn(names: set<string>): string -> bool {
    key => ReadWithin(ScopeOf(key), names)
  }

  /** Every reference of the text reads no results but those of the tasks. */
  ghost predicate TextWithin(s: string, names: set<string>) {
    AllRefs(Escape(s), ReadsIn(names))
  }

  lemma SubstituteReadsWithin(s: string, names: set<string>, ctx: Context, results: Results)
    requires TextWithin(s, names) && SameOn(names, ctx.results, results)
    ensures Substitute(s, ctx, Strict) == Substitute(s, ctx.(results := results), Strict)
  {
    var f, g := Refs(ctx, Strict), Refs(ctx.(results := results), Strict);
    forall key | ReadsIn(names)(key) ensures f(key) == g(key) {
      ScopeReads(key, ScopeOf(key), names, ctx, results);
    }
    RefsWeaken(Escape(s), ReadsIn(names), key => f(key) == g(key));
    ExpandSame(Escape(s), f, g);
  }

  lemma ScopeReads(key: string, scope: Scope, names: set<string>, ctx: Context, results: Results)
    requires ReadWithin(scope, names) && SameOn(names, ctx.results, results)
    ensures ResolveIn(key, scope, ctx, Strict) == ResolveIn(key, scope, ctx.(results := results), Strict)
  {
    LookupReads(scope, ctx, results);
  }

  /** A well-shaped text reads only tasks the scan finds in it. */
  lemma WellShapedIsWithin(s: string)
    requires WellShaped(s)
    ensures TextWithin(s, ResultRefs(s))
  {
    RefsAreScanned(s);
    RefsBoth(Escape(s), key => AcceptedShape(ScopeOf(key)), ScannedBy(ResultRefs(s)), ReadsIn(ResultRefs(s)));
  }

  /** Substituting a well-shaped string reads only the results of the tasks the scan finds in it. */
  lemma SubstituteReads(s: string, ctx: Context, results: Results)
    requires WellShaped(s) && SameOn(ResultRefs(s), ctx.results, results)
    ensures Substitute(s, ctx, Strict) == Substitute(s, ctx.(results := results), Strict)
  {
    WellShapedIsWithin(s);
    SubstituteReadsWithin(s, ResultRefs(s), ctx, results);
  }

  // ---------------------------------------------------------------- whole-array references

  /** The task and result a whole-array reference reads, if any. */
  function StarRead(a: string): Option<(string, string)>
    requires IsArrayStarRef(a)
  {
    var inner := a[2..|a| - 4];
    if !HasPrefix(inner, "tasks.") then None
    else
      var rest := After(inner, "tasks.");
      var dot := Index(rest, ".results.");
      if dot < 0 then None else Some((rest[..dot], rest[dot + 9..]))
  }

  /** A whole-array reference written with an accepted task and result name. */
  predicate StarShape(a: string)
    requires IsArrayStarRef(a)
  {
    match StarRead(a)
    case Some((t, n)) => NameShape(t) && |n| > 0 && forall i :: 0 <= i < |n| ==> SelectorChar(n[i])
    case None => true
  }

  /** Every result the string or argument reads is written in an accepted way. */
  ghost predicate Accepted(s: string) {
    WellShaped(s) && (IsArrayStarRef(s) ==> StarShape(s))
  }

  lemma StarSelector(n: string)
    requires |n| > 0 && forall i :: 0 <= i < |n| ==> SelectorChar(n[i])
    ensures SelectorShape(n + "[*]")
  {
    var sel := n + "[*]";
    assert sel[|n|] == '[' && sel[|n| + 1] == '*' && sel[|n| + 2] == ']';
    RunIs(sel, 0, |n|, SelectorChar);
  }

  lemma StarIsScanned(a: string)
    requires IsArrayStarRef(a) && StarShape(a) && StarRead(a).Some?
    ensures StarRead(a).value.0 in ResultRefs(a)
  {
    var (t, n) := StarRead(a).value;
    StarText(a, t, n);
    StarSelector(n);
    Regroup2(TASKS, t, RESULTS, n, "[*]", ")");
    TaskRefIsFound(a, t, n + "[*]");
  }

  lemma Regroup2(a: string, b: string, c: string, d: string, e: string, f: string)
    ensures a + b + c + d + (e + f) == a + b + c + (d + e) + f
  {
  }

  lemma StarText(a: string, t: string, n: string)
    requires IsArrayStarRef(a) && StarRead(a) == Some((t, n))
    ensures a == TASKS + t + RESULTS + n + ("[*]" + ")")
  {
    var inner := a[2..|a| - 4];
    var rest := inner[6..];
    StarRest(rest, t, n);
    StarFrame(a, inner);
    StarJoin(a, inner, rest, t, n);
  }

  lemma StarJoin(a: string, inner: string, rest: string, t: string, n: string)
    requires a == "$(" + inner + ("[*]" + ")") && HasPrefix(inner, "tasks.") && rest == inner[6..]
      && rest == t + RESULTS + n
    ensures a == TASKS + t + RESULTS + n + ("[*]" + ")")
  {
    assert inner == "tasks." + rest;
    assert TASKS == "$(" + "tasks.";
    Regroup3("$(", "tasks.", t, RESULTS, n, "[*]" + ")");
  }

  lemma StarRest(rest: string, t: string, n: string)
    requires var dot := Index(rest, ".results."); dot >= 0 && t == rest[..dot] && n == rest[dot + 9..]
    ensures rest == t + RESULTS + n
  {
    var dot := Index(rest, ".results.");
    SplitAt(rest, dot, RESULTS);
  }

  lemma SplitAt(s: string, i: nat, mid: string)
    requires i <= |s| && HasPrefix(s[i..], mid)
    ensures i + |mid| <= |s| && s == s[..i] + mid + s[i + |mid|..]
  {
    assert s[i..][..|mid|] == s[i..i + |mid|];
  }

  lemma StarFrame(a: string, inner: string)
    requires IsArrayStarRef(a) && inner == a[2..|a| - 4]
    ensures a == "$(" + inner + ("[*]" + ")")
  {
    assert a[..2] == "$(";
    assert a[|a| - 4..] == "[*]" + ")";
    assert a == a[..2] + inner + a[|a| - 4..];
  }

  lemma Regroup3(a: string, b: string, t: string, r: string, n: string, z: string)
    ensures a + (b + (t + r + n)) + z == (a + b) + t + r + n + z
  {
  }

  lemma ArgReads(a: string, ctx: Context, results: Results)
    requires Accepted(a) && SameOn(ResultRefs(a), ctx.results, results)
    ensures Arg(a, ctx, Strict) == Arg(a, ctx.(results := results), Strict)
  {
    if IsArrayStarRef(a) {
      StarReads(a, ctx, results);
    } else {
      SubstituteReads(a, ctx, results);
    }
  }

  lemma StarReads(a: string, ctx: Context, results: Results)
    requires IsArrayStarRef(a) && StarShape(a) && SameOn(ResultRefs(a), ctx.results, results)
    ensures ExpandArrayStar(a, ctx) == ExpandArrayStar(a, ctx.(results := results))
  {
    if StarRead(a).Some? {
      StarIsScanned(a);
      StarReadsOne(a, StarRead(a).value.0, ctx, results);
    } else {
      StarReadsOne(a, "", ctx, results);
    }
  }

  lemma StarReadsOne(a: string, t: string, ctx: Context, results: Results)
    requires IsArrayStarRef(a) && (StarRead(a).Some? ==> t == StarRead(a).value.0 && SameOn({t}, ctx.results, results))
    ensures ExpandArrayStar(a, ctx) == ExpandArrayStar(a, ctx.(results := results))
  {
  }

  // ---------------------------------------------------------------- the task's inputs

  /** s is one of the strings of a param value. */
  predicate InValue(s: string, v: ParamValue) {
    match v
    case StringValue(t) => s == t
    case ArrayValue(items) => s in items
    case ObjectValue(fields) => s in fields.Values
  }

  predicate InWhen(s: string, w: WhenExpression) {
    s == w.input || s in w.values
  }

  /** The resolver params of the task, none without a resolver. */
  function ResolverParamsOf(pt: PipelineTask): seq<Param> {
    if pt.resolverParams.Some? then pt.resolverParams.value else []
  }

  /** s is evaluated when the task's params are bound, its when expressions checked or its resolver asked. */
  ghost predicate Evaluated(s: string, pt: PipelineTask) {
    (exists i :: 0 <= i < |pt.params| && InValue(s, pt.params[i].value)) ||
    (exists i :: 0 <= i < |pt.when| && InWhen(s, pt.when[i])) ||
    (exists i :: 0 <= i < |ResolverParamsOf(pt)| && InValue(s, ResolverParamsOf(pt)[i].value))
  }

  lemma {:induction false} ItemIsIncluded(ss: seq<string>, i: nat)
    requires i < |ss|
    ensures ResultRefs(ss[i]) <= AllResultRefs(ss)
  {
    if i < |ss| - 1 {
      ItemIsIncluded(ss[..|ss| - 1], i);
    }
  }

  lemma {:induction false} ParamIsIncluded(ps: seq<Param>, i: nat)
    requires i < |ps|
    ensures ValueRefs(ps[i].value) <= ParamRefs(ps)
  {
    if i < |ps| - 1 {
      ParamIsIncluded(ps[..|ps| - 1], i);
    }
  }

  lemma {:induction false} WhenIsIncluded(ws: seq<WhenExpression>, i: nat)
    requires i < |ws|
    ensures ResultRefs(ws[i].input) + AllResultRefs(ws[i].values) <= WhenRefs(ws)
  {
    if i < |ws| - 1 {
      WhenIsIncluded(ws[..|ws| - 1], i);
    }
  }

  lemma ValueIsIncluded(s: string, v: ParamValue)
    requires InValue(s, v)
    ensures ResultRefs(s) <= ValueRefs(v)
  {
    match v
    case StringValue(_) =>
    case ArrayValue(items) =>
      var i :| 0 <= i < |items| && items[i] == s;
      ItemIsIncluded(items, i);
    case ObjectValue(fields) =>
      var k :| k in fields && fields[k] == s;
      FieldRefsAdd(fields, fields.Keys, k);
      assert fields.Keys + {k} == fields.Keys;
  }

  /** The scan covers every string the task evaluates. */
  lemma EvaluatedIsScanned(s: string, pt: PipelineTask)
    requires Evaluated(s, pt)
    ensures ResultRefs(s) <= ImplicitRefs(pt)
  {
    if i :| 0 <= i < |pt.params| && InValue(s, pt.params[i].value) {
      ValueIsIncluded(s, pt.params[i].value);
      ParamIsIncluded(pt.params, i);
    } else if i :| 0 <= i < |ResolverParamsOf(pt)| && InValue(s, ResolverParamsOf(pt)[i].value) {
      ValueIsIncluded(s, ResolverParamsOf(pt)[i].value);
      ParamIsIncluded(ResolverParamsOf(pt), i);
    } else {
      var i :| 0 <= i < |pt.when| && InWhen(s, pt.when[i]);
      WhenIsIncluded(pt.when, i);
      if s != pt.when[i].input {
        var j :| 0 <= j < |pt.when[i].values| && pt.when[i].values[j] == s;
        ItemIsIncluded(pt.when[i].values, j);
      }
    }
  }

  lemma {:induction false} SomeItemRefers(ss: seq<string>, t: string)
    requires t in AllResultRefs(ss)
    ensures exists s :: s in ss && t in ResultRefs(s)
  {
    var init, last := ss[..|ss| - 1], ss[|ss| - 1];
    if t in ResultRefs(last) {
      assert last in ss;
    } else {
      SomeItemRefers(init, t);
      var s :| s in init && t in ResultRefs(s);
      assert s in ss;
    }
  }

  lemma SomeStringRefers(v: ParamValue, t: string)
    requires t in ValueRefs(v)
    ensures exists s :: InValue(s, v) && t in ResultRefs(s)
  {
    match v
    case StringValue(s) =>
      assert InValue(s, v);
    case ArrayValue(items) =>
      SomeItemRefers(items, t);
      var s :| s in items && t in ResultRefs(s);
      assert InValue(s, v);
    case ObjectValue(fields) =>
      var k :| k in fields.Keys && t in ResultRefs(fields[k]);
      assert InValue(fields[k], v);
  }

  lemma {:induction false} SomeValueRefers(ps: seq<Param>, t: string)
    requires t in ParamRefs(ps)
    ensures exists i, s :: 0 <= i < |ps| && InValue(s, ps[i].value) && t in ResultRefs(s)
  {
    var init, last := ps[..|ps| - 1], |ps| - 1;
    if t in ValueRefs(ps[last].value) {
      SomeStringRefers(ps[last].value, t);
      var s :| InValue(s, ps[last].value) && t in ResultRefs(s);
    } else {
      SomeValueRefers(init, t);
      var i, s :| 0 <= i < |init| && InValue(s, init[i].value) && t in ResultRefs(s);
      assert InValue(s, ps[i].value);
    }
  }

  lemma {:induction false} SomeWhenRefers(ws: seq<WhenExpression>, t: string)
    requires t in WhenRefs(ws)
    ensures exists i, s :: 0 <= i < |ws| && InWhen(s, ws[i]) && t in ResultRefs(s)
  {
    var init, w := ws[..|ws| - 1], ws[|ws| - 1];
    if t in ResultRefs(w.input) {
      assert InWhen(w.input, ws[|ws| - 1]);
    } else if t in AllResultRefs(w.values) {
      SomeItemRefers(w.values, t);
      var s :| s in w.values && t in ResultRefs(s);
      assert InWhen(s, ws[|ws| - 1]);
    } else {
      SomeWhenRefers(init, t);
      var i, s :| 0 <= i < |init| && InWhen(s, init[i]) && t in ResultRefs(s);
      assert InWhen(s, ws[i]);
    }
  }

  /** The scan finds exactly the tasks found in the strings the task evaluates. */
  lemma ScannedWhen(t: string, pt: PipelineTask)
    ensures t in ImplicitRefs(pt) <==> exists s :: Evaluated(s, pt) && t in ResultRefs(s)
  {
    if s :| Evaluated(s, pt) && t in ResultRefs(s) {
      EvaluatedIsScanned(s, pt);
    }
    if t in ParamRefs(pt.params) {
      SomeValueRefers(pt.params, t);
      var i, s :| 0 <= i < |pt.params| && InValue(s, pt.params[i].value) && t in ResultRefs(s);
      assert Evaluated(s, pt);
    } else if t in WhenRefs(pt.when) {
      SomeWhenRefers(pt.when, t);
      var i, s :| 0 <= i < |pt.when| && InWhen(s, pt.when[i]) && t in ResultRefs(s);
      assert Evaluated(s, pt);
    } else if t in ImplicitRefs(pt) {
      var ps := ResolverParamsOf(pt);
      SomeValueRefers(ps, t);
      var i, s :| 0 <= i < |ps| && InValue(s, ps[i].value) && t in ResultRefs(s);
      assert Evaluated(s, pt);
    }
  }

  /** Two evaluators that agree on the strings of a task give it the same inputs. */
  ghost predicate Agree(s: string, a: Evaluator, b: Evaluator) {
    a.sub(s) == b.sub(s) && a.arg(s) == b.arg(s)
  }

  lemma {:induction false} ArgsAgree(args: seq<string>, a: Evaluator, b: Evaluator)
    requires forall s :: s in args ==> Agree(s, a, b)
    ensures Args(args, a.arg) == Args(args, b.arg)
  {
    if args != [] {
      ArgsAgree(args[..|args| - 1], a, b);
      assert Agree(args[|args| - 1], a, b);
    }
  }

  lemma ValuesAgree(v: ParamValue, a: Evaluator, b: Evaluator)
    requires forall s :: InValue(s, v) ==> Agree(s, a, b)
    ensures BindValue(v, a) == BindValue(v, b)
  {
    match v
    case StringValue(s) =>
      assert InValue(s, v);
      ArgsAgree([s], a, b);
    case ArrayValue(items) =>
      assert forall s :: s in items ==> InValue(s, v);
      ArgsAgree(items, a, b);
    case ObjectValue(fields) =>
      forall k | k in fields ensures a.sub(fields[k]) == b.sub(fields[k]) {
        assert InValue(fields[k], v);
      }
      FieldsAgree(fields, a, b);
  }

  lemma FieldsAgree(fields: map<string, string>, a: Evaluator, b: Evaluator)
    requires forall k :: k in fields ==> a.sub(fields[k]) == b.sub(fields[k])
    ensures BindFields(fields, a) == BindFields(fields, b)
  {
    if forall k :: k in fields ==> a.sub(fields[k]).Ok? {
      assert (map k | k in fields :: a.sub(fields[k]).value) == map k | k in fields :: b.sub(fields[k]).value;
    }
  }

  lemma {:induction false} WhenAgrees(ws: seq<WhenExpression>, a: Evaluator, b: Evaluator)
    requires forall i, s :: 0 <= i < |ws| && InWhen(s, ws[i]) ==> Agree(s, a, b)
    ensures EvaluateWhen(ws, a) == EvaluateWhen(ws, b)
  {
    if ws != [] {
      assert InWhen(ws[0].input, ws[0]);
      assert forall s :: s in ws[0].values ==> InWhen(s, ws[0]);
      ArgsAgree(ws[0].values, a, b);
      assert Agree(ws[0].input, a, b) && WhenHolds(ws[0], a) == WhenHolds(ws[0], b);
      assert forall i :: 0 <= i < |ws| - 1 ==> ws[1..][i] == ws[i + 1];
      WhenAgrees(ws[1..], a, b);
    }
  }

  lemma StringAgrees(s: string, ctx: Context, results: Results)
    requires Accepted(s) && SameOn(ResultRefs(s), ctx.results, results)
    ensures Agree(s, EvaluatorOf(ctx), EvaluatorOf(ctx.(results := results)))
  {
    SubstituteReads(s, ctx, results);
    ArgReads(s, ctx, results);
  }

  lemma {:induction false} EachAgrees(ss: seq<string>, a: Evaluator, b: Evaluator)
    requires forall s :: s in ss ==> Agree(s, a, b)
    ensures Each(ss, a) == Each(ss, b)
  {
    if ss != [] {
      EachAgrees(ss[..|ss| - 1], a, b);
      assert Agree(ss[|ss| - 1], a, b);
    }
  }

  lemma ResolverValuesAgree(v: ParamValue, a: Evaluator, b: Evaluator)
    requires forall s :: InValue(s, v) ==> Agree(s, a, b)
    ensures ResolverValue(v, a) == ResolverValue(v, b)
  {
    match v
    case StringValue(s) =>
      assert InValue(s, v);
    case ArrayValue(items) =>
      assert forall s :: s in items ==> InValue(s, v);
      EachAgrees(items, a, b);
    case ObjectValue(fields) =>
      forall k | k in fields ensures a.sub(fields[k]) == b.sub(fields[k]) {
        assert InValue(fields[k], v);
      }
      FieldsAgree(fields, a, b);
  }

  lemma {:induction false} ResolverInputsAgree(ps: seq<Param>, a: Evaluator, b: Evaluator)
    requires forall i, s :: 0 <= i < |ps| && InValue(s, ps[i].value) ==> Agree(s, a, b)
    ensures ResolverInputs(ps, a) == ResolverInputs(ps, b)
  {
    if ps != [] {
      ResolverInputsAgree(ps[..|ps| - 1], a, b);
      ResolverValuesAgree(ps[|ps| - 1].value, a, b);
    }
  }

  /** The evaluators give the task the same params, the same decision and the same resolver params. */
  ghost predicate SameInputs(pt: PipelineTask, a: Evaluator, b: Evaluator) {
    && (forall i :: 0 <= i < |pt.params| ==> BindValue(pt.params[i].value, a) == BindValue(pt.params[i].value, b))
    && EvaluateWhen(pt.when, a) == EvaluateWhen(pt.when, b)
    && ResolverInputs(ResolverParamsOf(pt), a) == ResolverInputs(ResolverParamsOf(pt), b)
  }

  /** Scheduler and resolver agree: binding a task's params, evaluating its when expressions and
      substituting its resolver params read no results other than those of the tasks implicitParamEdges
      returns. */
  lemma InputsReadOnlyScannedTasks(pt: PipelineTask, ctx: Context, results: Results)
    requires forall s :: Evaluated(s, pt) ==> Accepted(s)
    requires SameOn(ImplicitRefs(pt), ctx.results, results)
    ensures SameInputs(pt, EvaluatorOf(ctx), EvaluatorOf(ctx.(results := results)))
  {
    var a, b := EvaluatorOf(ctx), EvaluatorOf(ctx.(results := results));
    forall s | Evaluated(s, pt) ensures Agree(s, a, b) {
      EvaluatedIsScanned(s, pt);
      StringAgrees(s, ctx, results);
    }
    InputsAgree(pt, a, b);
  }

  lemma InputsAgree(pt: PipelineTask, a: Evaluator, b: Evaluator)
    requires forall s :: Evaluated(s, pt) ==> Agree(s, a, b)
    ensures SameInputs(pt, a, b)
  {
    forall i | 0 <= i < |pt.params| ensures BindValue(pt.params[i].value, a) == BindValue(pt.params[i].value, b) {
      forall s | InValue(s, pt.params[i].value) ensures Agree(s, a, b) { assert Evaluated(s, pt); }
      ValuesAgree(pt.params[i].value, a, b);
    }
    forall i, s | 0 <= i < |pt.when| && InWhen(s, pt.when[i]) ensures Agree(s, a, b) { assert Evaluated(s, pt); }
    WhenAgrees(pt.when, a, b);
    var ps := ResolverParamsOf(pt);
    forall i, s | 0 <= i < |ps| && InValue(s, ps[i].value) ensures Agree(s, a, b) { assert Evaluated(s, pt); }
    ResolverInputsAgree(ps, a, b);
  }
}
