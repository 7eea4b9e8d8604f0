/** What each reference a user may write stands for. */
module Meanings {
  import opened Wrappers
  import opened Text
  import opened Resolver
  import opened Templates
  import opened SubstitutionLaws

  predicate LetterOrDigit(c: char) {
    'a' <= c <= 'z' || 'A' <= c <= 'Z' || '0' <= c <= '9'
  }

  /** What a reference may be written with. */
  predicate KeyChar(c: char) {
    LetterOrDigit(c) || c in {'_', '.', '-', '[', ']', '*'}
  }

  /** Names that may stand inside a reference. */
  predicate KeyChars(s: string) {
    forall i :: 0 <= i < |s| ==> KeyChar(s[i])
  }

  lemma NamespaceIs(ns: string, rest: string)
    requires '.' !in ns && '[' !in ns
    ensures NamespaceOf(ns + "." + rest) == ns
  {
    var key := ns + "." + rest;
    DotAfter(ns, rest);
    var bracket := Index(key, "[");
    if bracket >= 0 {
      assert key[bracket..][0] == '[' && key[bracket] == '[';
      assert forall i :: 0 <= i < |ns| ==> key[i] == ns[i];
      assert key[|ns|] == '.';
    }
    assert key[..|ns|] == ns;
  }

  // ---------------------------------------------------------------- one reference on its own

  lemma TokenIs(key: string, ctx: Context, mode: Mode)
    requires IsKey(key)
    ensures Expand(Escape(Token(key)), Refs(ctx, mode)) == ResolveIn(key, ScopeOf(key), ctx, mode)
  {
    ExpandToken(key, Refs(ctx, mode), k => true);
    CleanEscape(Token(key));
  }

  /** The reference stands for what is found, and fails where nothing is. */
  ghost predicate Stands(key: string, l: Lookup, ctx: Context, mode: Mode) {
    && (l.Found? ==> Substitute(Token(key), ctx, mode) == Ok(Unescape(l.v)))
    && (l.Unknown? || l.Deferred? ==> Substitute(Token(key), ctx, Strict).Err?)
  }

  lemma KeyStands(key: string, scope: Scope, ctx: Context, mode: Mode)
    requires IsKey(key) && ScopeOf(key) == scope
    ensures Stands(key, LookupIn(scope, ctx), ctx, mode)
  {
    TokenIs(key, ctx, mode);
    TokenIs(key, ctx, Strict);
  }

  /** A name put behind a key's beginning. */
  lemma Longer(front: string, rest: string)
    requires IsKey(front)
    ensures KeyChars(rest) ==> IsKey(front + rest)
  {
  }

  lemma Joined(a: string, b: string)
    requires KeyChars(a) && KeyChars(b)
    ensures KeyChars(a + b)
  {
  }

  lemma NoDot(s: string, n: nat)
    requires '.' !in s && n > 0
    ensures Index(s, ".") < 0 && SplitDots(s, n) == [s]
  {
    forall k | 0 <= k <= |s| ensures !HasPrefix(s[k..], ".") {
      assert k < |s| ==> s[k..][0] == s[k];
    }
  }

  // ---------------------------------------------------------------- where a key is looked up

  lemma FirstDiffers(key: string)
    requires key != ""
    ensures HasPrefix(key, "params.") ==> key[0] == 'p'
    ensures HasPrefix(key, "tasks.") ==> key[0] == 't'
    ensures HasPrefix(key, "context.") ==> key[0] == 'c'
    ensures HasPrefix(key, "results.") ==> key[0] == 'r'
    ensures HasPrefix(key, "workspaces.") ==> key[0] == 'w'
    ensures HasPrefix(key, "step.results.") ==> key[0] == 's' && |key| > 4 && key[4] == '.'
    ensures HasPrefix(key, "steps.") ==> key[0] == 's' && |key| > 4 && key[4] == 's'
  {
  }

  lemma Namespaced(ns: string, front: string, rest: string)
    requires '.' !in ns && '[' !in ns && HasPrefix(front, ns + ".")
    ensures NamespaceOf(front + rest) == ns && HasPrefix(front + rest, front) && After(front + rest, front) == rest
    ensures front != "" && forall i :: 0 <= i < |front| ==> (front + rest)[i] == front[i]
  {
    var back := front[|ns| + 1..];
    assert front == ns + "." + back;
    assert front + rest == ns + "." + (back + rest);
    NamespaceIs(ns, back + rest);
  }

  lemma ParamsKey(rest: string)
    ensures ScopeOf("params." + rest) == Params(rest)
    ensures KeyChars(rest) ==> IsKey("params." + rest)
  {
    Namespaced("params", "params.", rest);
    FirstDiffers("params." + rest);
    Longer("params.", rest);
  }

  lemma TasksKeyIs(rest: string)
    ensures ScopeOf("tasks." + rest) == Tasks(rest)
    ensures KeyChars(rest) ==> IsKey("tasks." + rest)
  {
    Namespaced("tasks", "tasks.", rest);
    FirstDiffers("tasks." + rest);
    Longer("tasks.", rest);
  }

  lemma ContextKey(rest: string)
    ensures ScopeOf("context." + rest) == ContextVar(rest)
    ensures KeyChars(rest) ==> IsKey("context." + rest)
  {
    Namespaced("context", "context.", rest);
    FirstDiffers("context." + rest);
    Longer("context.", rest);
  }

  lemma ResultsKey(rest: string)
    ensures ScopeOf("results." + rest) == TaskResultPath(rest)
    ensures KeyChars(rest) ==> IsKey("results." + rest)
  {
    Namespaced("results", "results.", rest);
    FirstDiffers("results." + rest);
    Longer("results.", rest);
  }

  lemma WorkspacesKey(rest: string)
    ensures ScopeOf("workspaces." + rest) == Workspaces(rest)
    ensures KeyChars(rest) ==> IsKey("workspaces." + rest)
  {
    Namespaced("workspaces", "workspaces.", rest);
    FirstDiffers("workspaces." + rest);
    Longer("workspaces.", rest);
  }

  lemma StepKey(rest: string)
    ensures ScopeOf("step.results." + rest) == StepResultPath(rest)
    ensures KeyChars(rest) ==> IsKey("step.results." + rest)
  {
    Namespaced("step", "step.results.", rest);
    FirstDiffers("step.results." + rest);
    Longer("step.results.", rest);
  }

  lemma StepsKey(rest: string)
    ensures ScopeOf("steps." + rest) == Steps("steps." + rest)
    ensures KeyChars(rest) ==> IsKey("steps." + rest)
  {
    Namespaced("steps", "steps.", rest);
    FirstDiffers("steps." + rest);
    Longer("steps.", rest);
  }

  // ---------------------------------------------------------------- params

  lemma ParamStands(rest: string, ctx: Context, mode: Mode)
    requires KeyChars(rest)
    ensures Stands("params." + rest, LookupParam(rest, ctx), ctx, mode)
  {
    ParamsKey(rest);
    KeyStands("params." + rest, Params(rest), ctx, mode);
  }

  /** A string param. */
  lemma ParamMeans(p: string, ctx: Context, mode: Mode)
    requires KeyChars(p) && !HasSuffix(p, "[*]") && p in ctx.params
    ensures Substitute(Token("params." + p), ctx, mode) == Ok(Unescape(ctx.params[p]))
  {
    ParamStands(p, ctx, mode);
  }

  /** A name with an index. */
  function Indexed(name: string, n: nat): string {
    name + ("[" + Itoa(n) + "]")
  }

  lemma IndexIsRead(name: string, n: nat)
    requires name != ""
    ensures IndexSuffix(Indexed(name, n)) == Some((name, n))
  {
    IndexBody(name, Itoa(n), name + ("[" + Itoa(n)));
    Bracketed(name, Itoa(n));
    IndexOfBody(Indexed(name, n), name, Itoa(n));
    DecimalOfItoa(n);
  }

  lemma Bracketed(name: string, d: string)
    ensures var s := name + ("[" + d + "]"); s[|s| - 1] == ']' && s[..|s| - 1] == name + ("[" + d)
  {
  }

  lemma IndexOfBody(s: string, name: string, d: string)
    requires s != "" && s[|s| - 1] == ']' && name != "" && d != "" && forall i :: 0 <= i < |d| ==> IsDigit(d[i])
    requires
      var body := s[..|s| - 1];
      |body| == |name| + 1 + |d| && TrailingDigits(body) == |d| && body[|body| - |d|..] == d && body[..|name|] == name
      && body[|name|] == '['
    ensures IndexSuffix(s) == Some((name, Decimal(d)))
  {
  }

  lemma IndexBody(name: string, d: string, body: string)
    requires d != "" && (forall i :: 0 <= i < |d| ==> IsDigit(d[i])) && body == name + ("[" + d)
    ensures TrailingDigits(body) == |d| && body[|body| - |d|..] == d && body[..|name|] == name && body[|name|] == '['
  {
    assert body[|name|] == '[';
    assert forall i :: |name| < i < |body| ==> body[i] == d[i - |name| - 1];
  }

  lemma IndexIsNoStar(name: string, n: nat)
    ensures !HasSuffix(Indexed(name, n), "[*]")
    ensures KeyChars(name) ==> KeyChars(Indexed(name, n))
  {
    var s, d := Indexed(name, n), Itoa(n);
    assert s[|s| - 3..][1] == s[|s| - 2] == d[|d| - 1] != '*';
    if KeyChars(name) {
      Joined("[" + d, "]");
      Joined(name, "[" + d + "]");
      assert "[" + d + "]" == "[" + Itoa(n) + "]";
    }
  }

  /** An element of an array param: the n-th from the front, counted from 0, and an error beyond the end. */
  lemma IndexedParamMeans(a: string, n: nat, ctx: Context, mode: Mode)
    requires KeyChars(a) && a != "" && a in ctx.arrayParams && Indexed(a, n) !in ctx.params
    ensures n < |ctx.arrayParams[a]| ==>
      Substitute(Token("params." + Indexed(a, n)), ctx, mode) == Ok(Unescape(ctx.arrayParams[a][n]))
    ensures n >= |ctx.arrayParams[a]| ==> Substitute(Token("params." + Indexed(a, n)), ctx, Strict).Err?
  {
    IndexIsRead(a, n);
    IndexIsNoStar(a, n);
    ParamStands(Indexed(a, n), ctx, mode);
  }

  /** The two parts of a dotted name. */
  lemma Parts(a: string, b: string)
    requires '.' !in a
    ensures var s := a + "." + b; Index(s, ".") == |a| && s[..|a|] == a && s[|a| + 1..] == b
    ensures KeyChars(a) && KeyChars(b) ==> KeyChars(a + "." + b)
  {
    DotAfter(a, b);
  }

  /** A field of an object param, and an error when there is none. */
  lemma FieldOfParamMeans(obj: string, k: string, ctx: Context, mode: Mode)
    requires KeyChars(obj) && KeyChars(k) && '.' !in obj && obj + "." + k !in ctx.params
    requires IndexSuffix(obj + "." + k).None? && !HasSuffix(obj + "." + k, "[*]")
    ensures
      var s := Token("params." + (obj + "." + k));
      if obj in ctx.objectParams && k in ctx.objectParams[obj]
      then Substitute(s, ctx, mode) == Ok(Unescape(ctx.objectParams[obj][k]))
      else Substitute(s, ctx, Strict).Err?
  {
    Parts(obj, k);
    ParamStands(obj + "." + k, ctx, mode);
  }

  // ---------------------------------------------------------------- task results and statuses

  lemma TaskStands(rest: string, ctx: Context, mode: Mode)
    requires KeyChars(rest)
    ensures Stands("tasks." + rest, LookupTasks(rest, ctx), ctx, mode)
  {
    TasksKeyIs(rest);
    KeyStands("tasks." + rest, Tasks(rest), ctx, mode);
  }

  /** A name in three parts, as results are referred to. */
  function Dotted(a: string, b: string, c: string): string {
    a + "." + (b + "." + c)
  }

  lemma DottedParts(a: string, b: string, c: string)
    requires '.' !in a && '.' !in b
    ensures SplitDots(Dotted(a, b, c), 3) == [a, b, c] && Dotted(a, b, c) != "status"
    ensures KeyChars(a) && KeyChars(b) && KeyChars(c) ==> KeyChars(Dotted(a, b, c))
  {
    SplitFirst(a, b + "." + c, 3);
    SplitFirst(b, c, 2);
    assert SplitDots(c, 1) == [c];
    assert Dotted(a, b, c)[|a|] == '.';
    assert '.' !in "status";
    if KeyChars(b) && KeyChars(c) {
      Parts(b, c);
    }
  }

  lemma ResultsIsKey()
    ensures KeyChars("results") && '.' !in "results"
  {
  }

  lemma ResultLookup(rest: string, t: string, sel: string, ctx: Context)
    requires SplitDots(rest, 3) == [t, "results", sel] && rest != "status"
    ensures LookupTasks(rest, ctx) == LookupTaskResult(t, sel, ctx)
  {
  }

  /** What the selector makes of the task's results is what the reference stands for. */
  lemma ResultMeans(t: string, sel: string, ctx: Context, mode: Mode)
    requires KeyChars(t) && KeyChars(sel) && '.' !in t
    ensures Stands("tasks." + Dotted(t, "results", sel), LookupTaskResult(t, sel, ctx), ctx, mode)
  {
    ResultsIsKey();
    DottedParts(t, "results", sel);
    ResultLookup(Dotted(t, "results", sel), t, sel, ctx);
    TaskStands(Dotted(t, "results", sel), ctx, mode);
  }

  /** A result of a task, and an error for a task without results. */
  lemma WholeResultMeans(t: string, r: string, ctx: Context, mode: Mode)
    requires KeyChars(t) && KeyChars(r) && '.' !in t
    ensures t in ctx.results && r in ctx.results[t] ==>
      Substitute(Token("tasks." + Dotted(t, "results", r)), ctx, mode) == Ok(Unescape(ctx.results[t][r]))
    ensures t !in ctx.results ==> Substitute(Token("tasks." + Dotted(t, "results", r)), ctx, Strict).Err?
  {
    ResultMeans(t, r, ctx, mode);
  }

  /** The result holds the array. */
  predicate ArrayResult(t: string, r: string, ctx: Context, arr: seq<string>) {
    t in ctx.results && r in ctx.results[t] && ctx.json.asArray(ctx.results[t][r]) == Some(arr)
  }

  /** An element of an array result, and an error beyond the end. */
  lemma IndexedResultMeans(t: string, r: string, arr: seq<string>, n: nat, ctx: Context, mode: Mode)
    requires KeyChars(t) && KeyChars(r) && '.' !in t && r != ""
    requires ArrayResult(t, r, ctx, arr) && Indexed(r, n) !in ctx.results[t]
    ensures n < |arr| ==>
      Substitute(Token("tasks." + Dotted(t, "results", Indexed(r, n))), ctx, mode) == Ok(Unescape(arr[n]))
    ensures n >= |arr| ==> Substitute(Token("tasks." + Dotted(t, "results", Indexed(r, n))), ctx, Strict).Err?
  {
    IndexIsRead(r, n);
    IndexIsNoStar(r, n);
    ResultMeans(t, Indexed(r, n), ctx, mode);
  }

  /** A field of an object result, and an error when there is none. */
  lemma FieldOfResultMeans(t: string, r: string, k: string, obj: map<string, string>, ctx: Context, mode: Mode)
    requires KeyChars(t) && KeyChars(r) && KeyChars(k) && '.' !in t && '.' !in r
    requires t in ctx.results && r in ctx.results[t] && ctx.json.asObject(ctx.results[t][r]) == Some(obj)
    requires r + "." + k !in ctx.results[t] && IndexSuffix(r + "." + k).None? && !HasSuffix(r + "." + k, "[*]")
    ensures
      var s := Token("tasks." + Dotted(t, "results", r + "." + k));
      if k in obj then Substitute(s, ctx, mode) == Ok(Unescape(obj[k])) else Substitute(s, ctx, Strict).Err?
  {
    Parts(r, k);
    ResultMeans(t, r + "." + k, ctx, mode);
  }

  /** The aggregate status, where there is one. */
  lemma AggregateStatusMeans(ctx: Context, mode: Mode)
    ensures ctx.statuses.Some? ==>
      Substitute(Token("tasks." + "status"), ctx, mode) == Ok(Unescape(ctx.statuses.value.aggregate))
    ensures ctx.statuses.None? ==> Substitute(Token("tasks." + "status"), ctx, Strict).Err?
  {
    StatusIsKey();
    TaskStands("status", ctx, mode);
  }

  lemma StatusIsKey()
    ensures KeyChars("status") && '.' !in "status"
  {
  }

  lemma StatusParts(t: string, status: string)
    requires '.' !in t && '.' !in status
    ensures SplitDots(t + "." + status, 3) == [t, status] && t + "." + status != status
  {
    SplitFirst(t, status, 3);
    NoDot(status, 2);
    assert (t + "." + status)[|t|] == '.';
  }

  lemma StatusLookup(rest: string, t: string, ctx: Context)
    requires SplitDots(rest, 3) == [t, "status"] && rest != "status"
    ensures
      if ctx.statuses.Some? && t in ctx.statuses.value.perTask
      then LookupTasks(rest, ctx) == Found(ctx.statuses.value.perTask[t])
      else LookupTasks(rest, ctx).Unknown?
  {
  }

  lemma TaskStatusLookup(t: string, ctx: Context)
    requires '.' !in t
    ensures
      var l := LookupTasks(t + "." + "status", ctx);
      if ctx.statuses.Some? && t in ctx.statuses.value.perTask then l == Found(ctx.statuses.value.perTask[t])
      else l.Unknown?
  {
    StatusIsKey();
    StatusParts(t, "status");
    StatusLookup(t + "." + "status", t, ctx);
  }

  /** A task's status, where there is one. */
  lemma TaskStatusMeans(t: string, ctx: Context, mode: Mode)
    requires KeyChars(t) && '.' !in t
    ensures
      var s := Token("tasks." + (t + "." + "status"));
      if ctx.statuses.Some? && t in ctx.statuses.value.perTask
      then Substitute(s, ctx, mode) == Ok(Unescape(ctx.statuses.value.perTask[t]))
      else Substitute(s, ctx, Strict).Err?
  {
    StatusIsKey();
    TaskStatusLookup(t, ctx);
    Parts(t, "status");
    TaskStands(t + "." + "status", ctx, mode);
  }

  // ---------------------------------------------------------------- names of the run and paths

  /** A context variable. */
  lemma ContextMeans(x: string, ctx: Context, mode: Mode)
    requires KeyChars(x)
    ensures
      if x in ctx.contextVars then Substitute(Token("context." + x), ctx, mode) == Ok(Unescape(ctx.contextVars[x]))
      else Substitute(Token("context." + x), ctx, Strict).Err?
  {
    ContextKey(x);
    KeyStands("context." + x, ContextVar(x), ctx, mode);
  }

  lemma SuffixIs(s: string, suffix: string)
    ensures HasSuffix(s + suffix, suffix) && Before(s + suffix, suffix) == s
    ensures KeyChars(s) && KeyChars(suffix) ==> KeyChars(s + suffix)
  {
  }

  lemma PathIsKey()
    ensures KeyChars(".path")
  {
  }

  /** Where a step writes a task result. */
  lemma ResultPathMeans(r: string, ctx: Context, mode: Mode)
    requires KeyChars(r)
    ensures Substitute(Token("results." + (r + ".path")), ctx, mode) == Ok(Unescape("/tekton/results/" + r))
  {
    PathIsKey();
    SuffixIs(r, ".path");
    ResultsKey(r + ".path");
    KeyStands("results." + (r + ".path"), TaskResultPath(r + ".path"), ctx, mode);
  }

  lemma StepResultPathStands(r: string, ctx: Context, mode: Mode)
    requires KeyChars(r)
    ensures Stands("step.results." + (r + ".path"), LookupStepPath(r + ".path", ctx), ctx, mode)
  {
    PathIsKey();
    SuffixIs(r, ".path");
    StepKey(r + ".path");
    KeyStands("step.results." + (r + ".path"), StepResultPath(r + ".path"), ctx, mode);
  }

  /** Where a step writes a step result, once the step is known. */
  lemma StepResultPathMeans(r: string, ctx: Context, mode: Mode)
    requires KeyChars(r)
    ensures
      var s := Token("step.results." + (r + ".path"));
      if ctx.currentStep != ""
      then Substitute(s, ctx, mode) == Ok(Unescape("/tekton/steps/" + ctx.currentStep + "/results/" + r))
      else Substitute(s, ctx, Strict).Err?
  {
    SuffixIs(r, ".path");
    StepResultPathStands(r, ctx, mode);
  }

  lemma StepDots(steps: string, step: string, results: string, r: string)
    requires '.' !in steps && '.' !in step && '.' !in results
    ensures SplitDots(steps + "." + Dotted(step, results, r), 4) == [steps, step, results, r]
  {
    SplitFirst(steps, Dotted(step, results, r), 4);
    DottedParts(step, results, r);
  }

  lemma SameFront(rest: string)
    ensures "steps." + rest == "steps" + "." + rest
  {
  }

  lemma StepParts(steps: string, step: string, r: string)
    requires '.' !in steps && '.' !in step && steps == "steps"
    ensures SplitDots("steps." + Dotted(step, "results", r), 4) == [steps, step, "results", r]
  {
    var rest := Dotted(step, "results", r);
    StepDots(steps, step, "results", r);
    SameFront(rest);
  }

  lemma StepsStand(rest: string, ctx: Context, mode: Mode)
    requires KeyChars(rest)
    ensures Stands("steps." + rest, LookupSteps("steps." + rest, ctx), ctx, mode)
  {
    StepsKey(rest);
    KeyStands("steps." + rest, Steps("steps." + rest), ctx, mode);
  }

  lemma StepLookup(key: string, steps: string, step: string, r: string, ctx: Context)
    requires SplitDots(key, 4) == [steps, step, "results", r]
    ensures
      if ctx.stepResults.Some? && step in ctx.stepResults.value && r in ctx.stepResults.value[step]
      then LookupSteps(key, ctx) == Found(ctx.stepResults.value[step][r])
      else LookupSteps(key, ctx).Unknown? || LookupSteps(key, ctx).Deferred?
  {
  }

  lemma StepResultLookup(step: string, r: string, ctx: Context)
    requires '.' !in step
    ensures
      var l := LookupSteps("steps." + Dotted(step, "results", r), ctx);
      if ctx.stepResults.Some? && step in ctx.stepResults.value && r in ctx.stepResults.value[step]
      then l == Found(ctx.stepResults.value[step][r])
      else l.Unknown? || l.Deferred?
  {
    StepParts("steps", step, r);
    StepLookup("steps." + Dotted(step, "results", r), "steps", step, r, ctx);
  }

  /** A result of an earlier step. */
  lemma StepResultMeans(step: string, r: string, ctx: Context, mode: Mode)
    requires KeyChars(step) && KeyChars(r) && '.' !in step
    ensures
      var s := Token("steps." + Dotted(step, "results", r));
      if ctx.stepResults.Some? && step in ctx.stepResults.value && r in ctx.stepResults.value[step]
      then Substitute(s, ctx, mode) == Ok(Unescape(ctx.stepResults.value[step][r]))
      else Substitute(s, ctx, Strict).Err?
  {
    ResultsIsKey();
    DottedParts(step, "results", r);
    StepResultLookup(step, r, ctx);
    StepsStand(Dotted(step, "results", r), ctx, mode);
  }

  // ---------------------------------------------------------------- workspaces

  lemma LastDot(front: string, back: string)
    requires '.' !in back
    ensures
      var s := front + "." + back;
      LastIndexOf(s, '.') == |front| && s[..|front|] == front && s[|front| + 1..] == back
    ensures KeyChars(front) && KeyChars(back) ==> KeyChars(front + "." + back)
  {
    var s := front + "." + back;
    assert s[|front|] == '.';
    assert forall i :: |front| < i < |s| ==> s[i] == back[i - |front| - 1];
  }

  lemma WorkspaceStands(rest: string, ctx: Context, mode: Mode)
    requires KeyChars(rest)
    ensures Stands("workspaces." + rest, LookupWorkspace(rest, ctx), ctx, mode)
  {
    WorkspacesKey(rest);
    KeyStands("workspaces." + rest, Workspaces(rest), ctx, mode);
  }

  /** Where a workspace is mounted. */
  lemma WorkspacePathMeans(w: string, ctx: Context, mode: Mode)
    requires KeyChars(w)
    ensures
      Substitute(Token("workspaces." + (w + "." + "path")), ctx, mode) == Ok(Unescape(
        if w in ctx.workspacePaths && ctx.workspacePaths[w] != "" then ctx.workspacePaths[w] else "/workspace/" + w))
  {
    LastDot(w, "path");
    WorkspaceStands(w + "." + "path", ctx, mode);
  }

  /** Whether a workspace is bound, where that is known. */
  lemma BoundMeans(w: string, ctx: Context, mode: Mode)
    requires KeyChars(w)
    ensures
      var s := Token("workspaces." + (w + "." + "bound"));
      match ctx.boundWorkspaces
      case Some(bound) => Substitute(s, ctx, mode) == Ok(if w in bound && bound[w] then "true" else "false")
      case None => Substitute(s, ctx, Strict).Err?
  {
    LastDot(w, "bound");
    BoundLookup(w + "." + "bound", w, "bound", ctx);
    WorkspaceStands(w + "." + "bound", ctx, mode);
    BoundUnescapes();
  }

  lemma BoundUnescapes()
    ensures Unescape("true") == "true" && Unescape("false") == "false"
  {
    NulFreeUnescape("true");
    NulFreeUnescape("false");
  }

  lemma BoundLookup(rest: string, w: string, bound: string, ctx: Context)
    requires LastIndexOf(rest, '.') == |w| && rest[..|w|] == w && rest[|w| + 1..] == bound && bound == "bound"
    ensures
      match ctx.boundWorkspaces
      case Some(all) => LookupWorkspace(rest, ctx) == Found(if w in all && all[w] then "true" else "false")
      case None => LookupWorkspace(rest, ctx).Unknown?
  {
  }

  /** A workspace has no claim. */
  lemma ClaimMeans(w: string, ctx: Context, mode: Mode)
    requires KeyChars(w)
    ensures Substitute(Token("workspaces." + (w + "." + "claim")), ctx, mode) == Ok("")
  {
    LastDot(w, "claim");
    WorkspaceStands(w + "." + "claim", ctx, mode);
    NulFreeUnescape("");
  }

  /** A workspace's volume is named after it. */
  lemma VolumeMeans(w: string, ctx: Context, mode: Mode)
    requires KeyChars(w)
    ensures Substitute(Token("workspaces." + (w + "." + "volume")), ctx, mode) == Ok(w)
  {
    LastDot(w, "volume");
    WorkspaceStands(w + "." + "volume", ctx, mode);
    NulFreeUnescape(w);
  }

  lemma NoMatch(key: string)
    requires '$' !in key && ')' !in key && (key == "" || !LetterOrDigit(key[0]) || !KeyChars(key))
    ensures RefLength(Token(key)) == 0
  {
    var s := Token(key);
    assert s[1] == '(' && s[2..2 + |key|] == key && s[|s| - 1] == ')';
    forall i | 0 <= i < |key| ensures s[i + 2] == key[i] {
      assert s[2..2 + |key|][i] == s[i + 2];
    }
    if key != "" && LetterOrDigit(key[0]) {
      var i :| 0 <= i < |key| && !KeyChar(key[i]);
      assert !RefChar(s[i + 2]);
    }
  }

  /** What begins like a reference and is none, for its first character or any other, stays as it is. */
  lemma NoReferenceStays(key: string, ctx: Context, mode: Mode)
    requires NulFree(key) && '$' !in key && ')' !in key && (key == "" || !LetterOrDigit(key[0]) || !KeyChars(key))
    ensures Substitute(Token(key), ctx, mode) == Ok(Token(key))
  {
    var s := Token(key);
    assert s == "$" + ("(" + key + ")") && s[1] == '(';
    assert '$' !in s[1..] by { assert s[1..] == "(" + key + ")"; }
    NoMatch(key);
    EscapeNothing(s);
    NoDollarExpands(s[1..], Refs(ctx, mode));
    assert s == [s[0]] + s[1..];
    NulFreeUnescape(s);
  }

  /** A reference of another namespace stays as it is written. */
  lemma ForeignStays(key: string, ctx: Context, mode: Mode)
    requires IsKey(key)
    requires NamespaceOf(key) !in {"params", "tasks", "context", "workspaces", "results", "steps", "step"}
    ensures Substitute(Token(key), ctx, mode) == Ok(Token(key))
  {
    ExpandToken(key, Refs(ctx, mode), k => true);
    KeyIsNulFree(key);
    CleanSubstitute(Token(key), Refs(ctx, mode));
  }
}
