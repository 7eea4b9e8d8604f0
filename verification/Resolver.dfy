/** Tekton-style variable substitution over one string. */
module Resolver {
  import opened Wrappers
  import opened Text

  /** json.Unmarshal into []string and map[string]string; None is a decoding error. */
  datatype Json = Json(asArray: string -> Option<seq<string>>, asObject: string -> Option<map<string, string>>)

  datatype Statuses = Statuses(aggregate: string, perTask: map<string, string>)

  /** None stands for Go's nil where the code tells nil from empty. */
  datatype Context = Context(
    params: map<string, string>,
    arrayParams: map<string, seq<string>>,
    objectParams: map<string, map<string, string>>,
    results: map<string, map<string, string>>,
    contextVars: map<string, string>,
    stepResults: Option<map<string, map<string, string>>>,
    currentStep: string,
    boundWorkspaces: Option<map<string, bool>>,
    statuses: Option<Statuses>,
    workspacePaths: map<string, string>,
    json: Json)

  datatype Mode = Strict | DeferStep | DeferAll

  /** Literal is errLeaveLiteral, Deferred is errStepRefDeferred, Unknown is any other error. */
  datatype Lookup = Found(v: string) | Literal | Deferred | Unknown

  function NamespaceOf(key: string): string {
    var dot, bracket := Index(key, "."), Index(key, "[");
    if dot >= 0 && (bracket < 0 || dot < bracket) then key[..dot]
    else if bracket >= 0 then key[..bracket]
    else key
  }

  predicate KnownNamespace(ns: string) {
    ns in {"params", "tasks", "context", "workspaces", "results", "steps", "step"}
  }

  function Element(arr: seq<string>, n: nat): Lookup {
    if n < |arr| then Found(arr[n]) else Unknown
  }

  function LookupParam(rest: string, ctx: Context): Lookup {
    if HasSuffix(rest, "[*]") then Unknown
    else if rest in ctx.params then Found(ctx.params[rest])
    else match IndexSuffix(rest)
      case Some((name, n)) => if name in ctx.arrayParams then Element(ctx.arrayParams[name], n) else Unknown
      case None =>
        var dot := Index(rest, ".");
        if dot < 0 then Unknown
        else
          var obj, k := rest[..dot], rest[dot + 1..];
          if obj in ctx.objectParams && k in ctx.objectParams[obj] then Found(ctx.objectParams[obj][k]) else Unknown
  }

  function LookupTaskResult(task: string, sel: string, ctx: Context): Lookup {
    if task !in ctx.results then Unknown
    else
      var rs := ctx.results[task];
      if sel in rs then Found(rs[sel])
      else if HasSuffix(sel, "[*]") then Unknown
      else match IndexSuffix(sel)
        case Some((name, n)) =>
          if name !in rs then Unknown
          else (match ctx.json.asArray(rs[name]) case Some(arr) => Element(arr, n) case None => Unknown)
        case None =>
          var dot := Index(sel, ".");
          if dot < 0 || sel[..dot] !in rs then Unknown
          else match ctx.json.asObject(rs[sel[..dot]])
            case Some(obj) => if sel[dot + 1..] in obj then Found(obj[sel[dot + 1..]]) else Unknown
            case None => Unknown
  }

  function LookupTasks(rest: string, ctx: Context): Lookup {
    if rest == "status" then
      (match ctx.statuses case Some(st) => Found(st.aggregate) case None => Unknown)
    else LookupTaskParts(SplitDots(rest, 3), ctx)
  }

  /** The parts of tasks.<t>.results.<selector> after the first. */
  predicate NamesResult(parts: seq<string>) {
    |parts| == 3 && parts[1] == "results"
  }

  /** The parts of tasks.<t>.status after the first. */
  predicate NamesStatus(parts: seq<string>) {
    |parts| == 2 && parts[1] == "status"
  }

  function LookupTaskParts(parts: seq<string>, ctx: Context): Lookup {
    if NamesStatus(parts) then
      match ctx.statuses
      case Some(st) => if parts[0] in st.perTask then Found(st.perTask[parts[0]]) else Unknown
      case None => Unknown
    else if !NamesResult(parts) then Unknown
    else LookupTaskResult(parts[0], parts[2], ctx)
  }

  function LookupStepPath(rest: string, ctx: Context): Lookup {
    if !HasSuffix(rest, ".path") then Unknown
    else if ctx.currentStep == "" then Deferred
    else Found("/tekton/steps/" + ctx.currentStep + "/results/" + Before(rest, ".path"))
  }

  function LookupSteps(key: string, ctx: Context): Lookup {
    var parts := SplitDots(key, 4);
    if |parts| != 4 || parts[2] != "results" then Unknown
    else match ctx.stepResults
      case None => Deferred
      case Some(all) =>
        if parts[1] in all && parts[3] in all[parts[1]] then Found(all[parts[1]][parts[3]]) else Unknown
  }

  function LookupWorkspace(rest: string, ctx: Context): Lookup {
    var dot := LastIndexOf(rest, '.');
    if dot < 0 then Unknown
    else
      var name, attr := rest[..dot], rest[dot + 1..];
      if attr == "path" then
        if name in ctx.workspacePaths && ctx.workspacePaths[name] != "" then Found(ctx.workspacePaths[name])
        else Found("/workspace/" + name)
      else if attr == "bound" then
        match ctx.boundWorkspaces
        case None => Unknown
        case Some(bound) => Found(if name in bound && bound[name] then "true" else "false")
      else if attr == "claim" then Found("")
      else if attr == "volume" then Found(name)
      else Unknown
  }

  /** The scope a key is looked up in. */
  datatype Scope =
    | Foreign                       // not a Tekton namespace
    | Params(rest: string)
    | Tasks(rest: string)
    | ContextVar(rest: string)
    | TaskResultPath(rest: string)
    | StepResultPath(rest: string)
    | Steps(key: string)
    | Workspaces(rest: string)
    | Malformed

  function ScopeOf(key: string): Scope {
    if !KnownNamespace(NamespaceOf(key)) then Foreign
    else if HasPrefix(key, "params.") then Params(After(key, "params."))
    else if HasPrefix(key, "tasks.") then Tasks(After(key, "tasks."))
    else if HasPrefix(key, "context.") then ContextVar(After(key, "context."))
    else if HasPrefix(key, "results.") then TaskResultPath(After(key, "results."))
    else if HasPrefix(key, "step.results.") then StepResultPath(After(key, "step.results."))
    else if HasPrefix(key, "steps.") then Steps(key)
    else if HasPrefix(key, "workspaces.") then Workspaces(After(key, "workspaces."))
    else Malformed
  }

  lemma TasksScope(key: string)
    requires ScopeOf(key).Tasks?
    ensures key == "tasks." + ScopeOf(key).rest
  {
  }

  function LookupIn(scope: Scope, ctx: Context): Lookup {
    match scope
    case Foreign => Literal
    case Params(rest) => LookupParam(rest, ctx)
    case Tasks(rest) => LookupTasks(rest, ctx)
    case ContextVar(rest) => if rest in ctx.contextVars then Found(ctx.contextVars[rest]) else Unknown
    case TaskResultPath(rest) =>
      if HasSuffix(rest, ".path") then Found("/tekton/results/" + Before(rest, ".path")) else Unknown
    case StepResultPath(rest) => LookupStepPath(rest, ctx)
    case Steps(key) => LookupSteps(key, ctx)
    case Workspaces(rest) => LookupWorkspace(rest, ctx)
    case Malformed => Unknown
  }

  /** An unknown name that an outer pass, with the full task scope, may still know. */
  predicate Deferrable(key: string, scope: Scope, ctx: Context) {
    match scope
    case Params(_) => true
    case ContextVar(_) => true
    case Workspaces(_) => HasSuffix(key, ".bound") && ctx.boundWorkspaces.None?
    case Tasks(_) => var parts := SplitDots(key, 4); |parts| == 4 && parts[2] == "results"
    case _ => false
  }

  /** lookup, or lookupAllowDefer in the StepAction pass. */
  function LookupKey(key: string, scope: Scope, ctx: Context, mode: Mode): Lookup {
    var l := LookupIn(scope, ctx);
    if mode.DeferAll? && l.Unknown? && Deferrable(key, scope, ctx) then Deferred else l
  }

  /** The characters a reference may continue with: [\w.\[\]\*-]. */
  predicate RefChar(c: char) {
    IsWord(c) || c in {'.', '[', ']', '*', '-'}
  }

  function RunEnd(s: string, i: nat): (j: nat)
    requires i <= |s|
    ensures i <= j <= |s|
    ensures forall k :: i <= k < j ==> RefChar(s[k])
    ensures j < |s| ==> !RefChar(s[j])
    decreases |s| - i
  {
    if i < |s| && RefChar(s[i]) then RunEnd(s, i + 1) else i
  }

  /** Length of the reference that starts s, or 0: the match of \$\(([a-zA-Z0-9][\w.\[\]\*-]*)\) at the start. */
  function RefLength(s: string): (n: nat)
    ensures n <= |s|
    ensures n > 0 ==> n >= 4 && s[..2] == "$(" && s[n - 1] == ')' && IsKey(s[2..n - 1])
  {
    if |s| >= 3 && s[0] == '$' && s[1] == '(' && IsAlnum(s[2]) then
      var j := RunEnd(s, 3);
      if j < |s| && s[j] == ')' then j + 1 else 0
    else 0
  }

  predicate IsKey(key: string) {
    |key| > 0 && IsAlnum(key[0]) && forall i :: 0 < i < |key| ==> RefChar(key[i])
  }

  function Token(key: string): string {
    "$(" + key + ")"
  }

  /** What the pass puts in place of $(key), where scope is the key's scope. */
  function ResolveIn(key: string, scope: Scope, ctx: Context, mode: Mode): Result<string, string> {
    Replacement(key, LookupKey(key, scope, ctx, mode), mode)
  }

  /** What takes the place of $(key), given what was found. */
  function Replacement(key: string, found: Lookup, mode: Mode): Result<string, string> {
    match found
    case Found(v) => Ok(v)
    case Literal => Ok(Token(key))
    case Deferred => if mode.Strict? then Err(key) else Ok(Token(key))
    case Unknown => Err(key)
  }

  function ResolveRef(key: string, ctx: Context, mode: Mode): Result<string, string> {
    ResolveIn(key, ScopeOf(key), ctx, mode)
  }

  /** Left-to-right: the first error wins. */
  function Then(a: Result<string, string>, b: Result<string, string>): Result<string, string> {
    if a.Err? then a else if b.Err? then b else Ok(a.value + b.value)
  }

  /** refPat.ReplaceAllStringFunc with the callback resolve. */
  function Expand(s: string, resolve: string -> Result<string, string>): Result<string, string>
    decreases |s|
  {
    if s == [] then Ok("")
    else
      var n := RefLength(s);
      if n > 0 then Then(resolve(s[2..n - 1]), Expand(s[n..], resolve))
      else Then(Ok([s[0]]), Expand(s[1..], resolve))
  }

  /** The callback of one pass. */
  function Refs(ctx: Context, mode: Mode): string -> Result<string, string> {
    key => ResolveRef(key, ctx, mode)
  }

  const SENTINEL := "\0DOLLAR\0"

  /** strings.ReplaceAll(s, "$$", sentinel). */
  function Escape(s: string): string {
    if |s| >= 2 && s[0] == '$' && s[1] == '$' then SENTINEL + Escape(s[2..])
    else if s == [] then []
    else [s[0]] + Escape(s[1..])
  }

  /** strings.ReplaceAll(s, sentinel, "$"). */
  function Unescape(s: string): string {
    if HasPrefix(s, SENTINEL) then "$" + Unescape(s[|SENTINEL|..])
    else if s == [] then []
    else [s[0]] + Unescape(s[1..])
  }

  function Substitute(s: string, ctx: Context, mode: Mode): Result<string, string> {
    SubstituteWith(s, Refs(ctx, mode))
  }

  /** substitute: escape, expand, restore. */
  function SubstituteWith(s: string, resolve: string -> Result<string, string>): Result<string, string> {
    match Expand(Escape(s), resolve)
    case Ok(out) => Ok(Unescape(out))
    case Err(e) => Err(e)
  }

  /** Whitespace as \s sees it. */
  predicate IsSpace(c: char) {
    c in {' ', '\t', '\n', '\r', '\U{000c}'}
  }

  /** Exactly one whole-array reference: ^\$\((?:params|tasks)\.[^()$\s]*\[\*\]\)$. */
  predicate IsArrayStarRef(s: string) {
    (HasPrefix(s, "$(params.") || HasPrefix(s, "$(tasks.")) && HasSuffix(s, "[*])")
    && |s| >= (if HasPrefix(s, "$(params.") then 9 else 8) + 4
    && forall i :: 2 <= i < |s| - 1 ==> s[i] !in {'(', ')', '$'} && !IsSpace(s[i])
  }

  function ExpandArrayStar(s: string, ctx: Context): Result<seq<string>, string>
    requires IsArrayStarRef(s)
  {
    var inner := s[2..|s| - 4];
    if HasPrefix(inner, "params.") then
      var name := After(inner, "params.");
      if name in ctx.arrayParams then Ok(ctx.arrayParams[name]) else Err(s)
    else if HasPrefix(inner, "tasks.") then
      var rest := After(inner, "tasks.");
      var dot := Index(rest, ".results.");
      if dot < 0 then Err(s)
      else
        var task, name := rest[..dot], rest[dot + 9..];
        if task !in ctx.results || name !in ctx.results[task] then Err(s)
        else match ctx.json.asArray(ctx.results[task][name])
          case Some(arr) => Ok(arr)
          case None => Err(s)
    else Err(s)
  }

  /** What one argument contributes: a whole-array reference is spliced, anything else is substituted. */
  function Arg(a: string, ctx: Context, mode: Mode): Result<seq<string>, string> {
    if IsArrayStarRef(a) then
      var r := ExpandArrayStar(a, ctx);
      if r.Err? && mode.DeferAll? then Ok([a]) else r
    else match Substitute(a, ctx, mode)
      case Ok(v) => Ok([v])
      case Err(e) => Err(e)
  }

  /** The concatenation of what the arguments contribute; the first error wins. */
  function Args(args: seq<string>, arg: string -> Result<seq<string>, string>): Result<seq<string>, string> {
    if args == [] then Ok([])
    else
      var front := Args(args[..|args| - 1], arg);
      if front.Err? then front
      else match arg(args[|args| - 1])
        case Ok(vs) => Ok(front.value + vs)
        case Err(e) => Err(e)
  }

  /** How one pass treats an argument. */
  function ArgOf(ctx: Context, mode: Mode): string -> Result<seq<string>, string> {
    a => Arg(a, ctx, mode)
  }

  method SubstituteArg(a: string, ctx: Context, mode: Mode) returns (one: Result<seq<string>, string>)
    ensures one == ArgOf(ctx, mode)(a)
  {
    if IsArrayStarRef(a) {
      one := ExpandArrayStar(a, ctx);
      if one.Err? && mode.DeferAll? {
        one := Ok([a]);
      }
    } else {
      var s := Substitute(a, ctx, mode);
      one := match s case Ok(v) => Ok([v]) case Err(e) => Err(e);
    }
  }

  /** SubstituteArgs, SubstituteArgsDeferStepRefs and SubstituteArgsAllowStepRefs, by mode. */
  method SubstituteArgs(args: seq<string>, ctx: Context, mode: Mode) returns (r: Result<seq<string>, string>)
    ensures r == Args(args, ArgOf(ctx, mode))
  {
    var out: seq<string> := [];
    for i := 0 to |args|
      invariant Args(args[..i], ArgOf(ctx, mode)) == Ok(out)
    {
      var a := args[i];
      assert args[..i + 1][..i] == args[..i];
      var one := SubstituteArg(a, ctx, mode);
      if one.Err? {
        ArgsErr(args, i + 1, ArgOf(ctx, mode));
        return one;
      }
      out := out + one.value;
    }
    assert args[..|args|] == args;
    return Ok(out);
  }

  lemma {:induction false} ArgsErr(args: seq<string>, i: nat, arg: string -> Result<seq<string>, string>)
    requires i <= |args| && Args(args[..i], arg).Err?
    ensures Args(args, arg) == Args(args[..i], arg)
    decreases |args| - i
  {
    if i == |args| {
      assert args[..i] == args;
    } else {
      assert args[..i + 1][..i] == args[..i];
      ArgsErr(args, i + 1, arg);
    }
  }
}
