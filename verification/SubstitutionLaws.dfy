/** Scanning facts that hold whatever the references resolve to. */
module Templates {
  import opened Wrappers
  import opened Text
  import opened Resolver

  type Resolve = string -> Result<string, string>

  /** Every dollar sign begins a complete reference, and there is no NUL byte. */
  predicate Clean(s: string)
    decreases |s|
  {
    s == [] ||
    var n := RefLength(s);
    if n > 0 then Clean(s[n..]) else s[0] != '$' && s[0] != '\0' && Clean(s[1..])
  }

  /** Every reference in s satisfies p. */
  ghost predicate AllRefs(s: string, p: string -> bool)
    decreases |s|
  {
    s == [] ||
    var n := RefLength(s);
    if n > 0 then p(s[2..n - 1]) && AllRefs(s[n..], p) else AllRefs(s[1..], p)
  }

  lemma {:induction false} RunEndAppend(a: string, b: string, i: nat)
    requires i <= |a| && RunEnd(a, i) < |a|
    ensures RunEnd(a + b, i) == RunEnd(a, i)
    decreases |a| - i
  {
    if RefChar(a[i]) {
      RunEndAppend(a, b, i + 1);
    }
  }

  lemma RefLengthAppend(a: string, b: string)
    requires RefLength(a) > 0
    ensures RefLength(a + b) == RefLength(a)
    ensures (a + b)[2..RefLength(a) - 1] == a[2..RefLength(a) - 1]
    ensures (a + b)[RefLength(a)..] == a[RefLength(a)..] + b
  {
    RunEndAppend(a, b, 3);
  }

  lemma {:induction false} RunEndToken(s: string, i: nat, j: nat)
    requires i <= j < |s| && !RefChar(s[j]) && forall k :: i <= k < j ==> RefChar(s[k])
    ensures RunEnd(s, i) == j
    decreases j - i
  {
    if i < j {
      RunEndToken(s, i + 1, j);
    }
  }

  lemma TokenIsRef(key: string)
    requires IsKey(key)
    ensures RefLength(Token(key)) == |Token(key)| && Token(key)[2..|Token(key)| - 1] == key
    ensures Token(key)[|Token(key)|..] == [] && Clean(Token(key))
  {
    var t := Token(key);
    assert t[2..|t| - 1] == key && t[2] == key[0];
    forall k | 3 <= k < |t| - 1 ensures RefChar(t[k]) {
      assert t[k] == key[k - 2];
    }
    RunEndToken(t, 3, |t| - 1);
  }

  lemma ThenAssociates(a: Result<string, string>, b: Result<string, string>, c: Result<string, string>)
    ensures Then(a, Then(b, c)) == Then(Then(a, b), c)
    ensures Then(a, Ok("")) == a && Then(Ok(""), a) == a
  {
    if a.Ok? && b.Ok? && c.Ok? {
      assert a.value + (b.value + c.value) == a.value + b.value + c.value;
    }
    if a.Ok? {
      assert a.value + "" == a.value && "" + a.value == a.value;
    }
  }

  /** Clean text expands independently of what follows it. */
  lemma {:induction false} ExpandAppend(a: string, b: string, f: Resolve)
    requires Clean(a)
    ensures Expand(a + b, f) == Then(Expand(a, f), Expand(b, f))
    decreases |a|
  {
    if a == [] {
      assert a + b == b;
      ThenAssociates(Expand(b, f), Ok(""), Ok(""));
    } else {
      var n := RefLength(a);
      if n > 0 {
        RefLengthAppend(a, b);
        ExpandAppend(a[n..], b, f);
        ThenAssociates(f(a[2..n - 1]), Expand(a[n..], f), Expand(b, f));
      } else {
        assert (a + b)[1..] == a[1..] + b;
        ExpandAppend(a[1..], b, f);
        ThenAssociates(Ok([a[0]]), Expand(a[1..], f), Expand(b, f));
      }
    }
  }

  lemma {:induction false} CleanAppend(a: string, b: string)
    requires Clean(a) && Clean(b)
    ensures Clean(a + b)
    decreases |a|
  {
    if a == [] {
      assert a + b == b;
    } else {
      var n := RefLength(a);
      if n > 0 {
        RefLengthAppend(a, b);
        CleanAppend(a[n..], b);
      } else {
        assert (a + b)[1..] == a[1..] + b;
        CleanAppend(a[1..], b);
      }
    }
  }

  lemma {:induction false} AllRefsAppend(a: string, b: string, p: string -> bool)
    requires Clean(a) && AllRefs(a, p) && AllRefs(b, p)
    ensures AllRefs(a + b, p)
    decreases |a|
  {
    if a == [] {
      assert a + b == b;
    } else {
      var n := RefLength(a);
      if n > 0 {
        RefLengthAppend(a, b);
        AllRefsAppend(a[n..], b, p);
      } else {
        assert (a + b)[1..] == a[1..] + b;
        AllRefsAppend(a[1..], b, p);
      }
    }
  }

  /** Text without dollar signs is left alone by every pass. */
  lemma {:induction false} PlainExpands(s: string, f: Resolve, p: string -> bool)
    requires Plain(s)
    ensures Clean(s) && Expand(s, f) == Ok(s) && AllRefs(s, p)
  {
    if s != [] {
      PlainExpands(s[1..], f, p);
      assert s == [s[0]] + s[1..];
    }
  }

  lemma ExpandToken(key: string, f: Resolve, p: string -> bool)
    requires IsKey(key)
    ensures Clean(Token(key)) && Expand(Token(key), f) == f(key) && (AllRefs(Token(key), p) <==> p(key))
  {
    TokenIsRef(key);
    var t := Token(key);
    assert Expand(t, f) == Then(f(key), Expand(t[|t|..], f));
    ThenAssociates(f(key), Ok(""), Ok(""));
    assert AllRefs(t, p) <==> p(key) && AllRefs(t[|t|..], p);
  }

  /** In clean text a dollar sign is always followed by an opening parenthesis. */
  lemma {:induction false} CleanShape(s: string, i: nat)
    requires Clean(s) && i < |s|
    ensures s[i] != '\0' && (s[i] == '$' ==> i + 1 < |s| && s[i + 1] == '(')
    decreases |s|
  {
    var n := RefLength(s);
    if n > 0 {
      if i >= n {
        CleanShape(s[n..], i - n);
      } else if i >= 2 && i < n - 1 {
        assert s[i] == s[2..n - 1][i - 2];
      }
    } else if i > 0 {
      CleanShape(s[1..], i - 1);
    }
  }

  lemma {:induction false} EscapeNothing(s: string)
    requires forall i :: 0 <= i < |s| - 1 && s[i] == '$' ==> s[i + 1] != '$'
    ensures Escape(s) == s
  {
    if s != [] {
      EscapeNothing(s[1..]);
      assert s == [s[0]] + s[1..];
    }
  }

  lemma CleanEscape(s: string)
    requires Clean(s)
    ensures Escape(s) == s && NulFree(s)
  {
    forall i | 0 <= i < |s| ensures s[i] != '\0' && (s[i] == '$' ==> i + 1 < |s| && s[i + 1] == '(') {
      CleanShape(s, i);
    }
    EscapeNothing(s);
  }

  lemma {:induction false} NulFreeUnescape(s: string)
    requires NulFree(s)
    ensures Unescape(s) == s
  {
    if s != [] {
      assert s[0] != '\0';
      NulFreeUnescape(s[1..]);
      assert s == [s[0]] + s[1..];
    }
  }

  /** On clean text the escape passes do nothing. */
  lemma CleanSubstitute(s: string, f: Resolve)
    requires Clean(s)
    requires Expand(s, f).Ok? ==> NulFree(Expand(s, f).value)
    ensures SubstituteWith(s, f) == Expand(s, f)
  {
    CleanEscape(s);
    if Expand(s, f).Ok? {
      NulFreeUnescape(Expand(s, f).value);
    }
  }

  /** What a callback inserts holds no NUL byte. */
  ghost predicate NulFreeResolve(f: Resolve) {
    forall key :: IsKey(key) && f(key).Ok? ==> NulFree(f(key).value)
  }

  lemma {:induction false} ExpandNulFree(s: string, f: Resolve)
    requires Clean(s) && NulFreeResolve(f)
    ensures Expand(s, f).Ok? ==> NulFree(Expand(s, f).value)
    decreases |s|
  {
    if s != [] {
      var n := RefLength(s);
      if n > 0 {
        ExpandNulFree(s[n..], f);
      } else {
        ExpandNulFree(s[1..], f);
      }
    }
  }

  /** Running first and then second over one reference is what both does with it, and what is
      left in between satisfies p. */
  ghost predicate Composes(key: string, first: Resolve, second: Resolve, both: Resolve, p: string -> bool) {
    first(key).Ok? ==>
      && Clean(first(key).value) && AllRefs(first(key).value, p)
      && Expand(first(key).value, second) == both(key)
  }

  /** Two passes over a clean template are one pass, when they are one pass over each reference. */
  lemma {:induction false} TwoPasses(s: string, first: Resolve, second: Resolve, both: Resolve, p: string -> bool)
    requires Clean(s) && AllRefs(s, key => Composes(key, first, second, both, p))
    ensures
      var mid := Expand(s, first);
      mid.Ok? ==> Clean(mid.value) && AllRefs(mid.value, p) && Expand(mid.value, second) == Expand(s, both)
    decreases |s|
  {
    if s != [] && Expand(s, first).Ok? {
      var n := RefLength(s);
      if n > 0 {
        var key := s[2..n - 1];
        assert Composes(key, first, second, both, p);
        TwoPasses(s[n..], first, second, both, p);
        Glue(first(key).value, Expand(s[n..], first).value, second, p);
      } else {
        TwoPasses(s[1..], first, second, both, p);
        PlainExpands([s[0]], second, p);
        Glue([s[0]], Expand(s[1..], first).value, second, p);
      }
    }
  }

  /** The same for whole substitutions, escapes included. */
  lemma TwoSubstitutions(s: string, first: Resolve, second: Resolve, both: Resolve, p: string -> bool)
    requires Clean(s) && AllRefs(s, key => Composes(key, first, second, both, p))
    ensures
      var mid := SubstituteWith(s, first);
      mid.Ok? ==>
        && Clean(mid.value) && AllRefs(mid.value, p)
        && SubstituteWith(mid.value, second) == SubstituteWith(s, both)
  {
    TwoPasses(s, first, second, both, p);
    CleanEscape(s);
    if Expand(s, first).Ok? {
      CleanEscape(Expand(s, first).value);
      NulFreeUnescape(Expand(s, first).value);
    }
  }

  lemma Glue(a: string, b: string, f: Resolve, p: string -> bool)
    requires Clean(a) && Clean(b) && AllRefs(a, p) && AllRefs(b, p)
    ensures Clean(a + b) && AllRefs(a + b, p) && Expand(a + b, f) == Then(Expand(a, f), Expand(b, f))
  {
    CleanAppend(a, b);
    AllRefsAppend(a, b, p);
    ExpandAppend(a, b, f);
  }

  /** Where one callback fails, so does the other. */
  lemma {:induction false} FailsToo(s: string, f: Resolve, g: Resolve)
    requires AllRefs(s, key => f(key).Err? ==> g(key).Err?)
    ensures Expand(s, f).Err? ==> Expand(s, g).Err?
    decreases |s|
  {
    if s != [] {
      var n := RefLength(s);
      if n > 0 {
        FailsToo(s[n..], f, g);
      } else {
        FailsToo(s[1..], f, g);
      }
    }
  }

  lemma SubstitutionFailsToo(s: string, f: Resolve, g: Resolve)
    requires Clean(s) && AllRefs(s, key => f(key).Err? ==> g(key).Err?)
    ensures SubstituteWith(s, f).Err? ==> SubstituteWith(s, g).Err?
  {
    CleanEscape(s);
    FailsToo(s, f, g);
  }

  /** A property of every key holds of every reference. */
  lemma {:induction false} EveryRef(s: string, p: string -> bool)
    requires forall key :: IsKey(key) ==> p(key)
    ensures AllRefs(s, p)
    decreases |s|
  {
    if s != [] {
      var n := RefLength(s);
      if n > 0 {
        EveryRef(s[n..], p);
      } else {
        EveryRef(s[1..], p);
      }
    }
  }

  lemma {:induction false} RefsWeaken(s: string, p: string -> bool, q: string -> bool)
    requires AllRefs(s, p) && forall key :: IsKey(key) && p(key) ==> q(key)
    ensures AllRefs(s, q)
    decreases |s|
  {
    if s != [] {
      var n := RefLength(s);
      if n > 0 {
        RefsWeaken(s[n..], p, q);
      } else {
        RefsWeaken(s[1..], p, q);
      }
    }
  }
}

/** The laws that relate the substitution passes to one another. */
module SubstitutionLaws {
  import opened Wrappers
  import opened Text
  import opened Resolver
  import opened Templates

  // ---------------------------------------------------------------- escapes

  /** Doubles every dollar sign. */
  function Doubled(s: string): string {
    if s == [] then [] else (if s[0] == '$' then "$$" else [s[0]]) + Doubled(s[1..])
  }

  /** Dollar signs replaced by the sentinel. */
  function Hidden(s: string): (r: string)
    ensures '$' !in r
  {
    if s == [] then [] else (if s[0] == '$' then SENTINEL else [s[0]]) + Hidden(s[1..])
  }

  lemma {:induction false} EscapeDoubled(s: string)
    ensures Escape(Doubled(s)) == Hidden(s)
  {
    if s != [] {
      EscapeDoubled(s[1..]);
      var t := Doubled(s);
      if s[0] == '$' {
        assert t[0] == '$' && t[1] == '$' && t[2..] == Doubled(s[1..]);
      } else {
        assert t[0] == s[0] && t[1..] == Doubled(s[1..]);
      }
    }
  }

  lemma {:induction false} NoDollarExpands(s: string, f: Resolve)
    requires '$' !in s
    ensures Expand(s, f) == Ok(s)
  {
    if s != [] {
      NoDollarExpands(s[1..], f);
      assert s == [s[0]] + s[1..];
    }
  }

  lemma {:induction false} UnescapeHidden(s: string)
    requires NulFree(s)
    ensures Unescape(Hidden(s)) == s
  {
    if s != [] {
      UnescapeHidden(s[1..]);
      var t := Hidden(s);
      if s[0] == '$' {
        assert HasPrefix(t, SENTINEL) && t[|SENTINEL|..] == Hidden(s[1..]);
      } else {
        assert t[0] == s[0] && s[0] != '\0' && t[1..] == Hidden(s[1..]);
        assert SENTINEL[0] == '\0';
      }
      assert s == [s[0]] + s[1..];
    }
  }

  /** Doubling every dollar sign protects any NUL-free text from every pass in every context. */
  lemma EscapeRoundTrip(s: string, ctx: Context, mode: Mode)
    requires NulFree(s)
    ensures Substitute(Doubled(s), ctx, mode) == Ok(s)
  {
    EscapeDoubled(s);
    NoDollarExpands(Hidden(s), Refs(ctx, mode));
    UnescapeHidden(s);
  }

  // ---------------------------------------------------------------- StepAction inlining

  /** The context of the StepAction pass: nothing but the bound params. */
  function InnerContext(params: map<string, string>, json: Json): Context {
    Context(params, map[], map[], map[], map[], None, "", None, None, map[], json)
  }

  /** The scope names a param bound by the StepAction call. */
  predicate Bound(scope: Scope, params: map<string, string>) {
    scope.Params? && !HasSuffix(scope.rest, "[*]") && scope.rest in params
  }

  /** The one-pass meaning of a reference in a StepAction body: a bound param stands for the
      task-scope value of what it was bound to, anything else for its own task-scope value. */
  function CompositeRef(key: string, params: map<string, string>, outer: Context, mode: Mode): Result<string, string> {
    var scope := ScopeOf(key);
    if Bound(scope, params) then Substitute(params[scope.rest], outer, mode) else ResolveRef(key, outer, mode)
  }

  function CompositeRefs(params: map<string, string>, outer: Context, mode: Mode): Resolve {
    key => CompositeRef(key, params, outer, mode)
  }

  /** A workspace path the task mounts somewhere other than the default. */
  predicate Mounted(scope: Scope, outer: Context) {
    scope.Workspaces? &&
    var dot := LastIndexOf(scope.rest, '.');
    dot >= 0 && scope.rest[dot + 1..] == "path" && scope.rest[..dot] in outer.workspacePaths &&
    outer.workspacePaths[scope.rest[..dot]] !in {"", "/workspace/" + scope.rest[..dot]}
  }

  function NotMounted(outer: Context): string -> bool {
    key => !Mounted(ScopeOf(key), outer)
  }

  /** Values a pass may insert hold no NUL byte. */
  ghost predicate NulFreeValues(ctx: Context) {
    forall scope :: PlainScope(scope) && LookupIn(scope, ctx).Found? ==> NulFree(LookupIn(scope, ctx).v)
  }

  /** The names in a key hold no dollar sign. */
  ghost predicate PlainScope(scope: Scope) {
    match scope
    case TaskResultPath(rest) => Plain(rest)
    case StepResultPath(rest) => Plain(rest)
    case Workspaces(rest) => Plain(rest)
    case _ => true
  }

  lemma KeyScopeIsPlain(key: string)
    requires IsKey(key)
    ensures PlainScope(ScopeOf(key))
  {
    KeySuffixIsPlain(key);
  }

  lemma KeySuffixIsPlain(key: string)
    requires IsKey(key)
    ensures forall n: nat :: n <= |key| ==> Plain(key[n..])
  {
  }

  lemma KeyIsNulFree(key: string)
    requires IsKey(key)
    ensures NulFree(Token(key))
  {
  }

  /** What the inner pass finds without a binding is what the task scope finds. */
  lemma InnerScope(scope: Scope, params: map<string, string>, outer: Context)
    requires PlainScope(scope) && !Mounted(scope, outer)
    ensures
      var l := LookupIn(scope, InnerContext(params, outer.json));
      && (Bound(scope, params) ==> l == Found(params[scope.rest]))
      && (!Bound(scope, params) && l.Found? ==> Plain(l.v) && LookupIn(scope, outer) == l)
      && (l.Literal? ==> LookupIn(scope, outer) == Literal)
  {
    var inner := InnerContext(params, outer.json);
    match scope
    case Params(rest) => InnerParams(rest, params, inner);
    case Tasks(rest) => InnerTasks(rest, inner);
    case TaskResultPath(rest) => assert HasSuffix(rest, ".path") ==> Plain("/tekton/results/" + Before(rest, ".path"));
    case Workspaces(rest) => InnerWorkspaces(rest, inner, outer);
    case _ =>
  }

  lemma InnerParams(rest: string, params: map<string, string>, inner: Context)
    requires inner.params == params && inner.arrayParams == map[] && inner.objectParams == map[]
    ensures LookupParam(rest, inner) ==
      if !HasSuffix(rest, "[*]") && rest in params then Found(params[rest]) else Unknown
  {
  }

  lemma InnerTasks(rest: string, inner: Context)
    requires inner.results == map[] && inner.statuses == None
    ensures LookupTasks(rest, inner) == Unknown
  {
  }

  lemma InnerWorkspaces(rest: string, inner: Context, outer: Context)
    requires Plain(rest) && !Mounted(Workspaces(rest), outer)
    requires inner.workspacePaths == map[] && inner.boundWorkspaces == None
    ensures
      var l := LookupWorkspace(rest, inner);
      !l.Literal? && (l.Found? ==> Plain(l.v) && LookupWorkspace(rest, outer) == l)
  {
    var dot := LastIndexOf(rest, '.');
    assert dot >= 0 ==> Plain("/workspace/" + rest[..dot]) && Plain(rest[..dot]);
  }

  lemma RefsNulFree(ctx: Context, mode: Mode)
    requires NulFreeValues(ctx) && !mode.DeferAll?
    ensures NulFreeResolve(Refs(ctx, mode))
  {
    forall key | IsKey(key) && Refs(ctx, mode)(key).Ok? ensures NulFree(Refs(ctx, mode)(key).value) {
      KeyIsNulFree(key);
      KeyScopeIsPlain(key);
    }
  }

  /** What the inner pass leaves: the bound text, a finished value, or the reference itself. */
  lemma InnerResolve(key: string, scope: Scope, params: map<string, string>, outer: Context, mode: Mode)
    requires PlainScope(scope) && !Mounted(scope, outer) && !mode.DeferAll?
    ensures
      var r := ResolveIn(key, scope, InnerContext(params, outer.json), DeferAll);
      r.Ok? ==>
        if Bound(scope, params) then r.value == params[scope.rest]
        else r.value == Token(key) || (Plain(r.value) && ResolveIn(key, scope, outer, mode) == r)
  {
    InnerScope(scope, params, outer);
  }

  /** One reference: inner pass, then outer pass, is the composite meaning. */
  lemma ComposeIn(key: string, scope: Scope, params: map<string, string>, outer: Context, mode: Mode, f: Resolve)
    requires IsKey(key) && PlainScope(scope) && !Mounted(scope, outer) && !mode.DeferAll?
    requires forall p :: p in params ==> Clean(params[p])
    requires NulFreeResolve(f) && f(key) == ResolveIn(key, scope, outer, mode)
    ensures
      var r := ResolveIn(key, scope, InnerContext(params, outer.json), DeferAll);
      r.Ok? ==>
        && Clean(r.value) && AllRefs(r.value, k => true)
        && Expand(r.value, f) == if Bound(scope, params) then SubstituteWith(params[scope.rest], f) else f(key)
  {
    InnerResolve(key, scope, params, outer, mode);
    ExpandToken(key, f, k => true);
    var r := ResolveIn(key, scope, InnerContext(params, outer.json), DeferAll);
    if r.Ok? {
      EveryRef(r.value, k => true);
      if Bound(scope, params) {
        ExpandNulFree(r.value, f);
        CleanSubstitute(r.value, f);
      } else if Plain(r.value) {
        PlainExpands(r.value, f, k => true);
      }
    }
  }

  lemma ComposeRef(key: string, params: map<string, string>, outer: Context, mode: Mode)
    requires IsKey(key) && !Mounted(ScopeOf(key), outer) && !mode.DeferAll?
    requires forall p :: p in params ==> Clean(params[p])
    requires NulFreeValues(outer)
    ensures Composes(key, Refs(InnerContext(params, outer.json), DeferAll), Refs(outer, mode),
                     CompositeRefs(params, outer, mode), k => true)
  {
    KeyScopeIsPlain(key);
    RefsNulFree(outer, mode);
    ComposeIn(key, ScopeOf(key), params, outer, mode, Refs(outer, mode));
  }

  /** $(tasks.status) or the status of one task: what only a finally task's own scope knows. */
  predicate ReadsStatus(scope: Scope) {
    scope.Tasks? && (scope.rest == "status" || NamesStatus(SplitDots(scope.rest, 3)))
  }

  /** The outer scope cannot tell a status, or the reference does not ask for one. */
  function NoStatus(outer: Context): string -> bool {
    key => outer.statuses.None? || !ReadsStatus(ScopeOf(key))
  }

  /** What the inner pass gives up on, the outer scope does not know either. */
  lemma GivenUpIn(key: string, scope: Scope, params: map<string, string>, outer: Context, mode: Mode)
    requires scope == ScopeOf(key) && (outer.statuses.None? || !ReadsStatus(scope)) && !mode.DeferAll?
    requires ResolveIn(key, scope, InnerContext(params, outer.json), DeferAll).Err?
    ensures !Bound(scope, params) && ResolveIn(key, scope, outer, mode).Err?
  {
    match scope
    case Tasks(rest) => GivenUpTasks(key, rest, params, outer);
    case Workspaces(rest) => GivenUpWorkspace(key, rest, params, outer);
    case _ =>
  }

  /** A tasks reference is left to the outer pass exactly when it names a result. */
  lemma DeferrableTasks(key: string, rest: string, ctx: Context)
    requires key == "tasks" + "." + rest
    ensures Deferrable(key, Tasks(rest), ctx) <==> NamesResult(SplitDots(rest, 3))
  {
    SplitFirst("tasks", rest, 4);
  }

  lemma TasksKey(key: string, rest: string)
    requires ScopeOf(key) == Tasks(rest)
    ensures key == "tasks" + "." + rest
  {
    TasksScope(key);
    assert "tasks." + rest == "tasks" + "." + rest;
  }

  lemma GivenUpTasks(key: string, rest: string, params: map<string, string>, outer: Context)
    requires ScopeOf(key) == Tasks(rest) && (outer.statuses.None? || !ReadsStatus(Tasks(rest)))
    requires !Deferrable(key, Tasks(rest), InnerContext(params, outer.json))
    ensures LookupTasks(rest, outer) == Unknown
  {
    TasksKey(key, rest);
    DeferrableTasks(key, rest, InnerContext(params, outer.json));
  }

  lemma WorkspacesScope(key: string)
    requires ScopeOf(key).Workspaces?
    ensures key == "workspaces." + ScopeOf(key).rest
  {
  }

  lemma BoundSuffix(front: string, rest: string, dot: nat)
    requires dot < |rest| && rest[dot] == '.' && rest[dot + 1..] == "bound"
    ensures HasSuffix(front + rest, ".bound")
  {
    assert rest[dot..] == ".bound";
    assert (front + rest)[|front| + dot..] == rest[dot..];
  }

  lemma GivenUpWorkspace(key: string, rest: string, params: map<string, string>, outer: Context)
    requires ScopeOf(key) == Workspaces(rest) && LookupWorkspace(rest, InnerContext(params, outer.json)) == Unknown
    requires !Deferrable(key, Workspaces(rest), InnerContext(params, outer.json))
    ensures LookupWorkspace(rest, outer) == Unknown
  {
    WorkspacesScope(key);
    UnknownWorkspace(key, rest, InnerContext(params, outer.json), outer);
  }

  lemma UnknownWorkspace(key: string, rest: string, inner: Context, outer: Context)
    requires key == "workspaces." + rest && LookupWorkspace(rest, inner) == Unknown && inner.boundWorkspaces.None?
    requires !HasSuffix(key, ".bound")
    ensures LookupWorkspace(rest, outer) == Unknown
  {
    var dot := LastIndexOf(rest, '.');
    if dot >= 0 && rest[dot + 1..] == "bound" {
      BoundSuffix("workspaces.", rest, dot);
    }
  }

  lemma GivenUp(key: string, params: map<string, string>, outer: Context, mode: Mode)
    requires NoStatus(outer)(key) && !mode.DeferAll? && Refs(InnerContext(params, outer.json), DeferAll)(key).Err?
    ensures CompositeRefs(params, outer, mode)(key).Err?
  {
    GivenUpIn(key, ScopeOf(key), params, outer, mode);
  }

  /** Where the inner pass fails, so does the one-pass meaning. */
  lemma InnerFailsToo(s: string, params: map<string, string>, outer: Context, mode: Mode)
    requires Clean(s) && AllRefs(s, NoStatus(outer)) && !mode.DeferAll?
    requires Substitute(s, InnerContext(params, outer.json), DeferAll).Err?
    ensures SubstituteWith(s, CompositeRefs(params, outer, mode)).Err?
  {
    var first, both := Refs(InnerContext(params, outer.json), DeferAll), CompositeRefs(params, outer, mode);
    forall key | IsKey(key) && NoStatus(outer)(key) ensures first(key).Err? ==> both(key).Err? {
      if first(key).Err? {
        GivenUp(key, params, outer, mode);
      }
    }
    RefsWeaken(s, NoStatus(outer), key => first(key).Err? ==> both(key).Err?);
    SubstitutionFailsToo(s, first, both);
  }

  /** A status the outer scope could tell is lost: the inner pass fails on it. */
  lemma StatusIsLost(key: string, params: map<string, string>, outer: Context, mode: Mode)
    requires IsKey(key) && ReadsStatus(ScopeOf(key)) && outer.statuses.Some? && NulFreeValues(outer) && !mode.DeferAll?
    requires LookupIn(ScopeOf(key), outer).Found?
    ensures Substitute(Token(key), InnerContext(params, outer.json), DeferAll).Err?
    ensures SubstituteWith(Token(key), CompositeRefs(params, outer, mode)).Ok?
  {
    StatusInnerFails(key, ScopeOf(key), params, outer.json);
    ExpandToken(key, Refs(InnerContext(params, outer.json), DeferAll), k => true);
    CleanEscape(Token(key));
    KeyScopeIsPlain(key);
    TokenSubstitutes(key, CompositeRefs(params, outer, mode));
  }

  lemma StatusInnerFails(key: string, scope: Scope, params: map<string, string>, json: Json)
    requires scope == ScopeOf(key) && ReadsStatus(scope)
    ensures ResolveIn(key, scope, InnerContext(params, json), DeferAll).Err?
  {
    TasksKey(key, scope.rest);
    DeferrableTasks(key, scope.rest, InnerContext(params, json));
    InnerTasks(scope.rest, InnerContext(params, json));
    StatusIsNoResult(scope.rest);
  }

  lemma StatusIsNoResult(rest: string)
    requires ReadsStatus(Tasks(rest))
    ensures !NamesResult(SplitDots(rest, 3))
  {
    if rest == "status" {
      assert forall i :: 0 <= i < |rest| ==> rest[i..] != [] && rest[i..][0] != '.';
    }
  }

  /** StepAction composition: the deferring inner pass followed by the task pass is one substitution
      with the composite meaning. Where the inner pass fails, so does that substitution. */
  lemma StepActionComposition(s: string, params: map<string, string>, outer: Context, mode: Mode)
    requires Clean(s) && AllRefs(s, NotMounted(outer)) && !mode.DeferAll?
    requires forall p :: p in params ==> Clean(params[p])
    requires NulFreeValues(outer)
    ensures
      var once := SubstituteWith(s, CompositeRefs(params, outer, mode));
      match Substitute(s, InnerContext(params, outer.json), DeferAll)
      case Ok(mid) => Clean(mid) && Substitute(mid, outer, mode) == once
      case Err(_) => AllRefs(s, NoStatus(outer)) ==> once.Err?
  {
    if Substitute(s, InnerContext(params, outer.json), DeferAll).Err? && AllRefs(s, NoStatus(outer)) {
      InnerFailsToo(s, params, outer, mode);
    }
    var first, second, both := Refs(InnerContext(params, outer.json), DeferAll), Refs(outer, mode),
      CompositeRefs(params, outer, mode);
    var p := (k: string) => true;
    forall key | IsKey(key) && NotMounted(outer)(key) ensures Composes(key, first, second, both, p) {
      ComposeRef(key, params, outer, mode);
    }
    RefsWeaken(s, NotMounted(outer), key => Composes(key, first, second, both, p));
    TwoSubstitutions(s, first, second, both, p);
  }

  /** The mount condition is needed: the inner pass puts the default path where a mounted
      workspace is referenced, and the task pass never sees the reference. */
  lemma MountedIsLost(key: string, params: map<string, string>, outer: Context, mode: Mode)
    requires IsKey(key) && Mounted(ScopeOf(key), outer) && NulFreeValues(outer) && !mode.DeferAll?
    ensures
      var mid := Substitute(Token(key), InnerContext(params, outer.json), DeferAll);
      mid.Ok? && Substitute(mid.value, outer, mode) != SubstituteWith(Token(key), CompositeRefs(params, outer, mode))
  {
    KeyScopeIsPlain(key);
    var path := MountedRef(key, ScopeOf(key), params, outer, mode);
    TokenSubstitutes(key, Refs(InnerContext(params, outer.json), DeferAll));
    TokenSubstitutes(key, CompositeRefs(params, outer, mode));
    PlainExpands(path, Refs(outer, mode), k => true);
    CleanSubstitute(path, Refs(outer, mode));
  }

  lemma MountedRef(key: string, scope: Scope, params: map<string, string>, outer: Context, mode: Mode)
    returns (path: string)
    requires PlainScope(scope) && Mounted(scope, outer) && NulFreeValues(outer) && !mode.DeferAll?
    ensures Plain(path) && ResolveIn(key, scope, InnerContext(params, outer.json), DeferAll) == Ok(path)
    ensures
      var r := ResolveIn(key, scope, outer, mode);
      r.Ok? && r.value != path && NulFree(r.value) && !Bound(scope, params)
  {
    path := "/workspace/" + scope.rest[..LastIndexOf(scope.rest, '.')];
    assert LookupIn(scope, outer).Found?;
  }

  lemma TokenSubstitutes(key: string, f: Resolve)
    requires IsKey(key) && f(key).Ok? && NulFree(f(key).value)
    ensures SubstituteWith(Token(key), f) == f(key)
  {
    ExpandToken(key, f, k => true);
    CleanSubstitute(Token(key), f);
  }

  // ---------------------------------------------------------------- task pass and step pass

  /** The per-step context of the docker backend: earlier steps' results and the step's name. */
  function StepContext(stepResults: map<string, map<string, string>>, step: string, json: Json): Context {
    Context(map[], map[], map[], map[], map[], Some(stepResults), step, None, None, map[], json)
  }

  /** The task context with the step scope added. */
  function Merged(task: Context, stepResults: map<string, map<string, string>>, step: string): Context {
    task.(stepResults := Some(stepResults), currentStep := step)
  }

  /** A context of the task pass: no step scope yet. */
  predicate TaskScoped(ctx: Context) {
    ctx.stepResults.None? && ctx.currentStep == ""
  }

  /** $(step.results.X.path) or $(steps.S.results.X). */
  predicate StepRef(scope: Scope) {
    match scope
    case StepResultPath(rest) => HasSuffix(rest, ".path")
    case Steps(key) => var parts := SplitDots(key, 4); |parts| == 4 && parts[2] == "results"
    case _ => false
  }

  /** The references that may remain after the task pass. */
  function StepOrForeign(): string -> bool {
    key => StepRef(ScopeOf(key)) || ScopeOf(key).Foreign?
  }

  /** Values a pass may insert hold neither a dollar sign nor a NUL byte. */
  ghost predicate PlainValues(ctx: Context) {
    forall scope :: PlainScope(scope) && LookupIn(scope, ctx).Found? ==> Plain(LookupIn(scope, ctx).v)
  }

  /** How the three contexts read one scope. */
  lemma StageScope(scope: Scope, task: Context, stepResults: map<string, map<string, string>>, step: string)
    requires TaskScoped(task)
    ensures
      var l, m := LookupIn(scope, task), LookupIn(scope, Merged(task, stepResults, step));
      match l
      case Found(_) => m == l
      case Literal => scope == Foreign
      case Deferred => StepRef(scope) && m == LookupIn(scope, StepContext(stepResults, step, task.json))
      case Unknown => m == Unknown
  {
    var merged := Merged(task, stepResults, step);
    match scope
    case Params(rest) => SameParams(rest, task, merged);
    case Tasks(rest) => SameTasks(rest, task, merged);
    case Workspaces(rest) => SameWorkspaces(rest, task, merged);
    case Steps(key) => StageSteps(key, task, merged, StepContext(stepResults, step, task.json));
    case _ =>
  }

  lemma SameParams(rest: string, a: Context, b: Context)
    requires a.params == b.params && a.arrayParams == b.arrayParams && a.objectParams == b.objectParams
    ensures LookupParam(rest, a) == LookupParam(rest, b)
    ensures !LookupParam(rest, a).Literal? && !LookupParam(rest, a).Deferred?
  {
  }

  lemma SameTasks(rest: string, a: Context, b: Context)
    requires a.results == b.results && a.statuses == b.statuses && a.json == b.json
    ensures LookupTasks(rest, a) == LookupTasks(rest, b) && !LookupTasks(rest, a).Literal?
      && !LookupTasks(rest, a).Deferred?
  {
    SameTaskParts(SplitDots(rest, 3), a, b);
  }

  lemma SameTaskParts(parts: seq<string>, a: Context, b: Context)
    requires a.results == b.results && a.statuses == b.statuses && a.json == b.json
    ensures LookupTaskParts(parts, a) == LookupTaskParts(parts, b)
    ensures !LookupTaskParts(parts, a).Literal? && !LookupTaskParts(parts, a).Deferred?
  {
    if |parts| == 3 {
      SameTaskResult(parts[0], parts[2], a, b);
    }
  }

  lemma SameTaskResult(task: string, sel: string, a: Context, b: Context)
    requires a.results == b.results && a.json == b.json
    ensures LookupTaskResult(task, sel, a) == LookupTaskResult(task, sel, b)
    ensures !LookupTaskResult(task, sel, a).Literal? && !LookupTaskResult(task, sel, a).Deferred?
  {
  }

  lemma SameWorkspaces(rest: string, a: Context, b: Context)
    requires a.workspacePaths == b.workspacePaths && a.boundWorkspaces == b.boundWorkspaces
    ensures LookupWorkspace(rest, a) == LookupWorkspace(rest, b)
    ensures !LookupWorkspace(rest, a).Literal? && !LookupWorkspace(rest, a).Deferred?
  {
  }

  lemma StageSteps(key: string, task: Context, merged: Context, step: Context)
    requires task.stepResults == None && merged.stepResults == step.stepResults
    ensures LookupSteps(key, task) == if StepRef(Steps(key)) then Deferred else Unknown
    ensures LookupSteps(key, merged) == LookupSteps(key, step)
    ensures !StepRef(Steps(key)) ==> LookupSteps(key, merged) == Unknown
  {
  }

  /** One reference: task pass, then step pass, is the strict pass under the merged context. */
  lemma StageIn(key: string, scope: Scope, task: Context,
      stepResults: map<string, map<string, string>>, step: string, f: Resolve, p: string -> bool)
    requires IsKey(key) && TaskScoped(task) && PlainValues(task) && PlainScope(scope)
    requires f(key) == ResolveIn(key, scope, StepContext(stepResults, step, task.json), Strict)
    requires p(key) == (StepRef(scope) || scope.Foreign?)
    ensures
      var r, once := ResolveIn(key, scope, task, DeferStep),
        ResolveIn(key, scope, Merged(task, stepResults, step), Strict);
      && (r.Ok? ==> Clean(r.value) && AllRefs(r.value, p) && Expand(r.value, f) == once)
      && (r.Err? ==> once.Err?)
  {
    StageScope(scope, task, stepResults, step);
    StageLookup(key, LookupIn(scope, task), LookupIn(scope, Merged(task, stepResults, step)), f, p);
  }

  lemma StageLookup(key: string, l: Lookup, m: Lookup, f: Resolve, p: string -> bool)
    requires IsKey(key) && (l.Found? ==> m == l && Plain(l.v)) && (l.Unknown? ==> m == Unknown)
    requires l.Literal? || l.Deferred? ==> p(key) && f(key) == Replacement(key, m, Strict)
    ensures
      var r, once := Replacement(key, l, DeferStep), Replacement(key, m, Strict);
      && (r.Ok? ==> Clean(r.value) && AllRefs(r.value, p) && Expand(r.value, f) == once)
      && (r.Err? ==> once.Err?)
  {
    ExpandToken(key, f, p);
    if l.Found? {
      PlainExpands(l.v, f, p);
    }
  }

  lemma StageRef(key: string, task: Context, stepResults: map<string, map<string, string>>, step: string)
    requires IsKey(key) && TaskScoped(task) && PlainValues(task)
    ensures Composes(key, Refs(task, DeferStep), Refs(StepContext(stepResults, step, task.json), Strict),
                     Refs(Merged(task, stepResults, step), Strict), StepOrForeign())
    ensures Refs(task, DeferStep)(key).Err? ==> Refs(Merged(task, stepResults, step), Strict)(key).Err?
  {
    KeyScopeIsPlain(key);
    StageIn(key, ScopeOf(key), task, stepResults, step, Refs(StepContext(stepResults, step, task.json), Strict),
      StepOrForeign());
  }

  /** Staging: the task pass that leaves step references alone, followed by the strict per-step
      pass, is one strict pass with everything in scope; it fails exactly when that pass fails,
      and between the passes the only Tekton references left are step references. */
  lemma Staging(s: string, task: Context, stepResults: map<string, map<string, string>>, step: string)
    requires Clean(s) && TaskScoped(task) && PlainValues(task)
    ensures
      var once := Substitute(s, Merged(task, stepResults, step), Strict);
      match Substitute(s, task, DeferStep)
      case Ok(mid) =>
        && Clean(mid) && AllRefs(mid, StepOrForeign())
        && Substitute(mid, StepContext(stepResults, step, task.json), Strict) == once
      case Err(_) => once.Err?
  {
    var first, second, both := Refs(task, DeferStep), Refs(StepContext(stepResults, step, task.json), Strict),
      Refs(Merged(task, stepResults, step), Strict);
    forall key | IsKey(key)
      ensures Composes(key, first, second, both, StepOrForeign()) && (first(key).Err? ==> both(key).Err?)
    {
      StageRef(key, task, stepResults, step);
    }
    EveryRef(s, key => Composes(key, first, second, both, StepOrForeign()));
    EveryRef(s, key => first(key).Err? ==> both(key).Err?);
    TwoSubstitutions(s, first, second, both, StepOrForeign());
    SubstitutionFailsToo(s, first, both);
  }

  /** All three passes over a StepAction body are one strict substitution. */
  lemma ThreePasses(s: string, params: map<string, string>, task: Context,
                    stepResults: map<string, map<string, string>>, step: string)
    requires Clean(s) && AllRefs(s, NotMounted(task)) && TaskScoped(task)
    requires forall p :: p in params ==> Clean(params[p])
    requires PlainValues(task) && NulFreeValues(task) && NulFreeValues(Merged(task, stepResults, step))
    ensures
      var once := SubstituteWith(s, CompositeRefs(params, Merged(task, stepResults, step), Strict));
      match Substitute(s, InnerContext(params, task.json), DeferAll)
      case Ok(inlined) =>
        (match Substitute(inlined, task, DeferStep)
         case Ok(mid) => Substitute(mid, StepContext(stepResults, step, task.json), Strict) == once
         case Err(_) => once.Err?)
      case Err(_) => AllRefs(s, NoStatus(task)) ==> once.Err?
  {
    var inlined := Substitute(s, InnerContext(params, task.json), DeferAll);
    var merged := Merged(task, stepResults, step);
    RefsWeaken(s, NotMounted(task), NotMounted(merged));
    StepActionComposition(s, params, merged, Strict);
    if inlined.Ok? {
      Staging(inlined.value, task, stepResults, step);
    }
  }

  // ---------------------------------------------------------------- checkable conditions

  /** Every string stored in the context, and every string its JSON decodes to, is plain. */
  ghost predicate PlainContext(ctx: Context) {
    && (forall k :: k in ctx.params ==> Plain(ctx.params[k]))
    && (forall k, i :: k in ctx.arrayParams && 0 <= i < |ctx.arrayParams[k]| ==> Plain(ctx.arrayParams[k][i]))
    && (forall o, k :: o in ctx.objectParams && k in ctx.objectParams[o] ==> Plain(ctx.objectParams[o][k]))
    && (forall t, k :: t in ctx.results && k in ctx.results[t] ==> PlainResult(ctx.results[t][k], ctx.json))
    && (forall k :: k in ctx.contextVars ==> Plain(ctx.contextVars[k]))
    && (ctx.statuses.Some? ==> PlainStatuses(ctx.statuses.value))
    && (forall w :: w in ctx.workspacePaths ==> Plain(ctx.workspacePaths[w]))
  }

  ghost predicate PlainStatuses(st: Statuses) {
    Plain(st.aggregate) && forall t :: t in st.perTask ==> Plain(st.perTask[t])
  }

  ghost predicate PlainResult(v: string, json: Json) {
    && Plain(v)
    && (json.asArray(v).Some? ==> forall i :: 0 <= i < |json.asArray(v).value| ==> Plain(json.asArray(v).value[i]))
    && (json.asObject(v).Some? ==> forall k :: k in json.asObject(v).value ==> Plain(json.asObject(v).value[k]))
  }

  /** A context that stores plain strings inserts plain strings. */
  lemma PlainContextInserts(ctx: Context)
    requires PlainContext(ctx) && TaskScoped(ctx)
    ensures PlainValues(ctx) && NulFreeValues(ctx)
  {
    forall scope | PlainScope(scope) && LookupIn(scope, ctx).Found? ensures Plain(LookupIn(scope, ctx).v) {
      match scope
      case Params(rest) => PlainParams(rest, ctx);
      case Tasks(rest) => PlainTasks(rest, ctx);
      case Workspaces(rest) => PlainWorkspaces(rest, ctx);
      case _ =>
    }
  }

  lemma PlainParams(rest: string, ctx: Context)
    requires PlainContext(ctx)
    ensures LookupParam(rest, ctx).Found? ==> Plain(LookupParam(rest, ctx).v)
  {
  }

  lemma PlainTasks(rest: string, ctx: Context)
    requires PlainContext(ctx)
    ensures LookupTasks(rest, ctx).Found? ==> Plain(LookupTasks(rest, ctx).v)
  {
    PlainTaskParts(SplitDots(rest, 3), ctx);
  }

  lemma PlainTaskParts(parts: seq<string>, ctx: Context)
    requires PlainContext(ctx)
    ensures LookupTaskParts(parts, ctx).Found? ==> Plain(LookupTaskParts(parts, ctx).v)
  {
    if |parts| == 3 {
      PlainTaskResult(parts[0], parts[2], ctx);
    }
  }

  lemma PlainTaskResult(task: string, sel: string, ctx: Context)
    requires PlainContext(ctx)
    ensures LookupTaskResult(task, sel, ctx).Found? ==> Plain(LookupTaskResult(task, sel, ctx).v)
  {
  }

  lemma PlainWorkspaces(rest: string, ctx: Context)
    requires PlainContext(ctx) && Plain(rest)
    ensures LookupWorkspace(rest, ctx).Found? ==> Plain(LookupWorkspace(rest, ctx).v)
  {
  }
}
