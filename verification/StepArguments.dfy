/** Argument lists of inlined steps. */
module StepArguments {
  import opened Wrappers
  import opened Text
  import opened Resolver
  import opened Templates
  import opened SubstitutionLaws
  import opened References
  import opened Binding
  import opened Agreement
  import opened StepActions

  // ---------------------------------------------------------------- argument lists

  /** One pass makes one argument of it, and what the other makes of that is the composite. */
  predicate OneToOne(a: string, first: ArgPass, second: ArgPass, both: ArgPass) {
    first(a).Ok? ==> |first(a).value| == 1 && second(first(a).value[0]) == both(a)
  }

  lemma {:induction false} ArgsCompose(args: seq<string>, first: ArgPass, second: ArgPass, both: ArgPass)
    requires forall i :: 0 <= i < |args| ==> OneToOne(args[i], first, second, both)
    ensures
      var mid := Args(args, first);
      mid.Ok? ==> |mid.value| == |args| && Args(mid.value, second) == Args(args, both)
  {
    if args != [] {
      var init, last := args[..|args| - 1], args[|args| - 1];
      ArgsCompose(init, first, second, both);
      assert OneToOne(last, first, second, both);
      var mid := Args(args, first);
      if mid.Ok? {
        assert mid.value[..|mid.value| - 1] == Args(init, first).value;
      }
    }
  }

  // ---------------------------------------------------------------- arguments that are whole arrays

  /** A reference that stands for nothing in a StepAction: a param bound to the empty text, or one of
      the workspace attributes that are always empty. */
  predicate Blank(scope: Scope, params: map<string, string>) {
    if Bound(scope, params) then params[scope.rest] == ""
    else scope.Workspaces? && (HasSuffix(scope.rest, ".claim") || scope.rest == ".volume")
  }

  /** The text holds nothing but references that stand for nothing. */
  predicate AllBlank(s: string, params: map<string, string>)
    decreases |s|
  {
    s == [] ||
    var n := RefLength(s);
    n > 0 && Blank(ScopeOf(s[2..n - 1]), params) && AllBlank(s[n..], params)
  }

  /** The whole-array reference a reference stands for: the one it is bound to, or itself. */
  function ArrayFor(key: string, params: map<string, string>): (r: Option<string>)
    ensures r.Some? ==> IsArrayStarRef(r.value)
  {
    var scope := ScopeOf(key);
    var text := if Bound(scope, params) then params[scope.rest] else Token(key);
    if IsArrayStarRef(text) then Some(text) else None
  }

  /** The whole-array reference an argument comes down to: one reference stands for it, and all
      others for nothing. */
  function ArrayOf(s: string, params: map<string, string>): (r: Option<string>)
    ensures r.Some? ==> IsArrayStarRef(r.value)
    decreases |s|
  {
    var n := RefLength(s);
    if n == 0 then None
    else
      var key := s[2..n - 1];
      if Blank(ScopeOf(key), params) then ArrayOf(s[n..], params)
      else if AllBlank(s[n..], params) then ArrayFor(key, params)
      else None
  }

  function Inner(params: map<string, string>, json: Json): Resolve {
    Refs(InnerContext(params, json), DeferAll)
  }

  lemma LastPart(rest: string, attr: string)
    requires '.' !in attr
    ensures HasSuffix(rest, "." + attr) <==> LastIndexOf(rest, '.') >= 0 && rest[LastIndexOf(rest, '.') + 1..] == attr
  {
    var dot := LastIndexOf(rest, '.');
    if HasSuffix(rest, "." + attr) {
      var i := |rest| - |attr| - 1;
      assert rest[i..] == "." + attr;
      assert rest[i] == rest[i..][0] == '.' && forall j :: i < j < |rest| ==> rest[j] == attr[j - i - 1] != '.';
      assert dot == i;
      assert rest[i + 1..] == rest[i..][1..] == attr;
    }
    if dot >= 0 && rest[dot + 1..] == attr {
      assert rest[dot..] == "." + attr;
    }
  }

  lemma BlankWorkspace(rest: string, ctx: Context)
    requires ctx.workspacePaths == map[] && ctx.boundWorkspaces.None?
    ensures LookupWorkspace(rest, ctx) == Found("") <==> HasSuffix(rest, ".claim") || rest == ".volume"
  {
    EmptyAttribute(rest, ctx);
    LastPart(rest, "claim");
    assert "." + "claim" == ".claim";
    VolumeAlone(rest);
  }

  lemma EmptyAttribute(rest: string, ctx: Context)
    requires ctx.workspacePaths == map[] && ctx.boundWorkspaces.None?
    ensures
      var dot := LastIndexOf(rest, '.');
      LookupWorkspace(rest, ctx) == Found("") <==>
        dot >= 0 && (rest[dot + 1..] == "claim" || (dot == 0 && rest[dot + 1..] == "volume"))
  {
  }

  lemma VolumeAlone(rest: string)
    ensures rest == ".volume" <==> LastIndexOf(rest, '.') == 0 && rest[1..] == "volume"
  {
    if rest == ".volume" {
      assert rest[1..] == "volume" && forall i :: 1 <= i < |rest| ==> rest[i] != '.';
    }
    assert "." + "volume" == ".volume";
    if LastIndexOf(rest, '.') == 0 {
      assert rest == "." + rest[1..];
    }
  }

  /** A reference contributes nothing to the StepAction pass exactly when it is blank. */
  lemma BlankContributes(key: string, scope: Scope, params: map<string, string>, json: Json)
    requires ResolveIn(key, scope, InnerContext(params, json), DeferAll).Ok?
    ensures ResolveIn(key, scope, InnerContext(params, json), DeferAll).value == "" <==> Blank(scope, params)
  {
    var inner := InnerContext(params, json);
    match scope
    case Params(rest) => InnerParams(rest, params, inner);
    case Tasks(rest) => InnerTasks(rest, inner);
    case Workspaces(rest) => BlankWorkspace(rest, inner);
    case _ =>
  }

  /** What a reference contributes: the text it is bound to, itself, or a finished text. */
  lemma Contributes(key: string, params: map<string, string>, json: Json)
    requires IsKey(key) && Inner(params, json)(key).Ok?
    ensures
      var scope, c := ScopeOf(key), Inner(params, json)(key).value;
      && (c == "" <==> Blank(scope, params))
      && (if Bound(scope, params) then c == params[scope.rest] else c == Token(key) || Plain(c))
  {
    KeyScopeIsPlain(key);
    BlankContributes(key, ScopeOf(key), params, json);
    InnerResolve(key, ScopeOf(key), params, InnerContext(params, json), Strict);
  }

  /** A whole-array reference that is not bound is left as it is. */
  lemma StarIsKept(key: string, params: map<string, string>, json: Json)
    requires IsArrayStarRef(Token(key)) && !Bound(ScopeOf(key), params) && Inner(params, json)(key).Ok?
    ensures Inner(params, json)(key).value == Token(key)
  {
    StarScope(key);
    StarIsKeptIn(key, ScopeOf(key), params, json);
  }

  /** How the key of a whole-array reference looks. */
  lemma StarKey(key: string)
    requires IsArrayStarRef(Token(key))
    ensures (HasPrefix(key, "params.") && |key| >= 10) || HasPrefix(key, "tasks.")
    ensures HasSuffix(key, "[*]")
  {
    var s := Token(key);
    assert s[2..|s| - 1] == key;
    if HasPrefix(s, "$(params.") {
      assert s[..9] == "$(params.";
      assert key[..7] == s[2..9] == "params.";
    } else {
      assert s[..8] == "$(tasks.";
      assert key[..6] == s[2..8] == "tasks.";
    }
    assert s[|s| - 4..] == "[*])";
    assert key[|key| - 3..] == s[|s| - 4..|s| - 1] == "[*]";
  }

  lemma StarScope(key: string)
    requires IsArrayStarRef(Token(key))
    ensures ScopeOf(key).Foreign? || ScopeOf(key).Params? || ScopeOf(key).Tasks?
  {
    StarKey(key);
  }

  lemma StarIsKeptIn(key: string, scope: Scope, params: map<string, string>, json: Json)
    requires scope.Foreign? || scope.Params? || scope.Tasks?
    requires !Bound(scope, params) && ResolveIn(key, scope, InnerContext(params, json), DeferAll).Ok?
    ensures ResolveIn(key, scope, InnerContext(params, json), DeferAll).value == Token(key)
  {
    var inner := InnerContext(params, json);
    match scope
    case Params(rest) => InnerParams(rest, params, inner);
    case Tasks(rest) => InnerTasks(rest, inner);
    case _ =>
  }

  /** The parentheses and dollar signs of a whole-array reference. */
  lemma StarFrame(x: string)
    requires IsArrayStarRef(x)
    ensures |x| > 4 && x[0] == '$' && x[1] == '(' && x[|x| - 1] == ')' && forall i :: 2 <= i < |x| - 1 ==> x[i] != ')'
  {
  }

  /** A clean text that stands at the start of a whole-array reference is all of it. */
  lemma StarIsWhole(c: string, rest: string)
    requires Clean(c) && c != "" && IsArrayStarRef(c + rest)
    ensures c == c + rest && rest == "" && RefLength(c) == |c|
  {
    StarFrame(c + rest);
    WholeReference(c, rest);
  }

  lemma WholeReference(c: string, rest: string)
    requires var x := c + rest; Clean(c) && c != "" && |x| > 4 && x[0] == '$' && x[1] == '(' && x[|x| - 1] == ')'
    requires var x := c + rest; forall i :: 2 <= i < |x| - 1 ==> x[i] != ')'
    ensures c == c + rest && rest == "" && RefLength(c) == |c|
  {
    var x, n := c + rest, RefLength(c);
    assert c[0] == x[0] && n > 0;
    assert x[n - 1] == c[n - 1] == ')';
  }

  lemma {:induction false} NothingLeft(s: string, params: map<string, string>, json: Json)
    requires Expand(s, Inner(params, json)).Ok?
    ensures Expand(s, Inner(params, json)).value == "" <==> AllBlank(s, params)
    decreases |s|
  {
    var f, n := Inner(params, json), RefLength(s);
    if s != [] {
      if n > 0 {
        Contributes(s[2..n - 1], params, json);
        NothingLeft(s[n..], params, json);
      }
    }
  }

  /** What an argument comes down to in the StepAction pass: a whole-array reference exactly when one
      of its references stands for it and all others for nothing. */
  lemma {:induction false} ComesDownTo(s: string, params: map<string, string>, json: Json)
    requires Clean(s) && (forall p :: p in params ==> Clean(params[p])) && Expand(s, Inner(params, json)).Ok?
    ensures
      var x := Expand(s, Inner(params, json)).value;
      && (IsArrayStarRef(x) <==> ArrayOf(s, params).Some?)
      && (IsArrayStarRef(x) ==> ArrayOf(s, params) == Some(x))
    decreases |s|
  {
    var n := RefLength(s);
    if n > 0 {
      var key := s[2..n - 1];
      Contributes(key, params, json);
      if Blank(ScopeOf(key), params) {
        ComesDownTo(s[n..], params, json);
        BlankFirst(s, n, params, json);
      } else {
        NothingLeft(s[n..], params, json);
        ComesDownToFirst(key, Expand(s[n..], Inner(params, json)).value, params, json);
      }
    } else if s != [] {
      LiteralFirst(s, Inner(params, json));
    }
  }

  lemma LiteralFirst(s: string, f: Resolve)
    requires s != [] && RefLength(s) == 0 && s[0] != '$' && Expand(s, f).Ok?
    ensures !IsArrayStarRef(Expand(s, f).value)
  {
    assert Expand(s, f).value[0] == s[0];
  }

  lemma BlankFirst(s: string, n: nat, params: map<string, string>, json: Json)
    requires n == RefLength(s) > 0 && Expand(s, Inner(params, json)).Ok? && Inner(params, json)(s[2..n - 1]) == Ok("")
    ensures Expand(s[n..], Inner(params, json)) == Expand(s, Inner(params, json))
  {
    var rest := Expand(s[n..], Inner(params, json));
    assert "" + rest.value == rest.value;
  }

  lemma ComesDownToFirst(key: string, rest: string, params: map<string, string>, json: Json)
    requires IsKey(key) && Inner(params, json)(key).Ok? && !Blank(ScopeOf(key), params)
    requires forall p :: p in params ==> Clean(params[p])
    ensures
      var x := Inner(params, json)(key).value + rest;
      && (IsArrayStarRef(x) <==> rest == "" && ArrayFor(key, params).Some?)
      && (IsArrayStarRef(x) ==> ArrayFor(key, params) == Some(x))
  {
    var c := Inner(params, json)(key).value;
    Contributes(key, params, json);
    TokenIsRef(key);
    if IsArrayStarRef(c + rest) {
      StarFrame(c + rest);
      assert (c + rest)[0] == c[0];
      StarIsWhole(c, rest);
    }
    if rest == "" {
      assert c + rest == c;
      if !Bound(ScopeOf(key), params) && IsArrayStarRef(Token(key)) {
        StarIsKept(key, params, json);
      }
    }
  }

  // ---------------------------------------------------------------- what arguments mean

  function Single(r: Result<string, string>): Result<seq<string>, string> {
    match r
    case Ok(v) => Ok([v])
    case Err(e) => Err(e)
  }

  /** What an argument of a StepAction contributes in the task's scope: the elements of the array it
      comes down to, or else its one-pass meaning. */
  function ArgMeaning(a: string, params: map<string, string>, task: Context, mode: Mode): Result<seq<string>, string> {
    match ArrayOf(a, params)
    case Some(star) => ExpandArrayStar(star, task)
    case None => Single(SubstituteWith(a, CompositeRefs(params, task, mode)))
  }

  function ArgMeanings(params: map<string, string>, task: Context, mode: Mode): ArgPass {
    a => ArgMeaning(a, params, task, mode)
  }

  lemma TextArg(a: string, ctx: Context, mode: Mode)
    requires !IsArrayStarRef(a)
    ensures Arg(a, ctx, mode) == Single(Substitute(a, ctx, mode))
  {
  }

  /** A whole-array argument comes down to itself. */
  lemma StarComesDownToItself(a: string, params: map<string, string>)
    requires Clean(a) && IsArrayStarRef(a)
    ensures ArrayOf(a, params) == Some(a)
  {
    assert a + "" == a;
    StarIsWhole(a, "");
    StarFrame(a);
    var key := a[2..|a| - 1];
    assert Token(key) == a && a[RefLength(a)..] == [];
    StarScope(key);
    StarIsUnbound(key, params);
  }

  lemma StarIsUnbound(key: string, params: map<string, string>)
    requires IsArrayStarRef(Token(key))
    ensures !Bound(ScopeOf(key), params)
  {
    StarKey(key);
    if ScopeOf(key).Params? {
      assert key[..7] == "params.";
      SuffixOfRest(key);
    }
  }

  lemma SuffixOfRest(key: string)
    requires HasSuffix(key, "[*]") && |key| >= 10
    ensures ScopeOf(key).Params? ==> HasSuffix(ScopeOf(key).rest, "[*]")
  {
    assert key[7..][|key| - 10..] == key[|key| - 3..];
  }

  /** The StepAction pass makes one argument of each, and what the task pass makes of it is its meaning. */
  lemma InlinedArgMeans(a: string, params: map<string, string>, task: Context, mode: Mode)
    requires Clean(a) && AllRefs(a, NotMounted(task)) && NulFreeValues(task) && !mode.DeferAll?
    requires forall p :: p in params ==> Clean(params[p])
    ensures OneToOne(a, ArgOf(InnerContext(params, task.json), DeferAll), ArgOf(task, mode),
      ArgMeanings(params, task, mode))
  {
    if IsArrayStarRef(a) {
      StarIsLeft(a, params, task.json);
      StarComesDownToItself(a, params);
    } else {
      TextArg(a, InnerContext(params, task.json), DeferAll);
      if Substitute(a, InnerContext(params, task.json), DeferAll).Ok? {
        InlinedTextArgMeans(a, Substitute(a, InnerContext(params, task.json), DeferAll).value, params, task, mode);
      }
    }
  }

  /** The StepAction pass has no arrays, so it leaves every whole-array argument. */
  lemma StarIsLeft(a: string, params: map<string, string>, json: Json)
    requires IsArrayStarRef(a)
    ensures Arg(a, InnerContext(params, json), DeferAll) == Ok([a])
  {
  }

  lemma InlinedTextArgMeans(a: string, text: string, params: map<string, string>, task: Context, mode: Mode)
    requires Clean(a) && AllRefs(a, NotMounted(task)) && NulFreeValues(task) && !mode.DeferAll?
    requires forall p :: p in params ==> Clean(params[p])
    requires Substitute(a, InnerContext(params, task.json), DeferAll) == Ok(text)
    ensures Arg(text, task, mode) == ArgMeaning(a, params, task, mode)
  {
    ArrayOfText(a, text, params, task.json);
    if !IsArrayStarRef(text) {
      TextMeans(a, text, params, task, mode);
      TextArg(text, task, mode);
    }
  }

  lemma TextMeans(a: string, text: string, params: map<string, string>, task: Context, mode: Mode)
    requires Clean(a) && AllRefs(a, NotMounted(task)) && NulFreeValues(task) && !mode.DeferAll?
    requires forall p :: p in params ==> Clean(params[p])
    requires Substitute(a, InnerContext(params, task.json), DeferAll) == Ok(text)
    ensures Substitute(text, task, mode) == SubstituteWith(a, CompositeRefs(params, task, mode))
  {
    StepActionComposition(a, params, task, mode);
  }

  lemma ArrayOfText(a: string, text: string, params: map<string, string>, json: Json)
    requires Clean(a) && forall p :: p in params ==> Clean(params[p])
    requires Substitute(a, InnerContext(params, json), DeferAll) == Ok(text)
    ensures ArrayOf(a, params) == if IsArrayStarRef(text) then Some(text) else None
  {
    InnerText(a, text, params, json);
    ComesDownTo(a, params, json);
  }

  /** The StepAction pass of a clean text is its expansion. */
  lemma InnerText(a: string, text: string, params: map<string, string>, json: Json)
    requires Clean(a) && (forall p :: p in params ==> Clean(params[p]))
    requires Substitute(a, InnerContext(params, json), DeferAll) == Ok(text)
    ensures Expand(a, Inner(params, json)) == Ok(text)
  {
    forall key | IsKey(key) && Inner(params, json)(key).Ok? ensures NulFree(Inner(params, json)(key).value) {
      Contributes(key, params, json);
      KeyIsNulFree(key);
      if Bound(ScopeOf(key), params) {
        CleanEscape(params[ScopeOf(key).rest]);
      }
    }
    ExpandNulFree(a, Inner(params, json));
    CleanSubstitute(a, Inner(params, json));
  }

  // ---------------------------------------------------------------- arguments that fail

  lemma BlankIsEmpty(key: string, scope: Scope, params: map<string, string>, json: Json)
    requires Blank(scope, params)
    ensures ResolveIn(key, scope, InnerContext(params, json), DeferAll) == Ok("")
  {
    var inner := InnerContext(params, json);
    match scope
    case Params(rest) => InnerParams(rest, params, inner);
    case Workspaces(rest) => BlankWorkspace(rest, inner);
    case _ =>
  }

  lemma {:induction false} BlanksExpand(s: string, params: map<string, string>, json: Json)
    requires AllBlank(s, params)
    ensures Expand(s, Inner(params, json)) == Ok("")
    decreases |s|
  {
    if s != [] {
      var n := RefLength(s);
      var key := s[2..n - 1];
      BlankIsEmpty(key, ScopeOf(key), params, json);
      BlanksExpand(s[n..], params, json);
      ReferenceFirst(s, Inner(params, json));
    }
  }

  lemma ReferenceFirst(s: string, f: Resolve)
    requires RefLength(s) > 0
    ensures Expand(s, f) == Then(f(s[2..RefLength(s) - 1]), Expand(s[RefLength(s)..], f))
    ensures Then(Ok(""), Ok("")) == Ok("")
  {
    assert "" + "" == "";
  }

  /** If the StepAction pass fails on an argument that comes down to an array, it fails on the reference
      to the array. */
  lemma {:induction false} ArrayFails(s: string, params: map<string, string>, json: Json) returns (key: string)
    requires ArrayOf(s, params).Some? && Expand(s, Inner(params, json)).Err?
    ensures IsKey(key) && Inner(params, json)(key).Err? && ArrayFor(key, params) == ArrayOf(s, params)
    decreases |s|
  {
    var n := RefLength(s);
    key := s[2..n - 1];
    ReferenceFirst(s, Inner(params, json));
    if Blank(ScopeOf(key), params) {
      BlankFailsLater(key, Expand(s[n..], Inner(params, json)), params, json);
      key := ArrayFails(s[n..], params, json);
    } else {
      BlanksExpand(s[n..], params, json);
    }
  }

  lemma BlankFailsLater(key: string, rest: Result<string, string>, params: map<string, string>, json: Json)
    requires Blank(ScopeOf(key), params) && Then(Inner(params, json)(key), rest).Err?
    ensures rest.Err?
  {
    BlankIsEmpty(key, ScopeOf(key), params, json);
  }

  lemma FailingArray(key: string, scope: Scope, params: map<string, string>, json: Json)
    requires scope == ScopeOf(key) && (scope.Foreign? || scope.Params? || scope.Tasks?)
    requires ResolveIn(key, scope, InnerContext(params, json), DeferAll).Err?
    ensures !Bound(scope, params) && scope.Tasks? && !NamesResult(SplitDots(scope.rest, 3))
  {
    var inner := InnerContext(params, json);
    match scope
    case Params(rest) => InnerParams(rest, params, inner);
    case Tasks(rest) =>
      TasksKey(key, rest);
      DeferrableTasks(key, rest, inner);
    case _ =>
  }

  /** No task with results has a dot in its name. */
  predicate DotlessTasks(ctx: Context) {
    forall t :: t in ctx.results ==> '.' !in t
  }

  lemma SplicedNamesResult(key: string, rest: string, task: Context)
    requires IsArrayStarRef(Token(key)) && key == "tasks" + "." + rest && DotlessTasks(task)
    requires ExpandArrayStar(Token(key), task).Ok?
    ensures NamesResult(SplitDots(rest, 3))
  {
    var a := Token(key);
    StarReadsTask(a, task);
    var (t, n) := StarRead(a).value;
    StarText(a, t, n);
    Regroup2(TASKS, t, RESULTS, n, "[*]", ")");
    RestOfToken(key, rest, t, n + "[*]");
    SplitsInThree(t, "results", n + "[*]");
  }

  lemma StarReadsTask(a: string, task: Context)
    requires IsArrayStarRef(a) && HasPrefix(a, "$(tasks.") && ExpandArrayStar(a, task).Ok?
    ensures StarRead(a).Some? && StarRead(a).value.0 in task.results
  {
    var inner := a[2..|a| - 4];
    assert inner[0] == a[2] == 't';
  }

  lemma RestOfToken(key: string, rest: string, t: string, sel: string)
    requires key == "tasks" + "." + rest && Token(key) == TASKS + t + RESULTS + sel + ")"
    ensures rest == t + "." + ("results" + "." + sel)
  {
    var s := Token(key);
    assert s == TASKS + rest + ")";
    assert rest == s[|TASKS|..|s| - 1];
    assert RESULTS == "." + ("results" + ".");
    assert t + RESULTS + sel == s[|TASKS|..|s| - 1];
    assert t + ("." + ("results" + ".")) + sel == t + "." + ("results" + "." + sel);
  }

  /** Where the StepAction pass fails on an argument, the argument has no meaning in the task's scope. */
  lemma ArgFailsToo(a: string, params: map<string, string>, task: Context, mode: Mode)
    requires Clean(a) && AllRefs(a, NoStatus(task)) && DotlessTasks(task) && !mode.DeferAll?
    requires Arg(a, InnerContext(params, task.json), DeferAll).Err?
    ensures ArgMeaning(a, params, task, mode).Err?
  {
    if IsArrayStarRef(a) {
      StarIsLeft(a, params, task.json);
      assert false;
    }
    TextArg(a, InnerContext(params, task.json), DeferAll);
    TextArgFails(a, params, task, mode);
  }

  lemma TextArgFails(a: string, params: map<string, string>, task: Context, mode: Mode)
    requires Clean(a) && AllRefs(a, NoStatus(task)) && DotlessTasks(task) && !mode.DeferAll?
    requires Substitute(a, InnerContext(params, task.json), DeferAll).Err?
    ensures ArgMeaning(a, params, task, mode).Err?
  {
    if ArrayOf(a, params).Some? {
      ArrayArgFails(a, params, task);
    } else {
      InnerFailsToo(a, params, task, mode);
    }
  }

  lemma ArrayArgFails(a: string, params: map<string, string>, task: Context)
    requires Clean(a) && ArrayOf(a, params).Some? && DotlessTasks(task)
    requires Substitute(a, InnerContext(params, task.json), DeferAll).Err?
    ensures ExpandArrayStar(ArrayOf(a, params).value, task).Err?
  {
    ExpansionFails(a, Inner(params, task.json));
    var key := ArrayFails(a, params, task.json);
    FailingArrayFails(key, params, task);
  }

  lemma ExpansionFails(a: string, f: Resolve)
    requires Clean(a) && SubstituteWith(a, f).Err?
    ensures Expand(a, f).Err?
  {
    CleanEscape(a);
  }

  lemma FailingArrayFails(key: string, params: map<string, string>, task: Context)
    requires Inner(params, task.json)(key).Err? && ArrayFor(key, params).Some? && DotlessTasks(task)
    ensures ExpandArrayStar(ArrayFor(key, params).value, task).Err?
  {
    var scope := ScopeOf(key);
    if Bound(scope, params) {
      InnerParams(scope.rest, params, InnerContext(params, task.json));
      assert false;
    }
    StarScope(key);
    FailingArray(key, scope, params, task.json);
    TasksKey(key, scope.rest);
    if ExpandArrayStar(Token(key), task).Ok? {
      SplicedNamesResult(key, scope.rest, task);
    }
  }

  lemma {:induction false} ArgsFailToo(args: seq<string>, first: ArgPass, both: ArgPass)
    requires forall i :: 0 <= i < |args| ==> first(args[i]).Err? ==> both(args[i]).Err?
    ensures Args(args, first).Err? ==> Args(args, both).Err?
  {
    if args != [] {
      ArgsFailToo(args[..|args| - 1], first, both);
    }
  }

  /** Args and command of an inlined step contribute in the task's scope what the StepAction's do
      with its params bound, and where the StepAction pass fails on them they have no such meaning. */
  lemma InlinedArgsMean(args: seq<string>, params: map<string, string>, task: Context, mode: Mode)
    requires NulFreeValues(task) && !mode.DeferAll? && forall p :: p in params ==> Clean(params[p])
    requires forall i :: 0 <= i < |args| ==> Composable(args[i], task)
    ensures
      var once := Args(args, ArgMeanings(params, task, mode));
      match Args(args, ArgOf(InnerContext(params, task.json), DeferAll))
      case Ok(mid) => |mid| == |args| && Args(mid, ArgOf(task, mode)) == once
      case Err(_) =>
        DotlessTasks(task) && (forall i :: 0 <= i < |args| ==> AllRefs(args[i], NoStatus(task))) ==> once.Err?
  {
    var first, second, both :=
      ArgOf(InnerContext(params, task.json), DeferAll), ArgOf(task, mode), ArgMeanings(params, task, mode);
    forall i | 0 <= i < |args| ensures OneToOne(args[i], first, second, both) {
      InlinedArgMeans(args[i], params, task, mode);
    }
    ArgsCompose(args, first, second, both);
    if DotlessTasks(task) && forall i :: 0 <= i < |args| ==> AllRefs(args[i], NoStatus(task)) {
      forall i | 0 <= i < |args| && first(args[i]).Err? ensures both(args[i]).Err? {
        ArgFailsToo(args[i], params, task, mode);
      }
      ArgsFailToo(args, first, both);
    }
  }

  /** In particular a param bound to a whole-array reference brings its elements. */
  lemma BoundArrayIsSpliced(key: string, params: map<string, string>, task: Context, mode: Mode)
    requires IsKey(key) && Bound(ScopeOf(key), params) && IsArrayStarRef(params[ScopeOf(key).rest])
    ensures ArgMeaning(Token(key), params, task, mode) == ExpandArrayStar(params[ScopeOf(key).rest], task)
  {
    TokenIsRef(key);
  }
}
