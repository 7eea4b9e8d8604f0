/** Inlining StepActions into the steps that refer to them. */
module StepActions {
  import opened Wrappers
  import opened Types
  import opened Resolver
  import opened Templates
  import opened SubstitutionLaws
  import opened Expansion

  datatype EnvVar = EnvVar(name: string, value: string)

  /** What runs: the part of a step that a StepAction supplies. */
  datatype Body = Body(
    image: string,
    command: seq<string>,
    args: seq<string>,
    script: string,
    env: seq<EnvVar>,
    workingDir: string,
    imagePullPolicy: string,
    resources: Option<string>,
    results: seq<string>)

  /** action is the name in the step's ref, if it has one. */
  datatype Step = Step(
    name: string,
    action: Option<string>,
    params: seq<Param>,
    onError: string,
    mounts: seq<string>,
    body: Body)

  datatype ParamSpec = ParamSpec(name: string, default: Option<ParamValue>)

  datatype StepAction = StepAction(params: seq<ParamSpec>, mounts: seq<string>, body: Body)

  datatype StepError =
    | RefAndBody(step: string)
    | UnknownAction(step: string)
    | DefaultType(step: string, param: string)
    | BadReference(step: string)

  const NO_BODY := Body("", [], [], "", [], "", "", None, [])

  // ---------------------------------------------------------------- binding params

  predicate StringDefault(d: ParamSpec) {
    d.default.Some? ==> d.default.value.StringValue?
  }

  function Defaults(decls: seq<ParamSpec>): map<string, string> {
    if decls == [] then map[]
    else
      var m, d := Defaults(decls[..|decls| - 1]), decls[|decls| - 1];
      if d.default.Some? then m[d.name := StringVal(d.default.value)] else m
  }

  function Overriding(base: map<string, string>, given: seq<Param>): map<string, string> {
    if given == [] then base
    else
      var p := given[|given| - 1];
      Overriding(base, given[..|given| - 1])[p.name := StringVal(p.value)]
  }

  /** The params a StepAction body sees: its defaults, overridden by what the step passes. */
  function BoundParams(decls: seq<ParamSpec>, given: seq<Param>): map<string, string> {
    Overriding(Defaults(decls), given)
  }

  /** The i-th declaration is the last of the name with a default. */
  ghost predicate LastDefault(decls: seq<ParamSpec>, name: string, i: nat) {
    && i < |decls| && decls[i].name == name && decls[i].default.Some?
    && forall j :: i < j < |decls| && decls[j].name == name ==> decls[j].default.None?
  }

  lemma {:induction false} DefaultsAre(decls: seq<ParamSpec>, name: string)
    ensures name in Defaults(decls) <==> exists i: nat :: LastDefault(decls, name, i)
    ensures forall i: nat :: LastDefault(decls, name, i) ==>
      name in Defaults(decls) && Defaults(decls)[name] == TextOf(decls[i].default.value)
  {
    if decls != [] {
      var init, last := decls[..|decls| - 1], decls[|decls| - 1];
      DefaultsAre(init, name);
      if last.name == name && last.default.Some? {
        assert LastDefault(decls, name, |decls| - 1);
      } else {
        assert forall i: nat :: LastDefault(decls, name, i) <==> LastDefault(init, name, i);
      }
    }
  }

  /** A param is bound to the last value the step passes, and to its last default when it passes none. */
  lemma BindsAsPassed(decls: seq<ParamSpec>, given: seq<Param>, name: string)
    ensures
      var bound, passed := BoundParams(decls, given), LastOf(given, name);
      && (passed.Some? ==> name in bound && bound[name] == TextOf(passed.value.value))
      && (passed.None? ==> (name in bound <==> exists i: nat :: LastDefault(decls, name, i)))
      && (passed.None? ==>
            forall i: nat :: LastDefault(decls, name, i) ==> bound[name] == TextOf(decls[i].default.value))
  {
    BindsOver(Defaults(decls), given, name);
    DefaultsAre(decls, name);
  }

  lemma {:induction false} BindsOver(base: map<string, string>, given: seq<Param>, name: string)
    ensures
      var bound, passed := Overriding(base, given), LastOf(given, name);
      && (passed.Some? ==> name in bound && bound[name] == TextOf(passed.value.value))
      && (passed.None? ==> (name in bound <==> name in base) && (name in bound ==> bound[name] == base[name]))
  {
    if given != [] {
      BindsOver(base, given[..|given| - 1], name);
    }
  }

  method BindParams(step: string, decls: seq<ParamSpec>, given: seq<Param>)
    returns (r: Result<map<string, string>, StepError>)
    ensures r.Ok? <==> forall i :: 0 <= i < |decls| ==> StringDefault(decls[i])
    ensures r.Ok? ==> r.value == BoundParams(decls, given)
  {
    var params: map<string, string> := map[];
    for i := 0 to |decls|
      invariant params == Defaults(decls[..i])
      invariant forall k :: 0 <= k < i ==> StringDefault(decls[k])
    {
      assert decls[..i + 1][..i] == decls[..i];
      if decls[i].default.None? {
        continue;
      }
      if !decls[i].default.value.StringValue? {
        return Err(DefaultType(step, decls[i].name));
      }
      params := params[decls[i].name := StringVal(decls[i].default.value)];
    }
    assert decls[..|decls|] == decls;
    ghost var base := params;
    for i := 0 to |given|
      invariant params == Overriding(base, given[..i])
    {
      assert given[..i + 1][..i] == given[..i];
      params := params[given[i].name := StringVal(given[i].value)];
    }
    assert given[..|given|] == given;
    return Ok(params);
  }

  // ---------------------------------------------------------------- one step

  /** How a pass treats one string. */
  type Pass = string -> Result<string, string>
  type ArgPass = string -> Result<seq<string>, string>

  function PassOf(ctx: Context, mode: Mode): Pass {
    s => Substitute(s, ctx, mode)
  }

  predicate EnvBecomes(pass: Pass, env: seq<EnvVar>, env': seq<EnvVar>) {
    |env'| == |env| && forall i :: 0 <= i < |env| ==>
      env'[i].name == env[i].name && pass(env[i].value) == Ok(env'[i].value)
  }

  /** Every field of the body substituted, the rest as it was. */
  predicate BodyBecomes(pass: Pass, args: ArgPass, b: Body, b': Body) {
    && pass(b.image) == Ok(b'.image) && pass(b.script) == Ok(b'.script) && pass(b.workingDir) == Ok(b'.workingDir)
    && Args(b.args, args) == Ok(b'.args) && Args(b.command, args) == Ok(b'.command)
    && EnvBecomes(pass, b.env, b'.env)
    && b'.imagePullPolicy == b.imagePullPolicy && b'.resources == b.resources && b'.results == b.results
  }

  /** No field of the body fails to resolve. */
  predicate BodyResolves(pass: Pass, args: ArgPass, b: Body) {
    && pass(b.image).Ok? && pass(b.script).Ok? && pass(b.workingDir).Ok?
    && Args(b.args, args).Ok? && Args(b.command, args).Ok?
    && forall i :: 0 <= i < |b.env| ==> pass(b.env[i].value).Ok?
  }

  method SubstituteEnv(env: seq<EnvVar>, pass: Pass) returns (r: Option<seq<EnvVar>>)
    ensures r.Some? <==> forall i :: 0 <= i < |env| ==> pass(env[i].value).Ok?
    ensures r.Some? ==> EnvBecomes(pass, env, r.value)
  {
    var out: seq<EnvVar> := [];
    for i := 0 to |env|
      invariant |out| == i && forall k :: 0 <= k < i ==>
        out[k].name == env[k].name && pass(env[k].value) == Ok(out[k].value)
    {
      var v := pass(env[i].value);
      if v.Err? {
        return None;
      }
      out := out + [EnvVar(env[i].name, v.value)];
    }
    return Some(out);
  }

  method SubstituteBody(b: Body, pass: Pass, argPass: ArgPass) returns (r: Option<Body>)
    ensures r.Some? <==> BodyResolves(pass, argPass, b)
    ensures r.Some? ==> BodyBecomes(pass, argPass, b, r.value)
  {
    var image := pass(b.image);
    if image.Err? {
      return None;
    }
    var script := pass(b.script);
    if script.Err? {
      return None;
    }
    var workdir := pass(b.workingDir);
    if workdir.Err? {
      return None;
    }
    var args := Args(b.args, argPass);
    if args.Err? {
      return None;
    }
    var cmd := Args(b.command, argPass);
    if cmd.Err? {
      return None;
    }
    var env := SubstituteEnv(b.env, pass);
    if env.None? {
      return None;
    }
    return Some(b.(image := image.value, command := cmd.value, args := args.value, script := script.value,
      env := env.value, workingDir := workdir.value));
  }

  /** The context in which the body of the step's StepAction is substituted. */
  function ActionContext(st: Step, action: StepAction, json: Json): Context {
    InnerContext(BoundParams(action.params, st.params), json)
  }

  predicate CanInline(st: Step, action: StepAction, json: Json) {
    && (forall i :: 0 <= i < |action.params| ==> StringDefault(action.params[i]))
    && var ctx := ActionContext(st, action, json);
       BodyResolves(PassOf(ctx, DeferAll), ArgOf(ctx, DeferAll), action.body)
  }

  /** The step with the StepAction's body in place of its ref. */
  predicate Inlined(st: Step, action: StepAction, json: Json, r: Step) {
    var ctx := ActionContext(st, action, json);
    && r == Step(st.name, None, [], st.onError, action.mounts + st.mounts, r.body)
    && BodyBecomes(PassOf(ctx, DeferAll), ArgOf(ctx, DeferAll), action.body, r.body)
  }

  method InlineStepAction(st: Step, action: StepAction, json: Json) returns (r: Result<Step, StepError>)
    ensures r.Ok? <==> CanInline(st, action, json)
    ensures r.Ok? ==> Inlined(st, action, json, r.value)
  {
    var params := BindParams(st.name, action.params, st.params);
    if params.Err? {
      return Err(params.error);
    }
    var ctx := InnerContext(params.value, json);
    var body := SubstituteBody(action.body, PassOf(ctx, DeferAll), ArgOf(ctx, DeferAll));
    if body.None? {
      return Err(BadReference(st.name));
    }
    return Ok(Step(st.name, None, [], st.onError, action.mounts + st.mounts, body.value));
  }

  // ---------------------------------------------------------------- all steps

  /** The step has no ref, or one that can be inlined. */
  predicate Resolvable(st: Step, actions: map<string, StepAction>, json: Json) {
    st.action.Some? ==>
      st.body == NO_BODY && st.action.value in actions && CanInline(st, actions[st.action.value], json)
  }

  predicate ResolvedAs(st: Step, actions: map<string, StepAction>, json: Json, r: Step) {
    if st.action.None? then r == st else st.action.value in actions && Inlined(st, actions[st.action.value], json, r)
  }

  /** resolveStepActions: fails exactly when some step with a ref also has a body, names an unknown
      StepAction or cannot be inlined, and leaves no ref behind. */
  method ResolveStepActions(steps: seq<Step>, actions: map<string, StepAction>, json: Json)
    returns (r: Result<seq<Step>, StepError>)
    ensures r.Ok? <==> forall i :: 0 <= i < |steps| ==> Resolvable(steps[i], actions, json)
    ensures r.Ok? ==>
      |r.value| == |steps| && forall i :: 0 <= i < |steps| ==>
        ResolvedAs(steps[i], actions, json, r.value[i]) && r.value[i].action.None?
  {
    var out: seq<Step> := [];
    for i := 0 to |steps|
      invariant |out| == i && forall k :: 0 <= k < i ==> Resolvable(steps[k], actions, json)
      invariant forall k :: 0 <= k < i ==> ResolvedAs(steps[k], actions, json, out[k]) && out[k].action.None?
    {
      var one := ResolveStep(steps[i], actions, json);
      if one.Err? {
        return Err(one.error);
      }
      out := out + [one.value];
    }
    return Ok(out);
  }

  method ResolveStep(st: Step, actions: map<string, StepAction>, json: Json) returns (r: Result<Step, StepError>)
    ensures r.Ok? <==> Resolvable(st, actions, json)
    ensures r.Ok? ==> ResolvedAs(st, actions, json, r.value) && r.value.action.None?
  {
    if st.action.None? {
      return Ok(st);
    }
    if st.body != NO_BODY {
      return Err(RefAndBody(st.name));
    }
    if st.action.value !in actions {
      return Err(UnknownAction(st.name));
    }
    r := InlineStepAction(st, actions[st.action.value], json);
  }

  // ---------------------------------------------------------------- what an inlined step means

  /** The text is a template the composition law covers in this task. */
  ghost predicate Composable(s: string, task: Context) {
    Clean(s) && AllRefs(s, NotMounted(task))
  }

  ghost predicate ComposableCall(st: Step, action: StepAction, task: Context) {
    && NulFreeValues(task)
    && forall p :: p in BoundParams(action.params, st.params) ==> Clean(BoundParams(action.params, st.params)[p])
  }

  /** The one-pass meaning of a text in the body of the step's StepAction. */
  function Meaning(s: string, st: Step, action: StepAction, task: Context, mode: Mode): Result<string, string> {
    SubstituteWith(s, CompositeRefs(BoundParams(action.params, st.params), task, mode))
  }

  /** A text, inlined and then substituted in the task's scope, has its one-pass meaning. */
  lemma InlinedTextMeans(s: string, s': string, st: Step, action: StepAction, task: Context, mode: Mode)
    requires Composable(s, task) && ComposableCall(st, action, task) && !mode.DeferAll?
    requires PassOf(ActionContext(st, action, task.json), DeferAll)(s) == Ok(s')
    ensures Substitute(s', task, mode) == Meaning(s, st, action, task, mode)
  {
    StepActionComposition(s, BoundParams(action.params, st.params), task, mode);
  }

  /** Image, script, working directory and environment of an inlined step mean in the task's scope
      what the StepAction's text means with its params bound. */
  lemma InlinedStepMeans(st: Step, action: StepAction, task: Context, mode: Mode, r: Step)
    requires Inlined(st, action, task.json, r) && ComposableCall(st, action, task) && !mode.DeferAll?
    requires Composable(action.body.image, task) && Composable(action.body.script, task)
      && Composable(action.body.workingDir, task)
    requires forall i :: 0 <= i < |action.body.env| ==> Composable(action.body.env[i].value, task)
    ensures Substitute(r.body.image, task, mode) == Meaning(action.body.image, st, action, task, mode)
    ensures Substitute(r.body.script, task, mode) == Meaning(action.body.script, st, action, task, mode)
    ensures Substitute(r.body.workingDir, task, mode) == Meaning(action.body.workingDir, st, action, task, mode)
    ensures |r.body.env| == |action.body.env|
    ensures forall i :: 0 <= i < |r.body.env| ==>
      Substitute(r.body.env[i].value, task, mode) == Meaning(action.body.env[i].value, st, action, task, mode)
  {
    InlinedTextMeans(action.body.image, r.body.image, st, action, task, mode);
    InlinedTextMeans(action.body.script, r.body.script, st, action, task, mode);
    InlinedTextMeans(action.body.workingDir, r.body.workingDir, st, action, task, mode);
    forall i | 0 <= i < |r.body.env|
      ensures Substitute(r.body.env[i].value, task, mode) == Meaning(action.body.env[i].value, st, action, task, mode)
    {
      InlinedTextMeans(action.body.env[i].value, r.body.env[i].value, st, action, task, mode);
    }
  }
}
