/** Arrays, literal texts and errors in substitution, and what the scheduler finds in references as they
    are usually written. */
module WrittenForms {
  import opened Wrappers
  import opened Text
  import opened Resolver
  import opened Templates
  import opened SubstitutionLaws
  import opened Types
  import opened References
  import opened Binding
  import opened Agreement
  import opened Meanings

  // ---------------------------------------------------------------- arrays, whole and element by element

  lemma StarShapeOf(front: string, name: string)
    requires front in {"params.", "tasks."} && KeyChars(name)
    ensures
      var s := Token(front + (name + "[*]"));
      IsArrayStarRef(s) && s[2..|s| - 4] == front + name
  {
    var s := Token(front + (name + "[*]"));
    assert s == "$(" + front + name + "[*])";
    assert HasSuffix(s, "[*])");
    StarPrefix(front, name + "[*])");
    StarCharsOf(front, name);
  }

  lemma StarPrefix(front: string, back: string)
    ensures front == "params." ==> HasPrefix("$(" + front + back, "$(params.")
    ensures front == "tasks." ==> HasPrefix("$(" + front + back, "$(tasks.")
    ensures front == "tasks." ==> !HasPrefix("$(" + front + back, "$(params.")
  {
    assert ("$(" + front + back)[2..2 + |front|] == front;
    assert front == "tasks." ==> ("$(" + front + back)[2] == 't';
  }

  lemma StarCharsOf(front: string, name: string)
    requires front in {"params.", "tasks."} && KeyChars(name)
    ensures
      var s := "$(" + front + name + "[*])";
      forall i :: 2 <= i < |s| - 1 ==> s[i] !in {'(', ')', '$'} && !IsSpace(s[i])
  {
    var s := "$(" + front + name + "[*])";
    assert KeyChars(front) && KeyChars("[*]");
    Joined(front, name);
    Joined(front + name, "[*]");
    assert s[2..|s| - 1] == front + name + "[*]";
    forall i | 2 <= i < |s| - 1 ensures KeyChar(s[i]) {
      assert s[i] == s[2..|s| - 1][i - 2];
    }
  }

  /** A whole array param. */
  lemma StarParamMeans(a: string, ctx: Context)
    requires KeyChars(a)
    ensures
      var s := Token("params." + (a + "[*]"));
      IsArrayStarRef(s) && ExpandArrayStar(s, ctx) == if a in ctx.arrayParams then Ok(ctx.arrayParams[a]) else Err(s)
  {
    StarShapeOf("params.", a);
    assert HasPrefix("params." + a, "params.") && After("params." + a, "params.") == a;
  }

  lemma ResultsAt(t: string, r: string)
    requires '.' !in t
    ensures
      var rest := t + ".results." + r;
      Index(rest, ".results.") == |t| && rest[..|t|] == t && rest[|t| + 9..] == r
  {
    var rest := t + ".results." + r;
    assert rest[|t|..] == ".results." + r;
    IndexIsFirst(rest, ".results.", |t|);
    var i := Index(rest, ".results.");
    assert rest[i..][0] == rest[i];
  }

  /** A whole array result. */
  lemma StarResultMeans(t: string, r: string, arr: seq<string>, ctx: Context)
    requires KeyChars(t) && KeyChars(r) && '.' !in t && ArrayResult(t, r, ctx, arr)
    ensures
      var s := Token("tasks." + (t + ".results." + r + "[*]"));
      IsArrayStarRef(s) && ExpandArrayStar(s, ctx) == Ok(arr)
  {
    var rest := t + ".results." + r;
    assert KeyChars(".results.");
    Joined(t, ".results.");
    Joined(t + ".results.", r);
    StarShapeOf("tasks.", rest);
    ResultsAt(t, r);
    assert HasPrefix("tasks." + rest, "tasks.") && After("tasks." + rest, "tasks.") == rest;
    assert ("tasks." + rest)[0] == 't';
  }

  lemma NoStar(front: string, name: string, n: nat)
    ensures !IsArrayStarRef(Token(front + Indexed(name, n)))
  {
    var s, d := Token(front + Indexed(name, n)), Itoa(n);
    assert s == "$(" + front + name + "[" + d + "])";
    assert s[|s| - 4..][1] == s[|s| - 3] == d[|d| - 1] != '*';
  }

  lemma {:induction false} Singles(args: seq<string>, vs: seq<string>, arg: string -> Result<seq<string>, string>)
    requires |args| == |vs| && forall i :: 0 <= i < |args| ==> arg(args[i]) == Ok([vs[i]])
    ensures Args(args, arg) == Ok(vs)
  {
    if args != [] {
      Singles(args[..|args| - 1], vs[..|vs| - 1], arg);
      assert vs == vs[..|vs| - 1] + [vs[|vs| - 1]];
    }
  }

  function Unescaped(arr: seq<string>): seq<string> {
    seq(|arr|, i requires 0 <= i < |arr| => Unescape(arr[i]))
  }

  /** The arguments $(front name[0]) to $(front name[n-1]). */
  function ElementRefs(front: string, name: string, n: nat): seq<string> {
    seq(n, i requires 0 <= i < n => Token(front + Indexed(name, i)))
  }

  lemma OneArg(s: string, v: string, ctx: Context, mode: Mode)
    requires !IsArrayStarRef(s) && Substitute(s, ctx, mode) == Ok(v)
    ensures ArgOf(ctx, mode)(s) == Ok([v])
  {
  }

  lemma OneStar(s: string, arr: seq<string>, ctx: Context, mode: Mode)
    requires IsArrayStarRef(s) && ExpandArrayStar(s, ctx) == Ok(arr)
    ensures Args([s], ArgOf(ctx, mode)) == Ok(arr)
  {
    assert [s][..0] == [];
    assert [] + arr == arr;
  }

  /** The elements of an array param one by one are, up to escapes, the array that the whole-array
      reference splices; the reference after the last fails. */
  lemma ArrayByElements(a: string, ctx: Context, mode: Mode)
    requires KeyChars(a) && a != "" && a in ctx.arrayParams && forall n :: Indexed(a, n) !in ctx.params
    ensures
      var arr := ctx.arrayParams[a];
      && Args(ElementRefs("params.", a, |arr|), ArgOf(ctx, mode)) == Ok(Unescaped(arr))
      && Args([Token("params." + (a + "[*]"))], ArgOf(ctx, mode)) == Ok(arr)
      && Substitute(Token("params." + Indexed(a, |arr|)), ctx, Strict).Err?
  {
    var arr := ctx.arrayParams[a];
    var args := ElementRefs("params.", a, |arr|);
    forall i | 0 <= i < |arr| ensures ArgOf(ctx, mode)(args[i]) == Ok([Unescaped(arr)[i]]) {
      IndexedParamMeans(a, i, ctx, mode);
      NoStar("params.", a, i);
      OneArg(args[i], Unescape(arr[i]), ctx, mode);
    }
    Singles(args, Unescaped(arr), ArgOf(ctx, mode));
    StarParamMeans(a, ctx);
    OneStar(Token("params." + (a + "[*]")), arr, ctx, mode);
    IndexedParamMeans(a, |arr|, ctx, mode);
  }

  /** ... and so are those of an array result. */
  lemma ArrayResultByElements(t: string, r: string, arr: seq<string>, ctx: Context, mode: Mode)
    requires KeyChars(t) && KeyChars(r) && '.' !in t && r != "" && ArrayResult(t, r, ctx, arr)
    requires forall n :: Indexed(r, n) !in ctx.results[t]
    ensures
      && Args(ElementRefs("tasks.", t + ".results." + r, |arr|), ArgOf(ctx, mode)) == Ok(Unescaped(arr))
      && Args([Token("tasks." + (t + ".results." + r + "[*]"))], ArgOf(ctx, mode)) == Ok(arr)
      && Substitute(Token("tasks." + Indexed(t + ".results." + r, |arr|)), ctx, Strict).Err?
  {
    var name := t + ".results." + r;
    var args := ElementRefs("tasks.", name, |arr|);
    forall i | 0 <= i < |arr| ensures ArgOf(ctx, mode)(args[i]) == Ok([Unescaped(arr)[i]]) {
      IndexedResultMeans(t, r, arr, i, ctx, mode);
      SameResult(t, r, i);
      NoStar("tasks.", name, i);
      OneArg(args[i], Unescape(arr[i]), ctx, mode);
    }
    Singles(args, Unescaped(arr), ArgOf(ctx, mode));
    StarResultMeans(t, r, arr, ctx);
    OneStar(Token("tasks." + (name + "[*]")), arr, ctx, mode);
    IndexedResultMeans(t, r, arr, |arr|, ctx, mode);
    SameResult(t, r, |arr|);
  }

  lemma SameResult(t: string, r: string, n: nat)
    ensures Dotted(t, "results", Indexed(r, n)) == Indexed(t + ".results." + r, n)
  {
  }

  /** Where no element holds the escape mark, the two lists are the same. */
  lemma NulFreeElements(arr: seq<string>)
    requires forall i :: 0 <= i < |arr| ==> NulFree(arr[i])
    ensures Unescaped(arr) == arr
  {
    forall i | 0 <= i < |arr| ensures Unescape(arr[i]) == arr[i] {
      NulFreeUnescape(arr[i]);
    }
  }

  // ---------------------------------------------------------------- binding

  /** A text without dollar signs and NUL bytes. */
  predicate LiteralText(s: string) {
    '$' !in s && NulFree(s)
  }

  lemma LiteralStays(s: string, ctx: Context, mode: Mode)
    requires LiteralText(s)
    ensures Substitute(s, ctx, mode) == Ok(s) && !IsArrayStarRef(s)
  {
    EscapeNothing(s);
    NoDollarExpands(s, Refs(ctx, mode));
    NulFreeUnescape(s);
    assert s != [] ==> s[0] in s;
  }

  /** A value that refers to nothing is bound as it is. */
  lemma LiteralBinds(v: ParamValue, ctx: Context)
    requires forall s :: InValue(s, v) ==> LiteralText(s)
    ensures BindValue(v, EvaluatorOf(ctx)) == Some(v)
  {
    forall s | InValue(s, v) ensures Substitute(s, ctx, Strict) == Ok(s) && ArgOf(ctx, Strict)(s) == Ok([s]) {
      LiteralStays(s, ctx, Strict);
    }
    match v
    case StringValue(s) =>
      LiteralStays(s, ctx, Strict);
    case ArrayValue(items) =>
      assert forall i :: 0 <= i < |items| ==> InValue(items[i], v);
      Singles(items, items, ArgOf(ctx, Strict));
    case ObjectValue(fields) =>
      assert forall k :: k in fields ==> InValue(fields[k], v);
      assert fields == map k | k in fields :: EvaluatorOf(ctx).sub(fields[k]).value;
  }

  /** A param given a whole array is bound to the array. */
  lemma StarBinds(a: string, ctx: Context)
    requires KeyChars(a) && a in ctx.arrayParams
    ensures BindValue(StringValue(Token("params." + (a + "[*]"))), EvaluatorOf(ctx)) ==
      Some(ArrayValue(ctx.arrayParams[a]))
  {
    StarParamMeans(a, ctx);
    OneStar(Token("params." + (a + "[*]")), ctx.arrayParams[a], ctx, Strict);
  }

  // ---------------------------------------------------------------- errors

  /** The first reference of the text that fails. */
  ghost function FirstFailing(x: string, f: Resolve): Option<string>
    decreases |x|
  {
    if x == [] then None
    else
      var n := RefLength(x);
      if n == 0 then FirstFailing(x[1..], f)
      else if f(x[2..n - 1]).Err? then Some(x[2..n - 1])
      else FirstFailing(x[n..], f)
  }

  lemma {:induction false} ExpandNamesFirst(x: string, f: Resolve)
    ensures
      match FirstFailing(x, f)
      case Some(key) => f(key).Err? && Expand(x, f) == f(key)
      case None => Expand(x, f).Ok?
    decreases |x|
  {
    if x != [] {
      var n := RefLength(x);
      if n == 0 {
        ExpandNamesFirst(x[1..], f);
      } else {
        ExpandNamesFirst(x[n..], f);
      }
    }
  }

  /** A text fails exactly when a reference in it fails, and the error is that of the first. */
  lemma FirstErrorWins(s: string, ctx: Context, mode: Mode)
    ensures
      match FirstFailing(Escape(s), Refs(ctx, mode))
      case Some(key) => Substitute(s, ctx, mode) == Err(key)
      case None => Substitute(s, ctx, mode).Ok?
  {
    ExpandNamesFirst(Escape(s), Refs(ctx, mode));
    match FirstFailing(Escape(s), Refs(ctx, mode))
    case Some(key) => ErrorNames(key, ScopeOf(key), ctx, mode);
    case None =>
  }

  lemma ErrorNames(key: string, scope: Scope, ctx: Context, mode: Mode)
    requires ResolveIn(key, scope, ctx, mode).Err?
    ensures ResolveIn(key, scope, ctx, mode) == Err(key)
  {
  }

  // ---------------------------------------------------------------- what the StepAction pass refuses

  /** $(workspaces.w.bound), or $(workspaces.bound), which a pass without binding info takes for it. */
  predicate AsksBound(rest: string) {
    var dot := LastIndexOf(rest, '.');
    rest == "bound" || (dot >= 0 && rest[dot + 1..] == "bound")
  }

  /** What any pass knows of a workspace. */
  predicate AsksAttribute(rest: string) {
    var dot := LastIndexOf(rest, '.');
    dot >= 0 && var attr := rest[dot + 1..]; attr == "path" || attr == "claim" || attr == "volume"
  }

  /** No scope could resolve the reference, or it asks for the status of a task. */
  predicate Unreadable(key: string, scope: Scope) {
    match scope
    case Malformed => true
    case TaskResultPath(rest) => !HasSuffix(rest, ".path")
    case StepResultPath(rest) => !HasSuffix(rest, ".path")
    case Steps(_) => var parts := SplitDots(key, 4); |parts| != 4 || parts[2] != "results"
    case Workspaces(rest) => !AsksBound(rest) && !AsksAttribute(rest)
    case Tasks(_) => var parts := SplitDots(key, 4); |parts| != 4 || parts[2] != "results"
    case _ => false
  }

  lemma RefusedWhen(key: string, scope: Scope, params: map<string, string>, json: Json)
    requires ScopeOf(key) == scope
    ensures ResolveIn(key, scope, InnerContext(params, json), DeferAll).Err? <==> Unreadable(key, scope)
  {
    match scope
    case Tasks(rest) => RefusedTasks(key, rest, InnerContext(params, json));
    case Workspaces(rest) =>
      WorkspacesScope(key);
      BoundWhen("workspaces.", rest);
      RefusedWorkspace(key, rest, InnerContext(params, json));
    case Steps(k) => RefusedSteps(key, k, InnerContext(params, json));
    case _ => RefusedOther(key, scope, InnerContext(params, json));
  }

  lemma RefusedOther(key: string, scope: Scope, ctx: Context)
    requires !scope.Tasks? && !scope.Workspaces? && !scope.Steps? && ctx.currentStep == ""
    ensures ResolveIn(key, scope, ctx, DeferAll).Err? <==> Unreadable(key, scope)
  {
  }

  lemma RefusedTasks(key: string, rest: string, ctx: Context)
    requires ctx.results == map[] && ctx.statuses.None?
    ensures ResolveIn(key, Tasks(rest), ctx, DeferAll).Err? <==> Unreadable(key, Tasks(rest))
  {
    InnerTasks(rest, ctx);
  }

  lemma RefusedSteps(key: string, k: string, ctx: Context)
    requires ctx.stepResults.None? && k == key
    ensures ResolveIn(key, Steps(k), ctx, DeferAll).Err? <==> Unreadable(key, Steps(k))
  {
  }

  lemma RefusedWorkspace(key: string, rest: string, ctx: Context)
    requires ctx.boundWorkspaces.None?
    ensures ResolveIn(key, Workspaces(rest), ctx, DeferAll).Err? <==>
      !HasSuffix(key, ".bound") && !AsksAttribute(rest)
  {
    WorkspaceKnown(rest, ctx);
    DeferredWhen(key, Workspaces(rest), ctx);
  }

  /** Without binding info the pass knows path, claim and volume of a workspace, and nothing else. */
  lemma WorkspaceKnown(rest: string, ctx: Context)
    requires ctx.boundWorkspaces.None?
    ensures if AsksAttribute(rest) then LookupWorkspace(rest, ctx).Found? else LookupWorkspace(rest, ctx).Unknown?
  {
  }

  lemma DeferredWhen(key: string, scope: Scope, ctx: Context)
    requires scope.Workspaces? && ctx.boundWorkspaces.None?
    requires LookupIn(scope, ctx).Found? || LookupIn(scope, ctx).Unknown?
    ensures ResolveIn(key, scope, ctx, DeferAll).Err? <==> LookupIn(scope, ctx).Unknown? && !HasSuffix(key, ".bound")
  {
  }

  /** What ends with .bound, for a name behind a dot. */
  lemma BoundWhen(front: string, rest: string)
    requires front != "" && front[|front| - 1] == '.'
    ensures HasSuffix(front + rest, ".bound") <==> AsksBound(rest)
  {
    if HasSuffix(front + rest, ".bound") {
      EndsInBound(front, rest);
      if HasSuffix(rest, ".bound") {
        LastIsBound(rest);
      }
    }
    if AsksBound(rest) {
      BoundEnds(front, rest);
    }
  }

  lemma BoundEnds(front: string, rest: string)
    requires front != "" && front[|front| - 1] == '.' && AsksBound(rest)
    ensures HasSuffix(front + rest, ".bound")
  {
    var dot := LastIndexOf(rest, '.');
    if dot >= 0 && rest[dot + 1..] == "bound" {
      BoundSuffix(front, rest, dot);
    } else {
      assert (front + rest)[|front| - 1..] == ['.'] + rest;
    }
  }

  lemma EndsInBound(front: string, rest: string)
    requires front != "" && front[|front| - 1] == '.' && HasSuffix(front + rest, ".bound")
    ensures rest == "bound" || HasSuffix(rest, ".bound")
  {
    var key, f := front + rest, |front|;
    var n := |key| - 6;
    assert key[f - 1] == '.' && key[n..] == ".bound";
    assert forall i :: n < i < |key| ==> key[i] == key[n..][i - n] != '.';
    if n == f - 1 {
      assert rest == key[n..][1..];
    } else {
      assert rest[n - f..] == key[n..];
    }
  }

  lemma LastIsBound(rest: string)
    requires HasSuffix(rest, ".bound")
    ensures var dot := LastIndexOf(rest, '.'); dot >= 0 && rest[dot + 1..] == "bound"
  {
    var m := |rest| - 6;
    assert rest[m] == rest[m..][0] == '.';
    forall i | m < i < |rest| ensures rest[i] != '.' {
      assert rest[i] == rest[m..][i - m];
    }
    assert rest[m + 1..] == rest[m..][1..];
  }

  lemma {:induction false} ExpandFailsWhen(x: string, f: Resolve, ok: string -> bool)
    requires forall key :: ok(key) <==> f(key).Ok?
    ensures Expand(x, f).Ok? <==> AllRefs(x, ok)
    decreases |x|
  {
    if x != [] {
      var n := RefLength(x);
      if n > 0 {
        ExpandFailsWhen(x[n..], f, ok);
      } else {
        ExpandFailsWhen(x[1..], f, ok);
      }
    }
  }

  /** The StepAction pass fails exactly on texts with such a reference; every other one it resolves or
      leaves to the pass over the task. */
  lemma InnerFailsWhen(s: string, params: map<string, string>, json: Json)
    ensures Substitute(s, InnerContext(params, json), DeferAll).Ok? <==>
      AllRefs(Escape(s), key => !Unreadable(key, ScopeOf(key)))
  {
    var f := Refs(InnerContext(params, json), DeferAll);
    forall key ensures !Unreadable(key, ScopeOf(key)) <==> f(key).Ok? {
      RefusedWhen(key, ScopeOf(key), params, json);
    }
    ExpandFailsWhen(Escape(s), f, key => !Unreadable(key, ScopeOf(key)));
  }

  // ---------------------------------------------------------------- what the scheduler finds

  /** A task name as it is usually written. */
  predicate TaskNameText(t: string) {
    t != "" && LetterOrDigit(t[0]) && forall i :: 0 <= i < |t| ==> LetterOrDigit(t[i]) || t[i] in {'_', '-'}
  }

  /** A result name, or one with a key behind a dot. */
  predicate SelectorText(r: string) {
    r != "" && forall i :: 0 <= i < |r| ==> LetterOrDigit(r[i]) || r[i] in {'_', '-', '.'}
  }

  lemma NameShapeIs(t: string)
    ensures NameShape(t) <==> TaskNameText(t)
  {
    forall c: char ensures NameChar(c) <==> LetterOrDigit(c) || c in {'_', '-'} {
    }
  }

  lemma SelectorChars(r: string)
    requires SelectorText(r)
    ensures forall i :: 0 <= i < |r| ==> SelectorChar(r[i])
  {
  }

  lemma PlainSelector(r: string)
    requires SelectorText(r)
    ensures SelectorShape(r)
  {
    SelectorChars(r);
    RunIs(r, 0, |r|, SelectorChar);
  }

  lemma IndexedSelector(r: string, n: nat)
    requires SelectorText(r)
    ensures SelectorShape(Indexed(r, n))
  {
    var s, d := Indexed(r, n), Itoa(n);
    SelectorChars(r);
    assert s == r + ("[" + d + "]") && s[|r|] == '[';
    RunIs(s, 0, |r|, SelectorChar);
    assert s[|r| + 1] == d[0] != '*';
    assert forall i :: |r| + 1 <= i < |s| - 1 ==> s[i] == d[i - |r| - 1];
    RunIs(s, |r| + 1, |s| - 1, IsDigit);
  }

  /** The ways a result is referred to: plain, by key, by index, or whole. */
  ghost predicate WrittenAs(sel: string, r: string) {
    sel == r || sel == r + "[*]" || exists n: nat :: sel == Indexed(r, n)
  }

  lemma WrittenSelector(sel: string, r: string)
    requires SelectorText(r) && WrittenAs(sel, r)
    ensures SelectorShape(sel) && KeyChars(sel)
  {
    if sel == r {
      PlainSelector(r);
    } else if sel == r + "[*]" {
      SelectorChars(r);
      StarSelector(r);
    } else {
      var n: nat :| sel == Indexed(r, n);
      IndexedSelector(r, n);
      IndexIsNoStar(r, n);
    }
  }

  /** Whichever way a result is referred to, the scheduler finds the task if its name has letters, digits,
      underscores and hyphens only and does not begin with one of the latter, and nothing otherwise. */
  lemma WrittenIsScanned(t: string, sel: string, r: string)
    requires KeyChars(t) && '.' !in t && SelectorText(r) && WrittenAs(sel, r)
    ensures ResultRefs(Token(ResultKey(t, sel))) == if TaskNameText(t) then {t} else {}
  {
    WrittenSelector(sel, r);
    NameShapeIs(t);
    WrittenIsRead(t, sel);
    WrittenIsKey(t, sel);
    ReferenceIsScanned(ResultKey(t, sel), t, sel);
  }
}
