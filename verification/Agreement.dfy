/** Exactly when the scheduler's scan and the resolver's reads agree. */
module Agreement {
  import opened Wrappers
  import opened Text
  import opened Resolver
  import opened Templates
  import opened SubstitutionLaws
  import opened References
  import opened Binding

  // ---------------------------------------------------------------- any text

  /** In this context the text means the same whatever other tasks produce. */
  ghost predicate DependsOnlyOn(s: string, names: set<string>, ctx: Context) {
    forall results :: SameOn(names, ctx.results, results) ==>
      Substitute(s, ctx.(results := results), Strict) == Substitute(s, ctx, Strict)
  }

  lemma {:induction false} ExpandFails(x: string, f: Resolve, p: string -> bool)
    requires !AllRefs(x, p) && forall key :: !p(key) ==> f(key).Err?
    ensures Expand(x, f).Err?
    decreases |x|
  {
    var n := RefLength(x);
    if n > 0 {
      if p(x[2..n - 1]) {
        ExpandFails(x[n..], f, p);
      }
    } else {
      ExpandFails(x[1..], f, p);
    }
  }

  /** The results of the given tasks only. */
  function Restricted(results: Results, names: set<string>): Results {
    map t | t in results && t in names :: results[t]
  }

  lemma MissingTask(key: string, scope: Scope, names: set<string>, ctx: Context)
    requires !ReadWithin(scope, names)
    ensures ResolveIn(key, scope, ctx.(results := Restricted(ctx.results, names)), Strict).Err?
  {
  }

  /** Where a text resolves, it depends on no task outside the set exactly when each of its
      references reads within the set. */
  lemma DependsOnlyOnWhen(s: string, names: set<string>, ctx: Context)
    requires Substitute(s, ctx, Strict).Ok?
    ensures DependsOnlyOn(s, names, ctx) <==> TextWithin(s, names)
  {
    if TextWithin(s, names) {
      forall results | SameOn(names, ctx.results, results)
        ensures Substitute(s, ctx.(results := results), Strict) == Substitute(s, ctx, Strict)
      {
        SubstituteReadsWithin(s, names, ctx, results);
      }
    } else {
      var fewer := Restricted(ctx.results, names);
      var f := Refs(ctx.(results := fewer), Strict);
      forall key | !ReadsIn(names)(key) ensures f(key).Err? {
        MissingTask(key, ScopeOf(key), names, ctx);
      }
      ExpandFails(Escape(s), f, ReadsIn(names));
      assert SameOn(names, ctx.results, fewer);
      assert Substitute(s, ctx.(results := fewer), Strict).Err?;
    }
  }

  // ---------------------------------------------------------------- one reference

  /** Whatever the context, the text depends on no results but those of the tasks the scan finds in it. */
  ghost predicate ScanSuffices(s: string) {
    forall ctx: Context, results :: SameOn(ResultRefs(s), ctx.results, results) ==>
      Substitute(s, ctx.(results := results), Strict) == Substitute(s, ctx, Strict)
  }

  /** A context in which one result is there to be read. */
  function OneResult(t: string, sel: string, v: string): Context {
    var none: string -> Option<seq<string>> := _ => None;
    InnerContext(map[], Json(none, _ => None)).(results := map[t := map[sel := v]])
  }

  /** The reference has its result as value, and none without results. */
  lemma ReferenceReads(key: string, t: string, sel: string, v: string)
    requires IsKey(key) && ReadOf(ScopeOf(key)) == Some((t, sel)) && NulFree(v)
    ensures Substitute(Token(key), OneResult(t, sel, v), Strict) == Ok(v)
    ensures Substitute(Token(key), OneResult(t, sel, v).(results := map[]), Strict).Err?
  {
    var ctx := OneResult(t, sel, v);
    ScopeOfRead(key, ScopeOf(key), t, sel, ctx);
    TokenSubstitutes(key, Refs(ctx, Strict));
    TokenFails(key, Refs(ctx.(results := map[]), Strict));
  }

  lemma ScopeOfRead(key: string, scope: Scope, t: string, sel: string, ctx: Context)
    requires ReadOf(scope) == Some((t, sel)) && t in ctx.results && sel in ctx.results[t]
    ensures ResolveIn(key, scope, ctx, Strict) == Ok(ctx.results[t][sel])
    ensures ResolveIn(key, scope, ctx.(results := map[]), Strict).Err?
  {
  }

  lemma TokenFails(key: string, f: Resolve)
    requires IsKey(key) && f(key).Err?
    ensures SubstituteWith(Token(key), f).Err?
  {
    ExpandToken(key, f, k => true);
    CleanEscape(Token(key));
  }

  /** A result reference whose names do not have the accepted shape is read and not scanned. */
  lemma UnshapedIsMissed(key: string, t: string, sel: string, v: string)
    requires IsKey(key) && ReadOf(ScopeOf(key)) == Some((t, sel)) && !(NameShape(t) && SelectorShape(sel)) && NulFree(v)
    ensures ResultRefs(Token(key)) == {}
    ensures Substitute(Token(key), OneResult(t, sel, v), Strict) == Ok(v)
    ensures Substitute(Token(key), OneResult(t, sel, v).(results := map[]), Strict).Err?
  {
    ReferenceIsScanned(key, t, sel);
    ReferenceReads(key, t, sel, v);
  }

  lemma TokenWithin(key: string, names: set<string>)
    requires IsKey(key)
    ensures TextWithin(Token(key), names) <==> ReadWithin(ScopeOf(key), names)
  {
    ExpandToken(key, k => Ok(""), ReadsIn(names));
    CleanEscape(Token(key));
  }

  /** For one reference scheduler and resolver agree exactly when it has the accepted shape. */
  lemma ReferenceAgreesWhen(key: string)
    requires IsKey(key)
    ensures ScanSuffices(Token(key)) <==> AcceptedShape(ScopeOf(key))
  {
    var s := Token(key);
    TokenWithin(key, ResultRefs(s));
    match ReadOf(ScopeOf(key))
    case None => EveryContext(s);
    case Some((t, sel)) =>
      ReferenceIsScanned(key, t, sel);
      if NameShape(t) && SelectorShape(sel) {
        EveryContext(s);
      } else {
        UnshapedIsMissed(key, t, sel, "");
        assert SameOn({}, OneResult(t, sel, "").results, map[]);
      }
  }

  lemma EveryContext(s: string)
    requires TextWithin(s, ResultRefs(s))
    ensures ScanSuffices(s)
  {
    forall ctx: Context, results | SameOn(ResultRefs(s), ctx.results, results)
      ensures Substitute(s, ctx.(results := results), Strict) == Substitute(s, ctx, Strict)
    {
      SubstituteReadsWithin(s, ResultRefs(s), ctx, results);
    }
  }

  /** The key of a result reference, as it is written. */
  function ResultKey(t: string, sel: string): string {
    "tasks" + "." + (t + "." + ("results" + "." + sel))
  }

  lemma TasksNamespace(rest: string)
    ensures ScopeOf("tasks" + "." + rest) == Tasks(rest)
  {
    var key := "tasks" + "." + rest;
    DotAfter("tasks", rest);
    var bracket := Index(key, "[");
    if bracket >= 0 {
      assert key[bracket..][0] == '[' && key[bracket] == '[';
      assert forall i :: 0 <= i < 6 ==> key[i] == "tasks."[i];
    }
    assert key[..5] == "tasks" && key[..6] == "tasks." && key[6..] == rest && key[0] == 't';
  }

  lemma SplitsInThree(a: string, b: string, c: string)
    requires '.' !in a && '.' !in b
    ensures SplitDots(a + "." + (b + "." + c), 3) == [a, b, c]
  {
    SplitFirst(a, b + "." + c, 3);
    SplitFirst(b, c, 2);
    assert SplitDots(c, 1) == [c];
  }

  /** A reference written with a dotless task name reads that task. */
  lemma WrittenIsRead(t: string, sel: string)
    requires '.' !in t
    ensures ReadOf(ScopeOf(ResultKey(t, sel))) == Some((t, sel))
  {
    var rest := t + "." + ("results" + "." + sel);
    TasksNamespace(rest);
    RestIsRead(t, "results", sel, rest);
  }

  lemma RestIsRead(t: string, results: string, sel: string, rest: string)
    requires '.' !in t && results == "results" && rest == t + "." + (results + "." + sel)
    ensures ReadOf(Tasks(rest)) == Some((t, sel))
  {
    SplitsInThree(t, results, sel);
    assert rest[|t|] == '.' && '.' in rest && '.' !in "status";
  }

  lemma WrittenIsKey(t: string, sel: string)
    requires (forall i :: 0 <= i < |t| ==> RefChar(t[i])) && forall i :: 0 <= i < |sel| ==> RefChar(sel[i])
    ensures IsKey(ResultKey(t, sel))
  {
    var front, back := "tasks" + ".", "." + ("results" + "." + sel);
    assert ResultKey(t, sel) == front + (t + back);
    assert forall i :: 0 <= i < |front| ==> RefChar(front[i]);
    assert forall i :: 0 <= i < |back| ==> RefChar(back[i]);
  }

  /** A task named _a: its result r is read, and no edge is made for it. */
  lemma UnderscoreIsMissed() returns (t: string, sel: string, key: string)
    ensures t == "_a" && sel == "r" && key == ResultKey(t, sel)
    ensures ResultRefs(Token(key)) == {}
    ensures Substitute(Token(key), OneResult(t, sel, "v"), Strict) == Ok("v")
    ensures Substitute(Token(key), OneResult(t, sel, "v").(results := map[]), Strict).Err?
  {
    t, sel := "_a", "r";
    key := ResultKey(t, sel);
    WrittenIsRead(t, sel);
    WrittenIsKey(t, sel);
    UnshapedIsMissed(key, t, sel, "v");
  }

  // ---------------------------------------------------------------- whole-array arguments

  /** In this context the argument contributes the same whatever other tasks produce. */
  ghost predicate StarDependsOnlyOn(a: string, names: set<string>, ctx: Context)
    requires IsArrayStarRef(a)
  {
    forall results :: SameOn(names, ctx.results, results) ==>
      ExpandArrayStar(a, ctx.(results := results)) == ExpandArrayStar(a, ctx)
  }

  predicate StarWithin(a: string, names: set<string>)
    requires IsArrayStarRef(a)
  {
    StarRead(a).Some? ==> StarRead(a).value.0 in names
  }

  /** Where a whole-array argument resolves, it depends on no task outside the set exactly when the
      task it reads is in the set. */
  lemma StarDependsOnlyOnWhen(a: string, names: set<string>, ctx: Context)
    requires IsArrayStarRef(a) && ExpandArrayStar(a, ctx).Ok?
    ensures StarDependsOnlyOn(a, names, ctx) <==> StarWithin(a, names)
  {
    if StarWithin(a, names) {
      forall results | SameOn(names, ctx.results, results)
        ensures ExpandArrayStar(a, ctx.(results := results)) == ExpandArrayStar(a, ctx)
      {
        StarReadsOne(a, if StarRead(a).Some? then StarRead(a).value.0 else "", ctx, results);
      }
    } else {
      var fewer := Restricted(ctx.results, names);
      assert SameOn(names, ctx.results, fewer);
      StarMissing(a, names, ctx);
    }
  }

  lemma StarMissing(a: string, names: set<string>, ctx: Context)
    requires IsArrayStarRef(a) && !StarWithin(a, names)
    ensures ExpandArrayStar(a, ctx.(results := Restricted(ctx.results, names))).Err?
  {
    var inner := a[2..|a| - 4];
    assert inner[0] == 't';
    assert StarRead(a).value.0 !in Restricted(ctx.results, names);
  }

  lemma StarNotWhole(n: string, sel: string, j: nat)
    requires sel == n + "[*]" && j < |n|
    ensures IndexEnd(sel, j) < |sel|
  {
    assert sel[|n| + 1] == '*';
  }

  lemma StarSelectorWhen(n: string)
    ensures SelectorShape(n + "[*]") <==> |n| > 0 && forall i :: 0 <= i < |n| ==> SelectorChar(n[i])
  {
    var sel := n + "[*]";
    assert sel[|n|] == '[' && forall i :: 0 <= i < |n| ==> sel[i] == n[i];
    var j := Run(sel, 0, SelectorChar);
    if j < |n| {
      StarNotWhole(n, sel, j);
    } else if |n| > 0 {
      StarSelector(n);
    }
  }

  /** The scan finds the task of a whole-array argument exactly when the argument has the accepted shape. */
  lemma StarIsScannedWhen(a: string)
    requires IsArrayStarRef(a) && StarRead(a).Some?
    ensures StarRead(a).value.0 in ResultRefs(a) <==> StarShape(a)
  {
    var (t, n) := StarRead(a).value;
    if StarShape(a) {
      StarIsScanned(a);
    }
    StarText(a, t, n);
    Regroup2(TASKS, t, RESULTS, n, "[*]", ")");
    StarSelectorWhen(n);
    StarChars(a);
    FoundIsShaped(a, t, n + "[*]");
  }

  lemma StarChars(a: string)
    requires IsArrayStarRef(a)
    ensures forall i :: 0 < i < |a| ==> a[i] != '$'
    ensures forall i :: 2 <= i < |a| - 1 ==> a[i] != ')'
  {
    assert a[1] == '(' && a[|a| - 1] == ')';
  }

  lemma FoundIsShaped(s: string, t: string, sel: string)
    requires s == TASKS + t + RESULTS + sel + ")"
    requires (forall i :: 0 < i < |s| ==> s[i] != '$') && forall i :: 2 <= i < |s| - 1 ==> s[i] != ')'
    ensures t in ResultRefs(s) ==> NameShape(t) && SelectorShape(sel)
  {
    var e, b := Positions(s, t, sel);
    NothingAfter(s, Stride(s));
    ScansOnce(s, Stride(s), {});
    if t in NameAt(s) {
      NameIsWhole(s, t, e);
      assert forall i :: 0 <= i < |sel| ==> sel[i] == s[b..b + |sel|][i] == s[b + i];
      ScanAtPositions(s, t, sel, e, b);
    }
  }

  lemma NameIsWhole(s: string, t: string, e: nat)
    requires t in NameAt(s) && e == |TASKS| + |t|
    ensures '.' !in t
  {
    assert t == s[|TASKS|..NameEnd(s)];
    assert forall i :: 0 <= i < |t| ==> t[i] == s[|TASKS| + i] && NameChar(t[i]);
  }
}
