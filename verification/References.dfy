/** Task-result references: the scheduler's scan and the resolver's reads. */
module References {
  import opened Wrappers
  import opened Strings
  import opened Text
  import opened Resolver
  import opened Templates
  import opened Types

  // ---------------------------------------------------------------- the scan

  /** [\w-] */
  predicate NameChar(c: char) {
    IsWord(c) || c == '-'
  }

  /** [\w.-] */
  predicate SelectorChar(c: char) {
    NameChar(c) || c == '.'
  }

  /** End of the run of characters in a class. */
  function Run(s: string, i: nat, member: char -> bool): (j: nat)
    requires i <= |s|
    ensures i <= j <= |s|
    ensures forall k :: i <= k < j ==> member(s[k])
    ensures j < |s| ==> !member(s[j])
    decreases |s| - i
  {
    if i < |s| && member(s[i]) then Run(s, i + 1, member) else i
  }

  /** End of [\w.-]+(?:\[(?:\*|\d+)\])? from i, or i when there is none. */
  function SelectorEnd(s: string, i: nat): (j: nat)
    requires i <= |s|
    ensures i <= j <= |s|
  {
    var j := Run(s, i, SelectorChar);
    if j == i then j else IndexEnd(s, j)
  }

  /** End of (?:\[(?:\*|\d+)\])? from j. */
  function IndexEnd(s: string, j: nat): (e: nat)
    requires j <= |s|
    ensures j <= e <= |s|
  {
    if j == |s| || s[j] != '[' then j
    else if j + 2 < |s| && s[j + 1] == '*' && s[j + 2] == ']' then j + 3
    else
      var k := Run(s, j + 1, IsDigit);
      if j + 1 < k < |s| && s[k] == ']' then k + 1 else j
  }

  const TASKS := "$(tasks."
  const RESULTS := ".results."

  /** Where the task name of a reference ends. */
  function NameEnd(s: string): nat
    requires |TASKS| <= |s|
  {
    Run(s, |TASKS|, NameChar)
  }

  /** Length of the match of taskResultRefPat at the start of s, or 0. */
  function ResultRefLength(s: string): (n: nat)
    ensures n <= |s|
    ensures n > 0 ==> |TASKS| < |s| && |TASKS| < NameEnd(s) < n
  {
    if !HasPrefix(s, TASKS) || |s| == |TASKS| || !IsAlnum(s[|TASKS|]) then 0
    else
      var e := NameEnd(s);
      if !HasPrefix(s[e..], RESULTS) then 0
      else
        var b := e + |RESULTS|;
        var j := SelectorEnd(s, b);
        if j > b && j < |s| && s[j] == ')' then j + 1 else 0
  }

  /** The captured task names of every match in s. */
  function ResultRefs(s: string): set<string>
    decreases |s|
  {
    if s == [] then {} else NameAt(s) + ResultRefs(s[Stride(s)..])
  }

  /** The task name captured by a match at the start of s. */
  function NameAt(s: string): set<string> {
    if ResultRefLength(s) > 0 then {s[|TASKS|..NameEnd(s)]} else {}
  }

  /** How far the scan moves. */
  function Stride(s: string): (n: nat)
    requires s != []
    ensures 0 < n <= |s| && (ResultRefLength(s) == 0 ==> n == 1) && (ResultRefLength(s) > 0 ==> n == ResultRefLength(s))
  {
    if ResultRefLength(s) == 0 then 1 else ResultRefLength(s)
  }

  function AllResultRefs(ss: seq<string>): set<string> {
    if ss == [] then {} else AllResultRefs(ss[..|ss| - 1]) + ResultRefs(ss[|ss| - 1])
  }

  ghost function FieldRefs(fields: map<string, string>, ks: set<string>): set<string>
    requires ks <= fields.Keys
  {
    set k, t | k in ks && t in ResultRefs(fields[k]) :: t
  }

  lemma FieldRefsAdd(fields: map<string, string>, ks: set<string>, k: string)
    requires ks <= fields.Keys && k in fields
    ensures FieldRefs(fields, ks + {k}) == FieldRefs(fields, ks) + ResultRefs(fields[k])
  {
  }

  /** Task names referenced by one param value. */
  ghost function ValueRefs(v: ParamValue): set<string> {
    match v
    case StringValue(s) => ResultRefs(s)
    case ArrayValue(items) => AllResultRefs(items)
    case ObjectValue(fields) => FieldRefs(fields, fields.Keys)
  }

  ghost function ParamRefs(ps: seq<Param>): set<string> {
    if ps == [] then {} else ParamRefs(ps[..|ps| - 1]) + ValueRefs(ps[|ps| - 1].value)
  }

  ghost function WhenRefs(ws: seq<WhenExpression>): set<string> {
    if ws == [] then {}
    else
      var w := ws[|ws| - 1];
      WhenRefs(ws[..|ws| - 1]) + (ResultRefs(w.input) + AllResultRefs(w.values))
  }

  /** The tasks a pipeline task names in its params, when expressions and resolver params. */
  ghost function ImplicitRefs(pt: PipelineTask): set<string> {
    ParamRefs(pt.params) + WhenRefs(pt.when)
    + if pt.resolverParams.Some? then ParamRefs(pt.resolverParams.value) else {}
  }

  method ScanAll(ss: seq<string>, seen: set<string>) returns (r: set<string>)
    ensures r == seen + AllResultRefs(ss)
  {
    r := seen;
    for i := 0 to |ss|
      invariant r == seen + AllResultRefs(ss[..i])
    {
      assert ss[..i + 1][..i] == ss[..i];
      r := r + ResultRefs(ss[i]);
    }
    assert ss[..|ss|] == ss;
  }

  method ScanFields(fields: map<string, string>, seen: set<string>) returns (r: set<string>)
    ensures r == seen + FieldRefs(fields, fields.Keys)
  {
    r := seen;
    var todo := fields.Keys;
    while todo != {}
      invariant todo <= fields.Keys
      invariant r == seen + FieldRefs(fields, fields.Keys - todo)
      decreases todo
    {
      var k :| k in todo;
      FieldRefsAdd(fields, fields.Keys - todo, k);
      assert fields.Keys - todo + {k} == fields.Keys - (todo - {k});
      r := r + ResultRefs(fields[k]);
      todo := todo - {k};
    }
    assert fields.Keys - todo == fields.Keys;
  }

  method ScanValue(v: ParamValue, seen: set<string>) returns (r: set<string>)
    ensures r == seen + ValueRefs(v)
  {
    match v
    case StringValue(s) => r := seen + ResultRefs(s);
    case ArrayValue(items) => r := ScanAll(items, seen);
    case ObjectValue(fields) => r := ScanFields(fields, seen);
  }

  method ScanParams(ps: seq<Param>, seen: set<string>) returns (r: set<string>)
    ensures r == seen + ParamRefs(ps)
  {
    r := seen;
    for i := 0 to |ps|
      invariant r == seen + ParamRefs(ps[..i])
    {
      assert ps[..i + 1][..i] == ps[..i];
      r := ScanValue(ps[i].value, r);
    }
    assert ps[..|ps|] == ps;
  }

  method ScanWhen(ws: seq<WhenExpression>, seen: set<string>) returns (r: set<string>)
    ensures r == seen + WhenRefs(ws)
  {
    r := seen;
    for i := 0 to |ws|
      invariant r == seen + WhenRefs(ws[..i])
    {
      assert ws[..i + 1][..i] == ws[..i];
      r := ScanAll(ws[i].values, r + ResultRefs(ws[i].input));
    }
    assert ws[..|ws|] == ws;
  }

  /** implicitParamEdges: the referenced task names as written, sorted. */
  method ImplicitParamEdges(pt: PipelineTask) returns (r: seq<string>)
    ensures Increasing(r) && Elements(r) == ImplicitRefs(pt)
  {
    var seen := ScanParams(pt.params, {});
    seen := ScanWhen(pt.when, seen);
    if pt.resolverParams.Some? {
      seen := ScanParams(pt.resolverParams.value, seen);
    }
    r := SortedListing(seen);
  }

  // ---------------------------------------------------------------- the reads

  /** The task and selector a reference makes the resolver read, if any. */
  function ReadOf(scope: Scope): Option<(string, string)> {
    if !scope.Tasks? || scope.rest == "status" then None
    else
      var parts := SplitDots(scope.rest, 3);
      if NamesResult(parts) then Some((parts[0], parts[2])) else None
  }

  /** A task name of the accepted shape. */
  predicate NameShape(t: string) {
    |t| > 0 && IsAlnum(t[0]) && forall i :: 0 <= i < |t| ==> NameChar(t[i])
  }

  /** A plain, [N], [*] or .key selector. */
  predicate SelectorShape(sel: string) {
    |sel| > 0 && SelectorEnd(sel, 0) == |sel|
  }

  /** The reference is seen by a scan that found names, if it has an accepted shape. */
  predicate Scanned(scope: Scope, names: set<string>) {
    match ReadOf(scope)
    case Some((t, sel)) => NameShape(t) && SelectorShape(sel) ==> t in names
    case None => true
  }

  /** Every task result the substitution of s reads is written with an accepted name and selector. */
  ghost predicate WellShaped(s: string) {
    AllRefs(Escape(s), key => AcceptedShape(ScopeOf(key)))
  }

  predicate AcceptedShape(scope: Scope) {
    match ReadOf(scope)
    case Some((t, sel)) => NameShape(t) && SelectorShape(sel)
    case None => true
  }

  lemma {:induction false} RunIs(s: string, i: nat, j: nat, member: char -> bool)
    requires i <= j <= |s| && forall k :: i <= k < j ==> member(s[k])
    requires j < |s| ==> !member(s[j])
    ensures Run(s, i, member) == j
    decreases j - i
  {
    if i < j {
      RunIs(s, i + 1, j, member);
    }
  }

  /** A selector closed by a parenthesis ends where it ends on its own. */
  lemma SelectorEndInside(s: string, b: nat, sel: string)
    requires b + |sel| < |s| && s[b..b + |sel|] == sel && s[b + |sel|] == ')'
    ensures SelectorEnd(s, b) == b + SelectorEnd(sel, 0)
  {
    RunInside(s, b, sel, 0, SelectorChar);
    IndexEndInside(s, b, sel, Run(sel, 0, SelectorChar));
  }

  lemma IndexEndInside(s: string, b: nat, sel: string, j: nat)
    requires b + |sel| < |s| && s[b..b + |sel|] == sel && s[b + |sel|] == ')' && j <= |sel|
    ensures IndexEnd(s, b + j) == b + IndexEnd(sel, j)
  {
    CharsInside(s, b, sel);
    if j < |sel| {
      BracketsInside(s, b, sel, j);
    }
  }

  lemma CharsInside(s: string, b: nat, sel: string)
    requires b + |sel| < |s| && s[b..b + |sel|] == sel
    ensures forall i :: b <= i < b + |sel| ==> s[i] == sel[i - b]
  {
  }

  lemma BracketsInside(s: string, b: nat, sel: string, j: nat)
    requires b + |sel| < |s| && s[b..b + |sel|] == sel && s[b + |sel|] == ')' && j < |sel|
    ensures (b + j + 2 < |s| && s[b + j + 1] == '*' && s[b + j + 2] == ']') <==>
      (j + 2 < |sel| && sel[j + 1] == '*' && sel[j + 2] == ']')
    ensures
      var k := Run(s, b + j + 1, IsDigit);
      var k' := Run(sel, j + 1, IsDigit);
      k == b + k' && ((k < |s| && s[k] == ']') <==> (k' < |sel| && sel[k'] == ']'))
  {
    CharsInside(s, b, sel);
    RunInside(s, b, sel, j + 1, IsDigit);
  }

  lemma RunInside(s: string, b: nat, sel: string, i: nat, member: char -> bool)
    requires b + |sel| < |s| && s[b..b + |sel|] == sel && s[b + |sel|] == ')' && !member(')')
    requires i <= |sel|
    ensures Run(s, b + i, member) == b + Run(sel, i, member)
  {
    var j := Run(sel, i, member);
    assert forall k :: 0 <= k < |sel| ==> s[b + k] == sel[k];
    RunIs(s, b + i, b + j, member);
  }

  /** A complete reference of accepted shape is matched whole. */
  lemma TaskRefMatches(s: string, t: string, sel: string, e: nat, b: nat)
    requires NameShape(t) && SelectorShape(sel)
    requires HasPrefix(s, TASKS) && e == |TASKS| + |t| && b == e + |RESULTS| && b + |sel| < |s|
    requires s[|TASKS|..e] == t && HasPrefix(s[e..], RESULTS) && s[b..b + |sel|] == sel && s[b + |sel|] == ')'
    ensures ResultRefLength(s) > 0 && NameEnd(s) == e
  {
    assert forall i :: |TASKS| <= i < e ==> s[i] == t[i - |TASKS|];
    assert s[e] == s[e..][0] == '.';
    RunIs(s, |TASKS|, e, NameChar);
    SelectorEndInside(s, b, sel);
  }

  lemma TaskRefIsFound(s: string, t: string, sel: string)
    requires NameShape(t) && SelectorShape(sel)
    requires HasPrefix(s, TASKS + t + RESULTS + sel + ")")
    ensures t in ResultRefs(s)
  {
    var e, b := Positions(s, t, sel);
    TaskRefMatches(s, t, sel, e, b);
  }

  /** Where the parts of a reference stand. */
  lemma Positions(s: string, t: string, sel: string) returns (e: nat, b: nat)
    requires HasPrefix(s, TASKS + t + RESULTS + sel + ")")
    ensures HasPrefix(s, TASKS) && e == |TASKS| + |t| && b == e + |RESULTS| && b + |sel| < |s|
    ensures s[|TASKS|..e] == t && s[e] == '.' && HasPrefix(s[e..], RESULTS)
    ensures s[b..b + |sel|] == sel && s[b + |sel|] == ')'
  {
    e := |TASKS| + |t|;
    b := e + |RESULTS|;
    var whole := TASKS + t + RESULTS + sel + ")";
    assert s == whole + s[|whole|..];
    assert s[e..] == RESULTS + sel + ")" + s[|whole|..];
  }

  /** The scan matches a complete reference exactly when its names have the accepted shape. */
  lemma ScanIsExact(s: string, t: string, sel: string)
    requires HasPrefix(s, TASKS + t + RESULTS + sel + ")") && '.' !in t && ')' !in sel
    ensures ResultRefLength(s) > 0 <==> NameShape(t) && SelectorShape(sel)
  {
    var e, b := Positions(s, t, sel);
    ScanAtPositions(s, t, sel, e, b);
  }

  lemma ScanAtPositions(s: string, t: string, sel: string, e: nat, b: nat)
    requires HasPrefix(s, TASKS) && e == |TASKS| + |t| && b == e + |RESULTS| && b + |sel| < |s|
    requires s[|TASKS|..e] == t && s[e] == '.' && HasPrefix(s[e..], RESULTS)
    requires s[b..b + |sel|] == sel && s[b + |sel|] == ')' && '.' !in t && ')' !in sel
    ensures ResultRefLength(s) > 0 <==> NameShape(t) && SelectorShape(sel)
    ensures ResultRefLength(s) > 0 ==> NameEnd(s) == e
  {
    if NameShape(t) && SelectorShape(sel) {
      TaskRefMatches(s, t, sel, e, b);
    }
    if ResultRefLength(s) > 0 {
      MatchedName(s, t, e);
      MatchedSelector(s, b, sel);
    }
  }

  lemma MatchedName(s: string, t: string, e: nat)
    requires ResultRefLength(s) > 0 && e == |TASKS| + |t| < |s| && s[|TASKS|..e] == t && s[e] == '.' && '.' !in t
    ensures NameShape(t) && NameEnd(s) == e
  {
    assert forall i :: |TASKS| <= i < e ==> s[i] == t[i - |TASKS|];
    var n := NameEnd(s);
    assert s[n] == s[n..][0] == '.';
    assert !(n < e);
  }

  lemma MatchedSelector(s: string, b: nat, sel: string)
    requires b + |sel| < |s| && s[b..b + |sel|] == sel && s[b + |sel|] == ')' && ')' !in sel
    requires b < SelectorEnd(s, b) < |s| && s[SelectorEnd(s, b)] == ')'
    ensures SelectorShape(sel)
  {
    SelectorEndInside(s, b, sel);
    CharsInside(s, b, sel);
  }

  /** A match holds no further dollar sign. */
  lemma MatchIsPlain(s: string, i: nat)
    requires 0 < i < ResultRefLength(s)
    ensures s[i] != '$'
  {
    assert i < |TASKS| ==> s[i] == TASKS[i];
    var e := NameEnd(s);
    assert e <= i < e + |RESULTS| ==> s[i] == s[e..][i - e] == RESULTS[i - e];
  }

  /** Names found in a suffix are found in the whole. */
  lemma {:induction false} SuffixRefs(s: string, k: nat)
    requires k <= |s|
    ensures ResultRefs(s[k..]) <= ResultRefs(s)
    decreases |s|
  {
    if 0 < k {
      var m := Stride(s);
      if k < m {
        SuffixInMatch(s, k, m);
      } else {
        SuffixRefs(s[m..], k - m);
        assert s[m..][k - m..] == s[k..];
      }
    } else {
      assert s[0..] == s;
    }
  }

  lemma SuffixInMatch(s: string, k: nat, n: nat)
    requires 0 < k < n == ResultRefLength(s)
    ensures ResultRefs(s[k..]) == ResultRefs(s[n..])
  {
    forall i | k <= i < n ensures s[i] != '$' { MatchIsPlain(s, i); }
    assert s[k..][n - k..] == s[n..];
    SkipPlain(s[k..], n - k);
  }

  lemma SkipOne(s: string)
    requires s != [] && s[0] != '$'
    ensures ResultRefs(s) == ResultRefs(s[1..])
  {
    assert TASKS[0] == '$';
    assert ResultRefLength(s) == 0;
  }

  lemma {:induction false} SkipPlain(s: string, n: nat)
    requires n <= |s| && forall i :: 0 <= i < n ==> s[i] != '$'
    ensures ResultRefs(s) == ResultRefs(s[n..])
    decreases n
  {
    if n > 0 {
      SkipOne(s);
      SkipPlain(s[1..], n - 1);
      assert s[1..][n - 1..] == s[n..];
    } else {
      assert s[0..] == s;
    }
  }

  /** Text whose escaped form starts without dollar or NUL starts the same way. */
  lemma {:induction false} EscapePrefix(s: string, m: nat)
    requires m <= |Escape(s)| && forall i :: 0 <= i < m ==> Escape(s)[i] != '$' && Escape(s)[i] != '\0'
    ensures m <= |s| && s[..m] == Escape(s)[..m] && Escape(s)[m..] == Escape(s[m..])
    decreases m
  {
    if m > 0 {
      var x := Escape(s);
      EscapeHead(s, x);
      var y := Escape(s[1..]);
      assert forall i :: 0 <= i < m - 1 ==> y[i] == x[i + 1];
      EscapePrefix(s[1..], m - 1);
      Stitch(s, x, y, m - 1);
    } else {
      assert s[0..] == s;
    }
  }

  lemma EscapeHead(s: string, x: string)
    requires x == Escape(s) && x != [] && x[0] != '\0'
    ensures s != [] && x == [s[0]] + Escape(s[1..])
  {
    assert SENTINEL[0] == '\0';
  }

  lemma {:induction false} SkipPlainRefs(x: string, n: nat, p: string -> bool)
    requires n <= |x| && (forall i :: 0 <= i < n ==> x[i] != '$') && AllRefs(x[n..], p)
    ensures AllRefs(x, p)
    decreases n
  {
    if n > 0 {
      assert x[1..][n - 1..] == x[n..];
      SkipPlainRefs(x[1..], n - 1, p);
    } else {
      assert x[0..] == x;
    }
  }

  /** A reference the resolver reads is one the scan finds where it stands. */
  lemma RefIsScanned(s: string, key: string)
    requires HasPrefix(s, Token(key))
    ensures Scanned(ScopeOf(key), ResultRefs(s))
  {
    var scope := ScopeOf(key);
    if scope.Tasks? {
      TasksScope(key);
      ReadIsScanned(s, scope.rest);
    }
  }

  lemma ReadIsScanned(s: string, rest: string)
    requires HasPrefix(s, Token("tasks." + rest))
    ensures Scanned(Tasks(rest), ResultRefs(s))
  {
    var read := ReadOf(Tasks(rest));
    if read.Some? && NameShape(read.value.0) && SelectorShape(read.value.1) {
      SplitThree(rest);
      ReadIsFound(s, rest, read.value.0, read.value.1);
    }
  }

  lemma ReadIsFound(s: string, rest: string, t: string, sel: string)
    requires rest == t + "." + "results" + "." + sel && HasPrefix(s, Token("tasks." + rest))
    requires NameShape(t) && SelectorShape(sel)
    ensures t in ResultRefs(s)
  {
    Regroup("$(", "tasks.", t, ".", "results", sel, ")");
    assert TASKS == "$(" + "tasks." && RESULTS == "." + "results" + ".";
    TaskRefIsFound(s, t, sel);
  }

  lemma Regroup(a: string, b: string, c: string, d: string, e: string, f: string, g: string)
    ensures a + (b + (c + d + e + d + f)) + g == (a + b) + c + (d + e + d) + f + g
  {
  }

  lemma SplitStep(s: string, n: nat) returns (head: string, tail: string)
    requires n > 1 && |SplitDots(s, n)| > 1
    ensures s == head + "." + tail && SplitDots(s, n) == [head] + SplitDots(tail, n - 1)
  {
    var d := Index(s, ".");
    head, tail := s[..d], s[d + 1..];
    assert s[d..][0] == '.';
    assert s == s[..d] + [s[d]] + s[d + 1..];
  }

  lemma SplitThree(rest: string)
    requires |SplitDots(rest, 3)| == 3
    ensures var p := SplitDots(rest, 3); rest == p[0] + "." + p[1] + "." + p[2]
  {
    var a, tail := SplitStep(rest, 3);
    SplitTwo(tail);
    var p := SplitDots(tail, 2);
    assert SplitDots(rest, 3) == [a] + p;
    Associate(a, ".", p[0], p[1]);
  }

  lemma SplitTwo(rest: string)
    requires |SplitDots(rest, 2)| == 2
    ensures var p := SplitDots(rest, 2); rest == p[0] + "." + p[1]
  {
    var b, c := SplitStep(rest, 2);
    assert SplitDots(c, 1) == [c];
  }

  lemma Associate(a: string, d: string, b: string, c: string)
    ensures a + d + (b + d + c) == a + d + b + d + c
  {
  }

  function ScannedBy(names: set<string>): string -> bool {
    key => Scanned(ScopeOf(key), names)
  }

  /** p holds of every key whose reference stands somewhere in the text. */
  ghost predicate EverywhereIn(s: string, p: string -> bool) {
    forall k, key :: 0 <= k <= |s| && IsKey(key) && HasPrefix(s[k..], Token(key)) ==> p(key)
  }

  lemma EverywhereInSuffix(s: string, m: nat, p: string -> bool)
    requires m <= |s| && EverywhereIn(s, p)
    ensures EverywhereIn(s[m..], p)
  {
    assert forall k :: 0 <= k <= |s| - m ==> s[m..][k..] == s[k + m..];
  }

  lemma EverywhereAtStart(s: string, key: string, p: string -> bool)
    requires EverywhereIn(s, p) && IsKey(key) && HasPrefix(s, Token(key))
    ensures p(key)
  {
    assert s[0..] == s;
  }

  /** Every reference of the escaped text stands somewhere in the raw text. */
  lemma {:induction false} RefsOfEscape(s: string, p: string -> bool)
    requires EverywhereIn(s, p)
    ensures AllRefs(Escape(s), p)
    decreases |s|
  {
    var x := Escape(s);
    if s == [] {
    } else if |s| >= 2 && s[0] == '$' && s[1] == '$' {
      EverywhereInSuffix(s, 2, p);
      RefsOfEscape(s[2..], p);
      SkipSentinel(x, Escape(s[2..]), p);
    } else {
      assert x == [s[0]] + Escape(s[1..]);
      var n := RefLength(x);
      if n == 0 {
        EverywhereInSuffix(s, 1, p);
        RefsOfEscape(s[1..], p);
        assert x[1..] == Escape(s[1..]);
      } else {
        ScanAtRef(s, x, Escape(s[1..]), n);
        EverywhereAtStart(s, x[2..n - 1], p);
        EverywhereInSuffix(s, n, p);
        RefsOfEscape(s[n..], p);
      }
    }
  }

  lemma SkipSentinel(x: string, rest: string, p: string -> bool)
    requires x == SENTINEL + rest && AllRefs(rest, p)
    ensures AllRefs(x, p)
  {
    assert x[|SENTINEL|..] == rest;
    assert forall i :: 0 <= i < |SENTINEL| ==> x[i] == SENTINEL[i] != '$';
    SkipPlainRefs(x, |SENTINEL|, p);
  }

  lemma RefText(x: string)
    requires RefLength(x) > 0
    ensures x[..RefLength(x)] == Token(x[2..RefLength(x) - 1])
    ensures forall i :: 0 < i < RefLength(x) ==> x[i] != '$' && x[i] != '\0'
  {
    var n := RefLength(x);
    forall i | 0 < i < n ensures x[i] != '$' && x[i] != '\0' {
      if 2 <= i < n - 1 { assert x[i] == x[2..n - 1][i - 2]; }
    }
  }

  lemma ScanAtRef(s: string, x: string, y: string, n: nat)
    requires |s| > 0 && x == [s[0]] + y && y == Escape(s[1..])
    requires n == RefLength(x) > 0
    ensures n <= |s| && HasPrefix(s, Token(x[2..n - 1])) && x[n..] == Escape(s[n..])
  {
    var tail := s[1..];
    RefText(x);
    StitchedChars(s, x, y, n - 1);
    EscapePrefix(tail, n - 1);
    Stitch(s, x, y, n - 1);
    assert tail[n - 1..] == s[n..];
    PrefixToken(s, x);
  }

  lemma PrefixToken(s: string, x: string)
    requires 0 < RefLength(x) <= |s| && s[..RefLength(x)] == x[..RefLength(x)]
    ensures HasPrefix(s, Token(x[2..RefLength(x) - 1]))
  {
    RefText(x);
  }

  lemma StitchedChars(s: string, x: string, y: string, m: nat)
    requires |s| > 0 && x == [s[0]] + y && m <= |y|
    requires forall i :: 0 < i < m + 1 ==> x[i] != '$' && x[i] != '\0'
    ensures forall i :: 0 <= i < m ==> y[i] != '$' && y[i] != '\0'
  {
    assert forall i :: 0 <= i < m ==> y[i] == x[i + 1];
  }

  lemma Stitch(s: string, x: string, y: string, m: nat)
    requires |s| > 0 && x == [s[0]] + y && m <= |y| && m <= |s[1..]| && s[1..][..m] == y[..m]
    ensures s[..m + 1] == x[..m + 1] && s[m + 1..] == s[1..][m..] && x[m + 1..] == y[m..]
  {
    assert s[..m + 1] == [s[0]] + s[1..][..m];
    assert x[..m + 1] == [s[0]] + y[..m];
  }

  /** The scan over the raw text finds every accepted reference the resolver meets in the escaped text. */
  lemma RefsAreScanned(s: string)
    ensures AllRefs(Escape(s), ScannedBy(ResultRefs(s)))
  {
    forall k, key | 0 <= k <= |s| && IsKey(key) && HasPrefix(s[k..], Token(key)) ensures ScannedBy(ResultRefs(s))(key) {
      RefIsScanned(s[k..], key);
      SuffixRefs(s, k);
    }
    RefsOfEscape(s, ScannedBy(ResultRefs(s)));
  }

  // ---------------------------------------------------------------- one reference

  /** The parts of a dotted string hold no dot before the last. */
  lemma FirstPartIsDotless(s: string, n: nat)
    requires n > 1 && |SplitDots(s, n)| > 1
    ensures '.' !in SplitDots(s, n)[0]
  {
    var d := Index(s, ".");
    forall i | 0 <= i < d ensures s[i] != '.' {
      if s[i] == '.' {
        assert s[i..][..1] == ".";
        IndexIsFirst(s, ".", i);
      }
    }
    assert forall i :: 0 <= i < d ==> s[..d][i] == s[i];
  }

  /** How the key of a result reference is put together. */
  lemma ReadKey(key: string, t: string, sel: string)
    requires ReadOf(ScopeOf(key)) == Some((t, sel))
    ensures key == "tasks." + (t + "." + "results" + "." + sel) && '.' !in t
  {
    TasksScope(key);
    ReadRest(ScopeOf(key).rest, t, sel);
  }

  lemma ReadRest(rest: string, t: string, sel: string)
    requires ReadOf(Tasks(rest)) == Some((t, sel))
    ensures rest == t + "." + "results" + "." + sel && '.' !in t
  {
    SplitThree(rest);
    FirstPartIsDotless(rest, 3);
  }

  lemma ReadText(key: string, t: string, sel: string)
    requires key == "tasks." + (t + "." + "results" + "." + sel)
    ensures Token(key) == TASKS + t + RESULTS + sel + ")"
  {
    Regroup("$(", "tasks.", t, ".", "results", sel, ")");
    assert TASKS == "$(" + "tasks." && RESULTS == "." + "results" + ".";
  }

  /** A key has neither a dollar sign nor a parenthesis, so its token has one of each kind. */
  lemma TokenChars(key: string, b: nat, sel: string)
    requires IsKey(key) && 2 < b && b + |sel| == |Token(key)| - 1 && Token(key)[b..b + |sel|] == sel
    ensures ')' !in sel && forall i :: 0 < i < |Token(key)| ==> Token(key)[i] != '$'
  {
    var s := Token(key);
    assert forall i :: 2 <= i < |s| - 1 ==> s[i] == key[i - 2];
    assert forall i :: 0 <= i < |sel| ==> sel[i] == s[b..b + |sel|][i] == s[b + i];
  }

  /** With nothing behind it the scan finds what it matches at the start. */
  lemma ScansOnce(s: string, m: nat, rest: set<string>)
    requires s != [] && m == Stride(s) && rest == ResultRefs(s[m..]) && rest == {}
    ensures ResultRefs(s) == NameAt(s)
  {
    assert ResultRefs(s) == NameAt(s) + rest;
  }

  /** With no further dollar sign the scan can match only at the start. */
  lemma NothingAfter(s: string, m: nat)
    requires 0 < m <= |s| && forall i :: 0 < i < |s| ==> s[i] != '$'
    ensures ResultRefs(s[m..]) == {}
  {
    var tail := s[m..];
    SkipPlain(tail, |tail|);
    assert tail[|tail|..] == [];
  }

  /** The scan of a result reference finds its task if the names have the accepted shape, and
      nothing otherwise. */
  lemma ReferenceIsScanned(key: string, t: string, sel: string)
    requires IsKey(key) && ReadOf(ScopeOf(key)) == Some((t, sel))
    ensures ResultRefs(Token(key)) == if NameShape(t) && SelectorShape(sel) then {t} else {}
  {
    ReadKey(key, t, sel);
    ReadText(key, t, sel);
    TextIsScanned(key, Token(key), t, sel);
  }

  lemma TextIsScanned(key: string, s: string, t: string, sel: string)
    requires IsKey(key) && s == Token(key) == TASKS + t + RESULTS + sel + ")" && '.' !in t
    ensures ResultRefs(s) == if NameShape(t) && SelectorShape(sel) then {t} else {}
  {
    var e, b := Positions(s, t, sel);
    TokenChars(key, b, sel);
    ScanAtPositions(s, t, sel, e, b);
    NothingAfter(s, Stride(s));
    ScansOnce(s, Stride(s), {});
  }
}
