/** Paths, cycles and levels of a directed graph given by its adjacency map. */
module Paths {
  import opened Strings

  type Adjacency = map<string, set<string>>

  predicate Edge(out: Adjacency, u: string, v: string) {
    u in out && v in out[u]
  }

  /** p is a walk along at least one edge from its first to its last node. */
  ghost predicate Path(out: Adjacency, p: seq<string>) {
    |p| >= 2 && forall i :: 0 <= i < |p| - 1 ==> Edge(out, p[i], p[i + 1])
  }

  ghost predicate PathFromTo(out: Adjacency, p: seq<string>, u: string, v: string) {
    Path(out, p) && p[0] == u && p[|p| - 1] == v
  }

  ghost predicate Reaches(out: Adjacency, u: string, v: string) {
    exists p :: PathFromTo(out, p, u, v)
  }

  ghost predicate Acyclic(out: Adjacency) {
    forall n :: !Reaches(out, n, n)
  }

  /** Every edge joins two known nodes. */
  ghost predicate Closed(nodes: set<string>, out: Adjacency) {
    forall u, v :: Edge(out, u, v) ==> u in nodes && v in nodes
  }

  lemma EdgeReaches(out: Adjacency, u: string, v: string)
    requires Edge(out, u, v)
    ensures Reaches(out, u, v)
  {
    assert PathFromTo(out, [u, v], u, v);
  }

  lemma ReachesTransitive(out: Adjacency, u: string, v: string, w: string)
    requires Reaches(out, u, v) && Reaches(out, v, w)
    ensures Reaches(out, u, w)
  {
    var p :| PathFromTo(out, p, u, v);
    var q :| PathFromTo(out, q, v, w);
    var r := p + q[1..];
    forall i | 0 <= i < |r| - 1 ensures Edge(out, r[i], r[i + 1]) {
      if i >= |p| - 1 {
        assert r[i] == q[i - (|p| - 1)] && r[i + 1] == q[i + 1 - (|p| - 1)];
      }
    }
    assert PathFromTo(out, r, u, w);
  }

  /** The last edge of a connection. */
  lemma ReachesLast(out: Adjacency, u: string, w: string) returns (v: string)
    requires Reaches(out, u, w)
    ensures Edge(out, v, w) && (v == u || Reaches(out, u, v))
  {
    var p :| PathFromTo(out, p, u, w);
    v := p[|p| - 2];
    if |p| > 2 {
      assert PathFromTo(out, p[..|p| - 1], u, v);
    }
  }

  /** A set closed under successors holds everything its members reach. */
  lemma {:induction false} ClosedSetHoldsPath(out: Adjacency, s: set<string>, p: seq<string>)
    requires Path(out, p) && forall u, v :: u in s && Edge(out, u, v) ==> v in s
    requires p[0] in s
    ensures p[|p| - 1] in s
    decreases |p|
  {
    if |p| > 2 {
      assert Edge(out, p[0], p[1]);
      ClosedSetHoldsPath(out, s, p[1..]);
    } else {
      assert Edge(out, p[0], p[1]);
    }
  }

  lemma {:induction false} DistinctFit(p: seq<string>, s: set<string>)
    requires Elements(p) <= s && forall i, j :: 0 <= i < j < |p| ==> p[i] != p[j]
    ensures |p| <= |s|
  {
    if p != [] {
      var l := p[|p| - 1];
      assert l in Elements(p);
      forall x | x in Elements(p[..|p| - 1]) ensures x in s - {l} {
        assert x in Elements(p);
      }
      DistinctFit(p[..|p| - 1], s - {l});
    }
  }

  ghost predicate HasPredecessorIn(out: Adjacency, s: set<string>, v: string) {
    exists u :: u in s && Edge(out, u, v)
  }

  /** Every member has a predecessor inside the set. */
  ghost predicate Sourceless(out: Adjacency, s: set<string>) {
    forall v {:trigger HasPredecessorIn(out, s, v)} :: v in s ==> HasPredecessorIn(out, s, v)
  }

  /** Walks backwards through a sourceless set. */
  lemma {:induction false} BackwardWalk(out: Adjacency, s: set<string>, n: nat) returns (p: seq<string>)
    requires s != {} && Sourceless(out, s)
    ensures Path(out, p) && |p| == n + 2 && forall i :: 0 <= i < |p| ==> p[i] in s
  {
    if n == 0 {
      var v :| v in s;
      assert HasPredecessorIn(out, s, v);
      var u :| u in s && Edge(out, u, v);
      p := [u, v];
    } else {
      var q := BackwardWalk(out, s, n - 1);
      assert HasPredecessorIn(out, s, q[0]);
      var u :| u in s && Edge(out, u, q[0]);
      p := [u] + q;
      forall i | 0 <= i < |p| - 1 ensures Edge(out, p[i], p[i + 1]) {
        if i > 0 { assert p[i] == q[i - 1] && p[i + 1] == q[i]; }
      }
    }
  }

  /** A nonempty finite set in which every node has a predecessor contains a cycle. */
  lemma NoSourceMeansCycle(out: Adjacency, s: set<string>)
    requires s != {} && Sourceless(out, s)
    ensures !Acyclic(out)
  {
    var p := BackwardWalk(out, s, |s|);
    if forall i, j :: 0 <= i < j < |p| ==> p[i] != p[j] {
      DistinctFit(p, s);
    }
    var i, j :| 0 <= i < j < |p| && p[i] == p[j];
    var c := p[i..j + 1];
    assert forall k :: 0 <= k < |c| - 1 ==> Edge(out, c[k], c[k + 1]) by {
      forall k | 0 <= k < |c| - 1 ensures Edge(out, c[k], c[k + 1]) {
        assert c[k] == p[i + k] && c[k + 1] == p[i + k + 1];
      }
    }
    assert PathFromTo(out, c, p[i], p[i]);
    assert Reaches(out, p[i], p[i]);
  }

  /** Where a node sits in a list of levels. */
  ghost predicate InLevel(levels: seq<seq<string>>, i: nat, n: string) {
    i < |levels| && n in levels[i]
  }

  ghost predicate Placed(levels: seq<seq<string>>, n: string) {
    exists i :: InLevel(levels, i, n)
  }

  /** v has a predecessor in level i. */
  ghost predicate WaitsFor(out: Adjacency, levels: seq<seq<string>>, i: nat, v: string) {
    exists u :: InLevel(levels, i, u) && Edge(out, u, v)
  }

  /** What the levels promise: a partition of the nodes in which every edge goes to a
      strictly later level and every node of a later level waits for the level just before. */
  ghost predicate Levelling(nodes: set<string>, out: Adjacency, levels: seq<seq<string>>) {
    && (forall i :: 0 <= i < |levels| ==> levels[i] != [] && Increasing(levels[i]))
    && (forall i, n :: InLevel(levels, i, n) ==> n in nodes)
    && (forall n {:trigger Placed(levels, n)} :: n in nodes ==> Placed(levels, n))
    && (forall i, j, n :: InLevel(levels, i, n) && InLevel(levels, j, n) ==> i == j)
    && (forall u, v, i, j :: Edge(out, u, v) && InLevel(levels, i, u) && InLevel(levels, j, v) ==> i < j)
    && (forall i: nat, v {:trigger WaitsFor(out, levels, i, v)} :: InLevel(levels, i + 1, v) ==>
       WaitsFor(out, levels, i, v))
  }

  /** Connected nodes sit in strictly increasing levels. */
  lemma {:induction false} PathClimbs(nodes: set<string>, out: Adjacency,
      levels: seq<seq<string>>, p: seq<string>, i: nat, j: nat)
    requires Levelling(nodes, out, levels) && Closed(nodes, out)
    requires Path(out, p) && InLevel(levels, i, p[0]) && InLevel(levels, j, p[|p| - 1])
    ensures i < j
    decreases |p|
  {
    assert Edge(out, p[0], p[1]);
    if |p| > 2 {
      assert Placed(levels, p[1]);
      var k: nat :| InLevel(levels, k, p[1]);
      PathClimbs(nodes, out, levels, p[1..], k, j);
    }
  }

  lemma ReachesClimbs(nodes: set<string>, out: Adjacency,
      levels: seq<seq<string>>, u: string, v: string, i: nat, j: nat)
    requires Levelling(nodes, out, levels) && Closed(nodes, out)
    requires Reaches(out, u, v) && InLevel(levels, i, u) && InLevel(levels, j, v)
    ensures i < j
  {
    var p :| PathFromTo(out, p, u, v);
    PathClimbs(nodes, out, levels, p, i, j);
  }

  lemma {:induction false} PathStaysInside(nodes: set<string>, out: Adjacency, p: seq<string>)
    requires Closed(nodes, out) && Path(out, p)
    ensures p[0] in nodes && p[|p| - 1] in nodes
  {
    assert Edge(out, p[0], p[1]) && Edge(out, p[|p| - 2], p[|p| - 2 + 1]);
  }

  /** A graph that has a levelling has no cycle. */
  lemma LevellingMeansAcyclic(nodes: set<string>, out: Adjacency, levels: seq<seq<string>>)
    requires Levelling(nodes, out, levels) && Closed(nodes, out)
    ensures Acyclic(out)
  {
    forall n | Reaches(out, n, n) ensures false {
      var p :| PathFromTo(out, p, n, n);
      PathStaysInside(nodes, out, p);
      assert Placed(levels, n);
      var i: nat :| InLevel(levels, i, n);
      PathClimbs(nodes, out, levels, p, i, i);
    }
  }

  /** Levels are the only levelling: the answer does not depend on map iteration order. */
  lemma {:induction false} LevellingIsUnique(nodes: set<string>, out: Adjacency,
      a: seq<seq<string>>, b: seq<seq<string>>)
    requires Closed(nodes, out) && Levelling(nodes, out, a) && Levelling(nodes, out, b)
    ensures a == b
  {
    forall i: nat, n | InLevel(a, i, n) ensures InLevel(b, i, n) {
      SameLevel(nodes, out, a, b, i, n);
    }
    forall i: nat, n | InLevel(b, i, n) ensures InLevel(a, i, n) {
      SameLevel(nodes, out, b, a, i, n);
    }
    if |a| < |b| {
      assert InLevel(b, |a|, b[|a|][0]);
    } else if |b| < |a| {
      assert InLevel(a, |b|, a[|b|][0]);
    }
    forall i | 0 <= i < |a| ensures a[i] == b[i] {
      forall n ensures n in a[i] <==> n in b[i] {
        assert InLevel(a, i, n) <==> InLevel(b, i, n);
      }
      assert Elements(a[i]) == Elements(b[i]);
      IncreasingIsUnique(a[i], b[i]);
    }
  }

  lemma {:induction false} SameLevel(nodes: set<string>, out: Adjacency,
      a: seq<seq<string>>, b: seq<seq<string>>, i: nat, n: string)
    requires Closed(nodes, out) && Levelling(nodes, out, a) && Levelling(nodes, out, b)
    requires InLevel(a, i, n)
    ensures InLevel(b, i, n)
    decreases i
  {
    assert Placed(b, n);
    var j: nat :| InLevel(b, j, n);
    if i > 0 {
      // The predecessor one level down pushes n at least as high in b.
      assert WaitsFor(out, a, i - 1, n);
      var u :| InLevel(a, i - 1, u) && Edge(out, u, n);
      SameLevel(nodes, out, a, b, i - 1, u);
    }
    if j > i {
      // A predecessor of n in level j-1 of b sits below n in a.
      assert WaitsFor(out, b, j - 1, n);
      var u :| InLevel(b, j - 1, u) && Edge(out, u, n);
      assert Placed(a, u);
      var k: nat :| InLevel(a, k, u);
      SameLevel(nodes, out, a, b, k, u);
    }
  }
}

/** The counting argument of the level loop, on values. */
module Kahn {
  import opened Strings
  import opened Paths

  /** The two adjacency maps describe the same edges. */
  ghost predicate Transposed(outs: Adjacency, ins: Adjacency) {
    forall u, v :: Edge(outs, u, v) <==> Edge(ins, v, u)
  }

  /** How many of the nodes in left point at v. */
  ghost function Degree(ins: Adjacency, left: set<string>, v: string): nat
    requires v in ins
  {
    |ins[v] * left|
  }

  /** indeg counts, for every waiting node, its predecessors that are still waiting. */
  ghost predicate Counts(ins: Adjacency, indeg: map<string, int>) {
    indeg.Keys <= ins.Keys && forall n :: n in indeg ==> indeg[n] == Degree(ins, indeg.Keys, n)
  }

  lemma DegreeZero(outs: Adjacency, ins: Adjacency, left: set<string>, v: string)
    requires Transposed(outs, ins) && v in ins
    ensures Degree(ins, left, v) == 0 <==> !HasPredecessorIn(outs, left, v)
  {
    if HasPredecessorIn(outs, left, v) {
      var u :| u in left && Edge(outs, u, v);
      assert Edge(ins, v, u) && u in ins[v] * left;
    } else {
      assert forall u :: u in ins[v] ==> Edge(ins, v, u) && Edge(outs, u, v);
      assert ins[v] * left == {};
    }
  }

  lemma DegreeStaysZero(ins: Adjacency, left: set<string>, left': set<string>, v: string)
    requires v in ins && left' <= left && Degree(ins, left, v) == 0
    ensures Degree(ins, left', v) == 0
  {
    assert ins[v] * left == {};
    assert ins[v] * left' == {};
  }

  lemma DegreeDrops(outs: Adjacency, ins: Adjacency, left: set<string>, n: string, v: string)
    requires Transposed(outs, ins) && v in ins && n in left
    ensures Degree(ins, left, v) == Degree(ins, left - {n}, v) + if Edge(outs, n, v) then 1 else 0
  {
    assert Edge(outs, n, v) <==> Edge(ins, v, n);
    if Edge(outs, n, v) {
      assert ins[v] * left == (ins[v] * (left - {n})) + {n};
    } else {
      assert ins[v] * left == ins[v] * (left - {n});
    }
  }

  /** What the level loop has established while the nodes in left are still waiting. */
  ghost predicate Levelled(nodes: set<string>, outs: Adjacency, left: set<string>, levels: seq<seq<string>>) {
    && left <= nodes
    && Levelling(nodes - left, outs, levels)
    && (forall u, v :: Edge(outs, u, v) && v in nodes - left ==> u in nodes - left)
    && (forall v {:trigger HasPredecessorIn(outs, left, v)} :: v in left && |levels| > 0 ==>
          WaitsFor(outs, levels, |levels| - 1, v) || HasPredecessorIn(outs, left, v))
  }

  lemma NothingLevelled(nodes: set<string>, outs: Adjacency)
    ensures Levelled(nodes, outs, nodes, [])
  {
  }

  lemma EverythingLevelled(nodes: set<string>, outs: Adjacency, levels: seq<seq<string>>)
    requires Closed(nodes, outs) && Levelled(nodes, outs, {}, levels)
    ensures Levelling(nodes, outs, levels) && Acyclic(outs)
  {
    assert nodes - {} == nodes;
    LevellingMeansAcyclic(nodes, outs, levels);
  }

  lemma ExtendLevels(nodes: set<string>, outs: Adjacency, left: set<string>,
      levels: seq<seq<string>>, ready: seq<string>)
    requires Closed(nodes, outs) && Levelled(nodes, outs, left, levels)
    requires ready != [] && Increasing(ready) && Elements(ready) <= left
    requires forall v :: v in left ==> (v in ready <==> !HasPredecessorIn(outs, left, v))
    ensures Levelled(nodes, outs, left - Elements(ready), levels + [ready])
  {
    var left', levels' := left - Elements(ready), levels + [ready];
    assert forall n :: n in ready <==> n in Elements(ready);
    assert forall i: nat, n :: InLevel(levels', i, n) <==> InLevel(levels, i, n) || (i == |levels| && n in ready);
    forall n | n in nodes - left' ensures Placed(levels', n) {
      if n in ready {
        assert InLevel(levels', |levels|, n);
      } else {
        assert Placed(levels, n);
        var i: nat :| InLevel(levels, i, n);
        assert InLevel(levels', i, n);
      }
    }
    forall u, v | Edge(outs, u, v) && v in ready ensures u !in left {
      assert !HasPredecessorIn(outs, left, v);
    }
    forall i: nat, v | InLevel(levels', i + 1, v) ensures WaitsFor(outs, levels', i, v) {
      if i + 1 == |levels| {
        assert v in left && !HasPredecessorIn(outs, left, v);
      } else {
        assert InLevel(levels, i + 1, v);
      }
      assert WaitsFor(outs, levels, i, v);
      var u :| InLevel(levels, i, u) && Edge(outs, u, v);
      assert InLevel(levels', i, u);
    }
    forall u, v, i: nat, j: nat | Edge(outs, u, v) && InLevel(levels', i, u) && InLevel(levels', j, v) ensures i < j {
    }
    forall v | v in left' ensures WaitsFor(outs, levels', |levels|, v) || HasPredecessorIn(outs, left', v) {
      assert HasPredecessorIn(outs, left, v);
      var u :| u in left && Edge(outs, u, v);
      if u in ready {
        assert InLevel(levels', |levels|, u);
      }
    }
  }

  /** First pass of Levels: is every endpoint of every edge a known node? */
  method EndpointsKnown(nodes: set<string>, outs: Adjacency) returns (ok: bool)
    ensures ok <==> Closed(nodes, outs)
  {
    var todo := outs.Keys;
    while todo != {}
      invariant todo <= outs.Keys
      invariant forall u, v :: u !in todo && Edge(outs, u, v) ==> u in nodes && v in nodes
      decreases todo
    {
      var u :| u in todo;
      if u !in nodes && |outs[u]| > 0 {
        assert outs[u] != {};
        var v :| v in outs[u];
        assert Edge(outs, u, v);
        return false;
      }
      var vs := outs[u];
      while vs != {}
        invariant vs <= outs[u]
        invariant forall v :: v in outs[u] - vs ==> v in nodes
        decreases vs
      {
        var v :| v in vs;
        if v !in nodes {
          assert Edge(outs, u, v);
          return false;
        }
        vs := vs - {v};
      }
      todo := todo - {u};
    }
    return true;
  }

  method InitialDegrees(nodes: set<string>, outs: Adjacency, ins: Adjacency) returns (indeg: map<string, int>)
    requires nodes <= ins.Keys && Transposed(outs, ins) && Closed(nodes, outs)
    ensures indeg.Keys == nodes && Counts(ins, indeg)
  {
    indeg := map n | n in nodes :: |ins[n]|;
    forall n | n in nodes ensures indeg[n] == Degree(ins, nodes, n) {
      assert forall u :: u in ins[n] ==> Edge(ins, n, u) && Edge(outs, u, n);
      assert ins[n] * nodes == ins[n];
    }
  }

  /** Takes one ready node out and lowers the count of each waiting successor. */
  method Retire(outs: Adjacency, ins: Adjacency, indeg: map<string, int>, n: string) returns (r: map<string, int>)
    requires Transposed(outs, ins) && Counts(ins, indeg) && n in indeg && n in outs && indeg[n] == 0
    ensures r.Keys == indeg.Keys - {n} && Counts(ins, r)
  {
    r := LowerCounts(outs[n], indeg - {n});
    forall m | m in r ensures r[m] == Degree(ins, r.Keys, m) {
      DegreeDrops(outs, ins, indeg.Keys, n, m);
    }
  }

  /** Takes one from the count of each target that is still waiting. */
  method LowerCounts(targets: set<string>, indeg: map<string, int>) returns (r: map<string, int>)
    ensures r.Keys == indeg.Keys
    ensures forall m :: m in r ==> r[m] == indeg[m] - if m in targets then 1 else 0
  {
    r := indeg;
    var todo := targets;
    while todo != {}
      invariant todo <= targets && r.Keys == indeg.Keys
      invariant forall m :: m in r ==> r[m] == indeg[m] - if m in targets && m !in todo then 1 else 0
      decreases todo
    {
      var v :| v in todo;
      if v in r {
        r := r[v := r[v] - 1];
      }
      todo := todo - {v};
    }
  }

  /** Retires a whole level. */
  method RetireAll(outs: Adjacency, ins: Adjacency, indeg: map<string, int>, ready: seq<string>)
    returns (r: map<string, int>)
    requires Transposed(outs, ins) && Counts(ins, indeg) && indeg.Keys <= outs.Keys
    requires Increasing(ready) && forall n :: n in ready ==> n in indeg && indeg[n] == 0
    ensures r.Keys == indeg.Keys - Elements(ready) && Counts(ins, r)
  {
    r := indeg;
    IncreasingIsInjective(ready);
    for i := 0 to |ready|
      invariant Counts(ins, r) && forall x :: x in r <==> x in indeg && x !in ready[..i]
    {
      assert ready[..i + 1] == ready[..i] + [ready[i]];
      assert ready[i] in indeg && ready[i] !in ready[..i];
      DegreeStaysZero(ins, indeg.Keys, r.Keys, ready[i]);
      r := Retire(outs, ins, r, ready[i]);
    }
    assert ready[..|ready|] == ready;
  }

  /** The waiting nodes with no waiting predecessor, sorted. */
  method Ready(outs: Adjacency, ins: Adjacency, indeg: map<string, int>) returns (ready: seq<string>)
    requires Transposed(outs, ins) && Counts(ins, indeg)
    ensures Increasing(ready) && Elements(ready) <= indeg.Keys
    ensures forall v :: v in ready ==> v in indeg && indeg[v] == 0
    ensures forall v :: v in indeg ==> (v in ready <==> !HasPredecessorIn(outs, indeg.Keys, v))
  {
    var zero := set n | n in indeg && indeg[n] == 0;
    ready := SortedListing(zero);
    assert forall v :: v in ready <==> v in Elements(ready);
    forall v | v in indeg ensures v in ready <==> !HasPredecessorIn(outs, indeg.Keys, v) {
      DegreeZero(outs, ins, indeg.Keys, v);
    }
  }

  /** Appends a level and retires it. */
  method CloseLevel(nodes: set<string>, outs: Adjacency, ins: Adjacency,
    indeg: map<string, int>, levels: seq<seq<string>>, ready: seq<string>)
    returns (indeg': map<string, int>, levels': seq<seq<string>>)
    requires nodes <= outs.Keys && Transposed(outs, ins) && Closed(nodes, outs) && Counts(ins, indeg)
      && Levelled(nodes, outs, indeg.Keys, levels)
    requires ready != [] && Increasing(ready) && Elements(ready) <= indeg.Keys
    requires forall v :: v in ready ==> v in indeg && indeg[v] == 0
    requires forall v :: v in indeg ==> (v in ready <==> !HasPredecessorIn(outs, indeg.Keys, v))
    ensures Counts(ins, indeg') && indeg'.Keys == indeg.Keys - Elements(ready)
    ensures Levelled(nodes, outs, indeg'.Keys, levels')
  {
    ExtendLevels(nodes, outs, indeg.Keys, levels, ready);
    indeg' := RetireAll(outs, ins, indeg, ready);
    levels' := levels + [ready];
  }

  /** The traversal's state: everything seen is reachable, and only stacked nodes still
      have unseen successors. */
  ghost predicate Traversing(outs: Adjacency, start: string, seen: set<string>, stack: seq<string>)
  {
    && (forall v :: v in seen ==> Reaches(outs, start, v))
    && (forall u :: u in stack ==> u == start || u in seen)
    && (forall u, v :: Edge(outs, u, v) && (u == start || u in seen) && u !in stack ==> v in seen)
  }

  ghost function Targets(outs: Adjacency): set<string> {
    set u, v | u in outs && v in outs[u] :: v
  }

  /** With an empty stack the traversal has seen exactly what start reaches. */
  lemma TraversalComplete(outs: Adjacency, start: string, seen: set<string>, v: string)
    requires Traversing(outs, start, seen, [])
    ensures v in seen <==> Reaches(outs, start, v)
  {
    if Reaches(outs, start, v) {
      var w := ReachesLast(outs, start, v);
      if w != start {
        var p :| PathFromTo(outs, p, start, w);
        ClosedSetHoldsPath(outs, seen + {start}, p);
      }
    }
  }

  /** Pushes the unseen successors of u. */
  method Expand(outs: Adjacency, start: string, u: string, seen: set<string>, stack: seq<string>)
    returns (seen': set<string>, stack': seq<string>)
    requires Traversing(outs, start, seen, stack + [u])
    ensures Traversing(outs, start, seen', stack')
    ensures seen <= seen' <= seen + Targets(outs)
    ensures seen == seen' ==> stack' == stack
  {
    assert u in stack + [u];
    seen', stack' := seen, stack;
    var vs := if u in outs then outs[u] else {};
    ghost var targets := vs;
    while vs != {}
      invariant vs <= targets <= Targets(outs) && seen <= seen' <= seen + targets
      invariant targets - vs <= seen'
      invariant forall v :: v in seen' ==> Reaches(outs, start, v)
      invariant forall x :: x in stack' <==> x in stack || x in seen' - seen
      invariant seen == seen' ==> stack' == stack
      decreases vs
    {
      var v :| v in vs;
      vs := vs - {v};
      if v !in seen' {
        EdgeReaches(outs, u, v);
        if u != start { ReachesTransitive(outs, start, u, v); }
        seen' := seen' + {v};
        stack' := stack' + [v];
      }
    }
    forall x, y | Edge(outs, x, y) && (x == start || x in seen') && x !in stack' ensures y in seen' {
      assert x in stack + [u] ==> x == u;
    }
  }

  lemma Shrinks(a: set<string>, b: set<string>)
    requires a < b
    ensures |a| < |b|
  {
    assert |b - a| > 0;
    assert a + (b - a) == b;
  }
}

/** The scheduler's graph: build, level grouping with cycle detection, traversal. */
module Dag {
  import opened Strings
  import opened Paths
  import opened Kahn
  import opened Wrappers

  datatype LevelsError = UnknownNode | CycleAmong(remaining: seq<string>)

  class Graph {
    var nodes: set<string>
    var outs: Adjacency
    var ins: Adjacency

    ghost predicate Valid()
      reads this
    {
      nodes <= outs.Keys && nodes <= ins.Keys && Transposed(outs, ins)
    }

    constructor ()
      ensures nodes == {} && outs == map[] && ins == map[]
      ensures Valid()
    {
      nodes, outs, ins := {}, map[], map[];
    }

    /** Adding an unknown node resets its adjacency, so the maps stay transposed exactly
        when no edge already joins it to another node. */
    method AddNode(n: string)
      modifies this
      ensures nodes == old(nodes) + {n}
      ensures n in old(nodes) ==> outs == old(outs) && ins == old(ins)
      ensures n !in old(nodes) ==> outs == old(outs)[n := {}] && ins == old(ins)[n := {}]
      ensures old(Valid()) ==>
        (Valid() <==> (n in old(nodes) || forall m :: m != n ==> !Edge(old(outs), n, m) && !Edge(old(outs), m, n)))
    {
      if n in nodes {
        return;
      }
      ghost var o, i := outs, ins;
      nodes := nodes + {n};
      outs := outs[n := {}];
      ins := ins[n := {}];
      if old(Valid()) {
        ResetKeepsTransposed(o, i, n);
      }
    }

    static lemma ResetKeepsTransposed(o: Adjacency, i: Adjacency, n: string)
      requires Transposed(o, i)
      ensures Transposed(o[n := {}], i[n := {}]) <==> forall m :: m != n ==> !Edge(o, n, m) && !Edge(o, m, n)
    {
      var o', i' := o[n := {}], i[n := {}];
      if Transposed(o', i') {
        forall m | m != n ensures !Edge(o, n, m) && !Edge(o, m, n) {
          assert Edge(o, m, n) <==> Edge(o', m, n);
          assert Edge(i, m, n) <==> Edge(i', m, n);
          assert Edge(o, n, m) <==> Edge(i, m, n);
          assert !Edge(o', n, m) && !Edge(i', n, m);
        }
      } else {
        var u, v :| Edge(o', u, v) != Edge(i', v, u);
        assert Edge(o, u, v) <==> Edge(i, v, u);
      }
    }

    method AddEdge(u: string, v: string)
      requires Valid()
      modifies this
      ensures Valid() && nodes == old(nodes)
      ensures forall x, y :: Edge(outs, x, y) <==> Edge(old(outs), x, y) || (x == u && y == v)
    {
      ghost var o, i := outs, ins;
      if u !in outs {
        outs := outs[u := {}];
      }
      if v !in ins {
        ins := ins[v := {}];
      }
      outs := outs[u := outs[u] + {v}];
      ins := ins[v := ins[v] + {u}];
      forall x, y ensures Edge(outs, x, y) <==> Edge(ins, y, x) {
        assert Edge(o, x, y) <==> Edge(i, y, x);
      }
    }

    /** Kahn's algorithm by levels: succeeds exactly when every edge joins known nodes and
        there is no cycle, and then returns the one levelling of the graph. */
    method Levels() returns (r: Result<seq<seq<string>>, LevelsError>)
      requires Valid()
      ensures r.Ok? <==> Closed(nodes, outs) && Acyclic(outs)
      ensures r == Err(UnknownNode) <==> !Closed(nodes, outs)
      ensures r.Ok? ==> Levelling(nodes, outs, r.value)
    {
      var ok := EndpointsKnown(nodes, outs);
      if !ok {
        return Err(UnknownNode);
      }
      var indeg := InitialDegrees(nodes, outs, ins);
      var levels: seq<seq<string>> := [];
      NothingLevelled(nodes, outs);
      while indeg.Keys != {}
        invariant Counts(ins, indeg) && indeg.Keys <= nodes && Levelled(nodes, outs, indeg.Keys, levels)
        decreases indeg.Keys
      {
        var ready := Ready(outs, ins, indeg);
        if |ready| == 0 {
          NoSourceMeansCycle(outs, indeg.Keys);
          var remaining := SortedListing(indeg.Keys);
          return Err(CycleAmong(remaining));
        }
        ElementsEmpty(ready);
        indeg, levels := CloseLevel(nodes, outs, ins, indeg, levels, ready);
      }
      EverythingLevelled(nodes, outs, levels);
      return Ok(levels);
    }

    /** Everything reachable from start along at least one edge, sorted. A node on a cycle
        through itself is therefore one of its own descendants. */
    method Descendants(start: string) returns (r: seq<string>)
      ensures Increasing(r)
      ensures forall v :: v in r <==> Reaches(outs, start, v)
    {
      var seen: set<string> := {};
      var stack := [start];
      while stack != []
        invariant seen <= Targets(outs) && Traversing(outs, start, seen, stack)
        decreases |Targets(outs) - seen|, |stack|
      {
        var u := stack[|stack| - 1];
        assert stack == stack[..|stack| - 1] + [u];
        ghost var unseen := Targets(outs) - seen;
        seen, stack := Expand(outs, start, u, seen, stack[..|stack| - 1]);
        if Targets(outs) - seen != unseen { Shrinks(Targets(outs) - seen, unseen); }
      }
      r := SortedListing(seen);
      forall v ensures v in r <==> Reaches(outs, start, v) {
        assert v in r <==> v in Elements(r);
        TraversalComplete(outs, start, seen, v);
      }
    }

    /** The nodes with a path to target, other than target itself. */
    method Upstream(target: string) returns (r: seq<string>)
      ensures forall n :: n in r <==> n in nodes && n != target && Reaches(outs, n, target)
    {
      r := [];
      var names := SortedListing(nodes);
      for i := 0 to |names|
        invariant forall n :: n in r <==> n in names[..i] && n != target && Reaches(outs, n, target)
      {
        var n := names[i];
        assert names[..i + 1] == names[..i] + [n];
        if n == target {
          continue;
        }
        var below := Descendants(n);
        if target in below {
          r := r + [n];
        }
      }
      assert names[..|names|] == names;
      forall n ensures n in names <==> n in nodes {
        assert n in names <==> n in Elements(names);
      }
    }
  }
}
