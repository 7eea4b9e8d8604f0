/** The run store over all interleavings of its writers. */
module RunStoreLaws {
  import opened Wrappers
  import opened RunStore

  /** Numbers increase and are below the next one. */
  ghost predicate Sound(f: IndexFile) {
    f.nextSeq >= 1 && Increasing(f.entries) && forall e :: e in f.entries ==> 1 <= e.seqNo < f.nextSeq
  }

  /** What some process does while it holds the lock. */
  datatype Op =
    | NewRun(entry: Entry)
    | Finalize(seqNo: int, end: int, exitCode: int, status: string)
    | PruneRuns(env: Env, opts: PruneOptions, stuck: set<string>)

  /** What an operation makes of the opened index. */
  function Act(f: IndexFile, op: Op): IndexFile {
    match op
    case NewRun(e) => IndexFile(f.nextSeq + 1, f.entries + [e.(seqNo := f.nextSeq)])
    case Finalize(q, end, exitCode, status) => f.(entries := Updated(f.entries, q, end, exitCode, status))
    case PruneRuns(env, opts, stuck) =>
      var left := Pruned(env, opts, stuck, f.entries);
      if |left| < |f.entries| then f.(entries := left) else f
  }

  /** The operation has something to write: a new run, the end of a recorded run, or a deletion. */
  predicate Writes(f: IndexFile, op: Op) {
    match op
    case NewRun(_) => true
    case Finalize(q, _, _, _) => Find(f.entries, q, 0) < |f.entries|
    case PruneRuns(env, opts, stuck) => |Pruned(env, opts, stuck, f.entries)| < |f.entries|
  }

  /** Every operation opens index.json anew, and rewrites it when it has something to write. */
  function Step(file: Option<IndexFile>, op: Op): Option<IndexFile> {
    if Writes(Opened(file), op) then Some(Act(Opened(file), op)) else file
  }

  /** index.json after the operations, in the order in which they held the lock. */
  function Exec(start: Option<IndexFile>, ops: seq<Op>): Option<IndexFile> {
    if ops == [] then start else Step(Exec(start, ops[..|ops| - 1]), ops[|ops| - 1])
  }

  /** The index that the next operation opens. */
  function Now(start: Option<IndexFile>, ops: seq<Op>): IndexFile {
    Opened(Exec(start, ops))
  }

  /** One operation by the Index class. */
  method Perform(file: Option<IndexFile>, op: Op) returns (file': Option<IndexFile>)
    ensures file' == Step(file, op)
  {
    var index := new Index(file);
    match op {
      case NewRun(e) =>
        var q := index.Append(e);
      case Finalize(q, end, exitCode, status) =>
        index.Update(q, end, exitCode, status);
      case PruneRuns(env, opts, stuck) =>
        var deleted := index.Prune(env, opts, stuck);
    }
    file' := index.stored;
  }

  /** index.json goes through these states. */
  method Replay(start: Option<IndexFile>, ops: seq<Op>) returns (file: Option<IndexFile>)
    ensures file == Exec(start, ops)
  {
    file := start;
    for i := 0 to |ops|
      invariant file == Exec(start, ops[..i])
    {
      assert ops[..i + 1][..i] == ops[..i];
      file := Perform(file, ops[i]);
    }
    assert ops[..|ops|] == ops;
  }

  /** Reopening shows what the operation made, unless it made the next number zero. */
  lemma ReopenedIs(file: Option<IndexFile>, op: Op)
    requires Act(Opened(file), op).nextSeq != 0
    ensures Opened(Step(file, op)) == Act(Opened(file), op)
  {
  }

  /** The end of a run is recorded in the first entry with its number, and nothing else changes. */
  lemma EndIsRecorded(es: seq<Entry>, q: int, end: int, exitCode: int, status: string, k: nat)
    requires k < |es| && es[k].seqNo == q && forall j :: 0 <= j < k ==> es[j].seqNo != q
    ensures
      var r, e := Updated(es, q, end, exitCode, status), es[k];
      && |r| == |es| && (forall j :: 0 <= j < |es| && j != k ==> r[j] == es[j])
      && r[k] == Entry(e.seqNo, e.ulid, e.pipelineRef, e.startedAt, end, exitCode, status, e.pid, e.host)
  {
  }

  /** The first run of an absent index has number 1, that of a file without a next number the one after
      its entry count, and that of any other file the next number. */
  lemma FirstNumbers(start: Option<IndexFile>, e: Entry)
    ensures Handed(start, [NewRun(e)]) == [
      if start.None? then 1
      else if start.value.nextSeq == 0 then |start.value.entries| + 1
      else start.value.nextSeq]
  {
    assert [NewRun(e)][..0] == [];
    assert Handed(start, []) == [];
  }

  // ---------------------------------------------------------------- what pruning leaves

  lemma {:induction false} SurvivingAre(env: Env, opts: PruneOptions, stuck: set<string>, cs: seq<Entry>,
      es: seq<Entry>, e: Entry)
    ensures e in Surviving(env, opts, stuck, cs, es) <==>
      e in es && Survives(env, Doomed(env, opts, cs, e.seqNo), stuck, e)
    ensures |Surviving(env, opts, stuck, cs, es)| <= |es|
  {
    if es != [] {
      SurvivingAre(env, opts, stuck, cs, es[..|es| - 1], e);
      assert e in es <==> e in es[..|es| - 1] || e == es[|es| - 1];
    }
  }

  lemma {:induction false} SurvivingIncrease(env: Env, opts: PruneOptions, stuck: set<string>, cs: seq<Entry>,
      es: seq<Entry>)
    requires Increasing(es)
    ensures Increasing(Surviving(env, opts, stuck, cs, es))
  {
    if es != [] {
      var init, last := es[..|es| - 1], es[|es| - 1];
      SurvivingIncrease(env, opts, stuck, cs, init);
      var left := Surviving(env, opts, stuck, cs, init);
      forall i | 0 <= i < |left| ensures left[i].seqNo < last.seqNo {
        SurvivingAre(env, opts, stuck, cs, init, left[i]);
        assert left[i] in init;
      }
    }
  }

  /** For any index, in order or not: what is left is what no gate selects, with the malformed and the stuck. */
  lemma PrunedAre(env: Env, opts: PruneOptions, stuck: set<string>, es: seq<Entry>, e: Entry)
    ensures e in Pruned(env, opts, stuck, es) <==>
      e in es && Survives(env, Doomed(env, opts, Candidates(env, StableSorted(es)), e.seqNo), stuck, e)
  {
    SortedProperties(es, 0);
    SurvivingAre(env, opts, stuck, Candidates(env, StableSorted(es)), StableSorted(es), e);
  }

  lemma PrunedIncrease(env: Env, opts: PruneOptions, stuck: set<string>, es: seq<Entry>)
    requires Increasing(es)
    ensures Increasing(Pruned(env, opts, stuck, es))
  {
    SortedAlready(es);
    SurvivingIncrease(env, opts, stuck, Candidates(env, es), es);
  }

  lemma {:induction false} SurvivingAll(env: Env, opts: PruneOptions, stuck: set<string>, cs: seq<Entry>,
      es: seq<Entry>)
    requires |Surviving(env, opts, stuck, cs, es)| >= |es|
    ensures Surviving(env, opts, stuck, cs, es) == es
  {
    if es != [] {
      SurvivingAre(env, opts, stuck, cs, es[..|es| - 1], es[0]);
      SurvivingAll(env, opts, stuck, cs, es[..|es| - 1]);
    }
  }

  /** On an index in order, the step leaves exactly what pruning leaves. */
  lemma PruneStep(f: IndexFile, env: Env, opts: PruneOptions, stuck: set<string>)
    requires Increasing(f.entries)
    ensures Act(f, PruneRuns(env, opts, stuck)) == f.(entries := Pruned(env, opts, stuck, f.entries))
  {
    SortedAlready(f.entries);
    if |Pruned(env, opts, stuck, f.entries)| >= |f.entries| {
      SurvivingAll(env, opts, stuck, Candidates(env, f.entries), f.entries);
    }
  }

  // ---------------------------------------------------------------- exactly which runs go

  /** The run may still be written: it has no end, and its process is alive if it is one of this host, or
      else it was started within the last day. */
  predicate Running(env: Env, e: Entry) {
    && e.endedAt == 0
    && if e.pid > 0 && e.host != "" && e.host == env.host then env.alive(e.pid)
       else e.startedAt != 0 && env.now - e.startedAt <= 86_400_000_000_000
  }

  /** The run is well formed and over. */
  predicate Disposable(env: Env, e: Entry) {
    env.parses(e.ulid) && !Running(env, e)
  }

  /** How many disposable runs are newer. */
  function Newer(env: Env, es: seq<Entry>, q: int): nat {
    if es == [] then 0
    else Newer(env, es[..|es| - 1], q) + if Disposable(env, es[|es| - 1]) && es[|es| - 1].seqNo > q then 1 else 0
  }

  lemma {:induction false} NoneNewer(env: Env, es: seq<Entry>, q: int)
    requires forall e :: e in es ==> e.seqNo <= q
    ensures Newer(env, es, q) == 0
  {
    if es != [] {
      NoneNewer(env, es[..|es| - 1], q);
    }
  }

  lemma {:induction false} NewerIsRank(env: Env, es: seq<Entry>, i: nat)
    requires Increasing(es) && i < |Candidates(env, es)|
    ensures Newer(env, es, Candidates(env, es)[i].seqNo) == |Candidates(env, es)| - 1 - i
  {
    var init, last := es[..|es| - 1], es[|es| - 1];
    var cs := Candidates(env, init);
    CandidatesAmong(env, init);
    if i < |cs| {
      NewerIsRank(env, init, i);
      assert cs[i] in init;
    } else {
      NoneNewer(env, init, last.seqNo);
    }
  }

  /** The retention policy: which runs go. */
  predicate Goes(env: Env, opts: PruneOptions, es: seq<Entry>, e: Entry) {
    && Disposable(env, e)
    && (|| opts.all
        || (opts.keepRuns > 0 && Newer(env, es, e.seqNo) >= opts.keepRuns - opts.reserve)
        || (opts.keepDays > 0
            && (if e.endedAt == 0 then e.startedAt else e.endedAt) < env.now - opts.keepDays * 86_400_000_000_000))
  }

  lemma DoomedGoes(env: Env, opts: PruneOptions, es: seq<Entry>, e: Entry)
    requires Increasing(es) && e in es
    ensures Doomed(env, opts, Candidates(env, es), e.seqNo) <==> Goes(env, opts, es, e)
  {
    var cs := Candidates(env, es);
    CandidatesAmong(env, es);
    if Doomed(env, opts, cs, e.seqNo) {
      var i :| 0 <= i < |cs| && cs[i].seqNo == e.seqNo && Selected(env, opts, cs, i);
      assert cs[i] in es;
      SameNumber(es, cs[i], e);
      NewerIsRank(env, es, i);
    }
    if Goes(env, opts, es, e) {
      assert e in cs;
      var i :| 0 <= i < |cs| && cs[i] == e;
      NewerIsRank(env, es, i);
      assert Selected(env, opts, cs, i);
    }
  }

  lemma SameNumber(es: seq<Entry>, a: Entry, b: Entry)
    requires Increasing(es) && a in es && b in es && a.seqNo == b.seqNo
    ensures a == b
  {
    var i :| 0 <= i < |es| && es[i] == a;
    var j :| 0 <= j < |es| && es[j] == b;
  }

  /** Prune deletes exactly the well-formed runs that are not in flight and that All, or a positive
      KeepRuns by rank among them, or a positive KeepDays by age, selects. */
  lemma PruneIsExact(env: Env, opts: PruneOptions, stuck: set<string>, es: seq<Entry>, e: Entry)
    requires Increasing(es)
    ensures e in Pruned(env, opts, stuck, es) <==> e in es && (!Goes(env, opts, es, e) || e.ulid in stuck)
  {
    SortedAlready(es);
    PrunedAre(env, opts, stuck, es, e);
    if e in es {
      DoomedGoes(env, opts, es, e);
    }
  }

  lemma {:induction false} NewerAmongSurvivors(env: Env, opts: PruneOptions, stuck: set<string>, cs: seq<Entry>,
      es: seq<Entry>, q: int)
    ensures Newer(env, Surviving(env, opts, stuck, cs, es), q) <= Newer(env, es, q)
  {
    if es != [] {
      var init, last := es[..|es| - 1], es[|es| - 1];
      NewerAmongSurvivors(env, opts, stuck, cs, init, q);
      var left := Surviving(env, opts, stuck, cs, init);
      assert (left + [last])[..|left|] == left;
      assert left + [] == left;
    }
  }

  /** Pruning again at the same clock and liveness deletes nothing. */
  lemma PruneIsIdempotent(env: Env, opts: PruneOptions, stuck: set<string>, es: seq<Entry>)
    requires Increasing(es)
    ensures var once := Pruned(env, opts, stuck, es); Pruned(env, opts, stuck, once) == once
  {
    var once := Pruned(env, opts, stuck, es);
    PrunedIncrease(env, opts, stuck, es);
    SortedAlready(es);
    forall e | e in once ensures e in Pruned(env, opts, stuck, once) {
      PruneIsExact(env, opts, stuck, es, e);
      PruneIsExact(env, opts, stuck, once, e);
      NewerAmongSurvivors(env, opts, stuck, Candidates(env, es), es, e.seqNo);
    }
    PrunedIncrease(env, opts, stuck, once);
    forall e ensures e in Pruned(env, opts, stuck, once) <==> e in once {
      PruneIsExact(env, opts, stuck, once, e);
    }
    SameMembersSameIndex(Pruned(env, opts, stuck, once), once);
  }

  lemma SomeMember(b: seq<Entry>)
    requires b != []
    ensures exists e :: e in b
  {
    assert b[0] in b;
  }

  /** An index in order is determined by its members. */
  lemma {:induction false} SameMembersSameIndex(a: seq<Entry>, b: seq<Entry>)
    requires Increasing(a) && Increasing(b) && forall e :: e in a <==> e in b
    ensures a == b
  {
    if b != [] {
      SomeMember(b);
    }
    if a != [] {
      assert a[|a| - 1] in b && b != [];
      LastIsShared(a, b);
      SameMembersBefore(a, a[..|a| - 1], b, b[..|b| - 1]);
      SameMembersSameIndex(a[..|a| - 1], b[..|b| - 1]);
      assert a == a[..|a| - 1] + [a[|a| - 1]] && b == b[..|b| - 1] + [b[|b| - 1]];
    }
  }

  lemma SameMembersBefore(a: seq<Entry>, a': seq<Entry>, b: seq<Entry>, b': seq<Entry>)
    requires Increasing(a) && Increasing(b) && a != [] && b != [] && a[|a| - 1] == b[|b| - 1]
      && forall e :: e in a <==> e in b
    requires a' == a[..|a| - 1] && b' == b[..|b| - 1]
    ensures Increasing(a') && Increasing(b') && forall e :: e in a' <==> e in b'
  {
    forall e ensures e in a' <==> e in b' {
      LastIsNotBefore(a, e);
      LastIsNotBefore(b, e);
    }
  }

  lemma LastIsShared(a: seq<Entry>, b: seq<Entry>)
    requires Increasing(a) && Increasing(b) && a != [] && b != [] && forall e :: e in a <==> e in b
    ensures a[|a| - 1] == b[|b| - 1]
  {
    var x, y := a[|a| - 1], b[|b| - 1];
    assert x in b && y in a;
    var i :| 0 <= i < |b| && b[i] == x;
    var j :| 0 <= j < |a| && a[j] == y;
  }

  lemma LastIsNotBefore(a: seq<Entry>, e: Entry)
    requires Increasing(a) && a != []
    ensures e in a[..|a| - 1] <==> e in a && e != a[|a| - 1]
  {
  }

  // ---------------------------------------------------------------- runs in flight

  /** On an index in order no run in flight is ever deleted. */
  lemma InFlightIsKept(env: Env, opts: PruneOptions, stuck: set<string>, es: seq<Entry>, e: Entry)
    requires Increasing(es) && e in es && Running(env, e)
    ensures e in Pruned(env, opts, stuck, es)
  {
    PruneIsExact(env, opts, stuck, es, e);
  }

  /** Another entry, not in flight and with the same number, is to go. */
  ghost predicate OtherGoes(env: Env, opts: PruneOptions, es: seq<Entry>, e: Entry) {
    var cs := Candidates(env, StableSorted(es));
    exists i :: 0 <= i < |cs| && cs[i] in es && cs[i] != e && cs[i].seqNo == e.seqNo && Disposable(env, cs[i])
      && Selected(env, opts, cs, i)
  }

  /** On any index, a run in flight is deleted exactly when another run with its number goes. */
  lemma InFlightIsLostWhen(env: Env, opts: PruneOptions, stuck: set<string>, es: seq<Entry>, e: Entry)
    requires e in es && Running(env, e)
    ensures e !in Pruned(env, opts, stuck, es) <==>
      env.parses(e.ulid) && e.ulid !in stuck && OtherGoes(env, opts, es, e)
  {
    PrunedAre(env, opts, stuck, es, e);
    DoomedByOther(env, opts, es, e);
  }

  lemma DoomedByOther(env: Env, opts: PruneOptions, es: seq<Entry>, e: Entry)
    requires Running(env, e)
    ensures Doomed(env, opts, Candidates(env, StableSorted(es)), e.seqNo) <==> OtherGoes(env, opts, es, e)
  {
    var cs := Candidates(env, StableSorted(es));
    SortedProperties(es, 0);
    CandidatesAmong(env, StableSorted(es));
    if Doomed(env, opts, cs, e.seqNo) {
      var i :| 0 <= i < |cs| && cs[i].seqNo == e.seqNo && Selected(env, opts, cs, i);
      assert cs[i] in cs;
      PrunableIs(env, cs[i]);
      assert !Running(env, cs[i]);
    }
  }

  lemma PrunableIs(env: Env, e: Entry)
    ensures Prunable(env, e) <==> Disposable(env, e)
  {
  }

  lemma SharedNumberIsDoomed(env: Env, opts: PruneOptions, es: seq<Entry>, e: Entry, other: Entry)
    requires opts.all && e in es && other in es && other.seqNo == e.seqNo
    requires Disposable(env, other) && env.parses(e.ulid)
    ensures e !in Pruned(env, opts, {}, es)
  {
    var cs := Candidates(env, StableSorted(es));
    SortedProperties(es, 0);
    CandidatesAmong(env, StableSorted(es));
    var i :| 0 <= i < |cs| && cs[i] == other;
    assert Selected(env, opts, cs, i);
    PrunedAre(env, opts, {}, es, e);
  }

  /** A hand-edited index in which a finished run and a running one share a number: pruning all
      deletes the running one too. */
  lemma SharedNumberLosesARunningRun() returns (env: Env, opts: PruneOptions, es: seq<Entry>, e: Entry)
    ensures e in es && Running(env, e) && e !in Pruned(env, opts, {}, es)
  {
    var finished := Entry(1, "", "", 1, 2, 0, "", 7, "h");
    e := Entry(1, "", "", 5, 0, 0, "", 8, "h");
    env, opts := Env(9, "h", pid => true, ulid => true), PruneOptions(0, 0, true, 0);
    es := [finished, e];
    SharedNumberIsDoomed(env, opts, es, e, finished);
  }

  // ---------------------------------------------------------------- all interleavings

  lemma UpdatedIs(es: seq<Entry>, q: int, end: int, exitCode: int, status: string)
    ensures
      var u := Updated(es, q, end, exitCode, status);
      |u| == |es| && forall i :: 0 <= i < |es| ==> u[i] == es[i] || u[i] == Ended(es[i], end, exitCode, status)
  {
  }

  /** Every operation keeps the index sound, and only NewRun takes a number. */
  lemma ActIsSound(f: IndexFile, op: Op)
    requires Sound(f)
    ensures Sound(Act(f, op))
    ensures Act(f, op).nextSeq == f.nextSeq + if op.NewRun? then 1 else 0
  {
    match op
    case NewRun(e) =>
    case Finalize(q, end, exitCode, status) =>
      UpdatedIs(f.entries, q, end, exitCode, status);
    case PruneRuns(env, opts, stuck) =>
      PruneStep(f, env, opts, stuck);
      PrunedIncrease(env, opts, stuck, f.entries);
      forall e | e in Pruned(env, opts, stuck, f.entries) ensures e in f.entries {
        PrunedAre(env, opts, stuck, f.entries, e);
      }
  }

  /** From a sound index, the next operation opens what the last one made. */
  lemma SoundStep(file: Option<IndexFile>, op: Op)
    requires Sound(Opened(file))
    ensures Opened(Step(file, op)) == Act(Opened(file), op) && Sound(Opened(Step(file, op)))
  {
    ActIsSound(Opened(file), op);
    ReopenedIs(file, op);
  }

  /** The numbers handed out, in order. */
  function Handed(start: Option<IndexFile>, ops: seq<Op>): seq<int> {
    if ops == [] then []
    else
      var init := ops[..|ops| - 1];
      Handed(start, init) + if ops[|ops| - 1].NewRun? then [Now(start, init).nextSeq] else []
  }

  /** The numbers handed out are consecutive, from the next number on. */
  ghost predicate Consecutive(start: Option<IndexFile>, ops: seq<Op>) {
    forall k :: 0 <= k < |Handed(start, ops)| ==> Handed(start, ops)[k] == Opened(start).nextSeq + k
  }

  lemma ActNumber(f: IndexFile, op: Op)
    ensures Act(f, op).nextSeq == f.nextSeq + if op.NewRun? then 1 else 0
  {
  }

  /** From a positive next number new runs get consecutive numbers, however much is pruned in between. */
  lemma {:induction false} NumbersAreConsecutive(start: Option<IndexFile>, ops: seq<Op>)
    requires Opened(start).nextSeq >= 1
    ensures Now(start, ops).nextSeq == Opened(start).nextSeq + |Handed(start, ops)| && Consecutive(start, ops)
  {
    if ops != [] {
      var init, op := ops[..|ops| - 1], ops[|ops| - 1];
      NumbersAreConsecutive(start, init);
      ActNumber(Now(start, init), op);
      ReopenedIs(Exec(start, init), op);
    }
  }

  function Runs(e: Entry, n: nat): (ops: seq<Op>)
    ensures |ops| == n && forall i :: 0 <= i < n ==> ops[i] == NewRun(e)
  {
    seq(n, i => NewRun(e))
  }

  /** A negative next number counts up to minus one, and then starts again after the entries. */
  lemma {:induction false} NegativeNumbers(start: Option<IndexFile>, e: Entry, n: nat)
    requires Opened(start).nextSeq + n <= 0
    ensures |Handed(start, Runs(e, n))| == n
    ensures Opened(start).nextSeq + n < 0 ==> Now(start, Runs(e, n)).nextSeq == Opened(start).nextSeq + n
    ensures Opened(start).nextSeq + n == 0 ==> Now(start, Runs(e, n)).nextSeq >= 1
  {
    if n > 0 {
      NegativeNumbers(start, e, n - 1);
      assert Runs(e, n)[..n - 1] == Runs(e, n - 1);
      ActNumber(Now(start, Runs(e, n - 1)), NewRun(e));
    }
  }

  /** New runs always get consecutive numbers exactly when the next number is positive. */
  lemma ConsecutiveWhen(start: Option<IndexFile>, e: Entry)
    ensures (forall ops :: Consecutive(start, ops)) <==> Opened(start).nextSeq >= 1
  {
    var q := Opened(start).nextSeq;
    if q >= 1 {
      forall ops ensures Consecutive(start, ops) { NumbersAreConsecutive(start, ops); }
    } else {
      var n := -q;
      NegativeNumbers(start, e, n);
      assert Runs(e, n + 1)[..n] == Runs(e, n);
      assert Handed(start, Runs(e, n + 1))[n] == Now(start, Runs(e, n)).nextSeq;
      assert !Consecutive(start, Runs(e, n + 1));
    }
  }

  /** Over every interleaving from a sound index the index stays sound, and the new runs get
      consecutive numbers that no run had before: none is ever used twice. */
  lemma {:induction false} NumbersAreNeverReused(start: Option<IndexFile>, ops: seq<Op>)
    requires Sound(Opened(start))
    ensures Sound(Now(start, ops)) && Now(start, ops).nextSeq == Opened(start).nextSeq + |Handed(start, ops)|
    ensures Consecutive(start, ops)
    ensures forall e, k :: e in Opened(start).entries && 0 <= k < |Handed(start, ops)| ==>
      e.seqNo < Handed(start, ops)[k]
  {
    NumbersAreConsecutive(start, ops);
    if ops != [] {
      NumbersAreNeverReused(start, ops[..|ops| - 1]);
      SoundStep(Exec(start, ops[..|ops| - 1]), ops[|ops| - 1]);
    }
  }

  // ---------------------------------------------------------------- opening a file

  /** The entries are numbered 1, 2, 3 and so on. */
  predicate NumberedFromOne(es: seq<Entry>) {
    forall i :: 0 <= i < |es| ==> es[i].seqNo == i + 1
  }

  lemma {:induction false} Spread(es: seq<Entry>, i: nat, j: nat)
    requires Increasing(es) && i <= j < |es|
    ensures es[j].seqNo - es[i].seqNo >= j - i
    decreases j - i
  {
    if i < j {
      Spread(es, i + 1, j);
    }
  }

  /** Positive increasing numbers up to the number of entries leave no gap. */
  lemma NoGap(es: seq<Entry>)
    requires Increasing(es) && forall i :: 0 <= i < |es| ==> 1 <= es[i].seqNo
    ensures NumberedFromOne(es) <==> es == [] || es[|es| - 1].seqNo <= |es|
  {
    forall i | 0 <= i < |es| ensures i + 1 <= es[i].seqNo <= es[|es| - 1].seqNo - (|es| - 1 - i) {
      Spread(es, 0, i);
      Spread(es, i, |es| - 1);
    }
  }

  /** A file opens to a sound index exactly when it is sound or, without a next number, when no run
      has been pruned from it. */
  lemma OpenedIsSoundWhen(f: IndexFile)
    ensures Sound(Opened(Some(f))) <==> if f.nextSeq == 0 then NumberedFromOne(f.entries) else Sound(f)
  {
    if f.nextSeq == 0 {
      if Increasing(f.entries) && (forall i :: 0 <= i < |f.entries| ==> 1 <= f.entries[i].seqNo) {
        NoGap(f.entries);
        if f.entries != [] {
          LastIsGreatest(f.entries);
        }
      }
      assert forall i :: 0 <= i < |f.entries| ==> f.entries[i] in f.entries;
    }
  }

  lemma LastIsGreatest(es: seq<Entry>)
    requires Increasing(es) && es != []
    ensures es[|es| - 1] in es && forall e :: e in es ==> e.seqNo <= es[|es| - 1].seqNo
  {
  }

  /** From a file without a next number out of which a run was pruned, a later run gets a number that
      a recorded run still has. */
  lemma FallbackReusesANumber(f: IndexFile, ops: seq<Op>) returns (e: Entry, k: nat)
    requires f.nextSeq == 0 && Increasing(f.entries) && !NumberedFromOne(f.entries)
    requires forall i :: 0 <= i < |f.entries| ==> 1 <= f.entries[i].seqNo
    ensures e in f.entries && (k < |Handed(Some(f), ops)| ==> Handed(Some(f), ops)[k] == e.seqNo)
  {
    NoGap(f.entries);
    LastIsGreatest(f.entries);
    e := f.entries[|f.entries| - 1];
    k := e.seqNo - (|f.entries| + 1);
    NumbersAreConsecutive(Some(f), ops);
  }

  /** Records of the same run. */
  predicate SameRun(a: Entry, b: Entry) {
    a.seqNo == b.seqNo && a.ulid == b.ulid && a.pipelineRef == b.pipelineRef && a.startedAt == b.startedAt
      && a.pid == b.pid && a.host == b.host
  }

  ghost predicate Recorded(f: IndexFile, e: Entry) {
    exists a :: a in f.entries && SameRun(a, e)
  }

  lemma ActAddsOnlyNewRuns(f: IndexFile, op: Op, e: Entry)
    requires Sound(f) && e in Act(f, op).entries
    ensures e.seqNo >= f.nextSeq || Recorded(f, e)
  {
    match op
    case NewRun(n) =>
    case Finalize(q, end, exitCode, status) =>
      UpdatedIs(f.entries, q, end, exitCode, status);
      var i :| 0 <= i < |f.entries| && Updated(f.entries, q, end, exitCode, status)[i] == e;
      assert SameRun(f.entries[i], e);
    case PruneRuns(env, opts, stuck) =>
      PruneStep(f, env, opts, stuck);
      PrunedAre(env, opts, stuck, f.entries, e);
      assert SameRun(e, e);
  }

  /** A number that has been handed out never comes back for another run: whatever a later index
      records under it was already recorded, as the same run. */
  lemma {:induction false} PrunedRunsStayGone(start: Option<IndexFile>, ops: seq<Op>, k: nat, e: Entry)
    requires Sound(Opened(start)) && k <= |ops| && e in Now(start, ops).entries
    requires e.seqNo < Now(start, ops[..k]).nextSeq
    ensures Recorded(Now(start, ops[..k]), e)
    decreases |ops|
  {
    if k == |ops| {
      assert ops[..k] == ops;
      assert SameRun(e, e);
    } else {
      var init := ops[..|ops| - 1];
      NumbersAreNeverReused(start, init);
      SoundStep(Exec(start, init), ops[|ops| - 1]);
      assert init[..k] == ops[..k];
      NextSeqGrows(start, init, k);
      ActAddsOnlyNewRuns(Now(start, init), ops[|ops| - 1], e);
      var a :| a in Now(start, init).entries && SameRun(a, e);
      PrunedRunsStayGone(start, init, k, a);
      var b :| b in Now(start, ops[..k]).entries && SameRun(b, a);
      assert SameRun(b, e);
    }
  }

  lemma {:induction false} NextSeqGrows(start: Option<IndexFile>, ops: seq<Op>, k: nat)
    requires Sound(Opened(start)) && k <= |ops|
    ensures Now(start, ops[..k]).nextSeq <= Now(start, ops).nextSeq
    decreases |ops|
  {
    if k == |ops| {
      assert ops[..k] == ops;
    } else {
      var init := ops[..|ops| - 1];
      assert init[..k] == ops[..k];
      NextSeqGrows(start, init, k);
      NumbersAreNeverReused(start, init);
      SoundStep(Exec(start, init), ops[|ops| - 1]);
      ActNumber(Now(start, init), ops[|ops| - 1]);
    }
  }

  /** In every index reachable from a sound one a prune spares every run in flight. */
  lemma RunningRunsSurvive(start: Option<IndexFile>, ops: seq<Op>, env: Env, opts: PruneOptions, stuck: set<string>,
      e: Entry)
    requires Sound(Opened(start)) && e in Now(start, ops).entries && Running(env, e)
    ensures e in Now(start, ops + [PruneRuns(env, opts, stuck)]).entries
  {
    var more := ops + [PruneRuns(env, opts, stuck)];
    assert more[..|more| - 1] == ops;
    NumbersAreNeverReused(start, ops);
    SoundStep(Exec(start, ops), PruneRuns(env, opts, stuck));
    PruneStep(Now(start, ops), env, opts, stuck);
    InFlightIsKept(env, opts, stuck, Now(start, ops).entries, e);
  }
}
