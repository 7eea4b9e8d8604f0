/** The index of recorded runs: sequence numbers and retention. */
module RunStore {
  import opened Wrappers

  /** Times count from the zero value of Go's time.Time, which stands for "not set". */
  datatype Entry = Entry(
    seqNo: int,
    ulid: string,
    pipelineRef: string,
    startedAt: int,
    endedAt: int,
    exitCode: int,
    status: string,
    pid: int,
    host: string)

  datatype IndexFile = IndexFile(nextSeq: int, entries: seq<Entry>)

  const DAY: int := 24 * 3600 * 1_000_000_000
  const ABANDON_AFTER := DAY

  /** What retention asks of its surroundings. */
  datatype Env = Env(now: int, host: string, alive: int -> bool, parses: string -> bool)

  datatype PruneOptions = PruneOptions(keepRuns: int, keepDays: int, all: bool, reserve: int)

  // ---------------------------------------------------------------- liveness

  predicate Finalized(e: Entry) {
    e.endedAt != 0
  }

  predicate Abandoned(env: Env, e: Entry) {
    !Finalized(e)
    && if e.pid > 0 && e.host != "" && e.host == env.host then !env.alive(e.pid)
       else e.startedAt == 0 || env.now - e.startedAt > ABANDON_AFTER
  }

  predicate InFlight(env: Env, e: Entry) {
    !Finalized(e) && !Abandoned(env, e)
  }

  /** Well formed and not in flight. */
  predicate Prunable(env: Env, e: Entry) {
    env.parses(e.ulid) && !InFlight(env, e)
  }

  /** Abandoned runs age by their start. */
  function AgeReference(e: Entry): int {
    if e.endedAt == 0 then e.startedAt else e.endedAt
  }

  predicate TooOld(env: Env, opts: PruneOptions, e: Entry) {
    opts.keepDays > 0 && AgeReference(e) < env.now - opts.keepDays * DAY
  }

  function Slots(opts: PruneOptions): nat {
    if opts.keepRuns - opts.reserve < 0 then 0 else opts.keepRuns - opts.reserve
  }

  /** How many of n candidates are outside the newest ones that are kept. */
  function Excess(opts: PruneOptions, n: nat): nat {
    if opts.keepRuns > 0 && n > Slots(opts) then n - Slots(opts) else 0
  }

  // ---------------------------------------------------------------- sorting

  /** Inserts after every entry that is not greater. */
  function Inserted(es: seq<Entry>, e: Entry): seq<Entry> {
    if es == [] || es[|es| - 1].seqNo <= e.seqNo then es + [e]
    else Inserted(es[..|es| - 1], e) + [es[|es| - 1]]
  }

  /** sort.SliceStable by sequence number. */
  function StableSorted(es: seq<Entry>): seq<Entry> {
    if es == [] then [] else Inserted(StableSorted(es[..|es| - 1]), es[|es| - 1])
  }

  predicate Ordered(es: seq<Entry>) {
    forall i, j :: 0 <= i < j < |es| ==> es[i].seqNo <= es[j].seqNo
  }

  predicate Increasing(es: seq<Entry>) {
    forall i, j :: 0 <= i < j < |es| ==> es[i].seqNo < es[j].seqNo
  }

  /** The entries with one sequence number, in order. */
  function WithSeq(es: seq<Entry>, q: int): seq<Entry> {
    if es == [] then []
    else WithSeq(es[..|es| - 1], q) + if es[|es| - 1].seqNo == q then [es[|es| - 1]] else []
  }

  lemma {:induction false} InsertedKeepsOrder(es: seq<Entry>, e: Entry)
    requires Ordered(es)
    ensures Ordered(Inserted(es, e)) && forall x :: x in Inserted(es, e) <==> x in es || x == e
  {
    if es != [] && es[|es| - 1].seqNo > e.seqNo {
      InsertedKeepsOrder(es[..|es| - 1], e);
      var s := Inserted(es[..|es| - 1], e);
      assert forall i :: 0 <= i < |s| ==> s[i] in s;
      assert forall x :: x in es <==> x in es[..|es| - 1] || x == es[|es| - 1];
    }
  }

  lemma {:induction false} WithSeqInserted(es: seq<Entry>, e: Entry, q: int)
    ensures WithSeq(Inserted(es, e), q) == WithSeq(es, q) + if e.seqNo == q then [e] else []
  {
    var s := Inserted(es, e);
    if es == [] || es[|es| - 1].seqNo <= e.seqNo {
      assert s[..|s| - 1] == es;
    } else {
      WithSeqInserted(es[..|es| - 1], e, q);
      assert s[..|s| - 1] == Inserted(es[..|es| - 1], e);
    }
  }

  /** Sorting puts the entries in order and is stable. */
  lemma {:induction false} SortedProperties(es: seq<Entry>, q: int)
    ensures Ordered(StableSorted(es)) && WithSeq(StableSorted(es), q) == WithSeq(es, q)
    ensures forall x :: x in StableSorted(es) <==> x in es
  {
    if es != [] {
      var init, last := es[..|es| - 1], es[|es| - 1];
      SortedProperties(init, q);
      InsertedKeepsOrder(StableSorted(init), last);
      WithSeqInserted(StableSorted(init), last, q);
      assert forall x :: x in es <==> x in init || x == last;
    }
  }

  lemma InsertedAtEnd(es: seq<Entry>, e: Entry)
    requires es == [] || es[|es| - 1].seqNo <= e.seqNo
    ensures Inserted(es, e) == es + [e]
  {
  }

  lemma {:induction false} SortedAlready(es: seq<Entry>)
    requires Ordered(es)
    ensures StableSorted(es) == es
  {
    if es != [] {
      var init, last := es[..|es| - 1], es[|es| - 1];
      SortedAlready(init);
      InsertedAtEnd(init, last);
      assert init + [last] == es;
    }
  }

  // ---------------------------------------------------------------- what retention deletes

  function Candidates(env: Env, es: seq<Entry>): seq<Entry> {
    if es == [] then []
    else Candidates(env, es[..|es| - 1]) + if Prunable(env, es[|es| - 1]) then [es[|es| - 1]] else []
  }

  /** The i-th candidate, oldest first, is to go. */
  predicate Selected(env: Env, opts: PruneOptions, cs: seq<Entry>, i: nat)
    requires i < |cs|
  {
    opts.all || i < Excess(opts, |cs|) || TooOld(env, opts, cs[i])
  }

  predicate Doomed(env: Env, opts: PruneOptions, cs: seq<Entry>, q: int) {
    exists i :: 0 <= i < |cs| && cs[i].seqNo == q && Selected(env, opts, cs, i)
  }

  predicate Survives(env: Env, doomed: bool, stuck: set<string>, e: Entry) {
    !doomed || !env.parses(e.ulid) || e.ulid in stuck
  }

  function Surviving(env: Env, opts: PruneOptions, stuck: set<string>, cs: seq<Entry>, es: seq<Entry>): seq<Entry> {
    if es == [] then []
    else
      var e := es[|es| - 1];
      Surviving(env, opts, stuck, cs, es[..|es| - 1])
      + if Survives(env, Doomed(env, opts, cs, e.seqNo), stuck, e) then [e] else []
  }

  /** What Prune leaves; stuck holds the runs whose directory cannot be removed. */
  function Pruned(env: Env, opts: PruneOptions, stuck: set<string>, es: seq<Entry>): seq<Entry> {
    var sorted := StableSorted(es);
    Surviving(env, opts, stuck, Candidates(env, sorted), sorted)
  }

  // ---------------------------------------------------------------- the index

  method FilterValid(env: Env, es: seq<Entry>) returns (valid: seq<Entry>)
    ensures Candidates(env, valid) == Candidates(env, es) && forall i :: 0 <= i < |valid| ==> env.parses(valid[i].ulid)
  {
    valid := [];
    for i := 0 to |es|
      invariant Candidates(env, valid) == Candidates(env, es[..i])
      invariant forall k :: 0 <= k < |valid| ==> env.parses(valid[k].ulid)
    {
      assert es[..i + 1][..i] == es[..i];
      if !env.parses(es[i].ulid) {
        continue;
      }
      assert (valid + [es[i]])[..|valid|] == valid;
      valid := valid + [es[i]];
    }
    assert es[..|es|] == es;
  }

  method FilterCandidates(env: Env, es: seq<Entry>) returns (cs: seq<Entry>)
    ensures cs == Candidates(env, es)
  {
    var valid := FilterValid(env, es);
    cs := [];
    for i := 0 to |valid|
      invariant cs == Candidates(env, valid[..i])
    {
      assert valid[..i + 1][..i] == valid[..i];
      if !InFlight(env, valid[i]) {
        cs := cs + [valid[i]];
      }
    }
    assert valid[..|valid|] == valid;
  }

  /** The retention gates, as updates of the keep map. */
  method ApplyGates(env: Env, opts: PruneOptions, cs: seq<Entry>, all: map<int, bool>) returns (keep: map<int, bool>)
    requires forall q :: q in all ==> all[q]
    requires forall e :: e in cs ==> e.seqNo in all
    ensures keep.Keys == all.Keys
    ensures forall q :: q in keep ==> (keep[q] <==> !Doomed(env, opts, cs, q))
  {
    keep := all;
    if opts.all {
      keep := ClearAll(keep, cs, |cs|);
      return;
    }
    var excess := 0;
    if opts.keepRuns > 0 {
      var n := opts.keepRuns - opts.reserve;
      if n < 0 {
        n := 0;
      }
      if |cs| > n {
        excess := |cs| - n;
        keep := ClearAll(keep, cs, |cs| - n);
      }
    }
    ghost var counted := keep;
    if opts.keepDays > 0 {
      var threshold := env.now - opts.keepDays * DAY;
      for i := 0 to |cs|
        invariant keep.Keys == all.Keys
        invariant forall q :: q in keep ==>
          (keep[q] <==> counted[q] && forall k :: 0 <= k < i && cs[k].seqNo == q ==> !TooOld(env, opts, cs[k]))
      {
        var ref := cs[i].endedAt;
        if ref == 0 {
          ref := cs[i].startedAt;
        }
        if ref < threshold {
          keep := keep[cs[i].seqNo := false];
        }
      }
    }
    forall q | q in keep ensures keep[q] <==> !Doomed(env, opts, cs, q) {
      GatesMeanDoomed(env, opts, cs, excess, q);
    }
  }

  lemma GatesMeanDoomed(env: Env, opts: PruneOptions, cs: seq<Entry>, excess: nat, q: int)
    requires !opts.all && excess == Excess(opts, |cs|)
    ensures Doomed(env, opts, cs, q) <==>
      (exists k :: 0 <= k < excess && cs[k].seqNo == q)
        || (exists k :: 0 <= k < |cs| && cs[k].seqNo == q && TooOld(env, opts, cs[k]))
  {
    forall k | 0 <= k < |cs| && cs[k].seqNo == q && (k < excess || TooOld(env, opts, cs[k]))
      ensures Doomed(env, opts, cs, q)
    {
      assert Selected(env, opts, cs, k);
    }
  }

  method ClearAll(keep: map<int, bool>, cs: seq<Entry>, n: nat) returns (r: map<int, bool>)
    requires n <= |cs| && forall e :: e in cs ==> e.seqNo in keep
    ensures r.Keys == keep.Keys
    ensures forall q :: q in keep ==> (r[q] <==> keep[q] && forall k :: 0 <= k < n ==> cs[k].seqNo != q)
  {
    r := keep;
    for i := 0 to n
      invariant r.Keys == keep.Keys
      invariant forall q :: q in keep ==> (r[q] <==> keep[q] && forall k :: 0 <= k < i ==> cs[k].seqNo != q)
    {
      r := r[cs[i].seqNo := false];
    }
  }

  method Sweep(env: Env, keep: map<int, bool>, stuck: set<string>, es: seq<Entry>, ghost opts: PruneOptions,
      ghost cs: seq<Entry>)
    returns (survivors: seq<Entry>, deleted: nat)
    requires forall e :: e in es ==> e.seqNo in keep
    requires forall q :: q in keep ==> (keep[q] <==> !Doomed(env, opts, cs, q))
    ensures survivors == Surviving(env, opts, stuck, cs, es) && deleted == |es| - |survivors|
  {
    survivors, deleted := [], 0;
    for i := 0 to |es|
      invariant survivors == Surviving(env, opts, stuck, cs, es[..i]) && deleted == i - |survivors|
    {
      assert es[..i + 1][..i] == es[..i];
      if keep[es[i].seqNo] {
        survivors := survivors + [es[i]];
        continue;
      }
      if !env.parses(es[i].ulid) {
        survivors := survivors + [es[i]];
        continue;
      }
      if es[i].ulid in stuck {
        survivors := survivors + [es[i]];
        continue;
      }
      deleted := deleted + 1;
    }
    assert es[..|es|] == es;
  }

  /** The entry that replaces the first one with this number. */
  function Ended(e: Entry, end: int, exitCode: int, status: string): Entry {
    e.(endedAt := end, exitCode := exitCode, status := status)
  }

  /** The first entry with the number, from the i-th on. */
  function Find(es: seq<Entry>, q: int, i: nat): (k: nat)
    requires i <= |es|
    ensures i <= k <= |es|
    ensures forall j :: i <= j < k ==> es[j].seqNo != q
    ensures k < |es| ==> es[k].seqNo == q
    decreases |es| - i
  {
    if i == |es| || es[i].seqNo == q then i else Find(es, q, i + 1)
  }

  function Updated(es: seq<Entry>, q: int, end: int, exitCode: int, status: string): seq<Entry> {
    var k := Find(es, q, 0);
    if k == |es| then es else es[k := Ended(es[k], end, exitCode, status)]
  }

  /** What is opened: an absent or empty file starts at 1, a file without next_seq after its entries. */
  function Opened(file: Option<IndexFile>): IndexFile {
    match file
    case None => IndexFile(1, [])
    case Some(f) => if f.nextSeq == 0 then f.(nextSeq := |f.entries| + 1) else f
  }

  datatype LookupError = NoRuns | NotFound

  /** index.json under the lock. */
  class Index {
    var nextSeq: int
    var entries: seq<Entry>
    /** What index.json holds. */
    var stored: Option<IndexFile>

    function File(): IndexFile
      reads this
    {
      IndexFile(nextSeq, entries)
    }

    /** OpenIndex. */
    constructor (file: Option<IndexFile>)
      ensures File() == Opened(file) && stored == file
    {
      stored := file;
      if file.None? {
        nextSeq, entries := 1, [];
      } else {
        nextSeq := if file.value.nextSeq == 0 then |file.value.entries| + 1 else file.value.nextSeq;
        entries := file.value.entries;
      }
    }

    method Flush()
      modifies this`stored
      ensures stored == Some(File())
    {
      stored := Some(File());
    }

    method Append(e: Entry) returns (q: int)
      modifies this
      ensures q == old(nextSeq) && nextSeq == q + 1 && entries == old(entries) + [e.(seqNo := q)]
      ensures stored == Some(File())
    {
      q := nextSeq;
      nextSeq := q + 1;
      entries := entries + [e.(seqNo := q)];
      Flush();
    }

    /** Update, with the mutator Finalize passes. */
    method Update(q: int, end: int, exitCode: int, status: string)
      modifies this
      ensures nextSeq == old(nextSeq) && entries == Updated(old(entries), q, end, exitCode, status)
      ensures stored == if Find(old(entries), q, 0) < |old(entries)| then Some(File()) else old(stored)
    {
      for k := 0 to |entries|
        invariant entries == old(entries) && nextSeq == old(nextSeq) && stored == old(stored)
        invariant Find(entries, q, 0) == Find(entries, q, k)
      {
        if entries[k].seqNo == q {
          entries := entries[k := Ended(entries[k], end, exitCode, status)];
          Flush();
          return;
        }
      }
    }

    method BySeq(q: int) returns (r: Result<Entry, LookupError>)
      ensures r.Ok? ==> r.value in entries && r.value.seqNo == q
      ensures r == Err(NotFound) <==> forall e :: e in entries ==> e.seqNo != q
    {
      for k := 0 to |entries|
        invariant forall j :: 0 <= j < k ==> entries[j].seqNo != q
      {
        if entries[k].seqNo == q {
          return Ok(entries[k]);
        }
      }
      return Err(NotFound);
    }

    /** The most recently appended entry: on an index in order, the one with the greatest number. */
    method Latest() returns (r: Result<Entry, LookupError>)
      ensures r == Err(NoRuns) <==> entries == []
      ensures r.Ok? ==> r.value in entries
      ensures r.Ok? && Increasing(entries) ==> forall e :: e in entries ==> e.seqNo <= r.value.seqNo
    {
      if |entries| == 0 {
        return Err(NoRuns);
      }
      return Ok(entries[|entries| - 1]);
    }

    /** Prune. The index is rewritten only when something was deleted. */
    method Prune(env: Env, opts: PruneOptions, stuck: set<string>) returns (deleted: nat)
      modifies this
      ensures nextSeq == old(nextSeq)
      ensures deleted == |old(entries)| - |Pruned(env, opts, stuck, old(entries))|
      ensures entries == if deleted > 0 then Pruned(env, opts, stuck, old(entries)) else old(entries)
      ensures stored == if deleted > 0 then Some(File()) else old(stored)
    {
      var es := StableSorted(entries);
      SortedLength(entries);
      var all: map<int, bool> := map[];
      for i := 0 to |es|
        invariant forall q :: q in all ==> all[q]
        invariant forall j :: 0 <= j < i ==> es[j].seqNo in all
      {
        all := all[es[i].seqNo := true];
      }
      var cs := FilterCandidates(env, es);
      CandidatesAmong(env, es);
      var keep := ApplyGates(env, opts, cs, all);
      var survivors;
      survivors, deleted := Sweep(env, keep, stuck, es, opts, cs);
      if deleted > 0 {
        entries := survivors;
        Flush();
      }
    }
  }

  lemma {:induction false} SortedLength(es: seq<Entry>)
    ensures |StableSorted(es)| == |es|
  {
    if es != [] {
      SortedLength(es[..|es| - 1]);
      InsertedLength(StableSorted(es[..|es| - 1]), es[|es| - 1]);
    }
  }

  lemma {:induction false} InsertedLength(es: seq<Entry>, e: Entry)
    ensures |Inserted(es, e)| == |es| + 1
  {
    if es != [] {
      InsertedLength(es[..|es| - 1], e);
    }
  }

  lemma {:induction false} CandidatesAmong(env: Env, es: seq<Entry>)
    ensures forall e :: e in Candidates(env, es) <==> e in es && Prunable(env, e)
  {
    if es != [] {
      CandidatesAmong(env, es[..|es| - 1]);
      assert forall e :: e in es <==> e in es[..|es| - 1] || e == es[|es| - 1];
    }
  }
}
