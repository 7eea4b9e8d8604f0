/** Reading a container's log stream line by line. */
module LogLines {
  import opened Text

  const NEWLINE := '\n'
  const RETURN := '\r'
  const MAX_LOG_LINE_BYTES: nat := 0x10_0000

  /** What is kept of a line, and how many bytes are not. */
  datatype LogLine = LogLine(text: string, dropped: nat)

  const MARKER := " [tkn-act: line truncated, "
  const MARKER_END := " bytes dropped]"

  /** The line as it is emitted: dropped bytes are announced in a marker. */
  function Shown(l: LogLine): string {
    if l.dropped == 0 then l.text else l.text + (MARKER + Itoa(l.dropped) + MARKER_END)
  }

  // ---------------------------------------------------------------- a simple line splitter

  predicate OneLine(s: string) {
    forall i :: 0 <= i < |s| ==> s[i] != NEWLINE
  }

  /** Where the first newline is, or the end. */
  function FirstNewline(s: string): (n: nat)
    ensures n <= |s| && OneLine(s[..n]) && (n < |s| ==> s[n] == NEWLINE)
  {
    if s == [] || s[0] == NEWLINE then 0
    else
      var n := 1 + FirstNewline(s[1..]);
      assert s[..n] == [s[0]] + s[1..][..n - 1];
      n
  }

  /** The lines of a text; what follows the last newline is a line when it is not empty. */
  function Lines(s: string): (ls: seq<string>)
    ensures forall i :: 0 <= i < |ls| ==> OneLine(ls[i])
  {
    if s == [] then []
    else
      var n := FirstNewline(s);
      [s[..n]] + if n == |s| then [] else Lines(s[n + 1..])
  }

  function StripReturn(line: string): string {
    if line != [] && line[|line| - 1] == RETURN then line[..|line| - 1] else line
  }

  /** A line within the cap loses its carriage return, a longer one everything past the cap. */
  function Cut(line: string): LogLine {
    if |line| <= MAX_LOG_LINE_BYTES then LogLine(StripReturn(line), 0)
    else LogLine(line[..MAX_LOG_LINE_BYTES], |line| - MAX_LOG_LINE_BYTES)
  }

  /** What the reader promises for a text. */
  function Emitted(s: string): seq<string> {
    var ls := Lines(s);
    seq(|ls|, i requires 0 <= i < |ls| => ShownCut(ls[i]))
  }

  function ShownCut(line: string): string {
    Shown(Cut(line))
  }

  function Terminated(ls: seq<string>): string {
    if ls == [] then [] else ls[0] + [NEWLINE] + Terminated(ls[1..])
  }

  lemma TerminatedHead(head: string, ls: seq<string>)
    ensures Terminated([head] + ls) == head + [NEWLINE] + Terminated(ls)
  {
    assert ([head] + ls)[1..] == ls;
  }

  function WithFinalNewline(s: string): string {
    if s == [] || s[|s| - 1] == NEWLINE then s else s + [NEWLINE]
  }

  lemma Rejoin(s: string, n: nat)
    requires n < |s| && s[n] == NEWLINE
    ensures s[..n] + [NEWLINE] + WithFinalNewline(s[n + 1..]) == WithFinalNewline(s)
  {
    var rest := s[n + 1..];
    assert s == s[..n] + [NEWLINE] + rest;
    if rest == [] {
      assert s[|s| - 1] == NEWLINE;
    } else {
      assert s[|s| - 1] == rest[|rest| - 1];
    }
  }

  /** Splitting loses nothing: with every line terminated again the text is back, but for the
      newline that an unterminated last line did not have. */
  lemma {:induction false} LinesJoin(s: string)
    ensures Terminated(Lines(s)) == WithFinalNewline(s)
    decreases |s|
  {
    if s != [] {
      var n := FirstNewline(s);
      if n < |s| {
        LinesJoin(s[n + 1..]);
        TerminatedHead(s[..n], Lines(s[n + 1..]));
        Rejoin(s, n);
      } else {
        assert s[..n] == s;
        TerminatedHead(s, []);
      }
    }
  }

  /** The bytes an emitted line accounts for. */
  function Accounted(l: LogLine, line: string): nat {
    |l.text| + l.dropped + if l.dropped == 0 && line != StripReturn(line) then 1 else 0
  }

  /** No byte of a line goes unaccounted for, and what is kept is the beginning of the line. */
  lemma CutAccounts(line: string)
    ensures Accounted(Cut(line), line) == |line|
    ensures Cut(line).text <= line && |Cut(line).text| <= MAX_LOG_LINE_BYTES
    ensures Cut(line).dropped > 0 <==> |line| > MAX_LOG_LINE_BYTES
  {
  }

  /** The bytes all emitted lines account for, with one newline each. */
  function TotalAccounted(ls: seq<string>): nat {
    if ls == [] then 0 else Accounted(Cut(ls[0]), ls[0]) + 1 + TotalAccounted(ls[1..])
  }

  lemma {:induction false} TotalIsLength(ls: seq<string>)
    ensures TotalAccounted(ls) == |Terminated(ls)|
  {
    if ls != [] {
      TotalIsLength(ls[1..]);
      CutAccounts(ls[0]);
    }
  }

  /** Emitted, dropped and stripped bytes and newlines add up to the text. */
  lemma NoByteIsLost(s: string)
    ensures TotalAccounted(Lines(s)) == |WithFinalNewline(s)|
  {
    LinesJoin(s);
    TotalIsLength(Lines(s));
  }

  /** What is emitted tells how the line was cut: the text kept and the exact number dropped. */
  lemma ShownTells(a: string, b: string)
    requires ShownCut(a) == ShownCut(b)
    ensures Cut(a) == Cut(b)
  {
    var x, y := Cut(a), Cut(b);
    if x.dropped > 0 && y.dropped > 0 {
      var s := ShownCut(a);
      assert s[..MAX_LOG_LINE_BYTES] == x.text && s[..MAX_LOG_LINE_BYTES] == y.text;
      assert s[MAX_LOG_LINE_BYTES..] == MARKER + Itoa(x.dropped) + MARKER_END;
      assert s[MAX_LOG_LINE_BYTES..] == MARKER + Itoa(y.dropped) + MARKER_END;
      MarkerTells(MARKER, MARKER_END, x.dropped, y.dropped);
    }
  }

  lemma MarkerTells(front: string, back: string, m: nat, n: nat)
    requires front + Itoa(m) + back == front + Itoa(n) + back
    ensures m == n
  {
    var s := front + Itoa(m) + back;
    assert |Itoa(m)| == |Itoa(n)|;
    assert s[|front|..|s| - |back|] == Itoa(m) && s[|front|..|s| - |back|] == Itoa(n);
    DecimalOfItoa(m);
    DecimalOfItoa(n);
  }

  // ---------------------------------------------------------------- lines as they are written

  /** What becomes of one line: it is cut after 2^20 bytes with a marker that says how many are missing;
      a line that fits loses one carriage return at its end. */
  lemma LineIsEmitted(line: string)
    ensures |line| > 0x10_0000 ==>
      var missing := Itoa(|line| - 0x10_0000);
      ShownCut(line) == line[..0x10_0000] + (" [tkn-act: line truncated, " + missing + " bytes dropped]")
    ensures 0 < |line| <= 0x10_0000 && line[|line| - 1] == '\r' ==> ShownCut(line) == line[..|line| - 1]
    ensures |line| <= 0x10_0000 && (line == [] || line[|line| - 1] != '\r') ==> ShownCut(line) == line
  {
  }

  /** A line a writer may write: it fits, and does not end with a carriage return of its own. */
  predicate Writable(line: string) {
    |line| < 0x10_0000 && '\n' !in line && (line == [] || line[|line| - 1] != '\r')
  }

  ghost predicate AllWritable(ls: seq<string>) {
    forall i :: 0 <= i < |ls| ==> Writable(ls[i])
  }

  /** The lines one after the other, each ended with "\r\n" or "\n". */
  function Written(ls: seq<string>, returns_: seq<bool>): string
    requires |ls| == |returns_|
  {
    if ls == [] then ""
    else ls[0] + LineEnd(returns_[0]) + Written(ls[1..], returns_[1..])
  }

  function LineEnd(return_: bool): string {
    if return_ then "\r\n" else "\n"
  }

  lemma WritableEnds(line: string, return_: bool, rest: string)
    requires Writable(line)
    ensures Emitted(line + LineEnd(return_) + rest) == [line] + Emitted(rest)
  {
    var l := if return_ then line + "\r" else line;
    assert OneLine(l);
    assert line + LineEnd(return_) + rest == l + [NEWLINE] + rest;
    FirstLine(l, rest);
    LineIsEmitted(l);
    assert return_ ==> l[..|l| - 1] == line;
  }

  /** Reading back what was written: lines ended either way, and a last line left open, come back as
      they were. */
  lemma {:induction false} LinesComeBack(ls: seq<string>, returns_: seq<bool>, last: string)
    requires |ls| == |returns_| && AllWritable(ls) && Writable(last)
    ensures Emitted(Written(ls, returns_) + last) == ls + if last == "" then [] else [last]
  {
    if ls == [] {
      assert Written(ls, returns_) + last == last;
      LastComesBack(last);
    } else {
      var rest := Written(ls[1..], returns_[1..]);
      LinesComeBack(ls[1..], returns_[1..], last);
      Regroup(ls[0], LineEnd(returns_[0]), rest, last);
      WritableEnds(ls[0], returns_[0], rest + last);
      assert ls == [ls[0]] + ls[1..];
    }
  }

  lemma LastComesBack(last: string)
    requires Writable(last)
    ensures Emitted(last) == if last == "" then [] else [last]
  {
    LastLine(last);
    LineIsEmitted(last);
  }

  lemma Regroup(a: string, b: string, c: string, d: string)
    ensures (a + b + c) + d == a + b + (c + d)
  {
  }

  // ---------------------------------------------------------------- the chunked reader

  /** How a ReadSlice call returns: at a newline, with a full buffer, at the end, or with an error. */
  datatype Ending = AtNewline | BufferFull | AtEnd | ReadFailed

  datatype Slice = Slice(bytes: string, ending: Ending)

  predicate WellCut(s: Slice) {
    match s.ending
    case AtNewline => s.bytes != [] && s.bytes[|s.bytes| - 1] == NEWLINE && OneLine(s.bytes[..|s.bytes| - 1])
    case _ => OneLine(s.bytes)
  }

  /** What a bufio.Reader can return, call by call, up to the call that ends the reading. */
  predicate Reading(slices: seq<Slice>) {
    && slices != []
    && (forall i :: 0 <= i < |slices| ==> WellCut(slices[i]))
    && (forall i :: 0 <= i < |slices| ==> (Ends(slices[i]) <==> i == |slices| - 1))
  }

  /** The bytes of the slices from the i-th on. */
  function DataFrom(slices: seq<Slice>, i: nat): string
    requires i <= |slices|
    decreases |slices| - i
  {
    if i == |slices| then [] else slices[i].bytes + DataFrom(slices, i + 1)
  }

  function Data(slices: seq<Slice>): string {
    DataFrom(slices, 0)
  }

  lemma FirstLine(line: string, rest: string)
    requires OneLine(line)
    ensures Emitted(line + [NEWLINE] + rest) == [ShownCut(line)] + Emitted(rest)
  {
    var s := line + [NEWLINE] + rest;
    var n := FirstNewline(s);
    assert s[|line|] == NEWLINE && forall i :: 0 <= i < |line| ==> s[i] == line[i];
    assert forall i :: 0 <= i < n ==> s[..n][i] == s[i];
    assert n == |line|;
    assert s[..n] == line && s[n + 1..] == rest;
  }

  lemma LastLine(line: string)
    requires OneLine(line)
    ensures Emitted(line) == if line == [] then [] else [ShownCut(line)]
  {
    if line != [] {
      assert FirstNewline(line) == |line|;
      assert line[..|line|] == line;
    }
  }

  function Kept(line: string): string {
    if |line| <= MAX_LOG_LINE_BYTES then line else line[..MAX_LOG_LINE_BYTES]
  }

  /** The emission of the line collected so far. */
  method Flush(line: string, dropped: nat, ghost whole: string) returns (l: string)
    requires line == Kept(whole) && dropped == |whole| - |line|
    ensures l == ShownCut(whole)
  {
    var text := line;
    if |line| > 0 && line[|line| - 1] == RETURN && dropped == 0 {
      text := line[..|line| - 1];
    }
    l := text;
    if dropped > 0 {
      l := l + (MARKER + Itoa(dropped) + MARKER_END);
    }
  }

  method Collect(line: string, dropped: nat, chunk: string, ghost whole: string) returns (line': string, dropped': nat)
    requires line == Kept(whole) && dropped == |whole| - |line|
    ensures line' == Kept(whole + chunk) && dropped' == |whole + chunk| - |line'|
  {
    var room := if MAX_LOG_LINE_BYTES - |line| > 0 then MAX_LOG_LINE_BYTES - |line| else 0;
    var keep := if room < |chunk| then room else |chunk|;
    line' := line + chunk[..keep];
    dropped' := dropped + |chunk| - keep;
  }

  /** What is still to be emitted: for the line begun and the slices to come. */
  function Pending(whole: string, slices: seq<Slice>, i: nat): seq<string>
    requires i <= |slices|
  {
    Emitted(whole + DataFrom(slices, i))
  }

  lemma NewlineStep(slices: seq<Slice>, i: nat, whole: string, chunk: string)
    requires i < |slices| && OneLine(whole) && OneLine(chunk) && slices[i].bytes == chunk + [NEWLINE]
    ensures Pending(whole, slices, i) == [ShownCut(whole + chunk)] + Pending([], slices, i + 1)
  {
    var rest := DataFrom(slices, i + 1);
    assert whole + ((chunk + [NEWLINE]) + rest) == (whole + chunk) + [NEWLINE] + rest;
    FirstLine(whole + chunk, rest);
    assert [] + rest == rest;
  }

  lemma FullStep(slices: seq<Slice>, i: nat, whole: string)
    requires i < |slices|
    ensures Pending(whole, slices, i) == Pending(whole + slices[i].bytes, slices, i + 1)
  {
    var rest := DataFrom(slices, i + 1);
    assert whole + (slices[i].bytes + rest) == (whole + slices[i].bytes) + rest;
  }

  lemma LastStep(slices: seq<Slice>, i: nat, whole: string)
    requires i + 1 == |slices| && OneLine(whole + slices[i].bytes)
    ensures var l := whole + slices[i].bytes; Pending(whole, slices, i) == if l == [] then [] else [ShownCut(l)]
  {
    FullStep(slices, i, whole);
    var l := whole + slices[i].bytes;
    assert l + [] == l;
    LastLine(l);
  }

  /** The line begun after a slice. */
  function Begun(whole: string, s: Slice): string {
    if s.ending.AtNewline? then [] else whole + s.bytes
  }

  /** What a slice lets out. */
  function Out(whole: string, s: Slice): seq<string>
    requires WellCut(s)
  {
    match s.ending
    case AtNewline => [ShownCut(whole + s.bytes[..|s.bytes| - 1])]
    case BufferFull => []
    case _ => if whole + s.bytes == [] then [] else [ShownCut(whole + s.bytes)]
  }

  /** One round of the loop. */
  method Take(s: Slice, line: string, dropped: nat, ghost whole: string)
    returns (out: seq<string>, line': string, dropped': nat)
    requires WellCut(s) && line == Kept(whole) && dropped == |whole| - |line|
    ensures out == Out(whole, s)
    ensures s.ending.AtNewline? || s.ending.BufferFull? ==>
      line' == Kept(Begun(whole, s)) && dropped' == |Begun(whole, s)| - |line'|
  {
    var chunk := s.bytes;
    if s.ending.AtNewline? {
      chunk := chunk[..|chunk| - 1];
    }
    line', dropped' := Collect(line, dropped, chunk, whole);
    out := [];
    match s.ending
    case AtNewline =>
      var l := Flush(line', dropped', whole + chunk);
      out, line', dropped' := [l], [], 0;
    case BufferFull =>
    case _ =>
      if |line'| > 0 || dropped' > 0 {
        var l := Flush(line', dropped', whole + chunk);
        out := [l];
      }
  }

  lemma Steps(slices: seq<Slice>, i: nat, whole: string)
    requires i < |slices| && OneLine(whole) && WellCut(slices[i])
    ensures OneLine(Begun(whole, slices[i]))
    ensures slices[i].ending.AtNewline? || slices[i].ending.BufferFull? ==>
      Pending(whole, slices, i) == Out(whole, slices[i]) + Pending(Begun(whole, slices[i]), slices, i + 1)
    ensures i + 1 == |slices| && !slices[i].ending.AtNewline? && !slices[i].ending.BufferFull? ==>
      Pending(whole, slices, i) == Out(whole, slices[i])
  {
    var s := slices[i];
    if s.ending.AtNewline? {
      var chunk := s.bytes[..|s.bytes| - 1];
      assert s.bytes == chunk + [NEWLINE];
      NewlineStep(slices, i, whole, chunk);
    } else {
      FullStep(slices, i, whole);
      if i + 1 == |slices| {
        LastStep(slices, i, whole);
      }
    }
  }

  predicate Ends(s: Slice) {
    s.ending.AtEnd? || s.ending.ReadFailed?
  }

  /** Where the loop stands before slice i. */
  ghost predicate Scanning(slices: seq<Slice>, i: nat, out: seq<string>, whole: string, line: string, dropped: nat)
    requires i <= |slices|
  {
    && OneLine(whole) && line == Kept(whole) && dropped == |whole| - |line|
    && Emitted(Data(slices)) == out + Pending(whole, slices, i)
  }

  method Round(slices: seq<Slice>, i: nat, out: seq<string>, line: string, dropped: nat, ghost whole: string)
    returns (out': seq<string>, line': string, dropped': nat)
    requires i < |slices| && WellCut(slices[i]) && Scanning(slices, i, out, whole, line, dropped)
    ensures !Ends(slices[i]) ==> Scanning(slices, i + 1, out', Begun(whole, slices[i]), line', dropped')
    ensures Ends(slices[i]) && i + 1 == |slices| ==> out' == Emitted(Data(slices))
  {
    Steps(slices, i, whole);
    var more;
    more, line', dropped' := Take(slices[i], line, dropped, whole);
    out' := out + more;
    if !Ends(slices[i]) {
      Regrouped(out, more, Pending(Begun(whole, slices[i]), slices, i + 1));
    }
  }

  lemma Regrouped(a: seq<string>, b: seq<string>, c: seq<string>)
    ensures a + (b + c) == (a + b) + c
  {
  }

  /** ScanLogLines: however the stream is cut, the emitted lines are those of the simple splitter. */
  method ScanLogLines(slices: seq<Slice>) returns (out: seq<string>)
    requires Reading(slices)
    ensures out == Emitted(Data(slices))
    ensures forall ls, returns_, last ::
      (|ls| == |returns_| && AllWritable(ls) && Writable(last) && Data(slices) == Written(ls, returns_) + last)
      ==> out == ls + if last == "" then [] else [last]
  {
    forall ls, returns_, last |
      |ls| == |returns_| && AllWritable(ls) && Writable(last) && Data(slices) == Written(ls, returns_) + last
      ensures Emitted(Data(slices)) == ls + if last == "" then [] else [last]
    {
      LinesComeBack(ls, returns_, last);
    }
    out := [];
    var line: string, dropped: nat := [], 0;
    ghost var whole: string := [];
    assert [] + Data(slices) == Data(slices);
    var i := 0;
    while true
      invariant i < |slices| && Scanning(slices, i, out, whole, line, dropped)
      decreases |slices| - i
    {
      out, line, dropped := Round(slices, i, out, line, dropped, whole);
      if Ends(slices[i]) {
        return;
      }
      whole := Begun(whole, slices[i]);
      i := i + 1;
    }
  }
}
