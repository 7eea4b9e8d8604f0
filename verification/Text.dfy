/** The Go string functions the resolver is written with. */
module Text {
  import opened Wrappers

  predicate HasPrefix(s: string, p: string) {
    p <= s
  }

  predicate HasSuffix(s: string, p: string) {
    |p| <= |s| && s[|s| - |p|..] == p
  }

  /** strings.TrimPrefix, where the prefix is known to be there. */
  function After(s: string, p: string): string
    requires HasPrefix(s, p)
  {
    s[|p|..]
  }

  /** strings.TrimSuffix, where the suffix is known to be there. */
  function Before(s: string, p: string): string
    requires HasSuffix(s, p)
  {
    s[..|s| - |p|]
  }

  /** strings.Index: where sub first occurs, or -1. */
  function Index(s: string, sub: string): (i: int)
    ensures -1 <= i <= |s|
    ensures i >= 0 ==> HasPrefix(s[i..], sub)
  {
    if HasPrefix(s, sub) then 0
    else if s == [] then -1
    else
      var i := Index(s[1..], sub);
      if i < 0 then -1 else assert s[1..][i..] == s[i + 1..]; i + 1
  }

  /** Index finds an occurrence when there is one, and none lies before the one it finds. */
  lemma {:induction false} IndexIsFirst(s: string, sub: string, j: nat)
    requires j <= |s| && HasPrefix(s[j..], sub)
    ensures 0 <= Index(s, sub) <= j
  {
    assert s[0..] == s;
    if !HasPrefix(s, sub) {
      assert s[1..][j - 1..] == s[j..];
      IndexIsFirst(s[1..], sub, j - 1);
    }
  }

  /** strings.LastIndex of a single character, or -1. */
  function LastIndexOf(s: string, c: char): (i: int)
    ensures -1 <= i < |s|
    ensures i >= 0 ==> s[i] == c
    ensures forall j :: i < j < |s| ==> s[j] != c
  {
    if s == [] then -1
    else if s[|s| - 1] == c then |s| - 1
    else LastIndexOf(s[..|s| - 1], c)
  }

  /** strings.SplitN(s, ".", n) for n > 0. */
  function SplitDots(s: string, n: nat): (parts: seq<string>)
    requires n > 0
    ensures 1 <= |parts| <= n
    decreases n
  {
    var dot := Index(s, ".");
    if n == 1 || dot < 0 then [s] else [s[..dot]] + SplitDots(s[dot + 1..], n - 1)
  }

  lemma {:induction false} DotAfter(head: string, tail: string)
    requires '.' !in head
    ensures Index(head + "." + tail, ".") == |head|
  {
    var s := head + "." + tail;
    if head != [] {
      DotAfter(head[1..], tail);
      assert s[1..] == head[1..] + "." + tail;
      assert s[0] == head[0] != '.';
    }
  }

  /** What stands before the first dot is the first part. */
  lemma SplitFirst(head: string, tail: string, n: nat)
    requires '.' !in head && n > 1
    ensures SplitDots(head + "." + tail, n) == [head] + SplitDots(tail, n - 1)
  {
    DotAfter(head, tail);
    var s := head + "." + tail;
    assert s[..|head|] == head && s[|head| + 1..] == tail;
  }

  predicate IsDigit(c: char) {
    '0' <= c <= '9'
  }

  predicate IsAlnum(c: char) {
    IsDigit(c) || 'a' <= c <= 'z' || 'A' <= c <= 'Z'
  }

  /** The regular-expression class \w. */
  predicate IsWord(c: char) {
    IsAlnum(c) || c == '_'
  }

  /** Length of the trailing run of digits. */
  function TrailingDigits(s: string): (n: nat)
    ensures n <= |s|
    ensures forall i :: |s| - n <= i < |s| ==> IsDigit(s[i])
    ensures n < |s| ==> !IsDigit(s[|s| - n - 1])
  {
    if s != [] && IsDigit(s[|s| - 1]) then TrailingDigits(s[..|s| - 1]) + 1 else 0
  }

  /** strconv.Atoi on digits, in unbounded integers. */
  function Decimal(s: string): nat
    requires forall i :: 0 <= i < |s| ==> IsDigit(s[i])
  {
    if s == [] then 0
    else assert IsDigit(s[|s| - 1]); 10 * Decimal(s[..|s| - 1]) + (s[|s| - 1] as int - '0' as int)
  }

  /** strconv.Itoa on natural numbers. */
  function Itoa(n: nat): (s: string)
    ensures s != [] && forall i :: 0 <= i < |s| ==> IsDigit(s[i])
  {
    var d := ('0' as int + n % 10) as char;
    if n < 10 then [d] else Itoa(n / 10) + [d]
  }

  /** Reading back what was written. */
  lemma {:induction false} DecimalOfItoa(n: nat)
    ensures Decimal(Itoa(n)) == n
  {
    var s := Itoa(n);
    if n < 10 {
      assert s[..0] == [];
    } else {
      DecimalOfItoa(n / 10);
      assert s[..|s| - 1] == Itoa(n / 10);
    }
  }

  /** The match of ^(.+)\[(\d+)\]$: the name before the brackets and the index. */
  function IndexSuffix(s: string): (r: Option<(string, nat)>)
  {
    if s == [] || s[|s| - 1] != ']' then None
    else
      var body := s[..|s| - 1];
      var n := TrailingDigits(body);
      if n == 0 || |body| - n < 2 || body[|body| - n - 1] != '[' then None
      else Some((body[..|body| - n - 1], Decimal(body[|body| - n..])))
  }

  /** No dollar sign and no NUL byte. */
  predicate Plain(s: string) {
    forall i :: 0 <= i < |s| ==> s[i] != '$' && s[i] != '\0'
  }

  predicate NulFree(s: string) {
    '\0' !in s
  }
}
