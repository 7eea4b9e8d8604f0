/** The ordering behind Go's sort.Strings, and the sorted listing of a set of strings. */
module Strings {

  /** Strict lexicographic order. */
  predicate Less(a: string, b: string) {
    if b == [] then false
    else if a == [] then true
    else a[0] < b[0] || (a[0] == b[0] && Less(a[1..], b[1..]))
  }

  lemma {:induction false} Trichotomy(a: string, b: string)
    ensures Less(a, b) || a == b || Less(b, a)
  {
    if a != [] && b != [] && a[0] == b[0] {
      Trichotomy(a[1..], b[1..]);
      if a[1..] == b[1..] {
        assert a == [a[0]] + a[1..] && b == [b[0]] + b[1..];
      }
    }
  }

  lemma {:induction false} Irreflexive(a: string)
    ensures !Less(a, a)
  {
    if a != [] {
      Irreflexive(a[1..]);
    }
  }

  lemma {:induction false} Transitive(a: string, b: string, c: string)
    requires Less(a, b) && Less(b, c)
    ensures Less(a, c)
  {
    if a != [] && a[0] == b[0] && b[0] == c[0] {
      Transitive(a[1..], b[1..], c[1..]);
    }
  }

  predicate Increasing(s: seq<string>) {
    forall i, j :: 0 <= i < j < |s| ==> Less(s[i], s[j])
  }

  ghost function Elements<T>(s: seq<T>): set<T> {
    set x | x in s
  }

  lemma IncreasingIsInjective(s: seq<string>)
    requires Increasing(s)
    ensures forall i, j :: 0 <= i < j < |s| ==> s[i] != s[j]
  {
    forall i, j | 0 <= i < j < |s| ensures s[i] != s[j] {
      Irreflexive(s[i]);
    }
  }

  /** A set has one increasing listing: what sort.Strings returns does not depend on map iteration order. */
  lemma {:induction false} IncreasingIsUnique(a: seq<string>, b: seq<string>)
    requires Increasing(a) && Increasing(b)
    requires Elements(a) == Elements(b)
    ensures a == b
  {
    ElementsEmpty(a);
    ElementsEmpty(b);
    if a != [] {
      assert a[0] in Elements(b);
      assert b[0] in Elements(a);
      HeadIsLeast(a, b[0]);
      HeadIsLeast(b, a[0]);
      if a[0] != b[0] {
        Transitive(a[0], b[0], a[0]);
        Irreflexive(a[0]);
      }
      IncreasingIsInjective(a);
      IncreasingIsInjective(b);
      TailElements(a);
      TailElements(b);
      IncreasingIsUnique(a[1..], b[1..]);
      assert a == [a[0]] + a[1..] && b == [b[0]] + b[1..];
    }
  }

  lemma ElementsEmpty(s: seq<string>)
    ensures s == [] <==> Elements(s) == {}
  {
    assert s != [] ==> s[0] in Elements(s);
  }

  lemma HeadIsLeast(s: seq<string>, x: string)
    requires Increasing(s) && x in s
    ensures s[0] == x || Less(s[0], x)
  {
  }

  lemma TailElements(s: seq<string>)
    requires |s| > 0 && forall i, j :: 0 <= i < j < |s| ==> s[i] != s[j]
    ensures Elements(s[1..]) == Elements(s) - {s[0]}
  {
    forall x | x in Elements(s) - {s[0]} ensures x in s[1..] {
      var i :| 0 <= i < |s| && s[i] == x;
      assert s[1..][i - 1] == x;
    }
  }

  /** Inserts a new string into an increasing listing. */
  method Insert(s: seq<string>, x: string) returns (r: seq<string>)
    requires Increasing(s) && x !in s
    ensures Increasing(r) && Elements(r) == Elements(s) + {x}
  {
    var i := 0;
    while i < |s| && Less(s[i], x)
      invariant 0 <= i <= |s|
      invariant forall k :: 0 <= k < i ==> Less(s[k], x)
    {
      i := i + 1;
    }
    forall k | i <= k < |s| ensures Less(x, s[k]) {
      Trichotomy(x, s[i]);
      if k > i { Transitive(x, s[i], s[k]); }
    }
    r := s[..i] + [x] + s[i..];
    InsertedAt(s, x, i);
  }

  lemma InsertedAt(s: seq<string>, x: string, i: nat)
    requires i <= |s| && Increasing(s)
    requires (forall k :: 0 <= k < i ==> Less(s[k], x)) && forall k :: i <= k < |s| ==> Less(x, s[k])
    ensures var r := s[..i] + [x] + s[i..]; Increasing(r) && Elements(r) == Elements(s) + {x}
  {
    var front, back := s[..i], s[i..];
    var r := front + [x] + back;
    assert s == front + back;
    assert forall y :: y in r <==> y in front || y == x || y in back;
    assert forall y :: y in s <==> y in front || y in back;
  }

  /** sort.Strings over the keys of a map. */
  method SortedListing(s: set<string>) returns (r: seq<string>)
    ensures Increasing(r) && Elements(r) == s
  {
    r := [];
    var todo := s;
    while todo != {}
      invariant todo <= s
      invariant Increasing(r) && Elements(r) == s - todo
      decreases todo
    {
      var x :| x in todo;
      assert x !in Elements(r);
      r := Insert(r, x);
      todo := todo - {x};
    }
  }
}
