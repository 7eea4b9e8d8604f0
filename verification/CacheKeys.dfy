/** The key under which a resolved reference is cached. */
module CacheKeys {
  import opened Strings

  const NUL: char := '\0'

  predicate Without(c: char, s: string) {
    c !in s
  }

  // ---------------------------------------------------------------- sorted keys

  lemma {:induction false} ListingExists(s: set<string>) returns (r: seq<string>)
    ensures Increasing(r) && Elements(r) == s
  {
    if s == {} {
      r := [];
    } else {
      var x :| x in s;
      var rest := ListingExists(s - {x});
      assert x !in Elements(rest);
      var i := Place(rest, x, 0);
      r := rest[..i] + [x] + rest[i..];
      forall y ensures y in r <==> y in s {
        assert rest == rest[..i] + rest[i..];
        assert y in rest <==> y in rest[..i] || y in rest[i..];
        assert y in rest <==> y in Elements(rest);
      }
    }
  }

  /** Where a new string belongs. */
  lemma {:induction false} Place(s: seq<string>, x: string, from: nat) returns (i: nat)
    requires Increasing(s) && x !in s && from <= |s| && forall k :: 0 <= k < from ==> Less(s[k], x)
    ensures i <= |s| && (forall k :: 0 <= k < i ==> Less(s[k], x)) && (forall k :: i <= k < |s| ==> Less(x, s[k]))
    decreases |s| - from
  {
    i := from;
    if from < |s| {
      Trichotomy(x, s[from]);
      if Less(s[from], x) {
        i := Place(s, x, from + 1);
      } else {
        forall k | from < k < |s| ensures Less(x, s[k]) { Transitive(x, s[from], s[k]); }
      }
    }
  }

  ghost predicate Lists(r: seq<string>, s: set<string>) {
    Increasing(r) && Elements(r) == s
  }

  ghost function SortedKeys(s: set<string>): (r: seq<string>)
    ensures Lists(r, s)
  {
    assert exists r :: Lists(r, s) by {
      var r := ListingExists(s);
      assert Lists(r, s);
    }
    var r :| Lists(r, s);
    r
  }

  // ---------------------------------------------------------------- the preimage

  function Item(k: string, v: string): string {
    k + "=" + v
  }

  /** The items of the keys from the i-th on, NUL between them. */
  function Items(ks: seq<string>, params: map<string, string>, i: nat): string
    requires i <= |ks| && forall k :: k in ks ==> k in params
    decreases |ks| - i
  {
    if i == |ks| then ""
    else Item(ks[i], params[ks[i]]) + if i + 1 == |ks| then "" else [NUL] + Items(ks, params, i + 1)
  }

  ghost function Preimage(resolver: string, params: map<string, string>): string {
    var ks := SortedKeys(params.Keys);
    assert forall k :: k in ks ==> k in Elements(ks);
    resolver + [NUL] + Items(ks, params, 0)
  }

  ghost function Key(hash: string -> string, resolver: string, params: map<string, string>): string {
    hash(Preimage(resolver, params))
  }

  /** CacheKey, with what the hash was fed so far in fed. */
  method CacheKey(hash: string -> string, resolver: string, params: map<string, string>) returns (key: string)
    ensures key == Key(hash, resolver, params)
  {
    var ks := SortedListing(params.Keys);
    IncreasingIsUnique(ks, SortedKeys(params.Keys));
    assert forall k :: k in ks ==> k in Elements(ks);
    var fed := resolver + [NUL];
    for i := 0 to |ks|
      invariant
        fed + (if 0 < i < |ks| then [NUL] else "") + Items(ks, params, i) == resolver + [NUL] + Items(ks, params, 0)
    {
      ghost var before := fed;
      if i > 0 {
        fed := fed + [NUL];
      }
      fed := fed + ks[i];
      fed := fed + ['='];
      fed := fed + params[ks[i]];
      FedNext(before, i, ks, params, fed);
    }
    assert fed + "" + "" == fed;
    key := hash(fed);
  }

  lemma FedNext(before: string, i: nat, ks: seq<string>, params: map<string, string>, fed: string)
    requires i < |ks| && forall k :: k in ks ==> k in params
    requires fed == before + (if i > 0 then [NUL] else "") + ks[i] + ['='] + params[ks[i]]
    ensures fed + (if i + 1 < |ks| then [NUL] else "") + Items(ks, params, i + 1)
      == before + (if 0 < i < |ks| then [NUL] else "") + Items(ks, params, i)
  {
    var sep, item := if i > 0 then [NUL] else "", Item(ks[i], params[ks[i]]);
    assert fed == before + sep + item;
    if i + 1 < |ks| {
      assert before + sep + (item + ([NUL] + Items(ks, params, i + 1))) ==
        before + sep + item + [NUL] + Items(ks, params, i + 1);
    } else {
      assert before + sep + (item + "") == before + sep + item + "" + "";
    }
  }

  // ---------------------------------------------------------------- distinct requests, distinct preimages

  /** Splitting at the first separator is unambiguous. */
  lemma SplitIsUnique(c: char, a: string, x: string, b: string, y: string)
    requires Without(c, a) && Without(c, b) && a + [c] + x == b + [c] + y
    ensures a == b && x == y
  {
    var s := a + [c] + x;
    assert s[|a|] == c && s[|b|] == c;
    assert forall i :: 0 <= i < |a| ==> s[i] == a[i] && a[i] in a;
    assert forall i :: 0 <= i < |b| ==> s[i] == b[i] && b[i] in b;
    assert |a| == |b|;
    assert s[..|a|] == a && s[..|b|] == b;
    assert s[|a| + 1..] == x && s[|b| + 1..] == y;
  }

  /** No string of the request holds a NUL byte. */
  predicate NulFree(resolver: string, params: map<string, string>) {
    Without(NUL, resolver) && forall k :: k in params ==> Without(NUL, k) && Without(NUL, params[k])
  }

  /** Strings without NUL, and keys without '='. */
  predicate Clean(resolver: string, params: map<string, string>) {
    NulFree(resolver, params) && forall k :: k in params ==> Without('=', k)
  }

  /** Neither name continues the other with an '='. */
  predicate Apart(k: string, k': string) {
    !(k + "=" <= k') && !(k' + "=" <= k)
  }

  predicate NulFreeKeys(ks: seq<string>, params: map<string, string>) {
    forall k :: k in ks ==> k in params && Without(NUL, k) && Without(NUL, params[k])
  }

  lemma ItemIsClean(k: string, v: string)
    requires Without(NUL, k) && Without(NUL, v)
    ensures Without(NUL, Item(k, v)) && Item(k, v) != ""
  {
  }

  /** An item can be told from another unless one name continues the other with an '='. */
  lemma ItemIsUnique(k: string, v: string, k': string, v': string)
    requires Apart(k, k') && Item(k, v) == Item(k', v')
    ensures k == k' && v == v'
  {
    if |k| < |k'| {
      ShorterName(k, v, k', v');
    }
    if |k'| < |k| {
      ShorterName(k', v', k, v);
    }
    var s := Item(k, v);
    assert k == s[..|k|] && k' == s[..|k'|];
    assert v == s[|k| + 1..] && v' == s[|k'| + 1..];
  }

  lemma ShorterName(k: string, v: string, k': string, v': string)
    requires Item(k, v) == Item(k', v') && |k| < |k'|
    ensures k + "=" <= k'
  {
    var s := Item(k, v);
    assert forall i :: 0 <= i <= |k| ==> s[i] == (k + "=")[i];
    assert forall i :: 0 <= i < |k'| ==> s[i] == k'[i];
  }

  function Followed(a: string, more: bool, x: string): string {
    a + if more then [NUL] + x else ""
  }

  lemma SeparatorTells(a: string, more: bool, x: string)
    requires Without(NUL, a)
    ensures NUL in Followed(a, more, x) <==> more
  {
    if more {
      assert Followed(a, more, x)[|a|] == NUL;
    }
  }

  /** The head item and what follows it can be told from the text. */
  lemma HeadIsUnique(a: string, x: string, moreA: bool, b: string, y: string, moreB: bool)
    requires Without(NUL, a) && Without(NUL, b) && Followed(a, moreA, x) == Followed(b, moreB, y)
    ensures a == b && moreA == moreB && (moreA ==> x == y)
  {
    SeparatorTells(a, moreA, x);
    SeparatorTells(b, moreB, y);
    if moreA {
      assert a + ([NUL] + x) == a + [NUL] + x && b + ([NUL] + y) == b + [NUL] + y;
      SplitIsUnique(NUL, a, x, b, y);
    } else {
      assert a + "" == a && b + "" == b;
    }
  }

  predicate AllApart(ks: seq<string>, ks': seq<string>) {
    forall k, k' :: k in ks && k' in ks' ==> Apart(k, k')
  }

  /** From the i-th on the keys and their values are the same. */
  predicate SameFrom(ks: seq<string>, p: map<string, string>, ks': seq<string>, p': map<string, string>, i: nat)
    requires NulFreeKeys(ks, p) && NulFreeKeys(ks', p')
  {
    |ks| == |ks'| && forall j :: i <= j < |ks| ==> ks[j] == ks'[j] && p[ks[j]] == p'[ks'[j]]
  }

  lemma {:induction false} ItemsAreUnique(ks: seq<string>, p: map<string, string>, ks': seq<string>,
      p': map<string, string>, i: nat)
    requires NulFreeKeys(ks, p) && NulFreeKeys(ks', p') && AllApart(ks, ks')
    requires i <= |ks| && i <= |ks'| && Items(ks, p, i) == Items(ks', p', i)
    ensures SameFrom(ks, p, ks', p', i)
    decreases |ks| - i
  {
    ItemsEnd(ks, p, i);
    ItemsEnd(ks', p', i);
    if i < |ks| {
      FirstItemIsUnique(ks, p, ks', p', i);
      if i + 1 < |ks| {
        ItemsAreUnique(ks, p, ks', p', i + 1);
      }
    }
  }

  /** There are no more items exactly when there is no more text. */
  lemma ItemsEnd(ks: seq<string>, p: map<string, string>, i: nat)
    requires NulFreeKeys(ks, p) && i <= |ks|
    ensures Items(ks, p, i) == "" <==> i == |ks|
  {
    if i < |ks| {
      ItemIsClean(ks[i], p[ks[i]]);
    }
  }

  lemma FirstItemIsUnique(ks: seq<string>, p: map<string, string>, ks': seq<string>, p': map<string, string>, i: nat)
    requires NulFreeKeys(ks, p) && NulFreeKeys(ks', p') && AllApart(ks, ks')
    requires i < |ks| && i < |ks'| && Items(ks, p, i) == Items(ks', p', i)
    ensures ks[i] == ks'[i] && p[ks[i]] == p'[ks'[i]] && (i + 1 == |ks| <==> i + 1 == |ks'|)
    ensures i + 1 < |ks| ==> Items(ks, p, i + 1) == Items(ks', p', i + 1)
  {
    var a, b := Item(ks[i], p[ks[i]]), Item(ks'[i], p'[ks'[i]]);
    ItemIsClean(ks[i], p[ks[i]]);
    ItemIsClean(ks'[i], p'[ks'[i]]);
    var x := if i + 1 < |ks| then Items(ks, p, i + 1) else "";
    var y := if i + 1 < |ks'| then Items(ks', p', i + 1) else "";
    HeadIsUnique(a, x, i + 1 < |ks|, b, y, i + 1 < |ks'|);
    ItemIsUnique(ks[i], p[ks[i]], ks'[i], p'[ks'[i]]);
  }

  /** NUL-free requests whose names are told apart have the same preimage only when they have the
      same resolver and params. */
  lemma PreimageTells(resolver: string, params: map<string, string>, resolver': string, params': map<string, string>)
    requires NulFree(resolver, params) && NulFree(resolver', params')
    requires forall k, k' :: k in params && k' in params' ==> Apart(k, k')
    requires Preimage(resolver, params) == Preimage(resolver', params')
    ensures resolver == resolver' && params == params'
  {
    var ks, ks' := SortedKeys(params.Keys), SortedKeys(params'.Keys);
    assert forall k :: k in ks <==> k in Elements(ks);
    assert forall k :: k in ks' <==> k in Elements(ks');
    SplitIsUnique(NUL, resolver, Items(ks, params, 0), resolver', Items(ks', params', 0));
    ItemsAreUnique(ks, params, ks', params', 0);
    assert ks == ks';
    SameItems(ks, params, params');
  }

  lemma SameItems(ks: seq<string>, params: map<string, string>, params': map<string, string>)
    requires Elements(ks) == params.Keys == params'.Keys
    requires forall j :: 0 <= j < |ks| ==> ks[j] in params && ks[j] in params' && params[ks[j]] == params'[ks[j]]
    ensures params == params'
  {
    forall k | k in params ensures params[k] == params'[k] {
      assert k in Elements(ks);
      var j :| 0 <= j < |ks| && ks[j] == k;
    }
  }

  /** Clean requests have the same preimage only when they have the same resolver and params. */
  lemma PreimageIsInjective(resolver: string, params: map<string, string>, resolver': string,
      params': map<string, string>)
    requires Clean(resolver, params) && Clean(resolver', params')
    requires Preimage(resolver, params) == Preimage(resolver', params')
    ensures resolver == resolver' && params == params'
  {
    forall k, k' | k in params && k' in params' ensures Apart(k, k') {
      EqualsFreeIsApart(k, k');
      EqualsFreeIsApart(k', k);
    }
    PreimageTells(resolver, params, resolver', params');
  }

  lemma EqualsFreeIsApart(k: string, k': string)
    requires Without('=', k')
    ensures !(k + "=" <= k')
  {
    if |k| < |k'| {
      assert k'[|k|] in k' && (k + "=")[|k|] == '=';
    }
  }

  // ---------------------------------------------------------------- exactly when keys tell requests apart

  /** The preimage tells apart all NUL-free requests whose param names come from the set. */
  ghost predicate TellsApart(names: iset<string>) {
    forall r, p, r', p' :: SharePreimage(names, r, p, r', p') ==> r == r' && p == p'
  }

  ghost predicate SharePreimage(names: iset<string>, r: string, p: map<string, string>, r': string,
      p': map<string, string>)
  {
    NulFree(r, p) && NulFree(r', p') && (forall k :: k in p || k in p' ==> k in names)
    && Preimage(r, p) == Preimage(r', p')
  }

  /** No name of the set continues another with an '='. */
  ghost predicate NoContinuation(names: iset<string>) {
    forall m, n :: m in names && n in names ==> !(m + "=" <= n)
  }

  /** Where one name continues another with an '=', two requests share a preimage. */
  lemma ContinuationCollides(resolver: string, m: string, x: string, v: string)
    ensures Preimage(resolver, map[m := x + "=" + v]) == Preimage(resolver, map[m + "=" + x := v])
    ensures map[m := x + "=" + v] != map[m + "=" + x := v]
  {
    var n := m + "=" + x;
    OneKey(resolver, m, x + "=" + v);
    OneKey(resolver, n, v);
    assert Item(m, x + "=" + v) == Item(n, v);
    assert |m| < |n|;
    assert m in map[m := x + "=" + v] && m !in map[n := v];
  }

  /** Names from a set of NUL-free names are safe exactly when none continues another with an '='. */
  lemma KeysTellApartWhen(names: iset<string>)
    requires forall n :: n in names ==> Without(NUL, n)
    ensures TellsApart(names) <==> NoContinuation(names)
  {
    if NoContinuation(names) {
      forall r, p, r', p' | SharePreimage(names, r, p, r', p') ensures r == r' && p == p' {
        PreimageTells(r, p, r', p');
      }
    }
    if m, n :| m in names && n in names && m + "=" <= n {
      var p, p' := ContinuationFails(m, n);
      assert SharePreimage(names, "", p, "", p');
    }
  }

  /** Two NUL-free requests with those names that share a preimage. */
  lemma ContinuationFails(m: string, n: string) returns (p: map<string, string>, p': map<string, string>)
    requires m + "=" <= n && Without(NUL, m) && Without(NUL, n)
    ensures p.Keys == {m} && p'.Keys == {n} && m != n
    ensures forall resolver :: Without(NUL, resolver) ==>
      NulFree(resolver, p) && NulFree(resolver, p') && Preimage(resolver, p) == Preimage(resolver, p')
  {
    var x := n[|m| + 1..];
    assert n == m + "=" + x && |m| < |n|;
    assert forall c :: c in x + "=" + "" ==> c in n || c == '=';
    p, p' := map[m := x + "=" + ""], map[n := ""];
    forall resolver ensures Preimage(resolver, p) == Preimage(resolver, p') {
      ContinuationCollides(resolver, m, x, "");
    }
  }

  /** An '=' in a name is enough: two different requests with one preimage. */
  lemma EqualsInKeyCollides()
    ensures map["a" := "b=c"] != map["a=b" := "c"]
    ensures Preimage("git", map["a" := "b=c"]) == Preimage("git", map["a=b" := "c"])
  {
    ContinuationCollides("git", "a", "b", "c");
    assert "b" + "=" + "c" == "b=c" && "a" + "=" + "b" == "a=b";
  }

  lemma OneKey(resolver: string, k: string, v: string)
    ensures Preimage(resolver, map[k := v]) == resolver + [NUL] + Item(k, v)
  {
    var params := map[k := v];
    var ks := SortedKeys(params.Keys);
    assert params.Keys == {k};
    assert Increasing([k]) && Elements([k]) == {k};
    IncreasingIsUnique(ks, [k]);
    assert Items(ks, params, 0) == Item(k, v) + "";
  }
}
