/** Mixed-radix counting, first digit slowest. */
module Odometer {

  function Product(lens: seq<nat>): nat {
    if lens == [] then 1 else lens[0] * Product(lens[1..])
  }

  predicate AllPositive(lens: seq<nat>) {
    forall i :: 0 <= i < |lens| ==> lens[i] > 0
  }

  predicate InRange(lens: seq<nat>, idxs: seq<nat>) {
    |idxs| == |lens| && forall i :: 0 <= i < |lens| ==> idxs[i] < lens[i]
  }

  /** The number whose digits are idxs. */
  function Value(lens: seq<nat>, idxs: seq<nat>): nat
    requires |idxs| == |lens|
  {
    if lens == [] then 0 else idxs[0] * Product(lens[1..]) + Value(lens[1..], idxs[1..])
  }

  lemma {:induction false} ProductPositive(lens: seq<nat>)
    requires AllPositive(lens)
    ensures Product(lens) > 0
  {
    if lens != [] {
      assert AllPositive(lens[1..]);
      ProductPositive(lens[1..]);
    }
  }

  /** The digits of r. */
  function Digits(lens: seq<nat>, r: nat): (d: seq<nat>)
    requires AllPositive(lens)
    ensures |d| == |lens|
  {
    if lens == [] then []
    else
      ProductPositive(lens[1..]);
      [r / Product(lens[1..])] + Digits(lens[1..], r % Product(lens[1..]))
  }

  lemma {:induction false} ValueInRange(lens: seq<nat>, idxs: seq<nat>)
    requires InRange(lens, idxs)
    ensures Value(lens, idxs) < Product(lens)
  {
    if lens != [] {
      ValueInRange(lens[1..], idxs[1..]);
      Scale(idxs[0], lens[0], Product(lens[1..]));
    }
  }

  lemma Scale(a: nat, b: nat, p: nat)
    requires a < b
    ensures a * p + p <= b * p
  {
    assert (a + 1) * p <= b * p;
  }

  /** Reading a number back from its digits, and the digits of a number: mutually inverse, so every
      combination of indices is the digits of exactly one row number. */
  lemma {:induction false} DigitsOfValue(lens: seq<nat>, idxs: seq<nat>)
    requires InRange(lens, idxs)
    ensures AllPositive(lens) && Digits(lens, Value(lens, idxs)) == idxs
  {
    if lens != [] {
      var p := Product(lens[1..]);
      DigitsOfValue(lens[1..], idxs[1..]);
      ValueInRange(lens[1..], idxs[1..]);
      assert AllPositive(lens) by { assert forall i :: 0 < i < |lens| ==> lens[i] == lens[1..][i - 1]; }
      DivMod(idxs[0], p, Value(lens[1..], idxs[1..]));
      assert idxs == [idxs[0]] + idxs[1..];
    }
  }

  lemma DivMod(q: nat, p: nat, r: nat)
    requires r < p
    ensures (q * p + r) / p == q && (q * p + r) % p == r
  {
    var n := q * p + r;
    assert n == p * (n / p) + n % p;
    var k := n / p;
    if k < q { Scale(k, q, p); }
    if q < k { Scale(q, k, p); }
  }

  lemma {:induction false} ValueOfDigits(lens: seq<nat>, r: nat)
    requires AllPositive(lens) && r < Product(lens)
    ensures InRange(lens, Digits(lens, r)) && Value(lens, Digits(lens, r)) == r
  {
    if lens != [] {
      var p := Product(lens[1..]);
      ProductPositive(lens[1..]);
      ValueOfDigits(lens[1..], r % p);
      var d := Digits(lens, r);
      assert d[1..] == Digits(lens[1..], r % p);
      Quotient(r, p, lens[0]);
    }
  }

  lemma Quotient(r: nat, p: nat, b: nat)
    requires p > 0 && r < b * p
    ensures r / p < b && r == (r / p) * p + r % p
  {
    assert r == p * (r / p) + r % p;
    Monotone(b, r / p, p);
  }

  lemma Monotone(a: nat, b: nat, p: nat)
    ensures a <= b ==> a * p <= b * p
  {
  }

  /** One turn of the odometer from the last digit, and whether it wrapped around. */
  function Turn(lens: seq<nat>, idxs: seq<nat>): (r: (seq<nat>, bool))
    requires |idxs| == |lens|
    ensures |r.0| == |lens|
  {
    if lens == [] then ([], true)
    else
      var (rest, wrapped) := Turn(lens[1..], idxs[1..]);
      if !wrapped then ([idxs[0]] + rest, false)
      else if idxs[0] + 1 < lens[0] then ([idxs[0] + 1] + rest, false)
      else ([0] + rest, true)
  }

  /** A turn adds one, or wraps the last number around to zero. */
  lemma {:induction false} TurnCounts(lens: seq<nat>, idxs: seq<nat>)
    requires InRange(lens, idxs)
    ensures
      var (next, wrapped) := Turn(lens, idxs);
      && InRange(lens, next)
      && Value(lens, next) == (if wrapped then 0 else Value(lens, idxs) + 1)
      && (wrapped <==> Value(lens, idxs) == Product(lens) - 1)
  {
    if lens != [] {
      TurnCounts(lens[1..], idxs[1..]);
      ValueInRange(lens[1..], idxs[1..]);
      var p := Product(lens[1..]);
      var (rest, wrapped) := Turn(lens[1..], idxs[1..]);
      var next := Turn(lens, idxs).0;
      assert next[1..] == rest;
      if !wrapped {
        Scale(idxs[0], lens[0], p);
      } else if idxs[0] + 1 < lens[0] {
        Scale(idxs[0] + 1, lens[0], p);
        assert (idxs[0] + 1) * p == idxs[0] * p + p;
      } else {
        assert lens[0] * p == idxs[0] * p + p;
      }
    }
  }

  /** The in-place loop that turns the odometer. */
  method Advance(idxs: array<nat>, lens: seq<nat>) returns (done: bool)
    requires idxs.Length == |lens|
    modifies idxs
    ensures (idxs[..], done) == Turn(lens, old(idxs[..]))
  {
    var n := |lens|;
    ghost var was := idxs[..];
    var i := n;
    done := true;
    assert was[n..] == [] && lens[n..] == [];
    while i > 0 && done
      invariant 0 <= i <= n
      invariant idxs[..i] == was[..i]
      invariant (idxs[i..], done) == Turn(lens[i..], was[i..])
    {
      i := i - 1;
      TurnAt(lens, was, i);
      ghost var now := idxs[..];
      idxs[i] := idxs[i] + 1;
      if idxs[i] < lens[i] {
        done := false;
      } else {
        idxs[i] := 0;
      }
      OneDigit(now, idxs[..], i);
    }
    TurnPrefix(lens, was, i, idxs[..], done);
  }

  /** What is left and right of a digit that changes. */
  lemma OneDigit(was: seq<nat>, now: seq<nat>, i: nat)
    requires i < |was| && |now| == |was| && now == was[i := now[i]]
    ensures now[..i] == was[..i] && now[i..] == [now[i]] + was[i + 1..]
  {
  }

  /** A turn from digit i on, in terms of the turn of the digits after it. */
  lemma TurnAt(lens: seq<nat>, was: seq<nat>, i: nat)
    requires i < |lens| == |was|
    ensures
      var (rest, wrapped) := Turn(lens[i + 1..], was[i + 1..]);
      Turn(lens[i..], was[i..]) ==
        if !wrapped then ([was[i]] + rest, false)
        else if was[i] + 1 < lens[i] then ([was[i] + 1] + rest, false)
        else ([0] + rest, true)
  {
    assert lens[i..][1..] == lens[i + 1..] && was[i..][1..] == was[i + 1..];
  }

  /** Digits before the one that absorbed the carry stay as they are. */
  lemma {:induction false} TurnPrefix(lens: seq<nat>, was: seq<nat>, i: nat, now: seq<nat>, done: bool)
    requires |was| == |lens| == |now| && i <= |lens| && now[..i] == was[..i]
    requires (now[i..], done) == Turn(lens[i..], was[i..]) && (i > 0 ==> !done)
    ensures (now, done) == Turn(lens, was)
    decreases i
  {
    if i == 0 {
      assert now[0..] == now && lens[0..] == lens && was[0..] == was;
    } else {
      assert lens[i - 1..][1..] == lens[i..] && was[i - 1..][1..] == was[i..];
      assert now[i - 1] == now[..i][i - 1] == was[i - 1];
      assert now[i - 1..] == [was[i - 1]] + now[i..];
      assert now[..i - 1] == was[..i - 1] by {
        assert now[..i][..i - 1] == now[..i - 1] && was[..i][..i - 1] == was[..i - 1];
      }
      TurnPrefix(lens, was, i - 1, now, done);
    }
  }
}

/** Matrix rows and the expansion of matrix tasks. */
module Matrices {
  import opened Wrappers
  import opened Types
  import opened Odometer

  const MAX_ROWS := 256

  datatype Row = Row(params: seq<Param>, includeName: string)

  datatype MatrixError = EmptyValue(param: string) | TooManyRows(total: nat)

  function Lens(ps: seq<MatrixParam>): (r: seq<nat>)
    ensures |r| == |ps| && forall i :: 0 <= i < |ps| ==> r[i] == |ps[i].value|
  {
    seq(|ps|, i requires 0 <= i < |ps| => |ps[i].value|)
  }

  predicate NoEmptyValue(m: Matrix) {
    forall i :: 0 <= i < |m.params| ==> |m.params[i].value| > 0
  }

  /** How many cross-product rows there are. */
  function Cross(m: Matrix): nat {
    if m.params == [] then 0 else Product(Lens(m.params))
  }

  /** The matrices the engine expands. */
  predicate Accepts(m: Matrix) {
    NoEmptyValue(m) && Cross(m) + |m.include_| <= MAX_ROWS
  }

  /** The row at the given indices. */
  function RowAt(ps: seq<MatrixParam>, idxs: seq<nat>): seq<Param>
    requires InRange(Lens(ps), idxs)
  {
    seq(|ps|, i requires 0 <= i < |ps| => Param(ps[i].name, StringValue(ps[i].value[idxs[i]])))
  }

  /** Cross-product row r: each param takes the mixed-radix digit of r, the first param slowest. */
  ghost function CrossRow(m: Matrix, r: nat): seq<Param>
    requires NoEmptyValue(m) && r < Cross(m)
  {
    ValueOfDigits(Lens(m.params), r);
    RowAt(m.params, Digits(Lens(m.params), r))
  }

  /** The cross product followed by the include rows. */
  ghost function Rows(m: Matrix): (rows: seq<Row>)
    requires NoEmptyValue(m)
    ensures |rows| == Cross(m) + |m.include_|
    ensures forall r :: 0 <= r < Cross(m) ==> rows[r] == Row(CrossRow(m, r), "")
    ensures forall i :: 0 <= i < |m.include_| ==> rows[Cross(m) + i] == Row(m.include_[i].params, m.include_[i].name)
  {
    seq(Cross(m), r requires 0 <= r < Cross(m) => Row(CrossRow(m, r), ""))
    + seq(|m.include_|, i requires 0 <= i < |m.include_| => Row(m.include_[i].params, m.include_[i].name))
  }

  /** Every combination of values is exactly one cross-product row. */
  lemma EveryCombinationOnce(m: Matrix, idxs: seq<nat>)
    requires NoEmptyValue(m) && m.params != [] && InRange(Lens(m.params), idxs)
    ensures
      var r := Value(Lens(m.params), idxs);
      && r < Cross(m) && CrossRow(m, r) == RowAt(m.params, idxs)
      && |CrossRow(m, r)| == |m.params|
      && forall k :: 0 <= k < |m.params| ==>
           CrossRow(m, r)[k] == Param(m.params[k].name, StringValue(m.params[k].value[idxs[k]]))
    ensures forall r :: 0 <= r < Cross(m) && Digits(Lens(m.params), r) == idxs ==> r == Value(Lens(m.params), idxs)
  {
    ValueInRange(Lens(m.params), idxs);
    DigitsOfValue(Lens(m.params), idxs);
    forall r | 0 <= r < Cross(m) && Digits(Lens(m.params), r) == idxs ensures r == Value(Lens(m.params), idxs) {
      ValueOfDigits(Lens(m.params), r);
    }
  }

  /** The odometer loop shared by the engine and the cluster backend: one index tuple per row, in order. */
  method CountThrough(lens: seq<nat>) returns (tuples: seq<seq<nat>>)
    requires AllPositive(lens)
    ensures |tuples| == Product(lens)
    ensures forall r :: 0 <= r < |tuples| ==> tuples[r] == Digits(lens, r)
  {
    var idxs := new nat[|lens|](i => 0);
    tuples := [];
    ZeroIsZero(lens, idxs[..]);
    ProductPositive(lens);
    while true
      invariant InRange(lens, idxs[..]) && Value(lens, idxs[..]) == |tuples| < Product(lens)
      invariant forall r :: 0 <= r < |tuples| ==> tuples[r] == Digits(lens, r)
      decreases Product(lens) - |tuples|
    {
      DigitsOfValue(lens, idxs[..]);
      TurnCounts(lens, idxs[..]);
      tuples := tuples + [idxs[..]];
      var done := Advance(idxs, lens);
      if done {
        break;
      }
      ValueInRange(lens, idxs[..]);
    }
  }

  lemma {:induction false} ZeroIsZero(lens: seq<nat>, zeros: seq<nat>)
    requires AllPositive(lens) && |zeros| == |lens| && forall i :: 0 <= i < |zeros| ==> zeros[i] == 0
    ensures InRange(lens, zeros) && Value(lens, zeros) == 0
  {
    if lens != [] {
      assert AllPositive(lens[1..]);
      ZeroIsZero(lens[1..], zeros[1..]);
    }
  }

  method CheckValues(ps: seq<MatrixParam>) returns (empty: Option<string>)
    ensures empty.None? <==> forall i :: 0 <= i < |ps| ==> |ps[i].value| > 0
  {
    for i := 0 to |ps|
      invariant forall j :: 0 <= j < i ==> |ps[j].value| > 0
    {
      if |ps[i].value| == 0 {
        return Some(ps[i].name);
      }
    }
    return None;
  }

  method CountRows(ps: seq<MatrixParam>) returns (cross: nat)
    ensures cross == if ps == [] then 0 else Product(Lens(ps))
  {
    cross := 0;
    if |ps| > 0 {
      cross := 1;
      for i := 0 to |ps|
        invariant cross * Product(Lens(ps)[i..]) == Product(Lens(ps))
      {
        var lens := Lens(ps);
        assert lens[i..][1..] == lens[i + 1..];
        ghost var before, rest := cross, Product(lens[i + 1..]);
        cross := cross * |ps[i].value|;
        assert before * (lens[i] * rest) == cross * rest;
      }
      assert Lens(ps)[|ps|..] == [];
    }
  }

  /** materializeRows: rejects an empty value list or more than 256 rows, and otherwise lists the
      cross product in mixed-radix order followed by the include rows. */
  method MaterializeRows(m: Matrix) returns (r: Result<seq<Row>, MatrixError>)
    ensures r.Ok? <==> Accepts(m)
    ensures r.Ok? <==>
      && (forall i :: 0 <= i < |m.params| ==> m.params[i].value != [])
      && (if m.params == [] then 0 else Product(Lens(m.params))) + |m.include_| <= 256
    ensures r.Ok? ==> r.value == Rows(m)
    ensures r.Err? ==> (r.error.EmptyValue? <==> !NoEmptyValue(m))
  {
    var empty := CheckValues(m.params);
    if empty.Some? {
      return Err(EmptyValue(empty.value));
    }
    var cross := CountRows(m.params);
    var total := cross + |m.include_|;
    if total > MAX_ROWS {
      return Err(TooManyRows(total));
    }
    var rows: seq<Row> := [];
    if cross > 0 {
      rows := CrossRows(m);
    }
    var more := IncludeRows(m.include_);
    rows := rows + more;
    assert rows == Rows(m);
    return Ok(rows);
  }

  method CrossRows(m: Matrix) returns (rows: seq<Row>)
    requires NoEmptyValue(m) && m.params != []
    ensures |rows| == Cross(m) && forall r :: 0 <= r < Cross(m) ==> rows[r] == Row(CrossRow(m, r), "")
  {
    rows := [];
    var tuples := CountThrough(Lens(m.params));
    for k := 0 to |tuples|
      invariant |rows| == k && forall r :: 0 <= r < k ==> rows[r] == Row(CrossRow(m, r), "")
    {
      ValueOfDigits(Lens(m.params), k);
      rows := rows + [Row(RowAt(m.params, tuples[k]), "")];
    }
  }

  method IncludeRows(include_: seq<MatrixInclude>) returns (rows: seq<Row>)
    ensures |rows| == |include_| && forall i :: 0 <= i < |rows| ==> rows[i] == Row(include_[i].params, include_[i].name)
  {
    rows := [];
    for i := 0 to |include_|
      invariant |rows| == i && forall j :: 0 <= j < i ==> rows[j] == Row(include_[j].params, include_[j].name)
    {
      rows := rows + [Row(include_[i].params, include_[i].name)];
    }
  }

  // ---------------------------------------------------------------- the cluster backend's copy

  datatype PublicRow = PublicRow(params: map<string, string>, includeName: string)

  /** rowParamMap: later entries win. */
  function ParamMap(ps: seq<Param>): map<string, string> {
    if ps == [] then map[] else ParamMap(ps[..|ps| - 1])[ps[|ps| - 1].name := StringVal(ps[|ps| - 1].value)]
  }

  function Public(row: Row): PublicRow {
    PublicRow(ParamMap(row.params), row.includeName)
  }

  method RowParamMap(ps: seq<Param>) returns (r: map<string, string>)
    ensures r == ParamMap(ps)
  {
    r := map[];
    for i := 0 to |ps|
      invariant r == ParamMap(ps[..i])
    {
      assert ps[..i + 1][..i] == ps[..i];
      r := r[ps[i].name := StringVal(ps[i].value)];
    }
    assert ps[..|ps|] == ps;
  }

  /** MaterializeMatrixRows: the rows the engine makes, in the same order, as maps. Like the code,
      and unlike its comment, it applies no cap; None is the nil of an empty value list. */
  method MaterializeMatrixRows(m: Matrix) returns (r: Option<seq<PublicRow>>)
    ensures r.Some? <==> NoEmptyValue(m)
    ensures r.Some? ==> |r.value| == |Rows(m)| && forall i :: 0 <= i < |r.value| ==> r.value[i] == Public(Rows(m)[i])
  {
    var empty := CheckValues(m.params);
    if empty.Some? {
      return None;
    }
    var cross := CountRows(m.params);
    var rows: seq<PublicRow> := [];
    if cross > 0 {
      rows := PublicCrossRows(m);
    }
    var more := PublicIncludeRows(m.include_);
    PublicAreRows(m, rows, more);
    return Some(rows + more);
  }

  lemma PublicAreRows(m: Matrix, cross: seq<PublicRow>, more: seq<PublicRow>)
    requires NoEmptyValue(m) && |cross| == Cross(m) && |more| == |m.include_|
    requires forall r :: 0 <= r < Cross(m) ==> cross[r] == PublicRow(ParamMap(CrossRow(m, r)), "")
    requires forall i :: 0 <= i < |more| ==> more[i] == PublicRow(ParamMap(m.include_[i].params), m.include_[i].name)
    ensures |cross + more| == |Rows(m)| && forall i :: 0 <= i < |Rows(m)| ==> (cross + more)[i] == Public(Rows(m)[i])
  {
    forall i | 0 <= i < |Rows(m)| ensures (cross + more)[i] == Public(Rows(m)[i]) {
      if i >= Cross(m) {
        assert Rows(m)[Cross(m) + (i - Cross(m))] ==
          Row(m.include_[i - Cross(m)].params, m.include_[i - Cross(m)].name);
      }
    }
  }

  method PublicCrossRows(m: Matrix) returns (rows: seq<PublicRow>)
    requires NoEmptyValue(m) && m.params != []
    ensures |rows| == Cross(m) && forall r :: 0 <= r < Cross(m) ==> rows[r] == PublicRow(ParamMap(CrossRow(m, r)), "")
  {
    rows := [];
    var tuples := CountThrough(Lens(m.params));
    for k := 0 to |tuples|
      invariant |rows| == k && forall r :: 0 <= r < k ==> rows[r] == PublicRow(ParamMap(CrossRow(m, r)), "")
    {
      ValueOfDigits(Lens(m.params), k);
      var params := RowParamMap(RowAt(m.params, tuples[k]));
      rows := rows + [PublicRow(params, "")];
    }
  }

  method PublicIncludeRows(include_: seq<MatrixInclude>) returns (rows: seq<PublicRow>)
    ensures |rows| == |include_|
    ensures forall i :: 0 <= i < |rows| ==> rows[i] == PublicRow(ParamMap(include_[i].params), include_[i].name)
  {
    rows := [];
    for i := 0 to |include_|
      invariant |rows| == i && forall j :: 0 <= j < i ==>
        rows[j] == PublicRow(ParamMap(include_[j].params), include_[j].name)
    {
      var params := RowParamMap(include_[i].params);
      rows := rows + [PublicRow(params, include_[i].name)];
    }
  }

  // ---------------------------------------------------------------- the validator's rule

  /** The validator's row count, which skips empty value lists. */
  function ValidatorCross(ps: seq<MatrixParam>): nat {
    if ps == [] then 1
    else (if ps[0].value == [] then 1 else |ps[0].value|) * ValidatorCross(ps[1..])
  }

  /** Rule 19 reports nothing about the size of the matrix. */
  predicate Rule19(m: Matrix) {
    && (forall i, j :: 0 <= i < j < |m.params| ==> m.params[i].name != m.params[j].name)
    && NoEmptyValue(m)
    && (if m.params == [] then 0 else ValidatorCross(m.params)) + |m.include_| <= 256
  }

  lemma {:induction false} ValidatorCounts(ps: seq<MatrixParam>)
    requires forall i :: 0 <= i < |ps| ==> |ps[i].value| > 0
    ensures ValidatorCross(ps) == Product(Lens(ps))
  {
    if ps != [] {
      ValidatorCounts(ps[1..]);
      assert Lens(ps)[1..] == Lens(ps[1..]);
    }
  }

  /** A matrix the validator passes is one the engine expands. */
  lemma ValidatedIsAccepted(m: Matrix)
    requires Rule19(m)
    ensures Accepts(m)
  {
    ValidatorCounts(m.params);
  }
}
