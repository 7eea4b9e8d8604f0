/** The results map as a function of the outcomes, matrix aggregates included. */
module Aggregation {
  import opened Strings
  import opened Plans

  type Results = map<string, map<string, string>>

  /** An outcome whose results enter the results map. */
  predicate Produces(oc: Outcome) {
    oc.status != Skipped && oc.results.Some?
  }

  /** results[n][k] with Go's zero value for what is missing. */
  function Cell(results: Results, n: string, k: string): string {
    if n in results && k in results[n] then results[n][k] else ""
  }

  /** The result names any of the rows produced. */
  function ResultNames(rows: seq<string>, results: Results): set<string> {
    set n, k | n in rows && n in results && k in results[n] :: k
  }

  /** One array per result name, in row order. */
  function Table(rows: seq<string>, results: Results, encode: seq<string> -> string): map<string, string> {
    map k | k in ResultNames(rows, results) :: encode(Column(rows, results, k))
  }

  /** What a task has in the results map, nothing when it has no entry. */
  function EntryOf(results: Results, n: string): map<string, string> {
    if n in results then results[n] else map[]
  }

  /** The parent's entry with one array per result name written into it. */
  function Aggregated(parent: string, rows: seq<string>, results: Results, encode: seq<string> -> string): Results {
    if ResultNames(rows, results) == {} then results
    else results[parent := EntryOf(results, parent) + Table(rows, results, encode)]
  }

  method CollectNames(rows: seq<string>, results: Results) returns (names: set<string>)
    ensures names == ResultNames(rows, results)
  {
    names := {};
    for i := 0 to |rows|
      invariant names == ResultNames(rows[..i], results)
    {
      var n := rows[i];
      NamesAppend(rows[..i], n, results);
      assert rows[..i + 1] == rows[..i] + [n];
      if n in results {
        names := names + results[n].Keys;
      }
    }
    assert rows[..|rows|] == rows;
  }

  lemma NamesAppend(rows: seq<string>, n: string, results: Results)
    ensures ResultNames(rows + [n], results) == ResultNames(rows, results) + EntryOf(results, n).Keys
  {
  }

  /** The i-th value is the i-th row's, empty where the row has no such result. */
  ghost predicate InRowOrder(rows: seq<string>, results: Results, k: string, c: seq<string>) {
    && |c| == |rows|
    && forall i :: 0 <= i < |rows| ==>
         if rows[i] in results && k in results[rows[i]] then c[i] == results[rows[i]][k] else c[i] == ""
  }

  /** The values of one result in row order. */
  function Column(rows: seq<string>, results: Results, k: string): (c: seq<string>)
    ensures InRowOrder(rows, results, k, c)
    ensures |c| == |rows| && forall i :: 0 <= i < |rows| ==> c[i] == Cell(results, rows[i], k)
  {
    seq(|rows|, i requires 0 <= i < |rows| => Cell(results, rows[i], k))
  }

  method ReadColumn(rows: seq<string>, results: Results, k: string) returns (arr: seq<string>)
    ensures arr == Column(rows, results, k)
  {
    arr := [];
    for i := 0 to |rows|
      invariant |arr| == i && forall j :: 0 <= j < i ==> arr[j] == Cell(results, rows[j], k)
    {
      arr := arr + [Cell(results, rows[i], k)];
    }
  }

  /** Entries written for other result names do not show in a column. */
  lemma ColumnSame(rows: seq<string>, a: Results, b: Results, k: string)
    requires forall n :: n in rows ==> Cell(a, n, k) == Cell(b, n, k)
    ensures Column(rows, a, k) == Column(rows, b, k)
  {
    assert forall i :: 0 <= i < |rows| ==> rows[i] in rows;
  }

  /** Writes one array per name into the parent's entry, reading the map as it stands. */
  method FillEntry(parent: string, rows: seq<string>, results: Results, names: set<string>,
      encode: seq<string> -> string)
    returns (entry: map<string, string>)
    ensures entry.Keys == EntryOf(results, parent).Keys + names
    ensures forall k :: k in names ==> entry[k] == encode(Column(rows, results, k))
    ensures forall k :: k in EntryOf(results, parent) && k !in names ==> entry[k] == EntryOf(results, parent)[k]
  {
    var base := EntryOf(results, parent);
    entry := base;
    var todo := names;
    while todo != {}
      invariant todo <= names && entry.Keys == base.Keys + (names - todo)
      invariant forall k :: k in names && k !in todo ==> entry[k] == encode(Column(rows, results, k))
      invariant forall k :: k in base && (k !in names || k in todo) ==> entry[k] == base[k]
      decreases todo
    {
      var k :| k in todo;
      StillUnwritten(parent, rows, results, entry, k);
      var arr := ReadColumn(rows, results[parent := entry], k);
      entry := entry[k := encode(arr)];
      todo := todo - {k};
    }
  }

  lemma StillUnwritten(parent: string, rows: seq<string>, results: Results, entry: map<string, string>, k: string)
    requires k in entry <==> k in EntryOf(results, parent)
    requires k in entry ==> entry[k] == EntryOf(results, parent)[k]
    ensures Column(rows, results[parent := entry], k) == Column(rows, results, k)
  {
    ColumnSame(rows, results[parent := entry], results, k);
  }

  /** aggregateMatrixResults: for each result name of any row, the rows' values as one encoded array,
      written into the parent's entry. */
  method AggregateMatrixResults(parent: string, rows: seq<string>, results: Results, encode: seq<string> -> string)
    returns (r: Results)
    ensures r == Aggregated(parent, rows, results, encode)
  {
    var names := CollectNames(rows, results);
    if names == {} {
      return results;
    }
    var entry := FillEntry(parent, rows, results, names, encode);
    assert entry == EntryOf(results, parent) + Table(rows, results, encode);
    r := results[parent := entry];
  }

  /** The value is the encoding of the rows' values in row order. */
  ghost predicate Encodes(rows: seq<string>, results: Results, k: string, encode: seq<string> -> string, v: string) {
    exists c :: InRowOrder(rows, results, k, c) && v == encode(c)
  }

  /** Some row has the result. */
  ghost predicate SomeRowHas(rows: seq<string>, results: Results, k: string) {
    exists n :: n in rows && n in results && k in results[n]
  }

  /** What aggregation makes of every entry: for each result of any row one array of the rows' values in
      row order in the parent's, and all else as it was. */
  lemma AggregatedInRowOrder(parent: string, rows: seq<string>, results: Results, encode: seq<string> -> string,
      n: string, k: string)
    ensures n == parent && SomeRowHas(rows, results, k) ==>
      var r := Aggregated(parent, rows, results, encode);
      n in r && k in r[n] && Encodes(rows, results, k, encode, r[n][k])
    ensures !(n == parent && SomeRowHas(rows, results, k)) ==>
      var r := Aggregated(parent, rows, results, encode);
      && (n in r && k in r[n] <==> n in results && k in results[n])
      && (n in r && k in r[n] ==> r[n][k] == results[n][k])
  {
    assert k in ResultNames(rows, results) <==> SomeRowHas(rows, results, k);
    if n == parent && SomeRowHas(rows, results, k) {
      assert InRowOrder(rows, results, k, Column(rows, results, k));
    }
  }

  /** A parent without an entry gets exactly the arrays. */
  lemma AggregatedFresh(parent: string, rows: seq<string>, results: Results, encode: seq<string> -> string)
    requires parent !in results
    ensures Aggregated(parent, rows, results, encode) ==
      if ResultNames(rows, results) == {} then results else results[parent := Table(rows, results, encode)]
  {
    assert map[] + Table(rows, results, encode) == Table(rows, results, encode);
  }

  // ---------------------------------------------------------------- results from outcomes

  /** What each task that ran contributed. */
  ghost function Own(o: Outcomes): Results {
    map n | n in o && Produces(o[n]) :: o[n].results.value
  }

  ghost predicate AllTerminal(rows: seq<string>, o: Outcomes) {
    forall r :: r in rows ==> r in o
  }

  /** A matrix parent whose rows are all terminal and produced something. */
  ghost predicate HasAggregate(plan: Plan, o: Outcomes, p: string) {
    Aggregable(plan.rows, o, p)
  }

  ghost predicate Aggregable(rows: map<string, seq<string>>, o: Outcomes, p: string) {
    p in rows && AllTerminal(rows[p], o) && ResultNames(rows[p], Own(o)) != {}
  }

  /** The results map that goes with the outcomes. */
  ghost function ResultsOf(plan: Plan, o: Outcomes): Results {
    OwnAndAggregates(plan.rows, plan.encode, o)
  }

  ghost function OwnAndAggregates(rows: map<string, seq<string>>, encode: seq<string> -> string, o: Outcomes): Results {
    Own(o) + map p | p in rows && Aggregable(rows, o, p) :: Table(rows[p], Own(o), encode)
  }

  /** finishTask and markNotRun: the results map after n gets the outcome oc. */
  function Recorded(plan: Plan, o: Outcomes, results: Results, n: string, oc: Outcome): Results {
    var results' := WithOwn(results, n, oc);
    if n in plan.parent && plan.parent[n] in plan.rows
       && (forall r :: r in plan.rows[plan.parent[n]] ==> r in o || r == n)
       && plan.parent[n] !in results'
    then Aggregated(plan.parent[n], plan.rows[plan.parent[n]], results', plan.encode)
    else results'
  }

  lemma TableSame(rows: seq<string>, a: Results, b: Results, encode: seq<string> -> string)
    requires forall r :: r in rows ==> (r in a <==> r in b) && (r in a ==> a[r] == b[r])
    ensures ResultNames(rows, a) == ResultNames(rows, b) && Table(rows, a, encode) == Table(rows, b, encode)
  {
    assert ResultNames(rows, a) == ResultNames(rows, b);
    forall k | k in ResultNames(rows, a) ensures Table(rows, a, encode)[k] == Table(rows, b, encode)[k] {
      ColumnSame(rows, a, b, k);
    }
  }

  /** The entry of one key. */
  lemma ResultsOfKey(plan: Plan, o: Outcomes, k: string)
    requires k in plan.rows ==> k !in o
    ensures k in ResultsOf(plan, o) <==> HasAggregate(plan, o, k) || (k in o && Produces(o[k]))
    ensures HasAggregate(plan, o, k) ==> ResultsOf(plan, o)[k] == Table(plan.rows[k], Own(o), plan.encode)
    ensures k in o && Produces(o[k]) ==> ResultsOf(plan, o)[k] == o[k].results.value
  {
  }

  /** A matrix none of whose rows changed keeps its aggregate. */
  lemma OtherAggregates(plan: Plan, o: Outcomes, n: string, oc: Outcome, p: string)
    requires n !in o && p in plan.rows && n !in plan.rows[p]
    ensures HasAggregate(plan, o[n := oc], p) <==> HasAggregate(plan, o, p)
    ensures Table(plan.rows[p], Own(o[n := oc]), plan.encode) == Table(plan.rows[p], Own(o), plan.encode)
  {
    TableSame(plan.rows[p], Own(o[n := oc]), Own(o), plan.encode);
  }

  /** The results map once n's own results are in, and before any aggregate is added. */
  function WithOwn(results: Results, n: string, oc: Outcome): Results {
    if Produces(oc) then results[n := oc.results.value] else results
  }

  /** A row's siblings appear in the results map with exactly what they produced. */
  lemma RowsAsOwn(plan: Plan, o: Outcomes, n: string, oc: Outcome, p: string)
    requires WellGrouped(plan) && n !in o && n in plan.main + Elements(plan.finallys) && p in plan.rows
      && o.Keys !! plan.rows.Keys
    ensures
      var a, b := WithOwn(ResultsOf(plan, o), n, oc), Own(o[n := oc]);
      ResultNames(plan.rows[p], a) == ResultNames(plan.rows[p], b)
        && Table(plan.rows[p], a, plan.encode) == Table(plan.rows[p], b, plan.encode)
  {
    var a, b := WithOwn(ResultsOf(plan, o), n, oc), Own(o[n := oc]);
    forall r | r in plan.rows[p] ensures (r in a <==> r in b) && (r in a ==> a[r] == b[r]) {
      assert r !in plan.rows;
      ResultsOfKey(plan, o, r);
    }
    TableSame(plan.rows[p], a, b, plan.encode);
  }

  /** Recording an outcome keeps the results map in step with the outcomes: a matrix parent's
      entry is written once, with its last row, as row-ordered arrays. */
  lemma RecordedResults(plan: Plan, o: Outcomes, n: string, oc: Outcome)
    requires WellGrouped(plan) && n !in o && n in plan.main + Elements(plan.finallys) && o.Keys !! plan.rows.Keys
    ensures Recorded(plan, o, ResultsOf(plan, o), n, oc) == ResultsOf(plan, o[n := oc])
  {
    var o', before := o[n := oc], WithOwn(ResultsOf(plan, o), n, oc);
    assert n !in plan.rows;
    forall k ensures k in Recorded(plan, o, ResultsOf(plan, o), n, oc) <==> k in ResultsOf(plan, o')
      ensures k in ResultsOf(plan, o') ==> Recorded(plan, o, ResultsOf(plan, o), n, oc)[k] == ResultsOf(plan, o')[k]
    {
      ResultsOfKey(plan, o, k);
      ResultsOfKey(plan, o', k);
      RecordedKey(plan, o, n, oc, k);
    }
  }

  /** The entry of k is what the outcomes say. */
  ghost predicate EntryAgrees(plan: Plan, o: Outcomes, r: Results, k: string) {
    && (k in r <==> HasAggregate(plan, o, k) || (k in o && Produces(o[k])))
    && (HasAggregate(plan, o, k) && k in r ==> r[k] == Table(plan.rows[k], Own(o), plan.encode))
    && (k in o && Produces(o[k]) && k in r ==> r[k] == o[k].results.value)
  }

  lemma RecordedKey(plan: Plan, o: Outcomes, n: string, oc: Outcome, k: string)
    requires WellGrouped(plan) && n !in o && n in plan.main + Elements(plan.finallys) && o.Keys !! plan.rows.Keys
    ensures EntryAgrees(plan, o[n := oc], Recorded(plan, o, ResultsOf(plan, o), n, oc), k)
  {
    if k in plan.rows && n in plan.rows[k] {
      ResultsOfKey(plan, o, k);
      RecordedParent(plan, o, n, oc, k);
    } else {
      RecordedOther(plan, o, n, oc, k);
    }
  }

  lemma RecordedOther(plan: Plan, o: Outcomes, n: string, oc: Outcome, k: string)
    requires n !in o && n !in plan.rows && o.Keys !! plan.rows.Keys
    requires (k in plan.rows ==> n !in plan.rows[k]) && (n in plan.parent ==> plan.parent[n] != k)
    ensures EntryAgrees(plan, o[n := oc], Recorded(plan, o, ResultsOf(plan, o), n, oc), k)
  {
    ResultsOfKey(plan, o, k);
    if k in plan.rows {
      OtherAggregates(plan, o, n, oc, k);
    }
    RecordedElsewhere(plan, o, ResultsOf(plan, o), n, oc, k);
  }

  lemma RecordedElsewhere(plan: Plan, o: Outcomes, results: Results, n: string, oc: Outcome, k: string)
    requires n in plan.parent ==> plan.parent[n] != k
    ensures
      var r, before := Recorded(plan, o, results, n, oc), WithOwn(results, n, oc);
      (k in r <==> k in before) && (k in before ==> r[k] == before[k])
  {
  }

  lemma RecordedParent(plan: Plan, o: Outcomes, n: string, oc: Outcome, p: string)
    requires WellGrouped(plan) && n !in o && n in plan.main + Elements(plan.finallys) && o.Keys !! plan.rows.Keys
    requires p in plan.rows && n in plan.rows[p] && p !in ResultsOf(plan, o)
    ensures EntryAgrees(plan, o[n := oc], Recorded(plan, o, ResultsOf(plan, o), n, oc), p)
  {
    RowsAsOwn(plan, o, n, oc, p);
    assert AllTerminal(plan.rows[p], o[n := oc]) <==> forall r :: r in plan.rows[p] ==> r in o || r == n;
    assert p !in WithOwn(ResultsOf(plan, o), n, oc) && plan.parent[n] == p && p !in o[n := oc];
    AggregatedFresh(p, plan.rows[p], WithOwn(ResultsOf(plan, o), n, oc), plan.encode);
  }
}
