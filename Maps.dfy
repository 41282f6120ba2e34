/**
 * The lookup tables the pages build from query results with
 * `rows.forEach(r => table[key(r)] = value(r))`, and the de-duplicated id
 * lists they build with `Array.from(new Set(ids))`.
 */
module Maps {

  /** The table the `forEach` leaves behind: one entry per key that occurs in
      `rows`; where a key occurs more than once, the last row wins. */
  function LastWins<R, V>(rows: seq<R>, key: R -> string, value: R -> V): (m: map<string, V>)
    ensures m.Keys == set i | 0 <= i < |rows| :: key(rows[i])
  {
    if rows == [] then map[]
    else
      var init := rows[..|rows| - 1];
      var m := LastWins(init, key, value)[key(rows[|rows| - 1]) := value(rows[|rows| - 1])];
      assert forall i :: 0 <= i < |init| ==> init[i] == rows[i];
      m
  }

  /** A key maps to the value of the last row that carries it. */
  lemma {:induction false} LastWinsValue<R, V>(rows: seq<R>, key: R -> string, value: R -> V, i: int)
    requires 0 <= i < |rows|
    requires forall j :: i < j < |rows| ==> key(rows[j]) != key(rows[i])
    ensures key(rows[i]) in LastWins(rows, key, value)
    ensures LastWins(rows, key, value)[key(rows[i])] == value(rows[i])
  {
    if i < |rows| - 1 {
      var init := rows[..|rows| - 1];
      assert init[i] == rows[i];
      forall j | i < j < |init| ensures key(init[j]) != key(init[i]) {
        assert init[j] == rows[j];
      }
      LastWinsValue(init, key, value, i);
    }
  }

  /** When keys are distinct, every row's value is in the table. */
  lemma DistinctKeysLookup<R, V>(rows: seq<R>, key: R -> string, value: R -> V, i: int)
    requires 0 <= i < |rows|
    requires forall p, q :: 0 <= p < q < |rows| ==> key(rows[p]) != key(rows[q])
    ensures LastWins(rows, key, value)[key(rows[i])] == value(rows[i])
  {
    LastWinsValue(rows, key, value, i);
  }

  /** True iff no element of `xs` occurs twice. */
  predicate NoDuplicates(xs: seq<string>) {
    forall p, q :: 0 <= p < q < |xs| ==> xs[p] != xs[q]
  }

  /** `Array.from(new Set(xs))`: each distinct element once. The order is
      not stated; the `.in` filter that receives the list does not use it. */
  function Dedupe(xs: seq<string>): (r: seq<string>)
    ensures forall x :: x in r <==> x in xs
    ensures NoDuplicates(r)
    ensures |r| <= |xs|
    ensures r == [] <==> xs == []
  {
    if xs == [] then []
    else
      var init := xs[..|xs| - 1];
      var r := Dedupe(init);
      assert forall x :: x in init ==> x in xs;
      assert xs == init + [xs[|xs| - 1]];
      if xs[|xs| - 1] in r then r else r + [xs[|xs| - 1]]
  }

  /** De-duplicating a list without duplicates changes nothing. */
  lemma {:induction false} DedupeNoDuplicates(xs: seq<string>)
    requires NoDuplicates(xs)
    ensures Dedupe(xs) == xs
  {
    if xs != [] {
      var init := xs[..|xs| - 1];
      assert NoDuplicates(init);
      DedupeNoDuplicates(init);
      assert xs[|xs| - 1] !in init;
      assert xs == init + [xs[|xs| - 1]];
    }
  }
}
