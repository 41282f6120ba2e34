/**
 * Sorting a list by a comparator, as `[...xs].sort(compare)` does. The
 * comparator enters as the relation "`compare(a, b) <= 0`", that is, `a`
 * may stand before `b`. The sort is a stable insertion sort: a copy of the
 * input is sorted and returned, and the input itself stays as it was.
 */
module Sorting {

  /** `le` is total and transitive, as a consistent comparator is. */
  ghost predicate TotalPreorder<T(!new)>(le: (T, T) -> bool) {
    && (forall a, b :: le(a, b) || le(b, a))
    && (forall a, b, c :: le(a, b) && le(b, c) ==> le(a, c))
  }

  /** `le` ties no two distinct elements of `xs`. */
  ghost predicate StrictOn<T>(le: (T, T) -> bool, xs: multiset<T>) {
    forall a, b :: a in xs && b in xs && le(a, b) && le(b, a) ==> a == b
  }

  /** Every element of `s` may stand before each one after it. */
  ghost predicate SortedBy<T>(le: (T, T) -> bool, s: seq<T>) {
    forall i, j :: 0 <= i < j < |s| ==> le(s[i], s[j])
  }

  lemma SortedTail<T>(le: (T, T) -> bool, s: seq<T>)
    requires s != [] && SortedBy(le, s)
    ensures SortedBy(le, s[1..])
  {
    forall i, j | 0 <= i < j < |s[1..]| ensures le(s[1..][i], s[1..][j]) {
      assert s[1..][i] == s[i + 1] && s[1..][j] == s[j + 1];
    }
  }

  /** Inserts `x` before the first element it may stand before, so that it
      stays ahead of the elements it ties with that followed it. */
  function InsertBy<T>(le: (T, T) -> bool, x: T, s: seq<T>): (r: seq<T>)
    ensures multiset(r) == multiset(s) + multiset{x}
  {
    if s == [] then [x]
    else if le(x, s[0]) then [x] + s
    else
      assert s == [s[0]] + s[1..];
      [s[0]] + InsertBy(le, x, s[1..])
  }

  /** Inserting into a sorted list keeps it sorted. */
  lemma {:induction false} InsertBySorted<T(!new)>(le: (T, T) -> bool, x: T, s: seq<T>)
    requires TotalPreorder(le) && SortedBy(le, s)
    ensures SortedBy(le, InsertBy(le, x, s))
  {
    if s != [] && !le(x, s[0]) {
      SortedTail(le, s);
      InsertBySorted(le, x, s[1..]);
      HeadBeforeInsert(le, x, s);
      SortedCons(le, s[0], InsertBy(le, x, s[1..]));
    }
  }

  /** When `x` goes after the head of a sorted list, the head may stand
      before everything the rest becomes once `x` is inserted in it. */
  lemma HeadBeforeInsert<T(!new)>(le: (T, T) -> bool, x: T, s: seq<T>)
    requires TotalPreorder(le) && SortedBy(le, s) && s != [] && !le(x, s[0])
    ensures forall j :: 0 <= j < |InsertBy(le, x, s[1..])| ==> le(s[0], InsertBy(le, x, s[1..])[j])
  {
    var rest := InsertBy(le, x, s[1..]);
    forall j | 0 <= j < |rest| ensures le(s[0], rest[j]) {
      assert rest[j] in multiset(rest);
      if rest[j] != x {
        assert rest[j] in multiset(s[1..]);
        var k :| 0 <= k < |s[1..]| && s[1..][k] == rest[j];
        assert s[k + 1] == rest[j];
      }
    }
  }

  /** A head that may stand before every element of a sorted list keeps
      the list sorted. */
  lemma SortedCons<T>(le: (T, T) -> bool, h: T, rest: seq<T>)
    requires SortedBy(le, rest)
    requires forall j :: 0 <= j < |rest| ==> le(h, rest[j])
    ensures SortedBy(le, [h] + rest)
  {
    var r := [h] + rest;
    forall i, j | 0 <= i < j < |r| ensures le(r[i], r[j]) {
      assert r[j] == rest[j - 1];
      if i > 0 {
        assert r[i] == rest[i - 1];
      }
    }
  }

  /** `[...xs].sort(compare)`: a permutation of `xs`, sorted when the
      comparator is consistent. */
  function SortBy<T(!new)>(le: (T, T) -> bool, xs: seq<T>): (r: seq<T>)
    ensures multiset(r) == multiset(xs)
    ensures |r| == |xs|
    ensures TotalPreorder(le) ==> SortedBy(le, r)
  {
    if xs == [] then []
    else
      assert xs == [xs[0]] + xs[1..];
      var sorted := SortBy(le, xs[1..]);
      var r := InsertBy(le, xs[0], sorted);
      assert |r| == |multiset(r)|;
      SortedInsert(le, xs[0], sorted);
      r
  }

  /** `InsertBySorted`, in the form `SortBy`'s proof calls it. */
  lemma SortedInsert<T(!new)>(le: (T, T) -> bool, x: T, s: seq<T>)
    ensures TotalPreorder(le) && SortedBy(le, s) ==> SortedBy(le, InsertBy(le, x, s))
  {
    if TotalPreorder(le) && SortedBy(le, s) {
      InsertBySorted(le, x, s);
    }
  }

  /** Two sorted lists holding the same elements are equal when no two of
      the elements tie. */
  lemma {:induction false} SortedUnique<T(!new)>(le: (T, T) -> bool, a: seq<T>, b: seq<T>)
    requires multiset(a) == multiset(b) && StrictOn(le, multiset(a))
    requires SortedBy(le, a) && SortedBy(le, b)
    ensures a == b
  {
    if a != [] {
      SameHead(le, a, b);
      SameTail(a, b);
      StrictOnSubset(le, multiset(a), multiset(a[1..]));
      SortedTail(le, a);
      SortedTail(le, b);
      SortedUnique(le, a[1..], b[1..]);
      SameHeadAndTail(a, b);
    }
  }

  /** Lists with the same head and the same tail are equal. */
  lemma SameHeadAndTail<T>(a: seq<T>, b: seq<T>)
    requires a != [] && b != [] && a[0] == b[0] && a[1..] == b[1..]
    ensures a == b
  {
    assert a == [a[0]] + a[1..] && b == [b[0]] + b[1..];
  }

  /** Two sorted lists holding the same elements, none tied, start alike. */
  lemma SameHead<T>(le: (T, T) -> bool, a: seq<T>, b: seq<T>)
    requires multiset(a) == multiset(b) && StrictOn(le, multiset(a))
    requires SortedBy(le, a) && SortedBy(le, b) && a != []
    ensures b != [] && a[0] == b[0]
  {
    assert a[0] in multiset(b);
    assert b[0] in multiset(a);
    var i :| 0 <= i < |b| && b[i] == a[0];
    var j :| 0 <= j < |a| && a[j] == b[0];
    assert i == 0 || le(b[0], a[0]);
    assert j == 0 || le(a[0], b[0]);
  }

  /** Equal heads leave tails with the same elements. */
  lemma SameTail<T>(a: seq<T>, b: seq<T>)
    requires multiset(a) == multiset(b) && a != [] && b != [] && a[0] == b[0]
    ensures multiset(a[1..]) == multiset(b[1..])
    ensures multiset(a[1..]) <= multiset(a)
  {
    assert a == [a[0]] + a[1..];
    assert b == [b[0]] + b[1..];
    assert multiset(a) == multiset{a[0]} + multiset(a[1..]);
    assert multiset(b) == multiset{a[0]} + multiset(b[1..]);
    assert multiset(a[1..]) == multiset(a) - multiset{a[0]};
    assert multiset(b[1..]) == multiset(b) - multiset{a[0]};
  }

  /** No ties among the elements of `m` means none among fewer elements. */
  lemma StrictOnSubset<T>(le: (T, T) -> bool, m: multiset<T>, n: multiset<T>)
    requires StrictOn(le, m) && n <= m
    ensures StrictOn(le, n)
  {
    forall x, y | x in n && y in n && le(x, y) && le(y, x) ensures x == y {
      assert x in m && y in m;
    }
  }
}
