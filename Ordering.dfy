/**
 * The tile order of src/app/grid/page.tsx (`sortedHabits`): the viewer's
 * own habits first, then by trimmed display name, then by trimmed title,
 * both under a base-sensitivity collator, then by id under `localeCompare`.
 *
 * A collator is modelled by its sort keys: two strings compare as their
 * keys do, lexicographically. `baseKey` stands for
 * `Intl.Collator(undefined, { sensitivity: "base" })` and `localeKey` for
 * `String.prototype.localeCompare`; both are parameters, since the locale
 * data is not part of the program.
 */
module Ordering {
  import opened Wrappers
  import opened Text
  import opened Domain
  import opened Sorting

  datatype Collation = Collation(baseKey: string -> seq<int>, localeKey: string -> seq<int>)

  /** Sign of the lexicographic comparison of two sort keys. */
  function CompareKeys(a: seq<int>, b: seq<int>): (r: int)
    ensures -1 <= r <= 1
    ensures r == 0 <==> a == b
  {
    if a == [] && b == [] then 0
    else if a == [] then -1
    else if b == [] then 1
    else if a[0] < b[0] then -1
    else if a[0] > b[0] then 1
    else
      var r := CompareKeys(a[1..], b[1..]);
      assert a == [a[0]] + a[1..] && b == [b[0]] + b[1..];
      r
  }

  lemma {:induction false} CompareKeysAntisymmetric(a: seq<int>, b: seq<int>)
    ensures CompareKeys(a, b) == -CompareKeys(b, a)
  {
    if a != [] && b != [] && a[0] == b[0] {
      CompareKeysAntisymmetric(a[1..], b[1..]);
    }
  }

  lemma {:induction false} CompareKeysTransitive(a: seq<int>, b: seq<int>, c: seq<int>)
    requires CompareKeys(a, b) <= 0 && CompareKeys(b, c) <= 0
    ensures CompareKeys(a, c) <= 0
  {
    if a != [] && b != [] && c != [] && a[0] == b[0] == c[0] {
      CompareKeysTransitive(a[1..], b[1..], c[1..]);
    }
  }

  /** `h.user_id === userId`: always false while no one is signed in. */
  predicate IsMine(h: Habit, viewer: Option<string>) {
    viewer == Some(h.userId)
  }

  /** `getName`: `(profileNames[h.user_id] ?? "").trim()`. */
  function SortName(h: Habit, names: map<string, string>): string {
    Trim(if h.userId in names then names[h.userId] else "")
  }

  /** `getTitle`: `(h.title ?? "").trim()`. */
  function SortTitle(h: Habit): string {
    Trim(h.title.GetOr(""))
  }

  /** The comparator passed to `sort`, up to the magnitude of the numbers
      the collator returns (only their sign matters to `sort`). */
  function CompareHabits(col: Collation, viewer: Option<string>, names: map<string, string>, a: Habit, b: Habit): (r: int)
    ensures -1 <= r <= 1
    ensures IsMine(a, viewer) && !IsMine(b, viewer) ==> r == -1
    ensures !IsMine(a, viewer) && IsMine(b, viewer) ==> r == 1
  {
    if IsMine(a, viewer) != IsMine(b, viewer) then
      (if IsMine(a, viewer) then -1 else 1)
    else
      var byName := CompareKeys(col.baseKey(SortName(a, names)), col.baseKey(SortName(b, names)));
      if byName != 0 then byName
      else
        var byTitle := CompareKeys(col.baseKey(SortTitle(a)), col.baseKey(SortTitle(b)));
        if byTitle != 0 then byTitle
        else CompareKeys(col.localeKey(a.id), col.localeKey(b.id))
  }

  /** Two habits tie exactly when they are in the same ownership group and
      their names, titles and ids collate equal. */
  lemma CompareHabitsZero(col: Collation, viewer: Option<string>, names: map<string, string>, a: Habit, b: Habit)
    ensures CompareHabits(col, viewer, names, a, b) == 0 <==>
      && IsMine(a, viewer) == IsMine(b, viewer)
      && col.baseKey(SortName(a, names)) == col.baseKey(SortName(b, names))
      && col.baseKey(SortTitle(a)) == col.baseKey(SortTitle(b))
      && col.localeKey(a.id) == col.localeKey(b.id)
  {
  }

  /** Swapping the arguments flips the comparator's sign. */
  lemma CompareHabitsAntisymmetric(col: Collation, viewer: Option<string>, names: map<string, string>, a: Habit, b: Habit)
    ensures CompareHabits(col, viewer, names, a, b) == -CompareHabits(col, viewer, names, b, a)
  {
    CompareKeysAntisymmetric(col.baseKey(SortName(a, names)), col.baseKey(SortName(b, names)));
    CompareKeysAntisymmetric(col.baseKey(SortTitle(a)), col.baseKey(SortTitle(b)));
    CompareKeysAntisymmetric(col.localeKey(a.id), col.localeKey(b.id));
  }

  /** The comparator is a total preorder: "not after" is transitive. */
  lemma CompareHabitsTransitive(col: Collation, viewer: Option<string>, names: map<string, string>, a: Habit, b: Habit, c: Habit)
    requires CompareHabits(col, viewer, names, a, b) <= 0
    requires CompareHabits(col, viewer, names, b, c) <= 0
    ensures CompareHabits(col, viewer, names, a, c) <= 0
  {
    var na, nb, nc := col.baseKey(SortName(a, names)), col.baseKey(SortName(b, names)), col.baseKey(SortName(c, names));
    var ta, tb, tc := col.baseKey(SortTitle(a)), col.baseKey(SortTitle(b)), col.baseKey(SortTitle(c));
    var ia, ib, ic := col.localeKey(a.id), col.localeKey(b.id), col.localeKey(c.id);
    if IsMine(a, viewer) == IsMine(b, viewer) == IsMine(c, viewer) {
      CompareKeysTransitive(na, nb, nc);
      if na == nc {
        CompareKeysAntisymmetric(na, nb);
        CompareKeysTransitive(ta, tb, tc);
        if ta == tc {
          CompareKeysAntisymmetric(ta, tb);
          CompareKeysTransitive(ia, ib, ic);
        }
      }
    }
  }

  /** "`a` may stand before `b`": the comparator's result is not positive. */
  function Before(col: Collation, viewer: Option<string>, names: map<string, string>): (Habit, Habit) -> bool {
    (a: Habit, b: Habit) => CompareHabits(col, viewer, names, a, b) <= 0
  }

  /** The comparator is consistent, whatever the collator and the names. */
  lemma BeforeTotalPreorder(col: Collation, viewer: Option<string>, names: map<string, string>)
    ensures TotalPreorder(Before(col, viewer, names))
  {
    var le := Before(col, viewer, names);
    forall a, b ensures le(a, b) || le(b, a) {
      CompareHabitsAntisymmetric(col, viewer, names, a, b);
    }
    forall a, b, c | le(a, b) && le(b, c) ensures le(a, c) {
      CompareHabitsTransitive(col, viewer, names, a, b, c);
    }
  }

  /** `sortedHabits`: the habits in tile order, a permutation of `habits`
      in which no habit comes after one it should follow. */
  function SortHabits(col: Collation, viewer: Option<string>, names: map<string, string>, habits: seq<Habit>): (r: seq<Habit>)
    ensures multiset(r) == multiset(habits)
    ensures |r| == |habits|
    ensures SortedBy(Before(col, viewer, names), r)
  {
    BeforeTotalPreorder(col, viewer, names);
    SortBy(Before(col, viewer, names), habits)
  }

  /** In a sorted list every habit of the viewer precedes every habit of
      anyone else: whatever stands before one of the viewer's habits is the
      viewer's too. */
  lemma SortedViewerFirst(col: Collation, viewer: Option<string>, names: map<string, string>, s: seq<Habit>, i: int, j: int)
    requires SortedBy(Before(col, viewer, names), s)
    requires 0 <= i < j < |s| && IsMine(s[j], viewer)
    ensures IsMine(s[i], viewer)
  {
    assert Before(col, viewer, names)(s[i], s[j]);
  }

  /** Within one ownership group a sorted list is ordered by display name,
      names that collate equal by title, and titles that collate equal by id. */
  lemma SortedWithinGroup(col: Collation, viewer: Option<string>, names: map<string, string>, s: seq<Habit>, i: int, j: int)
    requires SortedBy(Before(col, viewer, names), s)
    requires 0 <= i < j < |s|
    requires IsMine(s[i], viewer) == IsMine(s[j], viewer)
    ensures var ni, nj := col.baseKey(SortName(s[i], names)), col.baseKey(SortName(s[j], names));
      var ti, tj := col.baseKey(SortTitle(s[i])), col.baseKey(SortTitle(s[j]));
      && CompareKeys(ni, nj) <= 0
      && (ni == nj ==> CompareKeys(ti, tj) <= 0)
      && (ni == nj && ti == tj ==> CompareKeys(col.localeKey(s[i].id), col.localeKey(s[j].id)) <= 0)
  {
    assert Before(col, viewer, names)(s[i], s[j]);
  }

  /** Distinct habits of `habits` have distinct `localeCompare` keys, as
      distinct ids have when `localeCompare` tells them apart. */
  ghost predicate DistinctIdKeys(col: Collation, habits: multiset<Habit>) {
    forall x, y :: x in habits && y in habits && x != y ==> col.localeKey(x.id) != col.localeKey(y.id)
  }

  /** With distinct id keys no two distinct habits tie. */
  lemma DistinctIdKeysStrict(col: Collation, viewer: Option<string>, names: map<string, string>, habits: multiset<Habit>)
    requires DistinctIdKeys(col, habits)
    ensures StrictOn(Before(col, viewer, names), habits)
  {
    forall a, b | a in habits && b in habits && Before(col, viewer, names)(a, b) && Before(col, viewer, names)(b, a)
      ensures a == b
    {
      CompareHabitsAntisymmetric(col, viewer, names, a, b);
      CompareHabitsZero(col, viewer, names, a, b);
    }
  }

  /** When no two habits tie, the tile order does not depend on the order in
      which the store returned the habits. */
  lemma SortIndependentOfInputOrder(col: Collation, viewer: Option<string>, names: map<string, string>, h1: seq<Habit>, h2: seq<Habit>)
    requires multiset(h1) == multiset(h2) && DistinctIdKeys(col, multiset(h1))
    ensures SortHabits(col, viewer, names, h1) == SortHabits(col, viewer, names, h2)
  {
    DistinctIdKeysStrict(col, viewer, names, multiset(h1));
    SortedUnique(Before(col, viewer, names), SortHabits(col, viewer, names, h1), SortHabits(col, viewer, names, h2));
  }
}
