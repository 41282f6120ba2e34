/**
 * What one habit tile shows on either grid page: the owner's name, the
 * goal, its total, the plural unit, the "I did it" button for the owner,
 * and one progress marker per completed period.
 */
module Tiles {
  import opened Wrappers
  import opened Domain

  datatype Tile = Tile(
    habitId: string,
    name: string,
    title: string,
    cadence: Cadence,
    unitLabel: string,
    total: nat,
    showsLogButton: bool,
    logPhrase: string,
    markers: seq<string>)

  /** `k` copies of `s`, as `Array.from({ length: k }).map(() => s)` renders. */
  function Repeat(s: string, k: nat): (r: seq<string>)
    ensures |r| == k
    ensures forall i :: 0 <= i < k ==> r[i] == s
  {
    seq(k, _ => s)
  }

  /** The tile of habit `h`: `profileNames[h.user_id] || "Someone"`,
      `totalsByHabitId[h.id] ?? 0`, the plural unit of the cadence, and a
      log button only when the signed-in viewer owns the habit. */
  function ProjectTile(h: Habit, names: map<string, string>, totals: map<string, nat>, viewer: Option<string>): (t: Tile)
    ensures t.habitId == h.id && t.cadence == h.cadence
    ensures t.title == h.title.GetOr("")
    ensures t.logPhrase == PeriodPhrase(h.cadence)
    ensures t.name != ""
    ensures t.name == "Someone" <==> h.userId !in names || names[h.userId] in {"", "Someone"}
    ensures h.userId in names && names[h.userId] != "" ==> t.name == names[h.userId]
    ensures t.total == (if h.id in totals then totals[h.id] else 0)
    ensures h.id !in totals ==> t.total == 0
    ensures t.unitLabel in {"days", "weeks", "months"} && t.unitLabel == PluralLabel(h.cadence)
    ensures t.showsLogButton <==> viewer.Some? && viewer.value == h.userId
    ensures |t.markers| == t.total
    ensures forall i :: 0 <= i < |t.markers| ==> t.markers[i] == h.progressEmoji.GetOr("")
  {
    var name := if h.userId in names && names[h.userId] != "" then names[h.userId] else "Someone";
    var total := if h.id in totals then totals[h.id] else 0;
    Tile(h.id, name, h.title.GetOr(""), h.cadence, PluralLabel(h.cadence), total,
         viewer == Some(h.userId), PeriodPhrase(h.cadence), Repeat(h.progressEmoji.GetOr(""), total))
  }

  /** The tiles of `habits`, in the order given. */
  function ProjectTiles(habits: seq<Habit>, names: map<string, string>, totals: map<string, nat>, viewer: Option<string>): (ts: seq<Tile>)
    ensures |ts| == |habits|
    ensures forall i :: 0 <= i < |habits| ==> ts[i] == ProjectTile(habits[i], names, totals, viewer)
  {
    seq(|habits|, i requires 0 <= i < |habits| => ProjectTile(habits[i], names, totals, viewer))
  }

  /** The tiles of two lists, one after the other, are the tiles of the
      joined list. */
  lemma ProjectTilesAppend(a: seq<Habit>, b: seq<Habit>, names: map<string, string>, totals: map<string, nat>, viewer: Option<string>)
    ensures ProjectTiles(a + b, names, totals, viewer) == ProjectTiles(a, names, totals, viewer) + ProjectTiles(b, names, totals, viewer)
  {
    var l, r := ProjectTiles(a, names, totals, viewer), ProjectTiles(b, names, totals, viewer);
    forall i | 0 <= i < |a| + |b|
      ensures ProjectTiles(a + b, names, totals, viewer)[i] == (l + r)[i]
    {
      if i >= |a| {
        assert (a + b)[i] == b[i - |a|];
      }
    }
  }

  /** Reordering the habits reorders their tiles: a permutation of the
      habits gives a permutation of the tiles. */
  lemma {:induction false} ProjectTilesPermutation(s: seq<Habit>, t: seq<Habit>, names: map<string, string>, totals: map<string, nat>, viewer: Option<string>)
    requires multiset(s) == multiset(t)
    ensures multiset(ProjectTiles(s, names, totals, viewer)) == multiset(ProjectTiles(t, names, totals, viewer))
    decreases |s|
  {
    if |s| == 0 {
      assert |t| == |multiset(t)| == 0;
    } else {
      assert s[0] in multiset(t);
      var k :| 0 <= k < |t| && t[k] == s[0];
      var rest := t[..k] + t[k + 1..];
      assert t == t[..k] + [t[k]] + t[k + 1..];
      assert s == [s[0]] + s[1..];
      assert multiset(t) == multiset(t[..k]) + multiset{t[k]} + multiset(t[k + 1..]);
      assert multiset(rest) == multiset(t[..k]) + multiset(t[k + 1..]);
      assert multiset(s) == multiset{s[0]} + multiset(s[1..]);
      assert multiset(s[1..]) == multiset(s) - multiset{s[0]};
      assert multiset(rest) == multiset(t) - multiset{t[k]};
      ProjectTilesPermutation(s[1..], rest, names, totals, viewer);
      ProjectTilesAppend([s[0]], s[1..], names, totals, viewer);
      ProjectTilesAppend(t[..k] + [t[k]], t[k + 1..], names, totals, viewer);
      ProjectTilesAppend(t[..k], [t[k]], names, totals, viewer);
      ProjectTilesAppend(t[..k], t[k + 1..], names, totals, viewer);
    }
  }
}

/**
 * The square layout of app/grid/page.tsx: the column count, the number of
 * "Empty slot" placeholders, and the slots in render order.
 */
module SquareLayout {
  import opened Wrappers
  import opened Domain
  import opened Tiles

  /** The least `c` with `c * c >= n` (`Math.ceil(Math.sqrt(n))` on exact
      integers). */
  function CeilSqrt(n: nat): (c: nat)
    ensures c * c >= n
    ensures c > 0 ==> (c - 1) * (c - 1) < n
  {
    if n == 0 then 0
    else
      var c := CeilSqrt(n - 1);
      CeilSqrtStep(n, c);
      if c * c >= n then c else c + 1
  }

  /** From the ceiling square root of `n - 1` to that of `n`. */
  lemma CeilSqrtStep(n: nat, c: nat)
    requires n >= 1 && c * c >= n - 1 && (c > 0 ==> (c - 1) * (c - 1) < n - 1)
    ensures c * c >= n && c > 0 ==> (c - 1) * (c - 1) < n
    ensures c * c < n ==> (c + 1) * (c + 1) >= n && c * c < n
  {
    assert (c + 1) * (c + 1) == c * c + 2 * c + 1;
  }

  lemma SquareMonotone(a: nat, b: nat)
    requires a <= b
    ensures a * a <= b * b
  {
    assert a * a <= a * b <= b * b;
  }

  /** The two bounds determine the ceiling square root. */
  lemma CeilSqrtUnique(n: nat, c: nat)
    requires c * c >= n && (c > 0 ==> (c - 1) * (c - 1) < n)
    ensures CeilSqrt(n) == c
  {
    var r := CeilSqrt(n);
    if r < c {
      SquareMonotone(r, c - 1);
    } else if r > c {
      SquareMonotone(c, r - 1);
    }
  }

  /** `columns`: `Math.max(1, n)` for up to two habits, else the ceiling
      square root; never 0, and the least `c` whose square holds `n` tiles. */
  function Columns(n: nat): (c: nat)
    ensures c >= 1 && c * c >= n
    ensures n >= 1 ==> (c - 1) * (c - 1) < n
    ensures n == 0 ==> c == 1
  {
    if n <= 2 then (if n < 1 then 1 else n) else CeilSqrt(n)
  }

  /** No smaller positive column count fits `n` tiles in a square. */
  lemma ColumnsLeast(n: nat, k: nat)
    requires 1 <= k < Columns(n)
    ensures k * k < n
  {
    SquareMonotone(k, Columns(n) - 1);
  }

  /** `tiles.empties`: `Math.max(0, columns * columns - n)`. The `max` never
      bites, so real tiles and placeholders fill the square exactly. */
  function EmptySlots(n: nat): (e: nat)
    ensures n + e == Columns(n) * Columns(n)
  {
    Max0(Columns(n) * Columns(n) - n)
  }

  /** `Math.max(0, x)`. */
  function Max0(x: int): nat {
    if x < 0 then 0 else x
  }

  lemma LayoutExamples()
    ensures Columns(0) == 1 && EmptySlots(0) == 1
    ensures Columns(1) == 1 && EmptySlots(1) == 0
    ensures Columns(2) == 2 && EmptySlots(2) == 2
    ensures Columns(3) == 2 && EmptySlots(3) == 1
    ensures Columns(4) == 2 && EmptySlots(4) == 0
    ensures Columns(5) == 3 && EmptySlots(5) == 4
    ensures Columns(10) == 4 && EmptySlots(10) == 6
  {
    CeilSqrtUnique(3, 2);
    CeilSqrtUnique(4, 2);
    CeilSqrtUnique(5, 3);
    CeilSqrtUnique(10, 4);
  }

  datatype Slot = HabitSlot(tile: Tile) | EmptySlot

  /** The children of the grid `div`: one tile per habit in the order of
      `habits`, then the placeholders, `columns * columns` slots in all. */
  function SquareGrid(habits: seq<Habit>, names: map<string, string>, totals: map<string, nat>, viewer: Option<string>): (slots: seq<Slot>)
    ensures |slots| == Columns(|habits|) * Columns(|habits|)
    ensures forall i :: 0 <= i < |habits| ==> slots[i] == HabitSlot(ProjectTile(habits[i], names, totals, viewer))
    ensures forall i :: |habits| <= i < |slots| ==> slots[i] == EmptySlot
  {
    var tiles := ProjectTiles(habits, names, totals, viewer);
    seq(|tiles|, i requires 0 <= i < |tiles| => HabitSlot(tiles[i])) + seq(EmptySlots(|habits|), _ => EmptySlot)
  }
}
