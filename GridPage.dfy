/**
 * The state of a grid page (app/grid/page.tsx and src/app/grid/page.tsx
 * share it): loading the public habits with their owners' names and their
 * totals, and logging a completion with "I did it".
 *
 * The store is not modelled: each reply it gives is a parameter of the
 * method that awaits it, and every request the page issues is appended to
 * `sent`, so the contracts say exactly what was asked of the store.
 */
module GridPage {
  import opened Wrappers
  import opened Text
  import opened Domain
  import opened Maps
  import opened PeriodKey
  import opened Tiles
  import opened Sorting
  import opened Ordering

  /** `profileNameById`: each profile's display name, "" for a null one. */
  function NameMapOf(rows: seq<ProfileRow>): map<string, string> {
    LastWins(rows, (r: ProfileRow) => r.id, (r: ProfileRow) => r.displayName.GetOr(""))
  }

  /** `totalsByHabitId`: each habit's number of completed periods. */
  function TotalsMapOf(rows: seq<TotalRow>): map<string, nat> {
    LastWins(rows, (r: TotalRow) => r.habitId, (r: TotalRow) => r.totalPeriodsDone)
  }

  /** The `forEach` over the profile rows. */
  method BuildNameMap(rows: seq<ProfileRow>) returns (m: map<string, string>)
    ensures m == NameMapOf(rows)
  {
    m := map[];
    var i := 0;
    while i < |rows|
      invariant 0 <= i <= |rows|
      invariant m == NameMapOf(rows[..i])
    {
      assert rows[..i + 1][..i] == rows[..i];
      m := m[rows[i].id := rows[i].displayName.GetOr("")];
      i := i + 1;
    }
    assert rows[..|rows|] == rows;
  }

  /** Every selected profile has an entry, and a profile that occurs once
      maps to its display name, or to "" when that is null. */
  lemma NameMapLookup(rows: seq<ProfileRow>, i: int)
    requires 0 <= i < |rows|
    requires forall j :: i < j < |rows| ==> rows[j].id != rows[i].id
    ensures forall k :: k in NameMapOf(rows) <==> exists j :: 0 <= j < |rows| && rows[j].id == k
    ensures NameMapOf(rows)[rows[i].id] == rows[i].displayName.GetOr("")
  {
    LastWinsValue(rows, (r: ProfileRow) => r.id, (r: ProfileRow) => r.displayName.GetOr(""), i);
  }

  /** The `forEach` over the `habit_totals` rows. */
  method BuildTotalsMap(rows: seq<TotalRow>) returns (m: map<string, nat>)
    ensures m == TotalsMapOf(rows)
  {
    m := map[];
    var i := 0;
    while i < |rows|
      invariant 0 <= i <= |rows|
      invariant m == TotalsMapOf(rows[..i])
    {
      assert rows[..i + 1][..i] == rows[..i];
      m := m[rows[i].habitId := rows[i].totalPeriodsDone];
      i := i + 1;
    }
    assert rows[..|rows|] == rows;
  }

  /** Every returned habit has an entry, holding the total of the last row
      for it. */
  lemma TotalsMapLookup(rows: seq<TotalRow>, i: int)
    requires 0 <= i < |rows|
    requires forall j :: i < j < |rows| ==> rows[j].habitId != rows[i].habitId
    ensures forall k :: k in TotalsMapOf(rows) <==> exists j :: 0 <= j < |rows| && rows[j].habitId == k
    ensures TotalsMapOf(rows)[rows[i].habitId] == rows[i].totalPeriodsDone
  {
    LastWinsValue(rows, (r: TotalRow) => r.habitId, (r: TotalRow) => r.totalPeriodsDone, i);
  }

  /** `userIds`: the owners of `habits`, each once, for the profile query. */
  function Owners(habits: seq<Habit>): (ids: seq<string>)
    ensures forall u :: u in ids <==> exists i :: 0 <= i < |habits| && habits[i].userId == u
    ensures NoDuplicates(ids)
    ensures ids == [] <==> habits == []
  {
    var all := seq(|habits|, i requires 0 <= i < |habits| => habits[i].userId);
    assert forall u :: u in all <==> exists i :: 0 <= i < |habits| && habits[i].userId == u by {
      forall u | u in all ensures exists i :: 0 <= i < |habits| && habits[i].userId == u {
        var i :| 0 <= i < |all| && all[i] == u;
        assert habits[i].userId == u;
      }
      forall u | exists i :: 0 <= i < |habits| && habits[i].userId == u ensures u in all {
        var i :| 0 <= i < |habits| && habits[i].userId == u;
        assert all[i] == u;
      }
    }
    Dedupe(all)
  }

  /** The message fragment the store reports when a log for the same habit
      and period already exists. */
  const DuplicateKeyError := "duplicate key value violates unique constraint"

  /** The status after a failed insert: a period-specific notice for the
      unique-constraint violation, the store's message for any other error,
      and a fallback when that message is empty. It is never empty. */
  function InsertFailureStatus(cadence: Cadence, message: string): (s: string)
    ensures s != ""
    ensures Contains(message, DuplicateKeyError) ==> s == "You already logged it " + PeriodPhrase(cadence) + "!"
    ensures !Contains(message, DuplicateKeyError) ==> s == (if message == "" then "Something went wrong." else message)
  {
    if Contains(message, DuplicateKeyError) then "You already logged it " + PeriodPhrase(cadence) + "!"
    else if message != "" then message
    else "Something went wrong."
  }

  /** The duplicate notice tells the three cadences apart. */
  lemma DuplicateNoticeNamesPeriod(a: Cadence, b: Cadence, message: string)
    requires Contains(message, DuplicateKeyError)
    ensures InsertFailureStatus(a, message) == InsertFailureStatus(b, message) <==> a == b
  {
    var sa, sb := InsertFailureStatus(a, message), InsertFailureStatus(b, message);
    if a != b {
      assert sa[22..|sa| - 1] == PeriodPhrase(a);
      assert sb[22..|sb| - 1] == PeriodPhrase(b);
    }
  }

  /** The tiles of src/app/grid/page.tsx: one per habit, in `sortedHabits`
      order. They are the tiles of the page's habits rearranged, laid out as
      the tiles of a sorted permutation of the habits (so every ordering fact
      about sorted lists, such as `SortedWithinGroup`, holds of them), with
      the viewer's own tiles (the ones with a log button) ahead of all
      others. */
  function SortedTiles(col: Collation, habits: seq<Habit>, names: map<string, string>, totals: map<string, nat>, viewer: Option<string>): (ts: seq<Tile>)
    ensures |ts| == |habits|
    ensures multiset(ts) == multiset(ProjectTiles(habits, names, totals, viewer))
    ensures exists s :: (multiset(s) == multiset(habits) && SortedBy(Before(col, viewer, names), s)
      && ts == ProjectTiles(s, names, totals, viewer))
    ensures forall i, j :: 0 <= i < j < |ts| && ts[j].showsLogButton ==> ts[i].showsLogButton
  {
    var sorted := SortHabits(col, viewer, names, habits);
    SortedTileFacts(col, habits, names, totals, viewer, sorted);
    ProjectTiles(sorted, names, totals, viewer)
  }

  lemma SortedTileFacts(col: Collation, habits: seq<Habit>, names: map<string, string>, totals: map<string, nat>, viewer: Option<string>, sorted: seq<Habit>)
    requires sorted == SortHabits(col, viewer, names, habits)
    ensures var ts := ProjectTiles(sorted, names, totals, viewer);
      && multiset(ts) == multiset(ProjectTiles(habits, names, totals, viewer))
      && (forall i, j :: 0 <= i < j < |ts| && ts[j].showsLogButton ==> ts[i].showsLogButton)
  {
    var ts := ProjectTiles(sorted, names, totals, viewer);
    ProjectTilesPermutation(sorted, habits, names, totals, viewer);
    forall i, j | 0 <= i < j < |ts| && ts[j].showsLogButton ensures ts[i].showsLogButton {
      SortedViewerFirst(col, viewer, names, sorted, i, j);
    }
  }

  class GridPage {
    var loading: bool
    var status: string
    var habits: seq<Habit>
    var totals: map<string, nat>
    var profileNames: map<string, string>
    var userId: Option<string>
    /** Every request issued to the store, in order. */
    var sent: seq<Request>

    /** The initial `useState` values. */
    constructor ()
      ensures loading && status == "" && habits == [] && totals == map[]
      ensures profileNames == map[] && userId == None && sent == []
    {
      loading := true;
      status := "";
      habits := [];
      totals := map[];
      profileNames := map[];
      userId := None;
      sent := [];
    }

    /** `loadGrid` once `viewer` is signed in. Each failing query stops the
        load with its message as the status; the state set before it stays.
        With no habits, neither names nor totals are queried. */
    method LoadGrid(viewer: string, habitsReply: Reply<Option<seq<Habit>>>,
                    profilesReply: Reply<Option<seq<ProfileRow>>>, totalsReply: Reply<Option<seq<TotalRow>>>)
      modifies this
      ensures !loading && userId == Some(viewer)
      ensures habitsReply.Err? ==>
        && status == habitsReply.message
        && habits == old(habits) && profileNames == old(profileNames) && totals == old(totals)
        && sent == old(sent) + [SelectPublicHabits]
      ensures habitsReply.Ok? ==> habits == habitsReply.data.GetOr([])
      ensures habitsReply.Ok? && habits == [] ==>
        && status == "" && profileNames == map[] && totals == map[]
        && sent == old(sent) + [SelectPublicHabits]
      ensures habitsReply.Ok? && habits != [] && profilesReply.Err? ==>
        && status == profilesReply.message
        && profileNames == old(profileNames) && totals == old(totals)
        && sent == old(sent) + [SelectPublicHabits, SelectProfileNames(Owners(habits))]
      ensures habitsReply.Ok? && habits != [] && profilesReply.Ok? ==>
        && profileNames == NameMapOf(profilesReply.data.GetOr([]))
        && sent == old(sent) + [SelectPublicHabits, SelectProfileNames(Owners(habits)), SelectTotals(Ids(habits))]
        && (totalsReply.Err? ==> status == totalsReply.message && totals == old(totals))
        && (totalsReply.Ok? ==> status == "" && totals == TotalsMapOf(totalsReply.data.GetOr([])))
    {
      status := "";
      loading := true;
      userId := Some(viewer);

      sent := sent + [SelectPublicHabits];
      if habitsReply.Err? {
        status := habitsReply.message;
        loading := false;
        return;
      }
      habits := habitsReply.data.GetOr([]);

      var stopped := LoadNames(profilesReply);
      if stopped {
        return;
      }
      LoadTotals(totalsReply);
    }

    /** Step 2 of `loadGrid`: the display names of the habits' owners,
        queried only when there are any. A failing query ends the load. */
    method LoadNames(profilesReply: Reply<Option<seq<ProfileRow>>>) returns (stopped: bool)
      modifies this
      ensures stopped <==> habits != [] && profilesReply.Err?
      ensures habits == old(habits) && totals == old(totals) && userId == old(userId)
      ensures stopped ==> status == profilesReply.message && !loading && profileNames == old(profileNames)
      ensures !stopped ==> status == old(status) && loading == old(loading)
      ensures habits == [] ==> profileNames == map[] && sent == old(sent)
      ensures habits != [] ==> sent == old(sent) + [SelectProfileNames(Owners(habits))]
      ensures habits != [] && profilesReply.Ok? ==> profileNames == NameMapOf(profilesReply.data.GetOr([]))
    {
      var userIds := Owners(habits);
      if |userIds| > 0 {
        sent := sent + [SelectProfileNames(userIds)];
        if profilesReply.Err? {
          status := profilesReply.message;
          loading := false;
          return true;
        }
        profileNames := BuildNameMap(profilesReply.data.GetOr([]));
      } else {
        profileNames := map[];
      }
      return false;
    }

    /** Step 3 of `loadGrid`: the totals of the habits on the page, queried
        only when there are any; the load ends here either way. */
    method LoadTotals(totalsReply: Reply<Option<seq<TotalRow>>>)
      modifies this
      ensures !loading
      ensures habits == old(habits) && profileNames == old(profileNames) && userId == old(userId)
      ensures habits == [] ==> status == old(status) && totals == map[] && sent == old(sent)
      ensures habits != [] ==>
        && sent == old(sent) + [SelectTotals(Ids(habits))]
        && (totalsReply.Err? ==> status == totalsReply.message && totals == old(totals))
        && (totalsReply.Ok? ==> status == old(status) && totals == TotalsMapOf(totalsReply.data.GetOr([])))
    {
      var habitIds := Ids(habits);
      if |habitIds| > 0 {
        sent := sent + [SelectTotals(habitIds)];
        if totalsReply.Err? {
          status := totalsReply.message;
          loading := false;
          return;
        }
        totals := BuildTotalsMap(totalsReply.data.GetOr([]));
      } else {
        totals := map[];
      }
      loading := false;
    }

    /** `handleDidIt(habitId, cadence)` at local clock reading `now`: insert
        a log under the current period key; on an error report it and keep
        the totals; on success refresh the totals of the habits on screen. */
    method HandleDidIt(habitId: string, cadence: Cadence, now: LocalInstant,
                       insertReply: WriteReply, refreshReply: Reply<Option<seq<TotalRow>>>)
      modifies this
      ensures loading == old(loading) && habits == old(habits)
      ensures profileNames == old(profileNames) && userId == old(userId)
      ensures insertReply.Err? ==>
        && status == InsertFailureStatus(cadence, insertReply.message)
        && totals == old(totals)
        && sent == old(sent) + [InsertLog(habitId, PeriodDate(cadence, now))]
      ensures insertReply.Ok? && habits == [] ==>
        && status == "" && totals == old(totals)
        && sent == old(sent) + [InsertLog(habitId, PeriodDate(cadence, now))]
      ensures insertReply.Ok? && habits != [] ==>
        && sent == old(sent) + [InsertLog(habitId, PeriodDate(cadence, now)), SelectTotals(Ids(habits))]
        && (refreshReply.Err? ==> status == refreshReply.message && totals == old(totals))
        && (refreshReply.Ok? ==> status == "" && totals == TotalsMapOf(refreshReply.data.GetOr([])))
    {
      status := "";
      var periodDate := PeriodDate(cadence, now);
      sent := sent + [InsertLog(habitId, periodDate)];
      if insertReply.Err? {
        status := InsertFailureStatus(cadence, insertReply.message);
        return;
      }

      RefreshTotals(refreshReply);
    }

    /** The refresh after a successful insert: nothing when no habit is on
        screen; otherwise the totals query, whose failure is reported and
        whose rows replace the totals. */
    method RefreshTotals(refreshReply: Reply<Option<seq<TotalRow>>>)
      modifies this
      ensures loading == old(loading) && habits == old(habits)
      ensures profileNames == old(profileNames) && userId == old(userId)
      ensures habits == [] ==> status == old(status) && totals == old(totals) && sent == old(sent)
      ensures habits != [] ==>
        && sent == old(sent) + [SelectTotals(Ids(habits))]
        && (refreshReply.Err? ==> status == refreshReply.message && totals == old(totals))
        && (refreshReply.Ok? ==> status == old(status) && totals == TotalsMapOf(refreshReply.data.GetOr([])))
    {
      var habitIds := Ids(habits);
      if |habitIds| == 0 {
        return;
      }
      sent := sent + [SelectTotals(habitIds)];
      if refreshReply.Err? {
        status := refreshReply.message;
        return;
      }
      totals := BuildTotalsMap(refreshReply.data.GetOr([]));
    }
  }
}
