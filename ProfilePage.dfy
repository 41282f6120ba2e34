/**
 * The profile page (src/app/profile/page.tsx): the owner's display name and
 * goals loaded into editable fields, the per-goal edit maps, and `saveAll`,
 * which checks every field before writing anything and then writes the
 * trimmed values one request at a time.
 *
 * As on the grid pages, each store reply is a parameter and every request
 * issued is appended to `sent`.
 */
module ProfilePage {
  import opened Wrappers
  import opened Text
  import opened Domain
  import opened Maps
  import opened Checks
  import opened Batches

  /** One of the owner's habits as the profile page selects it. */
  datatype OwnHabit = OwnHabit(id: string, title: Option<string>, cadence: Cadence, progressEmoji: Option<string>)

  /** `m[k] ?? ""`. */
  function Lookup(m: map<string, string>, k: string): string {
    if k in m then m[k] else ""
  }

  /** `titles`, as the `forEach` in `loadProfile` fills it. */
  function TitleMapOf(habits: seq<OwnHabit>): map<string, string> {
    LastWins(habits, (h: OwnHabit) => h.id, (h: OwnHabit) => h.title.GetOr(""))
  }

  /** `emojis`, as the same `forEach` fills it. */
  function EmojiMapOf(habits: seq<OwnHabit>): map<string, string> {
    LastWins(habits, (h: OwnHabit) => h.id, (h: OwnHabit) => h.progressEmoji.GetOr(""))
  }

  /** The `forEach` of `loadProfile`. */
  method InitEditMaps(habits: seq<OwnHabit>) returns (titles: map<string, string>, emojis: map<string, string>)
    ensures titles == TitleMapOf(habits) && emojis == EmojiMapOf(habits)
  {
    titles, emojis := map[], map[];
    var i := 0;
    while i < |habits|
      invariant 0 <= i <= |habits|
      invariant titles == TitleMapOf(habits[..i]) && emojis == EmojiMapOf(habits[..i])
    {
      assert habits[..i + 1][..i] == habits[..i];
      titles := titles[habits[i].id := habits[i].title.GetOr("")];
      emojis := emojis[habits[i].id := habits[i].progressEmoji.GetOr("")];
      i := i + 1;
    }
    assert habits[..|habits|] == habits;
  }

  /** After loading, both maps have an entry for exactly the loaded ids, and
      each holds the stored title and emoji, "" for a null one. */
  lemma EditMapsCoverHabits(habits: seq<OwnHabit>, i: int)
    requires 0 <= i < |habits|
    requires forall j :: i < j < |habits| ==> habits[j].id != habits[i].id
    ensures TitleMapOf(habits).Keys == EmojiMapOf(habits).Keys
    ensures forall k :: k in TitleMapOf(habits) <==> exists j :: 0 <= j < |habits| && habits[j].id == k
    ensures TitleMapOf(habits)[habits[i].id] == habits[i].title.GetOr("")
    ensures EmojiMapOf(habits)[habits[i].id] == habits[i].progressEmoji.GetOr("")
  {
    LastWinsValue(habits, (h: OwnHabit) => h.id, (h: OwnHabit) => h.title.GetOr(""), i);
    LastWinsValue(habits, (h: OwnHabit) => h.id, (h: OwnHabit) => h.progressEmoji.GetOr(""), i);
  }

  const NotSignedIn := "Not signed in."
  const EmptyDisplayName := "Display name cannot be empty."
  const EmptyGoalName := "Goal name cannot be empty."
  const EmptyEmoji := "Emoji cannot be empty."
  const Saved := "Saved \U{2705}"

  /** The title `saveAll` checks and writes for `h`: its edit, trimmed. */
  function EditedTitle(titles: map<string, string>, h: OwnHabit): string {
    Trim(Lookup(titles, h.id))
  }

  /** The emoji `saveAll` checks and writes for `h`: its edit, trimmed. */
  function EditedEmoji(emojis: map<string, string>, h: OwnHabit): string {
    Trim(Lookup(emojis, h.id))
  }

  predicate Complete(titles: map<string, string>, emojis: map<string, string>, h: OwnHabit) {
    EditedTitle(titles, h) != "" && EditedEmoji(emojis, h) != ""
  }

  /** The checks of one goal in the first loop of `saveAll`: its title,
      then its emoji. */
  function GoalCheck(titles: map<string, string>, emojis: map<string, string>, h: OwnHabit): (r: Option<string>)
    ensures r.None? <==> Complete(titles, emojis, h)
    ensures r == Some(EmptyGoalName) <==> EditedTitle(titles, h) == ""
    ensures r == Some(EmptyEmoji) <==> EditedTitle(titles, h) != "" && EditedEmoji(emojis, h) == ""
  {
    if EditedTitle(titles, h) == "" then Some(EmptyGoalName)
    else if EditedEmoji(emojis, h) == "" then Some(EmptyEmoji)
    else None
  }

  /** The message the per-goal checks stop at: none when every goal has a
      title and an emoji; otherwise the complaint about the first goal, in
      list order, that lacks one. */
  function GoalsValidation(habits: seq<OwnHabit>, titles: map<string, string>, emojis: map<string, string>): (r: Option<string>)
    ensures r.None? <==> forall i :: 0 <= i < |habits| ==> Complete(titles, emojis, habits[i])
    ensures r.Some? ==> exists k ::
      && 0 <= k < |habits| && r == GoalCheck(titles, emojis, habits[k])
      && forall i :: 0 <= i < k ==> Complete(titles, emojis, habits[i])
  {
    FirstComplaint(habits, (h: OwnHabit) => GoalCheck(titles, emojis, h))
  }

  /** The message `saveAll`'s checks stop at, in their order: the sign-in,
      the display name, then the goals. None means every check passed. */
  function SaveValidation(userId: Option<string>, displayName: string, habits: seq<OwnHabit>,
                          titles: map<string, string>, emojis: map<string, string>): (r: Option<string>)
    ensures !SignedIn(userId) ==> r == Some(NotSignedIn)
    ensures SignedIn(userId) && Trim(displayName) == "" ==> r == Some(EmptyDisplayName)
    ensures SignedIn(userId) && Trim(displayName) != "" ==> r == GoalsValidation(habits, titles, emojis)
    ensures r.None? <==>
      && SignedIn(userId) && Trim(displayName) != ""
      && forall i :: 0 <= i < |habits| ==> Complete(titles, emojis, habits[i])
  {
    if !SignedIn(userId) then Some(NotSignedIn)
    else if Trim(displayName) == "" then Some(EmptyDisplayName)
    else GoalsValidation(habits, titles, emojis)
  }

  /** The checks from goal `i` on: goal `i`'s complaint if it has one,
      otherwise the checks from the next goal on. */
  lemma GoalsValidationStep(habits: seq<OwnHabit>, titles: map<string, string>, emojis: map<string, string>, i: nat)
    requires i < |habits|
    ensures GoalsValidation(habits[i..], titles, emojis) ==
      if GoalCheck(titles, emojis, habits[i]).Some? then GoalCheck(titles, emojis, habits[i])
      else GoalsValidation(habits[i + 1..], titles, emojis)
  {
    assert habits[i..][0] == habits[i] && habits[i..][1..] == habits[i + 1..];
  }

  /** The first `for` loop of `saveAll`. */
  method CheckGoals(habits: seq<OwnHabit>, titles: map<string, string>, emojis: map<string, string>) returns (failure: Option<string>)
    ensures failure == GoalsValidation(habits, titles, emojis)
  {
    var i := 0;
    while i < |habits|
      invariant 0 <= i <= |habits|
      invariant GoalsValidation(habits[i..], titles, emojis) == GoalsValidation(habits, titles, emojis)
    {
      var t := Trim(Lookup(titles, habits[i].id));
      var e := Trim(Lookup(emojis, habits[i].id));
      GoalsValidationStep(habits, titles, emojis, i);
      if t == "" {
        return Some(EmptyGoalName);
      }
      if e == "" {
        return Some(EmptyEmoji);
      }
      i := i + 1;
    }
    return None;
  }

  /** The update `saveAll` sends for `h`. */
  function GoalUpdate(userId: string, titles: map<string, string>, emojis: map<string, string>, h: OwnHabit): Request {
    UpdateHabit(h.id, userId, EditedTitle(titles, h), EditedEmoji(emojis, h))
  }

  /** `GoalUpdate` for a fixed user and edit maps. */
  function GoalUpdater(userId: string, titles: map<string, string>, emojis: map<string, string>): OwnHabit -> Request {
    h => GoalUpdate(userId, titles, emojis, h)
  }

  /** The updates for `habits`, in order. */
  function GoalUpdates(userId: string, titles: map<string, string>, emojis: map<string, string>, habits: seq<OwnHabit>): seq<Request> {
    MapSeq(GoalUpdater(userId, titles, emojis), habits)
  }

  /** What `saveAll` leaves on the page and sends to the store. */
  datatype SaveResult = SaveResult(status: string, issued: seq<Request>)

  /** How many of `n` goal updates are sent: up to and including the first
      that fails, or all of them. */
  function GoalsSent(goalReplies: seq<WriteReply>, n: nat): nat {
    var k := FirstFailure(goalReplies, n);
    if k < n then k + 1 else n
  }

  /** The outcome of the goal-update loop of `saveAll`. */
  function GoalWrites(userId: string, habits: seq<OwnHabit>, titles: map<string, string>,
                      emojis: map<string, string>, goalReplies: seq<WriteReply>): SaveResult {
    var k := FirstFailure(goalReplies, |habits|);
    SaveResult(if k < |habits| then ReplyAt(goalReplies, k).message else Saved,
               GoalUpdates(userId, titles, emojis, habits[..GoalsSent(goalReplies, |habits|)]))
  }

  /** The outcome of the writes of `saveAll`: the profile update, and only
      when it succeeds the goal updates. */
  function Writes(userId: string, displayName: string, habits: seq<OwnHabit>,
                  titles: map<string, string>, emojis: map<string, string>,
                  profileReply: WriteReply, goalReplies: seq<WriteReply>): SaveResult {
    var profileUpdate := UpdateProfile(userId, Trim(displayName));
    if profileReply.Err? then SaveResult(profileReply.message, [profileUpdate])
    else
      var goals := GoalWrites(userId, habits, titles, emojis, goalReplies);
      SaveResult(goals.status, [profileUpdate] + goals.issued)
  }

  /** The outcome of `saveAll` from the page state and the store's replies:
      a failed check shows its message and sends nothing; otherwise the
      writes follow (see `SaveWrites`). */
  function SaveOutcome(userId: Option<string>, displayName: string, habits: seq<OwnHabit>,
                       titles: map<string, string>, emojis: map<string, string>,
                       profileReply: WriteReply, goalReplies: seq<WriteReply>): (r: SaveResult)
    ensures var v := SaveValidation(userId, displayName, habits, titles, emojis);
      v.Some? ==> r.status == v.value && r.issued == []
  {
    match SaveValidation(userId, displayName, habits, titles, emojis)
    case Some(message) => SaveResult(message, [])
    case None => Writes(userId.value, displayName, habits, titles, emojis, profileReply, goalReplies)
  }

  /** Once the checks pass, the profile update goes first, then the goal
      updates in list order, up to and including the first that fails; the
      status is the message of the failed write, or "Saved ✅" when every
      write succeeded. */
  lemma SaveWrites(userId: Option<string>, displayName: string, habits: seq<OwnHabit>,
                   titles: map<string, string>, emojis: map<string, string>,
                   profileReply: WriteReply, goalReplies: seq<WriteReply>)
    requires SaveValidation(userId, displayName, habits, titles, emojis).None?
    ensures var r := SaveOutcome(userId, displayName, habits, titles, emojis, profileReply, goalReplies);
      var k := FirstFailure(goalReplies, |habits|);
      && r.issued != [] && r.issued[0] == UpdateProfile(userId.value, Trim(displayName))
      && |r.issued| == (if profileReply.Err? then 1 else if k < |habits| then k + 2 else |habits| + 1)
      && (forall i :: 1 <= i < |r.issued| ==> r.issued[i] == GoalUpdate(userId.value, titles, emojis, habits[i - 1]))
      && (profileReply.Err? ==> r.status == profileReply.message)
      && (profileReply.Ok? && k < |habits| ==> r.status == ReplyAt(goalReplies, k).message)
      && (profileReply.Ok? && k == |habits| ==> r.status == Saved)
  {
    WritesInOrder(userId.value, displayName, habits, titles, emojis, profileReply, goalReplies);
  }

  /** `SaveWrites`, for the write phase alone. */
  lemma WritesInOrder(userId: string, displayName: string, habits: seq<OwnHabit>,
                      titles: map<string, string>, emojis: map<string, string>,
                      profileReply: WriteReply, goalReplies: seq<WriteReply>)
    ensures var r := Writes(userId, displayName, habits, titles, emojis, profileReply, goalReplies);
      var k := FirstFailure(goalReplies, |habits|);
      && r.issued != [] && r.issued[0] == UpdateProfile(userId, Trim(displayName))
      && |r.issued| == (if profileReply.Err? then 1 else if k < |habits| then k + 2 else |habits| + 1)
      && (forall i :: 1 <= i < |r.issued| ==> r.issued[i] == GoalUpdate(userId, titles, emojis, habits[i - 1]))
      && (profileReply.Err? ==> r.status == profileReply.message)
      && (profileReply.Ok? && k < |habits| ==> r.status == ReplyAt(goalReplies, k).message)
      && (profileReply.Ok? && k == |habits| ==> r.status == Saved)
  {
    GoalWritesInOrder(userId, habits, titles, emojis, goalReplies);
    if profileReply.Ok? {
      var pu := UpdateProfile(userId, Trim(displayName));
      var goals := GoalWrites(userId, habits, titles, emojis, goalReplies).issued;
      assert forall i :: 1 <= i < 1 + |goals| ==> ([pu] + goals)[i] == goals[i - 1];
    }
  }

  /** The goal-update loop sends one update per goal in list order, up to
      and including the first that fails. */
  lemma GoalWritesInOrder(userId: string, habits: seq<OwnHabit>, titles: map<string, string>,
                          emojis: map<string, string>, goalReplies: seq<WriteReply>)
    ensures var r := GoalWrites(userId, habits, titles, emojis, goalReplies);
      var k := FirstFailure(goalReplies, |habits|);
      && |r.issued| == (if k < |habits| then k + 1 else |habits|)
      && (forall i :: 0 <= i < |r.issued| ==> r.issued[i] == GoalUpdate(userId, titles, emojis, habits[i]))
      && (k < |habits| ==> r.status == ReplyAt(goalReplies, k).message)
      && (k == |habits| ==> r.status == Saved)
  {
    var n := GoalsSent(goalReplies, |habits|);
    assert forall i :: 0 <= i < n ==> habits[..n][i] == habits[i];
  }

  /** Once the checks pass, every value `saveAll` writes is non-empty and
      already trimmed. */
  lemma WrittenValuesTrimmedAndNonEmpty(userId: Option<string>, displayName: string, habits: seq<OwnHabit>,
                                        titles: map<string, string>, emojis: map<string, string>)
    requires SaveValidation(userId, displayName, habits, titles, emojis).None?
    ensures Trim(displayName) != "" && Trim(Trim(displayName)) == Trim(displayName)
    ensures forall r :: r in GoalUpdates(userId.value, titles, emojis, habits) ==>
      && r.title != "" && Trim(r.title) == r.title
      && r.progressEmoji != "" && Trim(r.progressEmoji) == r.progressEmoji
  {
    TrimIdempotent(displayName);
    var updates := GoalUpdates(userId.value, titles, emojis, habits);
    forall r | r in updates
      ensures r.title != "" && Trim(r.title) == r.title
      ensures r.progressEmoji != "" && Trim(r.progressEmoji) == r.progressEmoji
    {
      var i :| 0 <= i < |updates| && updates[i] == r;
      TrimIdempotent(Lookup(titles, habits[i].id));
      TrimIdempotent(Lookup(emojis, habits[i].id));
    }
  }

  class ProfilePage {
    var loading: bool
    var status: string
    var userId: Option<string>
    var displayName: string
    var habits: seq<OwnHabit>
    var titleByHabitId: map<string, string>
    var emojiByHabitId: map<string, string>
    /** Every request issued to the store, in order. */
    var sent: seq<Request>

    /** The initial `useState` values. */
    constructor ()
      ensures loading && status == "" && userId == None && displayName == ""
      ensures habits == [] && titleByHabitId == map[] && emojiByHabitId == map[] && sent == []
    {
      loading := true;
      status := "";
      userId := None;
      displayName := "";
      habits := [];
      titleByHabitId := map[];
      emojiByHabitId := map[];
      sent := [];
    }

    /** `loadProfile` once `viewer` is signed in: read the display name (a
        missing row or a null name gives ""), then the owner's habits, and
        fill the edit maps from them. Reads only; a failing read stops the
        load with its message. */
    method LoadProfile(viewer: string, profileReply: Reply<Option<Option<string>>>,
                       habitsReply: Reply<Option<seq<OwnHabit>>>)
      modifies this
      ensures !loading && userId == Some(viewer)
      ensures profileReply.Err? ==>
        && status == profileReply.message && sent == old(sent) + [SelectOwnProfile(viewer)]
        && displayName == old(displayName) && habits == old(habits)
        && titleByHabitId == old(titleByHabitId) && emojiByHabitId == old(emojiByHabitId)
      ensures profileReply.Ok? ==>
        && displayName == (match profileReply.data case None => "" case Some(name) => name.GetOr(""))
        && sent == old(sent) + [SelectOwnProfile(viewer), SelectOwnHabits(viewer)]
      ensures profileReply.Ok? && habitsReply.Err? ==>
        && status == habitsReply.message && habits == old(habits)
        && titleByHabitId == old(titleByHabitId) && emojiByHabitId == old(emojiByHabitId)
      ensures profileReply.Ok? && habitsReply.Ok? ==>
        && status == "" && habits == habitsReply.data.GetOr([])
        && titleByHabitId == TitleMapOf(habits) && emojiByHabitId == EmojiMapOf(habits)
    {
      status := "";
      loading := true;
      userId := Some(viewer);

      sent := sent + [SelectOwnProfile(viewer)];
      if profileReply.Err? {
        status := profileReply.message;
        loading := false;
        return;
      }
      displayName := match profileReply.data case None => "" case Some(name) => name.GetOr("");

      sent := sent + [SelectOwnHabits(viewer)];
      if habitsReply.Err? {
        status := habitsReply.message;
        loading := false;
        return;
      }
      habits := habitsReply.data.GetOr([]);
      titleByHabitId, emojiByHabitId := InitEditMaps(habits);
      loading := false;
    }

    /** The display name input changed. */
    method EditDisplayName(value: string)
      modifies this
      ensures displayName == value
      ensures titleByHabitId == old(titleByHabitId) && emojiByHabitId == old(emojiByHabitId)
      ensures habits == old(habits) && status == old(status) && userId == old(userId)
      ensures loading == old(loading) && sent == old(sent)
    {
      displayName := value;
    }

    /** The title input of habit `habitId` changed to `value`: that entry,
        and no other, takes the new value. */
    method EditTitle(habitId: string, value: string)
      modifies this
      ensures titleByHabitId == old(titleByHabitId)[habitId := value]
      ensures Lookup(titleByHabitId, habitId) == value
      ensures forall k :: k != habitId ==> Lookup(titleByHabitId, k) == Lookup(old(titleByHabitId), k)
      ensures emojiByHabitId == old(emojiByHabitId) && displayName == old(displayName)
      ensures habits == old(habits) && status == old(status) && userId == old(userId)
      ensures loading == old(loading) && sent == old(sent)
    {
      titleByHabitId := titleByHabitId[habitId := value];
    }

    /** The emoji input of habit `habitId` changed to `value`. */
    method EditEmoji(habitId: string, value: string)
      modifies this
      ensures emojiByHabitId == old(emojiByHabitId)[habitId := value]
      ensures Lookup(emojiByHabitId, habitId) == value
      ensures forall k :: k != habitId ==> Lookup(emojiByHabitId, k) == Lookup(old(emojiByHabitId), k)
      ensures titleByHabitId == old(titleByHabitId) && displayName == old(displayName)
      ensures habits == old(habits) && status == old(status) && userId == old(userId)
      ensures loading == old(loading) && sent == old(sent)
    {
      emojiByHabitId := emojiByHabitId[habitId := value];
    }

    /** `saveAll`: the checks, then the writes, as `SaveOutcome` says. Only
        the status and the requests sent change. */
    method SaveAll(profileReply: WriteReply, goalReplies: seq<WriteReply>)
      modifies this
      ensures loading == old(loading) && userId == old(userId) && displayName == old(displayName)
      ensures habits == old(habits) && titleByHabitId == old(titleByHabitId) && emojiByHabitId == old(emojiByHabitId)
      ensures var r := SaveOutcome(userId, displayName, habits, titleByHabitId, emojiByHabitId, profileReply, goalReplies);
        status == r.status && sent == old(sent) + r.issued
    {
      status := "";
      if !SignedIn(userId) {
        status := NotSignedIn;
        return;
      }
      if Trim(displayName) == "" {
        status := EmptyDisplayName;
        return;
      }
      var failure := CheckGoals(habits, titleByHabitId, emojiByHabitId);
      if failure.Some? {
        status := failure.value;
        return;
      }

      var uid := userId.value;
      var profileUpdate := UpdateProfile(uid, Trim(displayName));
      ghost var start := sent;
      sent := sent + [profileUpdate];
      if profileReply.Err? {
        status := profileReply.message;
        return;
      }

      WriteGoals(uid, goalReplies);
      AppendAssociative(start, [profileUpdate], GoalWrites(uid, habits, titleByHabitId, emojiByHabitId, goalReplies).issued);
    }

    /** The second `for` loop of `saveAll`: one update per goal in list
        order, up to and including the first that fails, as `GoalWrites`
        says. */
    method WriteGoals(uid: string, goalReplies: seq<WriteReply>)
      modifies this
      ensures loading == old(loading) && userId == old(userId) && displayName == old(displayName)
      ensures habits == old(habits) && titleByHabitId == old(titleByHabitId) && emojiByHabitId == old(emojiByHabitId)
      ensures var r := GoalWrites(uid, habits, titleByHabitId, emojiByHabitId, goalReplies);
        status == r.status && sent == old(sent) + r.issued
    {
      var issued, k := IssueUntilFailure(GoalUpdater(uid, titleByHabitId, emojiByHabitId), habits, goalReplies);
      assert habits[..|habits|] == habits;
      sent := sent + issued;
      status := if k < |habits| then ReplyAt(goalReplies, k).message else Saved;
    }
  }
}
