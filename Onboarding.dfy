/**
 * The onboarding form (src/app/onboarding/page.tsx, and the same logic in
 * app/onboarding/page.tsx): a display name and a first goal, checked in a
 * fixed order and then written as a profile upsert followed by a public
 * habit insert, the insert only once the upsert has succeeded.
 *
 * As on the other pages, each store reply is a parameter and every request
 * issued is appended to `sent`.
 */
module Onboarding {
  import opened Wrappers
  import opened Text
  import opened Trimming
  import opened Domain

  /** The form's initial goal: "Yoga", daily, with the lotus emoji. */
  const DefaultTitle := "Yoga"
  const DefaultCadence := Daily
  const DefaultEmoji := "\U{1F9D8}"

  const NotSignedIn := "Not signed in."
  const EmptyName := "Please enter your name \U{1F642}"
  const EmptyTitle := "Please give your goal a name (e.g., Yoga)."
  const EmptyEmoji := "Please choose an emoji."

  /** The guard chain of `createGoal`: the message of the first check that
      fails, or None when the form may be written. */
  function GoalValidation(userId: Option<string>, name: string, title: string, emoji: string): (r: Option<string>)
    ensures r.None? <==> SignedIn(userId) && Trim(name) != "" && Trim(title) != "" && Trim(emoji) != ""
    ensures r == Some(NotSignedIn) <==> !SignedIn(userId)
    ensures r == Some(EmptyName) <==> SignedIn(userId) && Trim(name) == ""
    ensures r == Some(EmptyTitle) <==> SignedIn(userId) && Trim(name) != "" && Trim(title) == ""
    ensures r == Some(EmptyEmoji) <==>
      SignedIn(userId) && Trim(name) != "" && Trim(title) != "" && Trim(emoji) == ""
  {
    if !SignedIn(userId) then Some(NotSignedIn)
    else if Trim(name) == "" then Some(EmptyName)
    else if Trim(title) == "" then Some(EmptyTitle)
    else if Trim(emoji) == "" then Some(EmptyEmoji)
    else None
  }

  /** The profile row `createGoal` upserts. */
  function ProfileUpsert(userId: string, name: string): Request {
    UpsertProfile(userId, Trim(name))
  }

  /** The habit row `createGoal` inserts: trimmed title and emoji, the chosen
      cadence, and public. */
  function GoalInsert(userId: string, title: string, cadence: Cadence, emoji: string): Request {
    InsertHabit(userId, Trim(title), cadence, Trim(emoji), true)
  }

  /** Once the checks pass, both writes carry non-empty, already trimmed
      values, and the habit is public. */
  lemma WrittenValuesTrimmedAndNonEmpty(userId: Option<string>, name: string, title: string, cadence: Cadence, emoji: string)
    requires GoalValidation(userId, name, title, emoji).None?
    ensures var p := ProfileUpsert(userId.value, name);
      p.userId != "" && p.displayName != "" && Trim(p.displayName) == p.displayName
    ensures var h := GoalInsert(userId.value, title, cadence, emoji);
      && h.ownerId != "" && h.cadence == cadence && h.isPublic
      && h.title != "" && Trim(h.title) == h.title
      && h.progressEmoji != "" && Trim(h.progressEmoji) == h.progressEmoji
  {
    TrimIdempotent(name);
    TrimIdempotent(title);
    TrimIdempotent(emoji);
  }

  /** The default goal passes its checks: a signed-in user who only types a
      name can submit the form as it first appears. */
  lemma {:induction false} DefaultsNeedOnlyAName(userId: Option<string>, name: string)
    requires SignedIn(userId)
    ensures GoalValidation(userId, name, DefaultTitle, DefaultEmoji)
      == if Trim(name) == "" then Some(EmptyName) else None
  {
    assert DropLeading(IsTrimmable, DefaultTitle) == DefaultTitle;
    assert DropTrailing(IsTrimmable, DefaultTitle) == DefaultTitle;
    assert DropLeading(IsTrimmable, DefaultEmoji) == DefaultEmoji;
    assert DropTrailing(IsTrimmable, DefaultEmoji) == DefaultEmoji;
  }

  class OnboardingForm {
    var loading: bool
    var status: string
    var displayName: string
    var title: string
    var cadence: Cadence
    var emoji: string
    var userId: Option<string>
    /** Every request issued to the store, in order. */
    var sent: seq<Request>

    /** The initial `useState` values. */
    constructor ()
      ensures loading && status == "" && userId == None && sent == []
      ensures displayName == "" && title == DefaultTitle && cadence == DefaultCadence && emoji == DefaultEmoji
    {
      loading := true;
      status := "";
      displayName := "";
      title := DefaultTitle;
      cadence := DefaultCadence;
      emoji := DefaultEmoji;
      userId := None;
      sent := [];
    }

    /** `init`: the reply of the session lookup is a parameter. An error
        shows its message; no user sends the visitor back to the sign-in
        page (`goToLogin`) with the form still loading; a user fills
        `userId` and clears the name. */
    method Init(user: Reply<Option<string>>) returns (goToLogin: bool)
      modifies this
      ensures goToLogin <==> user.Ok? && user.data.None?
      ensures user.Err? ==> status == user.message && !loading && userId == old(userId) && displayName == old(displayName)
      ensures user.Ok? && user.data.None? ==> status == "" && loading == old(loading) && userId == old(userId) && displayName == old(displayName)
      ensures user.Ok? && user.data.Some? ==> status == "" && !loading && userId == user.data && displayName == ""
      ensures title == old(title) && cadence == old(cadence) && emoji == old(emoji) && sent == old(sent)
    {
      status := "";
      goToLogin := false;
      if user.Err? {
        status := user.message;
        loading := false;
        return;
      }
      if user.data.None? {
        goToLogin := true;
        return;
      }
      userId := user.data;
      displayName := "";
      loading := false;
    }

    /** The name input changed. */
    method EditName(value: string)
      modifies this
      ensures displayName == value
      ensures title == old(title) && cadence == old(cadence) && emoji == old(emoji)
      ensures loading == old(loading) && status == old(status) && userId == old(userId) && sent == old(sent)
    {
      displayName := value;
    }

    /** The goal title input changed. */
    method EditTitle(value: string)
      modifies this
      ensures title == value
      ensures displayName == old(displayName) && cadence == old(cadence) && emoji == old(emoji)
      ensures loading == old(loading) && status == old(status) && userId == old(userId) && sent == old(sent)
    {
      title := value;
    }

    /** A cadence was chosen. */
    method EditCadence(value: Cadence)
      modifies this
      ensures cadence == value
      ensures displayName == old(displayName) && title == old(title) && emoji == old(emoji)
      ensures loading == old(loading) && status == old(status) && userId == old(userId) && sent == old(sent)
    {
      cadence := value;
    }

    /** The emoji input changed. */
    method EditEmoji(value: string)
      modifies this
      ensures emoji == value
      ensures displayName == old(displayName) && title == old(title) && cadence == old(cadence)
      ensures loading == old(loading) && status == old(status) && userId == old(userId) && sent == old(sent)
    {
      emoji := value;
    }

    /** `createGoal`: when a check fails, its message and no write; then the
        profile upsert, and only when it succeeds the habit insert; the page
        moves on to the grid (`goToGrid`) only when both succeeded. The form
        fields are left as they were. */
    method CreateGoal(upsertReply: WriteReply, insertReply: WriteReply) returns (goToGrid: bool)
      modifies this
      ensures displayName == old(displayName) && title == old(title) && cadence == old(cadence) && emoji == old(emoji)
      ensures loading == old(loading) && userId == old(userId)
      ensures var v := GoalValidation(userId, displayName, title, emoji);
        goToGrid <==> v.None? && upsertReply.Ok? && insertReply.Ok?
      ensures var v := GoalValidation(userId, displayName, title, emoji);
        v.Some? ==> status == v.value && sent == old(sent)
      ensures GoalValidation(userId, displayName, title, emoji).None? ==>
        var upsert := ProfileUpsert(userId.value, displayName);
        var insert := GoalInsert(userId.value, title, cadence, emoji);
        && (upsertReply.Err? ==> status == upsertReply.message && sent == old(sent) + [upsert])
        && (upsertReply.Ok? ==> sent == old(sent) + [upsert, insert])
        && (upsertReply.Ok? && insertReply.Err? ==> status == insertReply.message)
        && (upsertReply.Ok? && insertReply.Ok? ==> status == "")
    {
      status := "";
      goToGrid := false;
      var failure := GoalValidation(userId, displayName, title, emoji);
      if failure.Some? {
        status := failure.value;
        return;
      }

      var uid := userId.value;
      sent := sent + [ProfileUpsert(uid, displayName)];
      if upsertReply.Err? {
        status := upsertReply.message;
        return;
      }

      sent := sent + [GoalInsert(uid, title, cadence, emoji)];
      if insertReply.Err? {
        status := insertReply.message;
        return;
      }
      goToGrid := true;
    }
  }
}
