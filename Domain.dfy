/**
 * The records the pages exchange with the store: habits, profile names,
 * totals, the requests the pages issue and the replies they get back.
 */
module Domain {
  import opened Wrappers

  datatype Cadence = Daily | Weekly | Monthly

  /** A row of the `habits` table as the pages select it. `title` and
      `progressEmoji` are nullable in the row type, and the pages guard them
      with `?? ""`. */
  datatype Habit = Habit(
    id: string,
    userId: string,
    title: Option<string>,
    cadence: Cadence,
    progressEmoji: Option<string>)

  /** A row of `profiles`: `display_name` may be null. */
  datatype ProfileRow = ProfileRow(id: string, displayName: Option<string>)

  /** A row of the `habit_totals` view. */
  datatype TotalRow = TotalRow(habitId: string, totalPeriodsDone: nat)

  /** The plural unit shown after "Total": days, weeks or months. */
  function PluralLabel(c: Cadence): string {
    match c
    case Daily => "days"
    case Weekly => "weeks"
    case Monthly => "months"
  }

  /** The period as the messages name it: today, this week, this month. */
  function PeriodPhrase(c: Cadence): string {
    match c
    case Daily => "today"
    case Weekly => "this week"
    case Monthly => "this month"
  }

  /** The log button names the period: "today", "this week" or "this
      month", one phrase per cadence. */
  lemma PeriodPhraseByCadence(c: Cadence, d: Cadence)
    ensures PeriodPhrase(c) in {"today", "this week", "this month"}
    ensures PeriodPhrase(c) == "today" <==> c == Daily
    ensures PeriodPhrase(c) == "this week" <==> c == Weekly
    ensures PeriodPhrase(c) == "this month" <==> c == Monthly
    ensures PeriodPhrase(c) == PeriodPhrase(d) <==> c == d
  {
  }

  /** A request a page sends to the store. */
  datatype Request =
    | SelectPublicHabits
    | SelectProfileNames(userIds: seq<string>)
    | SelectTotals(habitIds: seq<string>)
    | InsertLog(habitId: string, periodDate: string)
    | SelectOwnProfile(userId: string)
    | SelectOwnHabits(userId: string)
    | UpdateProfile(userId: string, displayName: string)
    | UpdateHabit(habitId: string, ownerId: string, title: string, progressEmoji: string)
    | UpsertProfile(userId: string, displayName: string)
    | InsertHabit(ownerId: string, title: string, cadence: Cadence, progressEmoji: string, isPublic: bool)

  /** The store's reply to a request: its data (which may be null) or an
      error carrying a message. */
  datatype Reply<T> = Ok(data: T) | Err(message: string)

  /** The reply to a write, which only reports success or an error. */
  type WriteReply = Reply<()>

  /** `!userId` is false: an id is present and not the empty string. */
  predicate SignedIn(userId: Option<string>) {
    userId.Some? && userId.value != ""
  }

  function Ids(habits: seq<Habit>): (ids: seq<string>)
    ensures |ids| == |habits|
    ensures forall i :: 0 <= i < |habits| ==> ids[i] == habits[i].id
  {
    if habits == [] then [] else [habits[0].id] + Ids(habits[1..])
  }
}
