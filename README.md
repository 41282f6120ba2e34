# beasts-app habit tracker: a verified model of the page logic

beasts-app is a Next.js habit tracker. A user signs in and onboards by
naming themselves and a first goal, which has a title, a cadence (daily,
weekly or monthly) and a progress emoji. From then on they log a completion
once per period on a shared grid of public goals, and can edit their name
and goals on a profile page. This project models, in Dafny, the logic in
the pages that decides what is shown and what is written:

- the **period key** a completion log is stored under (`formatDateYYYYMMDD`
  and `getPeriodDate`), over a proleptic Gregorian calendar counted in days
  from 1970-01-01, with JavaScript's `new Date(y, m, d)`: its roll-over of
  out-of-range days and months, and its reading of a year argument of 0..99
  as 1900..1999;
- the **square layout** of `app/grid`: the column count and the empty slots;
- the **tile order** of `src/app/grid` (`sortedHabits`) and the fields of a
  tile;
- **loading the grid**: the owner ids, the maps of names and totals, and the
  queries that are and are not issued;
- **"I did it"** (`handleDidIt`): the failure message and the refresh of the
  totals;
- the **profile page**: loading the edit maps, the edit handlers, and
  `saveAll`, which checks everything and then writes requests one at a time;
- the **onboarding form**: the guard chain of `createGoal`, its two writes
  and the form defaults;
- the one-shot **ActionButton** latch.

Each page is a `class` whose fields are the page's `useState` variables. The
store (Supabase) is not modelled. Each reply a page awaits is a method
parameter, and every request a page issues is appended to its `sent` field.
A contract therefore says both what the page shows and what it asked of the
store. The local clock reading (`now`) is a parameter. The collator and
`localeCompare` are given as sort-key functions.

The files:

- `Calendar.dfy` holds the day count and its inverse.
- `PeriodKey.dfy` holds the period keys.
- `Text.dfy` holds `trim`, `includes` and decimal numerals, with the
  generic `Trimming.dfy` beneath it.
- `Tiles.dfy` holds the tiles and the square layout.
- `Ordering.dfy` and `Sorting.dfy` hold the comparator and the sort.
- `Maps.dfy` and `GridPage.dfy` hold the grid pages.
- `Checks.dfy` and `Batches.dfy` hold the guard loop and the write loop.
- `ProfilePage.dfy`, `Onboarding.dfy` and `ActionButton.dfy` hold the
  remaining pages.
- `Domain.dfy` holds the rows, requests and replies.

Three behaviours of the code are easy to misread, and the model follows the
code as written:

- A Sunday maps to the Monday **six** days earlier, because
  `(0 + 6) % 7 == 6`.
- With no habits the square layout has **one** column (`Math.max(1, n)`)
  and one empty slot, not zero.
- The last tile-order tie-break compares ids with `localeCompare`, not by
  code units.

## Model

| member | source | states |
|---|---|---|
| PeriodKey.FormatDateRoundTrip | app/grid/page.tsx:10-15 | the key of every real date, whatever its year, parses back to that date |
| PeriodKey.FormatDateInjective | app/grid/page.tsx:10-15 | two real dates have the same key iff they are the same date |
| PeriodKey.FormatDateShape | app/grid/page.tsx:10-15 | for years 1000..9999 the key is 10 characters, digits with "-" at positions 4 and 7 |
| PeriodKey.FormatDate | app/grid/page.tsx:10-15 | `formatDateYYYYMMDD`; what it promises is stated by `FormatDateRoundTrip`, `FormatDateInjective` and `FormatDateShape` |
| PeriodKey.PeriodDate | app/grid/page.tsx:18-36 | `getPeriodDate` at a clock reading; its keys are stated by `KeySameIffStart` and the per-cadence lemmas below |
| PeriodKey.StartDay | app/grid/page.tsx:21-35 | the day argument `getPeriodDate` passes to `new Date`; where it leads is stated by `DailyStart`, `WeeklyStartNumber` and `MonthlyStart` |
| Text.IntToString | app/grid/page.tsx:11-14 | `String(n)`; `IntToStringRoundTrip` states that it reads back |
| Text.PadStart2 | app/grid/page.tsx:12-13 | `padStart(2, "0")`: a string of two or more characters is kept, a shorter one is padded on the left with digits to exactly two characters |
| Text.IntToStringRoundTrip | app/grid/page.tsx:11-14 | `String(n)` of an integer parses back to `n` |
| Text.PaddedRoundTrip | app/grid/page.tsx:12-13 | `padStart(2, "0")` of a month or day number is two digits that read back as that number |
| PeriodKey.PeriodStart | app/grid/page.tsx:18-36 | the date `getPeriodDate` formats is always a real calendar date |
| PeriodKey.DailyStart | app/grid/page.tsx:21-24 | the daily period starts on today's date as `new Date` reads it back: today itself in a year outside 0..99; for a year of 0..99 the day with the same day number as that date in year 1900..1999, and that very date whenever it exists |
| PeriodKey.DailyKeySameIff | app/grid/page.tsx:21-24 | for readings outside years 0..99, two clock readings have the same daily key iff they are on the same date, whatever the time of day |
| PeriodKey.WeeklyStart | app/grid/page.tsx:26-31 | outside years 0..99, the weekly start is a Monday, `(day + 6) % 7` days before today, 0 to 6 days back, and 6 days back on a Sunday |
| PeriodKey.WeeklyStartNumber | app/grid/page.tsx:27-29 | `new Date(y, m, d - diffToMonday)` lands exactly `diffToMonday` days before today as `new Date` reads it back (today itself outside years 0..99), across month and year boundaries, with `diffToMonday` taken from today's own weekday |
| PeriodKey.MondayOfWeek | app/grid/page.tsx:27-28 | going back `(weekday + 6) % 7` days from any day reaches the Monday that starts its week: at most 6 days back, 6 days from a Sunday |
| PeriodKey.WeekStartDay | app/grid/page.tsx:26-31 | outside years 0..99, the weekly start is the first day of the Monday-started week that holds today |
| PeriodKey.WeeklyKeySameIff | app/grid/page.tsx:26-31 | for readings outside years 0..99, two clock readings have the same weekly key iff they fall in the same Monday-started week |
| PeriodKey.SundayBeforeMonday | app/grid/page.tsx:27-28 | the day before a Monday is a Sunday of the previous week |
| PeriodKey.MondayAfterSundayDiffers | app/grid/page.tsx:26-31 | outside years 0..99, a Monday and the Sunday before it have different weekly keys |
| PeriodKey.MonthlyStart | app/grid/page.tsx:33-35 | the monthly period starts on day 1 of the current month, in the current year outside 0..99 and in year 1900..1999 for a year of 0..99 |
| PeriodKey.MonthlyKeySameIff | app/grid/page.tsx:33-35 | two clock readings have the same monthly key iff they are in the same month of the same year as `new Date` reads it, so a month of year 50 shares its key with that month of 1950; outside years 0..99, iff the same year and month |
| PeriodKey.NextMonthDiffers | app/grid/page.tsx:33-35 | outside years 0..99, the last day of a month and the first day of the next have different monthly keys |
| PeriodKey.KeySameIffStart | src/app/grid/page.tsx:10-36 | two keys are equal iff the dates they format are equal |
| PeriodKey.TwoDigitYearSharesDailyKey | app/grid/page.tsx:21-24 | a clock reading in year 0..99 gets the daily key of the same day in year 1900..1999, so two different dates share one key |
| PeriodKey.TwoDigitYearExample | app/grid/page.tsx:21-24 | on 0050-03-05 the daily key is "1950-03-05" |
| Calendar.MakeDate | app/grid/page.tsx:22-34 | `new Date(year, monthIndex, day)`; what it gives is stated by `MakeDateDayNumber`, `MakeDateInMonth` and `MakeDateOfValid` |
| Calendar.FullYear | app/grid/page.tsx:22 | the year `new Date` uses: 1900 + y for a year argument y of 0..99, y otherwise; its effect on the keys is stated by the `PeriodKey` lemmas above |
| Calendar.MakeDateDayNumber | app/grid/page.tsx:29 | `new Date(y, m, d)` with any year, month index and day gives a real date exactly `d - 1` days after the first of the normalised month of year `FullYear(y)` |
| Calendar.MakeDateInMonth | app/grid/page.tsx:29 | for a month of 1..12, `new Date(y, m - 1, d)` lands `d - 1` days after the first of that month of year `FullYear(y)` |
| Calendar.MakeDateOfValid | app/grid/page.tsx:22 | `new Date(y, m, d)` of an in-range month and day gives that date in year `FullYear(y)` whenever it exists, so `new Date(50, 2, 5)` is 1950-03-05 |
| Calendar.FromDayNumber | app/grid/page.tsx:29 | every day number names exactly one real date |
| Calendar.CivilFromDaysCorrect | app/grid/page.tsx:29 | the closed-form date of a day number is a real date with that day number |
| Calendar.DayNumberInjective | app/grid/page.tsx:11-13 | two real dates have the same day number iff they are equal |
| Calendar.DayNumberCorrect | app/grid/page.tsx:11-13 | a real date read back from its day number is that date |
| Calendar.WeekdayOf | app/grid/page.tsx:27 | `getDay` is a number 0..6; which weekday a date falls on is pinned by the anchor lemmas below: day 0 is the Thursday 1970-01-01, and 2024-01-01 is a Monday |
| Calendar.EpochIsThursday | app/grid/page.tsx:27 | day 0 is 1970-01-01, and `getDay` gives 4 (Thursday) for it |
| Calendar.NewYear2024IsMonday | app/grid/page.tsx:27-28 | 2024-01-01 is day 19723 and a Monday (`getDay` 1) |
| Calendar.NewYearsEve2023IsSunday | app/grid/page.tsx:27-28 | 2023-12-31 is day 19722 and a Sunday (`getDay` 0), the day `(day + 6) % 7` sends six days back |
| Calendar.LeapDay2000IsTuesday | app/grid/page.tsx:27 | the leap day 2000-02-29 is day 11016 and a Tuesday (`getDay` 2) |
| Calendar.DaysInMonth | app/grid/page.tsx:29 | months have 28 to 31 days, and February has 29 exactly in leap years |
| SquareLayout.CeilSqrt | app/grid/page.tsx:226 | `Math.ceil(Math.sqrt(n))` is the least `c` with `c * c >= n` |
| SquareLayout.CeilSqrtUnique | app/grid/page.tsx:226 | any `c` with `c * c >= n > (c - 1) * (c - 1)` is the ceiling square root |
| SquareLayout.Columns | app/grid/page.tsx:223-227 | the column count is at least 1, holds `n` tiles in a square, is the least such for `n >= 1`, and is 1 for `n = 0` |
| SquareLayout.ColumnsLeast | app/grid/page.tsx:223-227 | no smaller positive column count fits `n` tiles in a square |
| SquareLayout.EmptySlots | app/grid/page.tsx:230-235 | the real tiles and the empty placeholders fill exactly `columns * columns` slots, so the `max(0, ...)` never applies |
| SquareLayout.LayoutExamples | app/grid/page.tsx:219-235 | 0, 1, 2, 3, 4, 5 and 10 habits give 1, 1, 2, 2, 2, 3 and 4 columns with 1, 0, 2, 1, 0, 4 and 6 empty slots |
| SquareLayout.SquareGrid | app/grid/page.tsx:282-366 | the grid holds one tile per habit in list order, then only placeholders, `columns * columns` slots in all |
| Tiles.ProjectTile | app/grid/page.tsx:282-344 | the name is the owner's display name, or "Someone" when it is missing or empty; the total is the stored total or 0; the unit is days, weeks or months; the log button shows iff the viewer owns the habit; there are exactly `total` markers of the habit's emoji; the tile shows the habit's title ("" when null) and the button phrase of its cadence |
| Domain.PeriodPhrase | app/grid/page.tsx:287 | `cadenceDidIt`; stated by `PeriodPhraseByCadence` |
| Domain.PeriodPhraseByCadence | app/grid/page.tsx:287 | the phrase is "today" exactly for a daily habit, "this week" exactly for a weekly one and "this month" exactly for a monthly one, so two cadences share a phrase iff they are the same |
| Tiles.ProjectTiles | src/app/grid/page.tsx:288-290 | one tile per habit, in the order given |
| Tiles.Repeat | app/grid/page.tsx:340-344 | `Array.from({ length: total })` renders the emoji exactly `total` times |
| Tiles.ProjectTilesPermutation | src/app/grid/page.tsx:288-290 | rearranging the habits rearranges their tiles: a permutation of the habits gives a permutation of the tiles |
| GridPage.SortedTiles | src/app/grid/page.tsx:223-293 | the tiles of src/app/grid are the tiles of the page's habits rearranged (one tile per habit, none repeated or dropped), laid out as the tiles of a permutation of the habits sorted by the comparator, so every ordering fact about sorted lists (`Ordering.SortedWithinGroup`: by name, then title, then id within a group) holds of them; every tile with a log button is ahead of every tile without one |
| GridPage.SortedTileFacts | src/app/grid/page.tsx:288-293 | the tiles of the sorted habits are a rearrangement of the tiles of the page's habits, with the viewer's tiles first |
| Ordering.CompareKeys | src/app/grid/page.tsx:231 | a collator comparison is -1, 0 or 1, and 0 iff the sort keys are equal |
| Ordering.CompareKeysAntisymmetric | src/app/grid/page.tsx:231 | swapping the strings reverses the comparison |
| Ordering.CompareKeysTransitive | src/app/grid/page.tsx:231 | "not after" under the collator is transitive |
| Ordering.CompareHabits | src/app/grid/page.tsx:223-240 | the comparator puts the viewer's habits before the others |
| Ordering.CompareHabitsZero | src/app/grid/page.tsx:223-240 | two habits tie iff they have the same ownership and their names, titles and ids collate equal |
| Ordering.CompareHabitsAntisymmetric | src/app/grid/page.tsx:223-240 | swapping the habits reverses the comparator's sign |
| Ordering.CompareHabitsTransitive | src/app/grid/page.tsx:223-240 | the comparator is transitive, so `sort` gets a consistent comparator |
| Ordering.BeforeTotalPreorder | src/app/grid/page.tsx:223-240 | "may stand before" is total and transitive for every collator, viewer and name map |
| Ordering.SortHabits | src/app/grid/page.tsx:223 | `sortedHabits` is a permutation of `habits`, sorted by the comparator; `habits` itself is an untouched value |
| Ordering.SortedViewerFirst | src/app/grid/page.tsx:227-228 | in `sortedHabits` every habit the viewer owns precedes every habit they do not own |
| Ordering.SortedWithinGroup | src/app/grid/page.tsx:230-239 | in one ownership group habits are ordered by trimmed name, equal names by trimmed title, and equal titles by id |
| Ordering.DistinctIdKeysStrict | src/app/grid/page.tsx:238-239 | when `localeCompare` tells all ids apart, the comparator returns 0 only for the same habit |
| Ordering.SortIndependentOfInputOrder | src/app/grid/page.tsx:223-240 | with distinct ids the tile order does not depend on the order in which the store returned the habits |
| Sorting.SortBy | src/app/grid/page.tsx:223 | sorting a copy gives a permutation of the input, sorted when the comparator is consistent |
| Sorting.InsertBy | src/app/grid/page.tsx:223 | inserting adds exactly the one element |
| Sorting.InsertBySorted | src/app/grid/page.tsx:223 | inserting into a sorted list keeps it sorted |
| Sorting.SortedUnique | src/app/grid/page.tsx:223 | two sorted lists with the same elements, none of them tied, are equal |
| Maps.LastWins | src/app/grid/page.tsx:124-127 | the map a `forEach` fills has one key per row key |
| Maps.LastWinsValue | src/app/grid/page.tsx:124-127 | a key maps to the value of the last row that carries it |
| Maps.DistinctKeysLookup | src/app/grid/page.tsx:151-154 | with distinct keys every row's value is in the map |
| Maps.Dedupe | src/app/grid/page.tsx:108 | `Array.from(new Set(ids))` holds each id once, and exactly the ids given |
| Maps.DedupeNoDuplicates | src/app/grid/page.tsx:108 | de-duplicating a list without repeats changes nothing |
| GridPage.Owners | src/app/grid/page.tsx:108 | the owner list holds each owner of a habit once and no one else, and is empty iff there are no habits |
| GridPage.BuildNameMap | src/app/grid/page.tsx:124-127 | the loop builds the name map of the profile rows |
| GridPage.NameMapLookup | src/app/grid/page.tsx:124-127 | every selected profile has an entry, and a null display name is stored as "" |
| GridPage.BuildTotalsMap | src/app/grid/page.tsx:151-154 | the loop builds the totals map of the rows |
| GridPage.TotalsMapLookup | src/app/grid/page.tsx:151-154 | every returned habit has an entry with its total |
| GridPage.NameMapOf | src/app/grid/page.tsx:124-127 | `profileNameById` as the `forEach` fills it; stated by `BuildNameMap` and `NameMapLookup` |
| GridPage.TotalsMapOf | src/app/grid/page.tsx:151-154 | `totalsByHabitId` as the `forEach` fills it; stated by `BuildTotalsMap` and `TotalsMapLookup` |
| GridPage.GridPage.constructor | src/app/grid/page.tsx:57-62 | the page starts loading, with an empty status, no habits, empty totals and names, no viewer, and nothing sent (app/grid/page.tsx:57-62 is the same) |
| GridPage.GridPage.LoadGrid | src/app/grid/page.tsx:89-161 | each failing query stops the load with its message and leaves the later state as it was; with no habits no names or totals are queried and both maps become empty; otherwise the maps are built from the returned rows |
| GridPage.GridPage.LoadNames | src/app/grid/page.tsx:107-132 | the names query is sent iff there are habits; its failure stops the load; its rows give the name map |
| GridPage.GridPage.LoadTotals | src/app/grid/page.tsx:134-161 | the totals query is sent iff there are habits; its failure shows its message; its rows give the totals map |
| GridPage.InsertFailureStatus | app/grid/page.tsx:181-193 | a duplicate-key error gives "You already logged it today!", "... this week!" or "... this month!" by cadence; any other error gives its message, or "Something went wrong." for an empty one; the status is never empty |
| GridPage.DuplicateNoticeNamesPeriod | app/grid/page.tsx:184-187 | the duplicate notices of two cadences are equal iff the cadences are |
| Text.Contains | app/grid/page.tsx:184 | `includes` is true iff the fragment occurs at some index |
| GridPage.GridPage.HandleDidIt | app/grid/page.tsx:171-216 | one insert under the current period key is sent; on an error the status is its failure message and the totals stay; on success with no habits nothing else happens; otherwise the totals query is sent, its failure shows its message with the totals kept, and its rows replace the totals wholesale |
| GridPage.GridPage.RefreshTotals | src/app/grid/page.tsx:195-214 | no query with no habits on screen; otherwise one totals query whose failure keeps the totals and whose rows replace them |
| Text.TrimIsCore | src/app/profile/page.tsx:123 | `trim` keeps a consecutive run of the string and cuts only white space from either end; what is left starts and ends with non-white space, and is empty iff the string is all white space |
| Text.TrimIdempotent | src/app/profile/page.tsx:145 | trimming a trimmed string changes nothing |
| Trimming.StripIsCore | src/app/profile/page.tsx:123 | stripping keeps a consecutive run, cuts only matching elements from the ends, and leaves nothing iff every element matches |
| Trimming.StripIdempotent | src/app/profile/page.tsx:145 | stripping twice is stripping once |
| Trimming.Leading | src/app/profile/page.tsx:123 | the leading run is the longest prefix of matching elements |
| Trimming.Trailing | src/app/profile/page.tsx:123 | the trailing run is the longest suffix of matching elements |
| Text.Trim | src/app/profile/page.tsx:123 | `String.prototype.trim`; stated by `TrimIsCore` and `TrimIdempotent` |
| ProfilePage.ProfilePage.constructor | src/app/profile/page.tsx:19-28 | the page starts loading, signed out, with empty fields and maps |
| ProfilePage.ProfilePage.LoadProfile | src/app/profile/page.tsx:57-104 | two reads and no writes; a missing profile or null name gives ""; a failing read stops the load with its message; after both succeed the habits are the rows and the edit maps are built from them |
| ProfilePage.InitEditMaps | src/app/profile/page.tsx:93-99 | the loop builds the title and emoji maps of the habits |
| ProfilePage.EditMapsCoverHabits | src/app/profile/page.tsx:93-102 | after loading, both maps have entries for exactly the loaded ids, holding each stored title and emoji, with null as "" |
| ProfilePage.ProfilePage.EditDisplayName | src/app/profile/page.tsx:236 | the name input replaces the display name and nothing else |
| ProfilePage.ProfilePage.EditTitle | src/app/profile/page.tsx:263-268 | editing one habit's title changes that entry and no other |
| ProfilePage.ProfilePage.EditEmoji | src/app/profile/page.tsx:279-284 | editing one habit's emoji changes that entry and no other |
| ProfilePage.GoalCheck | src/app/profile/page.tsx:129-139 | a goal passes iff its trimmed title and emoji are non-empty; the title is checked first, and a missing map entry counts as "" |
| ProfilePage.GoalsValidation | src/app/profile/page.tsx:128-140 | the goal checks pass iff every goal is complete; a failure is the complaint about the first incomplete goal in list order |
| Checks.FirstComplaint | src/app/profile/page.tsx:128-140 | the guard loop stops at the first element with a complaint and reports it, and passes iff no element has one |
| ProfilePage.GoalsValidationStep | src/app/profile/page.tsx:128-140 | the checks from one goal on give that goal's complaint or, when it has none, the checks from the next goal on |
| ProfilePage.CheckGoals | src/app/profile/page.tsx:128-140 | the first `for` loop returns exactly the goal checks' verdict |
| ProfilePage.SaveValidation | src/app/profile/page.tsx:114-140 | sign-in is checked first, then the trimmed display name, then the goals; everything passes iff signed in, the name is non-empty and every goal is complete |
| ProfilePage.SaveOutcome | src/app/profile/page.tsx:114-170 | a failed check shows its message and sends nothing |
| ProfilePage.SaveWrites | src/app/profile/page.tsx:142-170 | once the checks pass, the profile update with the trimmed name goes first, then one goal update per habit in list order, up to and including the first failure; the status is that failure's message, or "Saved ✅" only when every write succeeded |
| ProfilePage.WritesInOrder | src/app/profile/page.tsx:142-170 | the write phase: the profile update, then the goal updates in order up to the first failure, with that failure's message or "Saved ✅" |
| ProfilePage.GoalWritesInOrder | src/app/profile/page.tsx:153-170 | the second loop sends one update per goal in list order up to and including the first failure, then shows that failure's message or "Saved ✅" |
| ProfilePage.WrittenValuesTrimmedAndNonEmpty | src/app/profile/page.tsx:142-162 | once the checks pass, the written display name, titles and emojis are trimmed and non-empty |
| ProfilePage.GoalUpdate | src/app/profile/page.tsx:154-162 | the update `saveAll` sends for one habit; `WrittenValuesTrimmedAndNonEmpty` states that its title and emoji are trimmed and non-empty once the checks pass, and `GoalWritesInOrder` where it goes in the sequence |
| ProfilePage.ProfilePage.SaveAll | src/app/profile/page.tsx:114-171 | the status and the requests sent are exactly those `SaveOutcome` gives, so nothing is written on a failed check; the page's other fields stay as they were |
| ProfilePage.ProfilePage.WriteGoals | src/app/profile/page.tsx:153-170 | the second loop sends the goal updates up to and including the first failure and shows its message, or "Saved ✅" |
| Batches.IssueUntilFailure | src/app/profile/page.tsx:154-168 | the loop issues the requests in order up to and including the first failing one, and returns its index, or the count when none fails |
| Batches.FirstFailure | src/app/profile/page.tsx:164-167 | the index of the first failing reply: every earlier one succeeded and it failed, or none failed |
| Batches.FirstFailureAt | src/app/profile/page.tsx:164-167 | any index before which every reply succeeds, and at which one fails, is the first failure |
| Batches.MapSeq | src/app/profile/page.tsx:154-162 | one request per element, in order |
| Batches.MapSeqPrefix | src/app/profile/page.tsx:154-162 | handling one more element appends its request |
| Onboarding.GoalValidation | src/app/onboarding/page.tsx:63-81 | the sign-in, the trimmed name, the trimmed title and the trimmed emoji are checked in that order, each with its message; the form passes iff all four hold (app/onboarding/page.tsx:62-80 has the same chain) |
| Onboarding.GoalInsert | src/app/onboarding/page.tsx:95-101 | the habit is inserted with the trimmed title and emoji, the chosen cadence, and as public |
| Onboarding.ProfileUpsert | src/app/onboarding/page.tsx:83-86 | the upsert `createGoal` sends; `Onboarding.WrittenValuesTrimmedAndNonEmpty` states that it carries the user id and a trimmed, non-empty name once the checks pass |
| Onboarding.WrittenValuesTrimmedAndNonEmpty | src/app/onboarding/page.tsx:84-101 | once the checks pass, both writes carry trimmed, non-empty values and the habit is public |
| Onboarding.DefaultsNeedOnlyAName | src/app/onboarding/page.tsx:16-19 | with the default goal, a signed-in user only has to type a name |
| Onboarding.OnboardingForm.constructor | src/app/onboarding/page.tsx:13-21 | the form starts with name "", title "Yoga", cadence daily and emoji 🧘 |
| Onboarding.OnboardingForm.Init | src/app/onboarding/page.tsx:26-51 | a session error shows its message; no user sends the visitor back to sign in; a user fills `userId` and clears the name |
| Onboarding.OnboardingForm.EditName | src/app/onboarding/page.tsx:134 | the name input replaces the name and nothing else |
| Onboarding.OnboardingForm.EditTitle | src/app/onboarding/page.tsx:148 | the title input replaces the title and nothing else |
| Onboarding.OnboardingForm.EditCadence | src/app/onboarding/page.tsx:162 | the cadence choice replaces the cadence and nothing else |
| Onboarding.OnboardingForm.EditEmoji | src/app/onboarding/page.tsx:178 | the emoji input replaces the emoji and nothing else |
| Onboarding.OnboardingForm.CreateGoal | src/app/onboarding/page.tsx:60-109 | a failed check shows its message and writes nothing; otherwise the trimmed-name upsert is sent, and only when it succeeds the habit insert; the page moves to the grid iff both succeed (app/onboarding/page.tsx:59-108 does the same) |
| ActionButton.ActionButton.constructor | src/components/ActionButton.tsx:15-26 | the button starts unclicked, with the prop defaults "Done ✓", white and light green |
| ActionButton.ActionButton.SetDisabled | src/components/ActionButton.tsx:23 | a new `disabled` prop leaves the latch and the call count alone |
| ActionButton.ActionButton.IsDisabled | src/components/ActionButton.tsx:38 | the rendered `disabled`; `HandleClick` states that a click gets through iff the button was not disabled |
| ActionButton.ActionButton.Label | src/components/ActionButton.tsx:52 | the text shown; `HandleClick` states that a click that gets through makes it the clicked text, and any other click leaves it |
| ActionButton.ActionButton.Background | src/components/ActionButton.tsx:43 | the background colour; `HandleClick` states that a click that gets through makes it the clicked colour, and any other click leaves it |
| ActionButton.ActionButton.Cursor | src/components/ActionButton.tsx:45 | the cursor is a pointer iff the rendered button is enabled |
| ActionButton.ActionButton.HandleClick | src/components/ActionButton.tsx:28-38 | a click gets through iff the rendered button was enabled; a click while clicked or disabled does nothing; otherwise the latch is set and `onClick` runs once; once clicked the button is disabled and shows the clicked text and colour |
| ActionButton.ActionButton.ClickRepeatedly | src/components/ActionButton.tsx:26-33 | whatever the clicks and prop changes, `onClick` runs at most once, and a clicked button stays clicked |

## Left out

- Signing in and routing are left out. This covers `supabase.auth.getUser`, `router.push` and `router.replace`, `logout`, `deleteProfileAndData`, and the pages src/app/page.tsx, app/page.tsx and src/hooks/useRequireAuth.ts. The model starts each load with the signed-in viewer's id as a parameter. The onboarding `Init` returns a flag in place of the redirect.
- The store is not modelled. Replies are parameters; the unique constraint on logs and the `habit_totals` view are known only through the replies given.
- Asynchrony is left out: the `isMounted` flags, effect scheduling, interleaved clicks while a request is pending, and the `await onClick?.()` promise. Every method runs to completion.
- Rendering is left out: JSX, styles, colours other than the ActionButton's, opacity, placeholders, and `showDeleteConfirm`.
- The clock is a parameter: a local calendar date and a time of day. Time zones, daylight saving and the ±8.64e15 ms range of JavaScript `Date` are left out, so every integer year is allowed. The `Date` constructor's reading of a year of 0..99 as 1900..1999 is modelled (`Calendar.FullYear`); the lemmas below are stated only for readings outside years 0..99, where the program reads the year as it is.
- DailyKeySameIff: stated for readings outside years 0..99 only. In years 0..99 the program gives a date the key of the same date 1900 years later (`PeriodKey.TwoDigitYearSharesDailyKey`), so the equivalence does not hold there.
- WeeklyStart: stated outside years 0..99 only. In years 0..99 the start is counted back from the same date in 1900..1999 by today's own weekday (`PeriodKey.WeeklyStartNumber`), so it need not be a Monday.
- WeekStartDay: stated outside years 0..99 only, for the reason given for `WeeklyStart`.
- WeeklyKeySameIff: stated outside years 0..99 only, for the reason given for `WeeklyStart`.
- MondayAfterSundayDiffers: stated outside years 0..99 only, because it rests on `WeeklyKeySameIff`.
- NextMonthDiffers: stated outside years 0..99 only. The program keeps it there too, but the proof would need day-count bounds across 1900 years, which the model does not have.
- `Math.sqrt` is modelled as an exact integer ceiling square root. Floating-point rounding, which is exact for every count of habits a page can hold, is not modelled.
- `Intl.Collator` with base sensitivity and `localeCompare` are modelled as sort-key functions passed in. Their locale data is not part of the program.
- Sorting.SortBy: the contract states a permutation and sortedness, not the stability of the engine's `sort`. The order of tied habits is fixed only when no two habits tie (`Ordering.SortIndependentOfInputOrder`).
- Strings are sequences of code points, not UTF-16 code units. `trim` removes ECMAScript's WhiteSpace and LineTerminator code points.
- An error reply always carries a message string. A null `error.message` in the store's errors is not modelled, except on insert, where an empty message gives "Something went wrong."
- Batches.ReplyAt: a write with no reply given counts as a success. This only matters when the caller passes fewer replies than there are writes.
- Totals are natural numbers. A negative or fractional `total_periods_done` from the view is not modelled.
- ProfilePage.SaveOutcome: its own contract states only the failed-check case. The write sequence is stated by `ProfilePage.SaveWrites`.
