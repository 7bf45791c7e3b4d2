# CalorieCalculator core, modelled in Dafny

CalorieCalculator is a single-user calorie tracker. The user types a line such
as `Apple 95` or fills in a sheet, and the app stores a food entry. An entry
has an id, a title, a calorie count, a timestamp and an optional photo. The
main screen shows today's entries, today's total against a fixed daily goal of
2000 kcal, and the whole history grouped into days, most recent day first.

This project models two parts of that app:

- **The calorie service** (`CalorieService.swift`). It filters today's
  entries, sums calories and computes progress against the goal. It also
  parses a free-text line into a name and a calorie count, detects a title
  already logged today (ignoring case) and makes new entries. Every member is
  a pure function here (modules `CalorieService`, `Text`, `Calendar`).
- **The main view model** (`MainViewModel.swift`). It is a class whose
  methods update published UI state. Here it is the class
  `MainScreen.MainViewModel`, with one field per published property plus a
  `store` field that stands for the persistent store. Each method states
  its whole new state. The grouping that `updateEntries` computes is
  specified by functions in module `DayGrouping`.

Modelling choices:

- A date is an integer number of seconds. The start of its day is
  `t - t % 86400`, a fixed UTC day.
- Swift's `Int` is 64 bits wide. Parsing rejects numbers outside that range.
- The clock (`Date()`) is a parameter `now`. The UUID generator (`UUID()`) is
  a parameter `freshId`, which callers must choose absent from the store.
- `FoodModel` is a reference type in the app. Editing the entry open in the
  sheet therefore changes it everywhere it is held: in the store, in the cached
  `todayEntries` and `sections`, and in `entryToDelete`. The model applies
  the edit by id to each of those holders. The day totals and
  `totalCalories` are cached values, so an edit leaves them as they were.
- Three behaviours of the code that are easy to miss:
  - `parseInput` splits on the space character only, not on all whitespace.
  - `progress` is capped at 1 but not bounded below, so negative calories give
    negative progress.
  - `makeEntry` ignores its `id` argument and draws a new UUID.

Proved properties include:

- parsing round-trips: `name + " " + String(calories)` parses back to the same
  pair, and split and join are inverse on well-spaced text;
- the day sections are strictly descending by day, hold each entry exactly
  once in the section of its own day, and are sorted by time within a day;
- grouping conserves the calorie total and is idempotent;
- today's section agrees with the service's today entries and their total;
- the store keeps unique ids through every operation, and deletion removes
  exactly the remembered entry.

## Model

| member | source | states |
|---|---|---|
| Models.UniqueIds | CalorieCalculator/Core/Modules/FoodModel.swift:7-8 | No two stored entries share an id. The view model's invariant `Valid()` is this property of its store |
| CalorieService.TodayEntries | CalorieCalculator/Core/Services/CalorieService.swift:9-11 | An entry is kept exactly when it is dated today, and the kept entries keep their multiplicities |
| CalorieService.TodayEntriesAppend | CalorieCalculator/Core/Services/CalorieService.swift:9-11 | Filtering distributes over concatenation, so the kept entries stay in their input order |
| CalorieService.TotalCalories | CalorieCalculator/Core/Services/CalorieService.swift:13-15 | The sum of the entries' calories, from 0, left to right. TotalCaloriesAppend, TotalCaloriesRemove and TotalCaloriesPermutation establish that it is additive, that removing an entry subtracts its calories, and that order does not matter |
| CalorieService.TotalCaloriesAppend | CalorieCalculator/Core/Services/CalorieService.swift:13-15 | The total of two lists joined together is the sum of their totals |
| CalorieService.TotalCaloriesRemove | CalorieCalculator/Core/Services/CalorieService.swift:13-15 | Removing one entry takes exactly its calories out of the total |
| CalorieService.TotalCaloriesPermutation | CalorieCalculator/Core/Services/CalorieService.swift:13-15 | The total depends only on which entries there are, not on their order |
| CalorieService.Progress | CalorieCalculator/Core/Services/CalorieService.swift:17-20 | With a positive goal: the ratio total/goal capped at 1, and negative exactly when the total is. With a goal that is not positive: 0 |
| CalorieService.ProgressMonotone | CalorieCalculator/Core/Services/CalorieService.swift:17-20 | More calories never mean less progress |
| CalorieServiceExamples.ProgressExamples | CalorieCalculator/Core/Services/CalorieService.swift:7-20 | Goal 2000: 0 → 0, 500 → 0.25, 2000 → 1, 3000 → 1 (capped). Goal 0 → 0 |
| CalorieService.ParseInput | CalorieCalculator/Core/Services/CalorieService.swift:22-39 | A line is accepted exactly when it has at least two space-separated tokens, the last reads as an `Int`, and the earlier tokens joined by single spaces are not blank. The result is then that joined name and that integer. Anything else is rejected |
| CalorieService.ParseInputAccepted | CalorieCalculator/Core/Services/CalorieService.swift:22-39 | An accepted name is non-empty and well spaced, splits back into exactly the tokens before the last one, and its calories fit in 64 bits |
| CalorieService.ParseInputRoundTrip | CalorieCalculator/Core/Services/CalorieService.swift:22-39 | Writing an accepted pair back as `name + " " + String(calories)` parses to the same pair |
| CalorieService.ParseInputRejectsBadNumber | CalorieCalculator/Core/Services/CalorieService.swift:26-29 | A last token that is not an integer rejects the line |
| CalorieServiceExamples.ParseInputTwoTokens | CalorieCalculator/Core/Services/CalorieService.swift:22-39 | A one-word name, one space and a valid integer parse to that name and integer |
| CalorieServiceExamples.ParseInputExampleAccepted | CalorieCalculator/Core/Services/CalorieService.swift:22-39 | `Apple 95` parses to (`Apple`, 95) |
| CalorieServiceExamples.ParseInputDoubleSpace | CalorieCalculator/Core/Services/CalorieService.swift:22-39 | A one-word name, two spaces and a valid integer parse to that name and integer |
| CalorieServiceExamples.ParseInputExampleDoubleSpace | CalorieCalculator/Core/Services/CalorieService.swift:22-39 | `a  5` (two spaces) parses to (`a`, 5) |
| CalorieServiceExamples.ParseInputExampleBadNumber | CalorieCalculator/Core/Services/CalorieService.swift:26-29 | `Fruit abc` is rejected |
| CalorieServiceExamples.ParseInputExamplesTooFewTokens | CalorieCalculator/Core/Services/CalorieService.swift:23-24 | `95`, three spaces and the empty line are rejected (fewer than two tokens) |
| Text.Fold | CalorieCalculator/Core/Services/CalorieService.swift:43 | Lower-cases each ASCII letter and keeps every other character |
| Text.SameIgnoringCase | CalorieCalculator/Core/Services/CalorieService.swift:43 | Two titles match when their case folds are equal. HasDuplicateExamples establishes that `apple` matches `Apple` and that `pear` does not |
| CalorieService.HasDuplicate | CalorieCalculator/Core/Services/CalorieService.swift:41-45 | True exactly when some entry's title equals the candidate ignoring case |
| CalorieService.HasDuplicateOrderFree | CalorieCalculator/Core/Services/CalorieService.swift:41-45 | The answer does not depend on the order of the entries |
| CalorieServiceExamples.HasDuplicateExamples | CalorieCalculator/Core/Services/CalorieService.swift:41-45 | `apple` duplicates `Apple`, nothing duplicates in an empty list, and `pear` does not duplicate `Apple` |
| CalorieService.MakeEntry | CalorieCalculator/Core/Services/CalorieService.swift:47-60 | A new entry with the given title, calories and photo, the fresh UUID and the current time. MakeEntryIgnoresId establishes that its id argument has no effect |
| CalorieService.MakeEntryIgnoresId | CalorieCalculator/Core/Services/CalorieService.swift:47-60 | The new entry has the fresh UUID and is dated today. Its `id` argument has no effect |
| Calendar.StartOfDay | CalorieCalculator/Modules/Main/MainViewModel.swift:33 | The first instant of the (UTC) day that contains the instant. The three lemmas below establish its bounds, idempotence and monotonicity |
| Calendar.IsDateInToday | CalorieCalculator/Core/Services/CalorieService.swift:10 | Two instants fall on the same day exactly when they have the same start of day. TodayEntriesIsBucket ties it to the day buckets, and TodaySectionMatchesService to the sections (MainViewModel.swift:45) |
| Calendar.StartOfDayBounds | CalorieCalculator/Modules/Main/MainViewModel.swift:32-34 | The start of a day is at or before the instant, less than a day before it, and on a day boundary |
| Calendar.StartOfDayIdempotent | CalorieCalculator/Modules/Main/MainViewModel.swift:32-34 | The start of the start of a day is the start of that day |
| Calendar.StartOfDayMonotone | CalorieCalculator/Modules/Main/MainViewModel.swift:32-34 | A later instant never starts an earlier day |
| Text.IsWhitespace | CalorieCalculator/Modules/Main/MainViewModel.swift:99 | Membership in whitespacesAndNewlines: the Unicode separators (categories Zs, Zl, Zp), U+0009 to U+000D and U+0085. This decides what trimming drops and when a parsed name counts as blank (CalorieService.swift:34) |
| Text.TrimStart | CalorieCalculator/Modules/Main/MainViewModel.swift:99 | Drops the leading whitespace. TrimStartShape establishes that it drops exactly a blank prefix |
| Text.TrimEnd | CalorieCalculator/Modules/Main/MainViewModel.swift:99 | Drops the trailing whitespace. TrimEndShape establishes that it drops exactly a blank suffix |
| Text.TrimStartShape | CalorieCalculator/Modules/Main/MainViewModel.swift:99 | Trimming the front drops a blank prefix and keeps a suffix that is empty or starts with a non-whitespace character |
| Text.TrimEndShape | CalorieCalculator/Modules/Main/MainViewModel.swift:99 | Trimming the back drops a blank suffix and keeps a prefix that is empty or ends with a non-whitespace character |
| Text.Trim | CalorieCalculator/Modules/Main/MainViewModel.swift:99-100 | The result is empty exactly when the input is blank, and otherwise starts and ends with non-whitespace |
| Text.Split | CalorieCalculator/Core/Services/CalorieService.swift:23 | Every piece is a non-empty run of characters with no space |
| Text.SplitSpace | CalorieCalculator/Core/Services/CalorieService.swift:23 | A leading space produces no piece, so leading and doubled spaces are dropped as empty pieces. With SplitToken and SplitCons this fixes the split of every string |
| Text.SplitJoin | CalorieCalculator/Core/Services/CalorieService.swift:23-32 | Splitting the space-join of tokens gives those tokens back |
| Text.JoinSplit | CalorieCalculator/Core/Services/CalorieService.swift:23-32 | Joining the split of a well-spaced string gives that string back |
| Text.Join | CalorieCalculator/Core/Services/CalorieService.swift:31-32 | The tokens with one space between neighbours. JoinWellSpaced, JoinSnoc, SplitJoin and JoinSplit establish that it gives well-spaced text and is the inverse of Split |
| Text.JoinWellSpaced | CalorieCalculator/Core/Services/CalorieService.swift:31-32 | Joining tokens gives a string with no leading, trailing or doubled space, and it is non-empty when there is a token |
| Text.JoinSnoc | CalorieCalculator/Core/Services/CalorieService.swift:31-32 | Appending a token adds it after exactly one space |
| Text.SplitCons | CalorieCalculator/Core/Services/CalorieService.swift:23 | A leading token followed by one space splits off as the first piece |
| Text.SplitTwoTokens | CalorieCalculator/Core/Services/CalorieService.swift:23 | Two tokens separated by one space split into those two tokens |
| Text.ParseInt | CalorieCalculator/Core/Services/CalorieService.swift:27 | An optional sign and one or more ASCII digits whose value fits in 64 bits, and nothing else, read as that integer. DecimalRoundTrip establishes that every 64-bit integer's decimal text reads back as itself, and ParseInputExampleBadNumber that a non-number is rejected |
| Text.Decimal | CalorieCalculator/Core/Services/CalorieService.swift:27 | The decimal text of an integer. DecimalRoundTrip establishes that it is one token that reads back as that integer |
| Text.DecimalRoundTrip | CalorieCalculator/Core/Services/CalorieService.swift:27 | Every 64-bit integer prints as one token that `Int(_:)` reads back as the same integer |
| Text.NatDigitsValue | CalorieCalculator/Core/Services/CalorieService.swift:27 | The decimal digits of a natural number read back as that number |
| DayGrouping.InsertDay | CalorieCalculator/Modules/Main/MainViewModel.swift:32-34 | Adding a day key keeps the keys strictly descending, and adds exactly that key |
| DayGrouping.DayKeys | CalorieCalculator/Modules/Main/MainViewModel.swift:32-34 | The keys are strictly descending, and a day is a key exactly when some entry falls on it |
| DayGrouping.EntriesOn | CalorieCalculator/Modules/Main/MainViewModel.swift:32-34 | A day's bucket holds exactly the entries on that day, with their multiplicities |
| DayGrouping.EntriesOnAppend | CalorieCalculator/Modules/Main/MainViewModel.swift:32-34 | Bucketing distributes over concatenation |
| DayGrouping.TodayEntriesIsBucket | CalorieCalculator/Modules/Main/MainViewModel.swift:45 | The service's today entries are the bucket of today's day |
| DayGrouping.InsertByDate | CalorieCalculator/Modules/Main/MainViewModel.swift:37 | Inserting into a list sorted by date keeps it sorted and adds exactly one copy of the entry |
| DayGrouping.SortByDate | CalorieCalculator/Modules/Main/MainViewModel.swift:37 | The result is sorted by date and is a permutation of the input |
| DayGrouping.SortByDateOfSorted | CalorieCalculator/Modules/Main/MainViewModel.swift:37 | Sorting a list already sorted by date leaves it unchanged |
| DayGrouping.Section | CalorieCalculator/Modules/Main/MainViewModel.swift:36-39 | A day's section: the day, that day's entries sorted by date, and their total. SectionEntries and SectionRegroup establish what it holds |
| DayGrouping.SectionsFor | CalorieCalculator/Modules/Main/MainViewModel.swift:36-40 | One section per given day, in the order of the days |
| DayGrouping.GroupByDay | CalorieCalculator/Modules/Main/MainViewModel.swift:32-43 | The sections of the day keys, most recent first. The GroupByDay lemmas below establish that it is descending, places each entry once in its own day, conserves the total and is idempotent |
| DayGrouping.TodaySection | CalorieCalculator/Modules/Main/MainViewModel.swift:45 | The first section dated today, if any. TodaySectionMatchesService establishes that it agrees with the service's today entries |
| DayGrouping.GroupByDayDescending | CalorieCalculator/Modules/Main/MainViewModel.swift:42 | Section dates are strictly descending, most recent first |
| DayGrouping.GroupByDaySections | CalorieCalculator/Modules/Main/MainViewModel.swift:36-40 | Each section is dated at a start of day, is non-empty, is sorted by date, and its total is its entries' total |
| DayGrouping.GroupByDayPermutation | CalorieCalculator/Modules/Main/MainViewModel.swift:32-43 | Taken together, the sections hold exactly the input entries, each once |
| DayGrouping.GroupByDayPlacement | CalorieCalculator/Modules/Main/MainViewModel.swift:32-43 | Every entry is in the section of its own day |
| DayGrouping.GroupByDayConservation | CalorieCalculator/Modules/Main/MainViewModel.swift:36-43 | The section totals add up to the total of all entries |
| DayGrouping.SectionsTotalFlatten | CalorieCalculator/Modules/Main/MainViewModel.swift:38-39 | When each section's total is its entries' total, the section totals add up to the total of all their entries |
| DayGrouping.DescendingUnique | CalorieCalculator/Modules/Main/MainViewModel.swift:42 | Two strictly descending key lists with the same members are equal |
| DayGrouping.SectionEntries | CalorieCalculator/Modules/Main/MainViewModel.swift:36-39 | A section holds only input entries of its own day |
| DayGrouping.DayKeysOfPermutation | CalorieCalculator/Modules/Main/MainViewModel.swift:32-34 | Reordering the entries does not change the day keys |
| DayGrouping.SectionRegroup | CalorieCalculator/Modules/Main/MainViewModel.swift:32-43 | Regrouping the flattened sections rebuilds each section unchanged |
| DayGrouping.GroupByDayRegroup | CalorieCalculator/Modules/Main/MainViewModel.swift:32-43 | Grouping is idempotent: grouping the flattened sections gives the same sections |
| DayGrouping.BucketIffKey | CalorieCalculator/Modules/Main/MainViewModel.swift:32-34 | A day's bucket is non-empty exactly when that day is a key |
| DayGrouping.TodaySectionMatchesService | CalorieCalculator/Modules/Main/MainViewModel.swift:45-51 | There is a today section exactly when the service finds today entries. That section holds those entries sorted by date, and their total |
| MainScreen.Edited | CalorieCalculator/Modules/Main/MainViewModel.swift:76-78 | The entry with the edited id gets the new title and calories, and any other entry is unchanged |
| MainScreen.EditedAll | CalorieCalculator/Modules/Main/MainViewModel.swift:76-78 | Applies the edit to every entry of a list. EditedAllExact establishes that, with unique ids, it changes exactly the one entry with that id, or nothing when no entry has it |
| MainScreen.EditedOption | CalorieCalculator/Modules/Main/MainViewModel.swift:76-78 | Applies the edit to an optional entry, and leaves an absent one absent |
| MainScreen.EditedSections | CalorieCalculator/Modules/Main/MainViewModel.swift:76-78 | Applies the edit to the entries of every section. Section totals are cached values and stay as they were |
| MainScreen.EditedAllExact | CalorieCalculator/Modules/Main/MainViewModel.swift:76-78 | In a store with unique ids, editing by id changes only that entry's title and calories, and ids stay unique. An absent id changes nothing |
| MainScreen.RemoveId | CalorieCalculator/Modules/Main/MainViewModel.swift:141 | The store without the entries that have the deleted id, in order. RemoveIdMembers, RemoveIdUnique, RemoveAbsentId, RemoveIdAppend and RemoveIdExact establish what it keeps |
| MainScreen.RemoveIdMembers | CalorieCalculator/Modules/Main/MainViewModel.swift:141 | After deletion, an entry remains exactly when it was in the store and has another id |
| MainScreen.RemoveIdUnique | CalorieCalculator/Modules/Main/MainViewModel.swift:141 | Deleting from a store with unique ids leaves a store with unique ids |
| MainScreen.RemoveAbsentId | CalorieCalculator/Modules/Main/MainViewModel.swift:141 | Deleting an id that is not in the store changes nothing |
| MainScreen.RemoveIdAppend | CalorieCalculator/Modules/Main/MainViewModel.swift:141 | Deletion distributes over concatenation |
| MainScreen.RemoveIdExact | CalorieCalculator/Modules/Main/MainViewModel.swift:141 | In a store with unique ids, deleting the id of the entry at `i` removes exactly that one entry |
| MainScreen.Submitted | CalorieCalculator/Modules/Main/MainViewModel.swift:99-104 | A submission is exactly the parse of the trimmed text, so every trimmed line that parses is submitted. A blank text field submits nothing |
| MainScreen.MainViewModel.constructor | CalorieCalculator/Modules/Main/MainViewModel.swift:7-21 | Every published field starts at its declared initial value, over a store with unique ids |
| MainScreen.MainViewModel.UpdateEntries | CalorieCalculator/Modules/Main/MainViewModel.swift:29-54 | The sections are the day grouping of all entries. Today's entries are the service's today entries sorted by date, and the total is theirs. Progress is measured against the 2000 kcal goal |
| MainScreen.MainViewModel.StartCreating | CalorieCalculator/Modules/Main/MainViewModel.swift:56-62 | Opens the sheet in create mode with an empty title, zero calories and no entry |
| MainScreen.MainViewModel.StartEditing | CalorieCalculator/Modules/Main/MainViewModel.swift:64-70 | Opens the sheet in edit mode on the entry, prefilled with its title and calories |
| MainScreen.MainViewModel.SaveFromSheet | CalorieCalculator/Modules/Main/MainViewModel.swift:72-93 | Edit mode sets the edited entry's title and calories in every holder, and the store keeps its size. Otherwise it appends one new entry made now with a fresh id. Either way the sheet closes and ids stay unique |
| MainScreen.MainViewModel.HandleAddTapped | CalorieCalculator/Modules/Main/MainViewModel.swift:95-119 | A blank or unparsable line changes nothing. A parsed line becomes pending. It raises the duplicate alert exactly when today's cached entries already hold its title, and is added otherwise, which clears the text field |
| MainScreen.MainViewModel.ConfirmAddDuplicate | CalorieCalculator/Modules/Main/MainViewModel.swift:121-132 | Appends the pending entry, clears the text field and closes the alert |
| MainScreen.MainViewModel.RequestDelete | CalorieCalculator/Modules/Main/MainViewModel.swift:134-137 | Remembers the entry and raises the delete alert |
| MainScreen.MainViewModel.ConfirmDelete | CalorieCalculator/Modules/Main/MainViewModel.swift:139-145 | With no remembered entry, nothing changes. Otherwise removes every entry with its id, forgets it, closes the alert, and ids stay unique |
| MainScreen.MainViewModel.AddEntry | CalorieCalculator/Modules/Main/MainViewModel.swift:147-164 | Appends exactly one entry made now with a fresh id, clears the text field, and ids stay unique |

## Left out

- Time zones and daylight saving: days are fixed 86400-second UTC days, not `Calendar.current` local days.
- Case-insensitive comparison folds ASCII letters only, scalar by scalar. Foundation's full Unicode case folding is not modelled. Nor is its treatment of canonically equivalent strings as equal (a precomposed "é" and "e" followed by U+0301). So `hasDuplicate` can report a duplicate that `HasDuplicate` misses.
- Strings are sequences of Unicode scalars. Swift's grapheme-cluster `Character` is not modelled.
- Progress is an exact `real`. The rounding of `Double` division is not modelled.
- TotalCalories: the runtime trap when the sum overflows 64-bit `Int` is not modelled. The sum is an unbounded integer.
- `DayModel.id` (a fresh UUID used only for SwiftUI list identity) is not modelled.
- Persistence: the store always accepts `insert`, `delete` and `save`. Errors ignored by `try? context.save()` are not modelled.
- The reload of entries from the store after each change is a call of `UpdateEntries` by the caller. The view model does not make that call itself.
- `dailyGoal` (MainViewModel.swift lines 25-27) is the constant `CalorieService.DailyGoal`.
- SortByDate: modelled as a stable insertion sort by date, so entries with equal dates keep their input order, as in Swift's stable sort. Its contract states only that the result is sorted and is a permutation of the input. Stability is not stated.
- The order of `Dictionary(grouping:)` is not observable after the descending sort, so that dictionary is not modelled.
- The photo picker, image loading, the edit sheet's own number parsing, date formatting and every other view file are not part of this model.
- `UUID()` and `Date()` are the `freshId` and `now` parameters. Fresh UUIDs are assumed not to collide with stored ids.
