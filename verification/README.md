# Mastery30 progress and economy engine, in Dafny

This project models the progress and economy engine of Mastery30, a habit
app in which a user joins multi-day challenges, ticks off one task per day,
earns points and tickets, and unlocks achievements.

The model covers:

- **The application state** (`MasteryApp.App`, from `App.tsx`). The class holds
  the user, the challenge catalog, the enrolment records (`UserProgress`), the
  challenge waiting for the burnout confirmation, and the selected challenge.
  It has one method per handler:
  - join through the admission gate, which asks for confirmation at two or
    more active records;
  - confirm or cancel the warning;
  - drop out;
  - create a challenge;
  - toggle a task;
  - edit a task's description;
  - merge reminder settings;
  - check achievements.
- **The pure record transitions** behind those handlers: modules `Progress`
  and `TaskLists`.
- **The task toggle and its ledger rule** (module `Toggle`). The nested `map`s
  that also assign the outer `pointsDelta` are modelled as two loops. Each
  loop is proved against a function specification.
- **The achievement evaluator** (module `Achievements`): the imperative pushes
  of `checkAchievements`, proved against a function.
- **The challenge authoring form** (module `TaskForm`):
  - the task builder, which uses the generator's answer when it has entries
    and falls back to "Task for day N" placeholders when it is empty;
  - the draft task edit;
  - the duration field's `parseInt(…) || 1`;
  - the final submit.
- **The constants** (module `Constants`): points per task, tickets per
  completion, categories, titles, the achievement catalog, and the two
  initial challenges.

Each handler keeps the per-record invariant `Consistent`:
- the points figure is the completed-task count times 10;
- `completed` is set only when every task is done.

With no duplicate enrolment and unique task ids, the toggle keeps the user's
running points balance reconciled with the from-scratch figure: completed
tasks over all records, times 10.

## Behaviour of the code worth knowing

- **Duplicate enrolment.** Joining is never refused when a record for the
  challenge already exists; only the catalog card hides the button. Lemmas
  that need uniqueness take `NoDuplicateEnrollment` as a precondition.
- **Ticket bonus under duplicate enrolment.** The bonus reads the FIRST
  record of the selected challenge (`find`), not the record whose task was
  flipped. With two records of one challenge, the first having no tasks (and
  therefore `completed` after any toggle), completing one of two tasks of the
  second earns the bonus although that record is not all done
  (`Toggle.DuplicateEnrollmentBonusFromFirst`).
- **Unknown ids and `failed` records.** A toggle whose task id is absent is
  not an error: points do not move. Every selected record is still rebuilt,
  so a record with no tasks becomes `completed`. A `failed` record is toggled
  like any other.
- **Ticket bonus.** The bonus is credited on every crossing into `completed`,
  including a re-completion after an undo, not only the first.

## Model

| member | source | states |
|---|---|---|
| Constants.EconomyConstants | constants.tsx:3-16 | Points per task is 10; the ticket bonus is 5; there are five titles, the first being "The Novice". |
| Constants.AchievementCatalogShape | constants.tsx:28-34 | There are five achievements with pairwise distinct ids, none unlocked. Entries 0, 2 and 4 are a1, a3 and a5. |
| Constants.MockChallengesPricedAndEmpty | constants.tsx:36-65 | Each initial challenge is priced at totalDays × 10 (300 and 1000) and has an empty task list. |
| TaskLists.AllCompleted | App.tsx:131 | The `every(t => t.isCompleted)` test (no contract of its own). CompletedCountFull states that it holds iff the completed count equals the length. |
| TaskLists.CompletedCount | App.tsx:138 | The number of completed tasks is at most the list length. |
| TaskLists.CompletedCountFull | App.tsx:131-138 | The count equals the length iff every task is completed (`every`), and is 0 when none is. |
| TaskLists.CompletedCountSameFlags | App.tsx:138 | Lists with the same completion flags position by position have the same count. |
| TaskLists.EditDescription | App.tsx:165 | Only the description of tasks with that id changes; length, order, ids, days, flags and timestamps are kept. |
| TaskLists.EditKeepsCompletion | components/CreateChallengeForm.tsx:52-54 | An edit changes neither the completed count nor whether all tasks are done. |
| TaskLists.EditAbsentIsNoOp | App.tsx:165 | Editing an absent id leaves the list unchanged. |
| Progress.ActiveCount | App.tsx:72 | The count of `active` records is at most the number of records. |
| Progress.ConsistentPointsBounded | App.tsx:131-138 | A consistent record's points lie in 0..10×tasks, and are the maximum when it is `completed`. |
| Progress.SameCounts | App.tsx:57-72 | Lists that agree record by record on status and completed count have the same active count and completed total. |
| Progress.CloneTasks | App.tsx:87 | The clone has the template's length, ids, days, descriptions, timestamps and proof links. Every clone task is incomplete, so the count is 0. |
| Progress.NewProgress | App.tsx:81-90 | The new record is `active` for that user and challenge, started now, with 0 points and reminders on at "09:00". It carries a clone of the template's tasks and is consistent. |
| Progress.JoinCounts | App.tsx:92 | Appending the new record adds one to the active count, keeps the completed total, and keeps `Consistent`. |
| Progress.DropOut | App.tsx:100 | The `filter` never lengthens the list, and no remaining record has the dropped challenge id. DropOutMembers and DropOutConcat give the exact survivors and their order. |
| Progress.DropOutMembers | App.tsx:100 | After a drop-out, exactly the records of other challenges remain. |
| Progress.DropOutConcat | App.tsx:100 | Drop-out distributes over concatenation, so survivors keep their order. |
| Progress.DropOutNoOp | App.tsx:100 | Drop-out leaves the list unchanged iff no record has that challenge id. |
| Progress.DropOutIdempotent | App.tsx:99-103 | Dropping out twice equals dropping out once; the result stays consistent. |
| Progress.IsSelected | App.tsx:121 | The test `p.challengeId === selectedChallengeId` (no contract of its own); it is false for every record when nothing is selected (`null`). ToggleAll, FirstSelected, EditInSelected and UpdateSettings state what it selects. |
| Progress.EditInSelected | App.tsx:161-168 | Selected records get the description edit; other records are unchanged. |
| Progress.EditKeepsEconomy | App.tsx:161-168 | A task edit changes no status, points figure, active count or completed total, and keeps `Consistent`. |
| Progress.MergeSettings | App.tsx:157 | Fields present in the patch replace the reminder preference; nothing else changes. |
| Progress.UpdateSettings | App.tsx:155-159 | Only selected records get the patch merged. |
| Progress.SettingsIdempotent | App.tsx:155-159 | The same patch twice equals once; an empty patch is a no-op; the counts and `Consistent` are kept. |
| Toggle.Flip | App.tsx:124-126 | The flag is negated; the timestamp is set when completing and cleared when undoing; nothing else changes. |
| Toggle.ToggleTasks | App.tsx:122-129 | Tasks with that id are flipped; the others are kept. |
| Toggle.ToggleRecord | App.tsx:131-139 | The status is `completed` iff every task is now done, else `active`. Points are recomputed from the tasks and lie in 0..10×tasks. The record stays consistent; its other fields are unchanged. |
| Toggle.ToggleAll | App.tsx:120-142 | Selected records are toggled; the others are kept. |
| Toggle.LastMatch | App.tsx:123-125 | The task that last assigns `pointsDelta` has that id and is in the list. |
| Toggle.LastToggled | App.tsx:120-125 | The last flipped task, across records, belongs to a selected record and has that id. |
| Toggle.DeltaFor | App.tsx:124-125 | The delta of one flip is 0 iff nothing was flipped, +10 iff the flipped task was incomplete (a completion), and -10 otherwise. |
| Toggle.PointsDelta | App.tsx:119-125 | `pointsDelta` lies in -10..10. It is 0 iff no selected task matched, and positive iff the last flipped task was a completion. |
| Toggle.FirstSelected | App.tsx:147 | `find` returns the FIRST selected record: a record of the list that is selected, with no selected record before it. It returns None only when no record is selected. |
| Toggle.EarnsBonus | App.tsx:147 | The bonus is earned iff the delta is positive and the first selected record after the toggle is `completed`. |
| Toggle.Ledger | App.tsx:144-150 | Points move by the delta. Tickets rise by 5 when the bonus is earned and never fall. |
| Toggle.TasksStep | App.tsx:122-129 | One more task extends the toggled list by that task's image and updates the last match. |
| Toggle.AcrossStep | App.tsx:120-142 | One more record extends the toggled records by its image and updates pointsDelta as its last match dictates. |
| Toggle.ToggleInTasks | App.tsx:122-129 | The loop's task list equals ToggleTasks. Its delta is that of the last matching task, or the entry value when none matches. |
| Toggle.ToggleAcross | App.tsx:119-142 | The loop's record list equals ToggleAll, and its delta equals PointsDelta. |
| Toggle.LastMatchUnique | App.tsx:123 | With unique ids, the flipped task is the one with that id. |
| Toggle.LastMatchNone | App.tsx:123-128 | No task is flipped iff no task has that id; the list is then unchanged. |
| Toggle.ToggleCount | App.tsx:138 | With unique ids, the completed count moves by +1 on a completion, -1 on an undo, and 0 with no match. |
| Toggle.PointsTrackCompletions | App.tsx:119-146 | With no duplicate enrolment and unique ids, the points delta is exactly 10 × the change in completed tasks over all records. |
| Toggle.FirstSelectedUnique | App.tsx:147 | With no duplicate enrolment, `find` returns the one selected record. |
| Toggle.LastToggledSomeIfMatch | App.tsx:120-125 | A task with that id in any selected record is flipped, so pointsDelta is not 0. With PointsDelta's contract: pointsDelta is 0 iff no selected task has that id. |
| Toggle.LastToggledNoneSelected | App.tsx:120-125 | With no record selected, no task is flipped and pointsDelta stays 0. |
| Toggle.LastToggledOnly | App.tsx:120-125 | With no duplicate enrolment, the flipped task is the last one with that id in the one selected record. |
| Toggle.BonusOnCompletionEdge | App.tsx:147-149 | With record k the selected one and no duplicate enrolment, the bonus is earned iff a task was completed (not undone) and record k is now all done. Record k was then not all done before. An undo or a miss never earns it. |
| Toggle.DuplicateEnrollmentBonusFromFirst | App.tsx:147-149 | With two records of one challenge, the first having no tasks, completing one of two tasks of the second earns +10 and the bonus, though the second is not all done. |
| Toggle.UndoReopens | App.tsx:131-132 | Undoing a completed task makes the record `active` with points below the maximum, whatever its status was. |
| Toggle.ZeroTaskRecordCompletes | App.tsx:131 | A selected record with no tasks becomes `completed` on any toggle, with delta 0 and no bonus. |
| Toggle.MockJoinThenToggle | App.tsx:80-90 | Joining an initial challenge, then toggling, gives a `completed` record with 0 points. |
| Toggle.ToggleKeepsConsistent | App.tsx:120-142 | A toggle keeps `Consistent`, the number and order of records, and their challenge ids. |
| Achievements.AnyTaskCompleted | App.tsx:52 | Rule of a1 (no contract of its own): some task of some record is completed. EvaluatedGrants states its effect. |
| Achievements.ThreeActive | App.tsx:57-58 | Rule of a3 (no contract of its own): at least three records are active. ThirdActiveJoinUnlocksA3 and EvaluatedGrants state its effect. |
| Achievements.LongChallengeCompleted | App.tsx:62 | Rule of a5 (no contract of its own): some completed record has at least 30 tasks. EvaluatedGrants states its effect. |
| Achievements.Grant | App.tsx:51-53 | One guarded push (no contract of its own). GrantExtends and GrantHolds state what it does. |
| Achievements.GrantInOrder | App.tsx:51-64 | The three guarded pushes in catalog order (no contract of its own). GrantInOrderExtends states what they do. |
| Achievements.Evaluated | App.tsx:49-64 | The list `checkAchievements` builds (no contract of its own). EvaluatedExtends, EvaluatedGrants, EvaluatedIdempotent and EvaluatedMonotonic state what it is. |
| Achievements.Evaluate | App.tsx:49-65 | The loop's pushes give Evaluated; the held list is a prefix. a1, a3 and a5 are held iff held before or their rule holds. |
| Achievements.HasAchievement | App.tsx:51-61 | The truthiness of `find(a => a.id === id)` (no contract of its own). HasAfterAppend and EvaluatedGrants state how it changes. |
| Achievements.HasAfterAppend | App.tsx:53 | After a push, an id is held iff it was held before or is the pushed id. Pushing an absent id keeps ids distinct. |
| Achievements.GrantExtends | App.tsx:51-54 | One guarded push only appends (at most one entry) and keeps ids distinct. |
| Achievements.GrantHolds | App.tsx:51-54 | After a guarded push, an id is held iff it was held before or its rule fired. |
| Achievements.EvaluatedExtends | App.tsx:48-65 | The evaluator only appends: at most three entries, each a stamped a1, a3 or a5; distinct ids stay distinct. |
| Achievements.GrantInOrderExtends | App.tsx:51-64 | The three guarded pushes, over any rule outcomes, keep the prefix, the bound and distinct ids. |
| Achievements.EvaluatedGrants | App.tsx:51-64 | a1, a3 and a5 are held afterwards iff they were held before or their rule holds (some task done; three or more active records; a completed record of 30+ tasks). a2 and a4 are held afterwards iff they were held before. |
| Achievements.EvaluatedIdempotent | App.tsx:51-64 | Evaluating again on the same records, at any time, adds nothing. |
| Achievements.EvaluatedMonotonic | App.tsx:49-66 | A held achievement stays held. When the length is unchanged, the list is unchanged. |
| Achievements.ThirdActiveJoinUnlocksA3 | App.tsx:56-58 | A join that brings the active count to three unlocks a3. |
| MasteryApp.DefaultUserShape | App.tsx:14-23 | The constant DefaultUser, the user a fresh instance starts with, has "The Novice", 0 points, 5 tickets and no achievements. |
| MasteryApp.NewChallenge | App.tsx:106-112 | The draft's fields, a fresh id and the creator are kept; the price is totalDays × 10 whatever the draft says. |
| MasteryApp.CompletedRecordEarnsPointsValue | App.tsx:111-138 | Where a challenge has one task per day, a completed consistent record of it has earned exactly its points value. |
| MasteryApp.SettleToggle | App.tsx:144-152 | This is the intended composition: the ledger update (points by delta, tickets by bonus), then achievements, which only append. Name, title and the rest are kept. |
| MasteryApp.ToggledUser | App.tsx:118-152 | The intended user after a toggle: points move by PointsDelta, tickets rise by 5 iff EarnsBonus, and the held achievements stay a prefix. |
| MasteryApp.ToggledUserAsWritten | App.tsx:144-152 | The user as the source leaves it: points move by PointsDelta, tickets rise by 0 or 5, and the held achievements stay a prefix. The Findings row shows when the 5 is lost. |
| MasteryApp.AsWrittenDiffersOnlyWhenBonusMeetsUnlock | App.tsx:144-152 | The source's result equals the intended one iff the toggle does not both earn the bonus and unlock an achievement. When it does both, the source keeps the old ticket balance. |
| MasteryApp.AsWrittenLosesTicketBonus | App.tsx:144-152 | Example: completing a one-task challenge as a new user leaves 5 tickets as written; the intended result is 10. |
| MasteryApp.App.constructor | App.tsx:12-38 | State is what was loaded, or else the default user, the initial catalog and no records. There is no pending warning and no selection. |
| MasteryApp.App.SelectChallenge | App.tsx:37 | The selected challenge becomes the given one. |
| MasteryApp.App.CheckAchievements | App.tsx:48-69 | When something was unlocked, the user becomes the given user with the longer list; otherwise the user is unchanged. |
| MasteryApp.App.ConfirmJoin | App.tsx:80-97 | The new record is appended with no duplicate check, and the warning is closed. Achievements are evaluated on the new records. The active count grows by one; `Consistent` is kept. |
| MasteryApp.App.HandleJoinChallenge | App.tsx:71-78 | At two or more active records, only the warning is set; otherwise the join happens at once. |
| MasteryApp.App.ConfirmBurnoutWarning | App.tsx:317 | Joins the pending challenge without re-checking the active count. The active count rises by one and `Consistent` is kept. |
| MasteryApp.App.CancelBurnoutWarning | App.tsx:318 | Closes the warning; nothing else changes. |
| MasteryApp.App.HandleDropOut | App.tsx:99-103 | Exactly the records of other challenges remain, in order. The selection is cleared; `Consistent` is kept. |
| MasteryApp.App.HandleCreateChallenge | App.tsx:105-116 | The priced challenge is put at the front of the catalog, other entries unchanged, then the creator goes through the gate. |
| MasteryApp.App.HandleTaskToggle | App.tsx:118-153 | The records become ToggleAll, and the user becomes SettleToggle with PointsDelta and the bonus rule. Tickets never fall. `Consistent` is kept. Under uniqueness, points minus 10 × completed tasks is unchanged. |
| MasteryApp.App.HandleUpdateSettings | App.tsx:155-159 | The records become UpdateSettings; `Consistent` is kept. |
| MasteryApp.App.HandleTaskEdit | App.tsx:161-168 | The records become EditInSelected; the active count, completed total and `Consistent` are kept. |
| TaskForm.DigitChar | components/CreateChallengeForm.tsx:44 | The digit character for 0..9 is a digit whose value is the number. |
| TaskForm.NatToString | components/CreateChallengeForm.tsx:44 | The decimal text is non-empty and all digits; it starts with '0' iff the number is 0. |
| TaskForm.DigitsValue | components/CreateChallengeForm.tsx:136 | A digit run denotes 0 iff every digit is '0'. |
| TaskForm.DigitsValueOfNatToString | components/CreateChallengeForm.tsx:44 | Reading back the printed number gives the number. |
| TaskForm.NatToStringInjective | components/CreateChallengeForm.tsx:44 | Two numbers print the same iff they are equal. |
| TaskForm.SkipSpace | components/CreateChallengeForm.tsx:136 | Everything skipped is white space, and the rest does not start with white space. SkipSpaceSuffix states that the rest is the suffix of the input. |
| TaskForm.SkipSpaceSuffix | components/CreateChallengeForm.tsx:136 | What white space skipping leaves is the suffix of the input. |
| TaskForm.SkipSpaceOf | components/CreateChallengeForm.tsx:136 | White space put in front of a text is skipped whole. |
| TaskForm.LeadingDigits | components/CreateChallengeForm.tsx:136 | The result is the longest all-digit prefix. |
| TaskForm.LeadingDigitsOfNumber | components/CreateChallengeForm.tsx:136 | A digit run followed by a non-digit is read whole. |
| TaskForm.AfterSign | components/CreateChallengeForm.tsx:136 | Exactly one leading `+` or `-` is dropped. Text with no sign is kept whole. |
| TaskForm.SignedValue | components/CreateChallengeForm.tsx:136 | The result is NaN iff the text after the sign does not start with a digit. |
| TaskForm.SignedValueOfDigits | components/CreateChallengeForm.tsx:136 | A digit run followed by a non-digit reads as its value, with the sign applied. |
| TaskForm.ParseInt | components/CreateChallengeForm.tsx:136 | `parseInt` is NaN iff no digit follows the white space and an optional sign. |
| TaskForm.StartsWithDigit | components/CreateChallengeForm.tsx:136 | Text that starts with a digit has no white space or sign to skip. |
| TaskForm.ParseIntOfDigits | components/CreateChallengeForm.tsx:136 | A digit run followed by a non-digit parses to the number it denotes. |
| TaskForm.ParseIntOfNegatedDigits | components/CreateChallengeForm.tsx:136 | With a leading '-', it parses to the negated number. |
| TaskForm.ParseIntOfPlusDigits | components/CreateChallengeForm.tsx:136 | With a leading '+', it parses to the number itself. |
| TaskForm.ParseIntAfterSpace | components/CreateChallengeForm.tsx:136 | Leading white space does not change what a text parses to. |
| TaskForm.ParseIntOfNatToString | components/CreateChallengeForm.tsx:136 | Parsing a printed number, with or without '-', followed by a non-digit gives that number or its negation. |
| TaskForm.DurationOrDefault | components/CreateChallengeForm.tsx:136 | The duration is never 0. It is 1 iff the parse is NaN, 0 or 1; otherwise it is the parsed number. |
| TaskForm.DurationFallbackExamples | components/CreateChallengeForm.tsx:136 | "" and "0" give one day. |
| TaskForm.DurationNumberExample | components/CreateChallengeForm.tsx:136 | "45" gives 45. |
| TaskForm.DurationFractionExample | components/CreateChallengeForm.tsx:136 | "7.5" gives 7. |
| TaskForm.DurationNegativeExample | components/CreateChallengeForm.tsx:136 | "-3" gives -3. |
| TaskForm.DurationOfPrintedNumber | components/CreateChallengeForm.tsx:136 | A printed positive number is taken as it is. |
| TaskForm.DayOr | components/CreateChallengeForm.tsx:38 | The day is never 0; it is the position + 1 or the generator's own day. |
| TaskForm.FromGenerated | components/CreateChallengeForm.tsx:36-40 | There is one task per generated entry, none completed. |
| TaskForm.PlaceholderDescription | components/CreateChallengeForm.tsx:44 | The text is "Task for day " followed by decimal digits. |
| TaskForm.PlaceholderDescriptionInjective | components/CreateChallengeForm.tsx:44 | Placeholder descriptions of different days differ. |
| TaskForm.Placeholders | components/CreateChallengeForm.tsx:41-46 | There are n placeholder tasks, none completed. |
| TaskForm.BuildTasks | components/CreateChallengeForm.tsx:36-46 | The length is that of the answer if non-empty, else max(totalDays, 0). No task is completed, so the count is 0. |
| TaskForm.PlaceholderDays | components/CreateChallengeForm.tsx:41-46 | With an empty answer, there are exactly totalDays tasks, task k has day k+1, and days and descriptions are pairwise distinct. |
| TaskForm.GeneratedKept | components/CreateChallengeForm.tsx:36-40 | With a non-empty answer, length, order, descriptions and ids are kept; the day is the generator's, or the position + 1 when missing or 0. |
| TaskForm.FiveDayFallback | components/CreateChallengeForm.tsx:41-46 | Five days and no answer give "Task for day 1" to "Task for day 5". |
| TaskForm.Draft | components/CreateChallengeForm.tsx:57 | The `{ ...formData, tasks }` spread (no contract of its own). DraftRoundTrip states that it loses nothing. |
| TaskForm.FieldsOf | components/CreateChallengeForm.tsx:57 | The form fields of a draft (no contract of its own). DraftRoundTrip states that it inverts Draft. |
| TaskForm.DraftRoundTrip | components/CreateChallengeForm.tsx:56-58 | A draft is exactly the form fields plus the task list, and back. |
| TaskForm.ChallengeForm.constructor | components/CreateChallengeForm.tsx:14-23 | Empty texts, 30 days, the first category, public, no approval, no tasks. |
| TaskForm.ChallengeForm.GenerateTasks | components/CreateChallengeForm.tsx:32-50 | The tasks become BuildTasks of the answer and the current duration; none is completed. |
| TaskForm.ChallengeForm.EditTask | components/CreateChallengeForm.tsx:52-54 | The tasks become EditDescription; the completed count is kept. |
| TaskForm.ChallengeForm.SetDuration | components/CreateChallengeForm.tsx:136 | Only totalDays changes, to `parseInt(value) \|\| 1`, which is never 0. |
| TaskForm.ChallengeForm.FinalSubmit | components/CreateChallengeForm.tsx:56-58 | The draft holds exactly the form's fields and task list. |

## Left out

- Rendering, navigation tabs, the profile editor, and display percentages (`Math.round` of a ratio): presentation and floating point.
- Loading from and saving to local storage: I/O. The constructor takes the loaded values as `Option`s.
- The task generator service, a network client. Its answer is an input list, and a failure is the empty list. If the answer's `tasks` field is missing, the source throws; the model has no such case.
- `Math.random` ids and `Date.now` timestamps: parameters (`newId`, `idOf`, `now`).
- React's queued state updates. Handlers compose sequentially. The one place where the source's queueing changes the outcome is under Findings.
- The form's asynchronous step switch and spinner (`step`, `isGenerating`), and the setters for the other text fields: UI state with no rule.
- JavaScript number width: integers are unbounded.
- TaskForm.ParseInt: models base-10 `parseInt` over ASCII white space only. It omits the `0x` prefix and Unicode spaces, which a number input never yields.
- TaskForm.DayOr: a generated day is an integer or absent. A fractional generated day is not modelled.
- Progress.MergeSettings: the patch is restricted to the two reminder fields. The detail view (components/ChallengeDetail.tsx:174,177) in fact sends a copy of the whole displayed record with one reminder field changed. For the displayed record this is the same update. With duplicate enrolments, the source would also copy that record's other fields onto the other selected records; this is not modelled.
- TaskForm.ChallengeForm.GenerateTasks and TaskForm.ChallengeForm.FinalSubmit: the duration input declares `min="1" max="365"` (components/CreateChallengeForm.tsx:132-133), so the browser refuses to submit the first step for a duration outside 1..365, and the task step is reached only through that submit. This browser check is not modelled: the model accepts any `totalDays`, and BuildTasks then makes no placeholders for a negative one.
- TaskForm.ChallengeForm.SetDuration: the change handler (components/CreateChallengeForm.tsx:136) itself does not check the range. It stores `parseInt(value) || 1`, so `0` and NaN become 1 and other out-of-range numbers are kept until the browser check above refuses the submit.
- Toggle.PointsTrackCompletions, Toggle.LastToggledOnly and Toggle.BonusOnCompletionEdge: these need no duplicate enrolment (and unique task ids). The code does not enforce this, so they are stated as preconditions.

## Findings

| source | as written | input that shows it | evidently intended | confidence | as-written member | corrected member |
|---|---|---|---|---|---|---|
| App.tsx:144-152 | The ticket credit is queued as a functional `setUser`. `checkAchievements` then calls `setUser` with a stale copy of the user (the old tickets, the points adjusted). This replaces the queued result whenever an achievement unlocks. | A new user with one record of a one-task challenge completes that task. The challenge completes (bonus earned) and a1 unlocks in the same toggle; tickets stay 5. | Tickets become 10, and a1 is also recorded. | not executed | MasteryApp.AsWrittenLosesTicketBonus | MasteryApp.SettleToggle |
