# Recitation scheduler — a Dafny model

The app shows one big button. A recitation counts as done after 95 taps. The
user sets up to three daily recitation times ("slots", `HH:MM`, at least two
hours apart).

Every evaluation sorts the slots and classifies each one against the current
minute of the day:

- **passed**: strictly earlier than now;
- **exact**: at the same minute as now;
- **waiting**: not passed.

A slot that is exact and not completed gets a "time reached" notification.
A passed slot that is not completed is **missed**. Each missed slot is
reminded of once: its reminder is filed under `missed-HH:MM`, 30 minutes
ahead. The current slot is the oldest missed slot; failing that, the first
waiting one; failing that, none.

The 95th tap writes a completion record for the current slot to the day's
ledger, and saves a session to a history capped at ten entries. A new day
clears the ledger, forgets the reminders sent, and cancels every scheduled
notification.

The schedule editor offers a count selector clamped to 1..3, and moves a
slot by 15 minutes with the hour wrapping round. It saves a schedule only if
consecutive slots are two hours apart.

The model has these modules:

- `ClockTime` (clock.dfy): times of day and their `HH:MM` text. The lemma
  `FormatOrder` proves that text order equals minute order. This justifies
  modelling the source's string `.sort()` and `time > currentTime` as
  comparisons of minutes.
- `Records` (records.dfy): completion records, sessions, settings with the
  defaults applied on load, and notification requests. It also gives the
  meaning of a request log: which identifiers remain scheduled.
- `Schedule` (schedule.dfy): one evaluation stated as functions of the
  sorted slots, the completed slots and now, plus the lemmas about them.
  These are what the evaluation collects:
  - `Missed`: the missed slots;
  - `Upcoming`: the first waiting slot;
  - `DueNow`: the slots due now;
  - `Select`: the slot made current;
  - `Remind`: the slots reminded of;
  - `FindNext`: the next slot after a completion.
- `Services` (services.dfy): the key/value `Store` (AsyncStorage) and the
  notification `Gateway`, which records each request it receives.
- `App` (app.dfy): the main component as the class `RecitationApp`. Its
  fields are the component's state; each handler is a method proved against
  the `Schedule` functions.
- `RecitationSettings` (settings.dfy): the schedule editor as the class
  `ScheduleEditor`, with the spacing check, the adjuster, the clamps and
  the saved settings object.

The clock is an input. `now` is a `Clock`, and `today` is the date text. A
slot is a `Clock` value, where the source holds an `HH:MM` string.
`ParseFormat` and `FormatParse` show the two representations are
interchangeable for valid times.

Notes on how the code behaves, which the model follows:

- `handlePress` counts a tap that comes with no current slot once the
  ledger is not empty, and the record it then writes names no slot.
  `HandlePress` models this branch as written. It cannot be reached from
  the screen, because the counter button is disabled while there is no
  current slot (App.js:791-794).
- `RecitationApp.ScanSlots` and `RecitationApp.CheckRecitationTime` use the
  records-based completion test: a slot is completed when a ledger record
  names it. The code as written never sees a slot as completed; the row
  under "## Findings" covers that code.
- `forEach` does not wait for `handleMissedRecitation`, so a reminder pass
  sends all its cancellations before any of its schedule requests. The
  model logs each slot's cancellation and schedule request together, and
  `SourceOrderSamePending` proves that both orders leave the same
  reminders pending.
- `validateTimes` checks the slots in list order, not in sorted order. Any
  list it accepts is already increasing (`SpacedIsIncreasing`).
- The daily rollover does not clear the current slot. It cancels every
  scheduled notification, not only those of the previous day.
- The "time reached" notification is sent by every evaluation that falls in
  the slot's minute, not once per day.
- The editor's adjuster hands its settings to the app without the spacing
  check (`AdjustSkipsValidation`). It also switches sound back on.

## Model

| member | source | states |
|---|---|---|
| ClockTime.Pad2 | App.js:223 | `padStart(2, '0')` of a number below 100 gives two digits that read back as that number |
| ClockTime.Format | App.js:223 | `timeStr` is five characters: two digits, `:`, two digits |
| ClockTime.Parse | components/RecitationSettings.js:81 | splitting a `DD:DD` text at `:` gives two numbers below 100 |
| ClockTime.ParseFormat | components/RecitationSettings.js:81 | parsing the text of a valid time gives that time back |
| ClockTime.FormatParse | components/RecitationSettings.js:81 | a text that parses to a valid time is exactly that time's text |
| ClockTime.FormatInjective | App.js:223 | two valid times with the same text are equal |
| ClockTime.TextLessFive | App.js:551 | JavaScript `<` on two `HH:MM` texts compares them character by character |
| ClockTime.FormatOrder | App.js:237 | text order of `HH:MM` agrees with minute order, both ways |
| ClockTime.NextHour | components/RecitationSettings.js:88 | `(hours + 1) % 24` is an hour one later, modulo 24 |
| ClockTime.PreviousHour | components/RecitationSettings.js:91 | `(hours - 1 + 24) % 24` is an hour one earlier, modulo 24 |
| Records.CompletedSlots | App.js:550 | a slot is in the set iff some ledger record names it (`rec.time === time`) |
| Records.RecordCompletes | App.js:501-505 | appending a record for slot t completes t and leaves every other slot as it was |
| Records.PushSession | App.js:596 | the new session comes first, followed by the older ones in order, at most ten in all |
| Records.PushAllKeepsNewest | App.js:596 | saving many sessions keeps exactly the ten most recent, newest first |
| Records.ToStored | App.js:178 | the stored object holds every field of the settings |
| Records.SettingsFrom | App.js:132-137 | missing times become `['06:00']`; a missing or zero count becomes 1; an absent `soundEnabled` becomes true; anything present is kept |
| Records.LoadAfterSave | App.js:132-137 | settings saved and read back are unchanged, except that a count of 0 reads back as 1 |
| Records.Without | App.js:394 | cancelling an identifier removes exactly that identifier from those scheduled, and keeps a list without repeats free of repeats |
| Records.AfterRequests | App.js:394-409 | from identifiers without repeats, no identifier is ever scheduled twice: scheduling under an identifier replaces what was there |
| Records.CancelCommutes | App.js:394-409 | a cancellation and schedule requests under other identifiers give the same result in either order |
| Records.Cancellations | App.js:327-329 | one cancellation request per scheduled identifier, in order |
| Records.CancellationsRemove | App.js:327-329 | after the cancellations, exactly the identifiers not cancelled are still scheduled |
| Records.ImmediatesKeepPending | App.js:380-384 | immediate notifications never change what is scheduled |
| Records.CancellingAllClears | App.js:326-329 | cancelling every scheduled identifier leaves nothing scheduled |
| Schedule.Insert | App.js:237 | inserting into a sorted list keeps it sorted and adds just that slot |
| Schedule.InsertPermutes | App.js:237 | the inserted list is the old one plus the slot, as a multiset |
| Schedule.SortClocks | App.js:237 | the sorted slots are in minute order |
| Schedule.SortPermutes | App.js:237 | sorting is a permutation: same multiset, same members |
| Schedule.SortKeepsValid | App.js:237 | sorting valid times gives valid times |
| Schedule.SortedAsText | App.js:237 | a list sorted by minute is also sorted as text, which is the order `.sort()` produces |
| Schedule.PassedExcludesExact | App.js:249-251 | no slot is both passed and exact; a slot is not passed iff it is exact or later than now |
| Schedule.Missed | App.js:269-271 | missed slots of valid times are valid |
| Schedule.MissedMembers | App.js:249-271 | the missed list holds exactly the passed slots not completed |
| Schedule.MissedSorted | App.js:237-271 | the missed list of sorted slots is sorted |
| Schedule.Upcoming | App.js:272-276 | the next slot, if any, is a slot of the list that is neither passed nor completed |
| Schedule.UpcomingMembers | App.js:272-276 | there is no next slot iff no slot of the list is waiting |
| Schedule.UpcomingEarliest | App.js:237-277 | in sorted slots, the next slot is the earliest waiting one |
| Schedule.DueNow | App.js:263-266 | the slots due now of valid times are valid |
| Schedule.DueNowMembers | App.js:263-266 | exactly the slots at this minute and not completed get a "time reached" notification |
| Schedule.Select | App.js:280-302 | the current slot, if any, is a scheduled slot not completed; there is none iff every scheduled slot is completed |
| Schedule.OldestMissedFirst | App.js:291-294 | when a slot is missed, the current slot is a missed slot no later than any other missed slot |
| Schedule.EarliestWaitingOtherwise | App.js:295-302 | with no missed slot, the current slot is the earliest slot not completed, all of them lie at or after now, and there is none iff every slot is completed |
| Schedule.CompletedNeverReselected | App.js:250 | with the ledger read as records, a completed slot is never made current |
| Schedule.MissedId | App.js:393 | the reminder identifier is `missed-` followed by the slot's text |
| Schedule.MissedIdInjective | App.js:393 | different slots have different reminder identifiers |
| Schedule.TimeReached | App.js:380-384 | one notification per slot due |
| Schedule.TimeReachedEach | App.js:380-384 | the i-th "time reached" notification names the i-th slot due |
| Schedule.RemindersFor | App.js:393-409 | two requests per slot reminded of: cancel, then schedule |
| Schedule.Remind | App.js:285-289 | the slots reminded of are valid when the missed slots are |
| Schedule.RemindOnce | App.js:285-412 | a pass reminds only of missed slots that are not current and not notified, each once; afterwards every missed slot other than the current one is notified |
| Schedule.NotifiedStaysDistinct | App.js:388-412 | the notified list never holds a slot twice |
| Schedule.CancelPassesSchedules | App.js:394-409 | cancelling a slot's reminder commutes with scheduling the reminders of other slots |
| Schedule.SourceOrderSamePending | App.js:285-289 | for slots without repeats, all the cancellations followed by all the schedule requests (the order the un-awaited `forEach` produces) leave the same identifiers pending, in the same order, as the pairs sent slot by slot |
| Schedule.LaterOpen | App.js:549-551 | exactly the slots not completed whose text is after now's text |
| Schedule.FindNext | App.js:540-554 | the next slot, if any, is a scheduled slot not completed whose text comes after now's |
| Schedule.FindNextIsEarliestLater | App.js:540-554 | the next slot is the earliest slot not completed that is strictly after now; there is none iff no such slot exists |
| Schedule.DoneAsWritten | App.js:250 | `completedRecitations.includes(time)` holds for no slot, whatever the ledger holds |
| Schedule.SelectAsWritten | App.js:250 | as written, the current slot is chosen as if nothing were completed |
| Schedule.AsWrittenReselectsCompletedSlot | App.js:250 | as written, a slot completed at 09:10 is made current again at 09:10 |
| Services.Store.SetItem | App.js:168 | `setItem` replaces the value of that key only |
| Services.StoredSettingsFrom | App.js:128-131 | nothing is read iff the key is missing; a stored object is read as it is; anything else reads as an object with no fields; from well-formed storage the times read are valid |
| Services.Gateway.Pending | App.js:326 | the scheduled notifications have distinct identifiers |
| Services.Gateway.Submit | App.js:383 | a request is appended to the log |
| Services.Gateway.CancelAll | App.js:326-329 | one cancellation per scheduled notification, after which nothing is scheduled |
| App.NeedsRollover | App.js:318 | a missing or empty stored date rolls over; no rollover means the stored date is today's |
| App.RolledOver | App.js:318-321 | after a rollover, storage holds today's date and an empty ledger; other keys are unchanged |
| App.RolloverIdempotent | App.js:318 | once rolled over to a date, the same date does not roll over again |
| App.LedgerFrom | App.js:147-160 | the stored ledger if it is a list, else the empty ledger |
| App.PressRetiresSlot | App.js:501-505 | the record of the 95th tap completes the current slot, which is never made current again that day |
| App.RecitationApp.constructor | App.js:57-71 | the initial state: no taps, empty ledger, no reminders, no current slot, one slot at 06:00, sound on |
| App.RecitationApp.LoadRecitationSettings | App.js:126-145 | stored settings, with the defaults applied, replace the current ones; without stored settings nothing changes |
| App.RecitationApp.LoadCompletedRecitations | App.js:147-160 | the ledger becomes the stored list, or empty |
| App.RecitationApp.SaveCompletedRecitations | App.js:162-173 | the ledger is persisted and adopted |
| App.RecitationApp.SaveSession | App.js:590-603 | the history gains the new session first, keeps at most ten, and is persisted |
| App.RecitationApp.CheckDayChange | App.js:305-331 | rolls over iff the stored date is missing or differs: persists the date and an empty ledger, empties the ledger and the notified list, cancels every scheduled notification; otherwise changes nothing |
| App.RecitationApp.HandleRecitationTime | App.js:380-384 | one immediate "time reached" notification naming the slot |
| App.RecitationApp.HandleMissedRecitation | App.js:386-418 | a slot already notified changes nothing; otherwise its reminder is cancelled, then scheduled 30 minutes ahead, and the slot is noted |
| App.RecitationApp.HandlePress | App.js:452-538 | a refused tap changes nothing; another tap adds exactly 1; the 95th appends one record for the current slot, saves one session, resets the count and the current slot, and reports the day done iff the ledger length equals the configured count |
| App.RecitationApp.SaveRecitationSettings | App.js:175-186 | the new settings are stored and adopted, sound flag included; the current slot and the ledger in memory are cleared |
| App.RecitationApp.HandleSettingsSave | App.js:192-203 | the settings are saved as above, then the schedule is evaluated at once with nothing completed: `Select` of the new sorted slots becomes current, and the notifications and reminders of that evaluation are sent |
| App.RecitationApp.ToggleSound | App.js:443-450 | the sound flag flips and the settings are saved with it, which also clears the current slot and the ledger in memory |
| App.RecitationApp.CheckRecitationTime | App.js:227-303 | the new current slot is `Select` of the sorted slots; the notified list grows by `Remind` of the missed slots; the log grows by the "time reached" notifications, then the reminders |
| App.RecitationApp.PickCurrent | App.js:290-302 | the first missed slot, else the next waiting slot, else none becomes current |
| App.RecitationApp.ScanSlots | App.js:243-278 | the loop collects exactly `Missed` and `Upcoming` and sends the `DueNow` notifications |
| App.RecitationApp.ScanAt | App.js:244-277 | one turn of the scanning loop extends the missed slots, the next slot and the notifications sent as `Missed`, `Upcoming` and `DueNow` do |
| App.RecitationApp.RemindAt | App.js:286-289 | one turn of the reminder loop extends the notified list and the log as `Remind` does |
| App.RecitationApp.RemindOfMissed | App.js:285-289 | the reminder loop notes exactly `Remind` of the missed slots, requests their reminders, and keeps the notified list free of repeats |
| RecitationSettings.Slice | components/RecitationSettings.js:55 | `slice(0, n)` is the first n slots, or all of them; a negative n drops slots from the end |
| RecitationSettings.ValidateTimes | components/RecitationSettings.js:54-70 | true iff each consecutive pair among the first `timesPerDay` slots is at least 120 minutes apart |
| RecitationSettings.Spaced | components/RecitationSettings.js:56-61 | a list of at most one slot has no pair to check and passes |
| RecitationSettings.SpacedGrows | components/RecitationSettings.js:56-61 | in an accepted list, slot j lies at least 120·(j−i) minutes after slot i |
| RecitationSettings.SpacedIsIncreasing | components/RecitationSettings.js:56-61 | an accepted list is strictly increasing in time of day, hence sorted |
| RecitationSettings.SpacedAtMostTwelve | components/RecitationSettings.js:56-61 | an accepted list of valid times has at most twelve slots |
| RecitationSettings.AdjustedClock | components/RecitationSettings.js:83-94 | the adjusted slot is always a valid time of day |
| RecitationSettings.AdjustOnMinutes | components/RecitationSettings.js:83-92 | a step within the hour moves the slot by exactly the step; overflow lands on the next full hour; underflow lands on minute 59 of the previous hour (both modulo a day) |
| RecitationSettings.AdjustUndone | components/RecitationSettings.js:83-92 | a step and its opposite cancel when neither leaves the hour |
| RecitationSettings.AdjustNotUndone | components/RecitationSettings.js:86-92 | 23:45+15 gives 00:00 and 00:00−15 gives 23:59; 10:50+15−15 gives 10:59, so the steps do not cancel across an hour |
| RecitationSettings.Decremented | components/RecitationSettings.js:124 | the "-" count is at least 1: one less, or 1 |
| RecitationSettings.Incremented | components/RecitationSettings.js:131 | the "+" count is at most 3: one more, or 3 |
| RecitationSettings.SelectorStaysInRange | components/RecitationSettings.js:124-131 | any series of presses keeps a count in 1..3 in 1..3 |
| RecitationSettings.MergedSettings | components/RecitationSettings.js:38-44 | the saved times are the first `timesPerDay` slots and the count is `timesPerDay`; a stored `soundEnabled` is kept, else it is true |
| RecitationSettings.SavedSettingsReadBack | components/RecitationSettings.js:38-47 | the app reads back exactly what the editor saved |
| RecitationSettings.AdjustedSettings | components/RecitationSettings.js:98-103 | the adjuster hands over the first `timesPerDay` slots, the count, and sound on |
| RecitationSettings.AdjustSkipsValidation | components/RecitationSettings.js:78-105 | the adjuster can hand over a schedule that `validateTimes` rejects |
| RecitationSettings.ScheduleEditor.constructor | components/RecitationSettings.js:9-10 | the count is the given count unless absent or 0, then 1; the times are the given times, else 09:00, 15:00 and 21:00 |
| RecitationSettings.ScheduleEditor.Decrement | components/RecitationSettings.js:124 | the count becomes `max(1, n - 1)` |
| RecitationSettings.ScheduleEditor.Increment | components/RecitationSettings.js:131 | the count becomes `min(3, n + 1)` |
| RecitationSettings.ScheduleEditor.AdjustTime | components/RecitationSettings.js:78-105 | only the slot at `index` changes, to its adjusted value; the new list is handed over as settings |
| RecitationSettings.ScheduleEditor.SaveSettings | components/RecitationSettings.js:31-52 | the merged settings are written under `recitationSettings` and handed over |
| RecitationSettings.ScheduleEditor.HandleSave | components/RecitationSettings.js:72-76 | a schedule that fails `validateTimes` leaves storage untouched and hands nothing over; one that passes is saved |

## Left out

- Sound loading and playback, haptics, animation, theming and the screens other than the two components: these are media and rendering APIs with no logic to model.
- Time zones and `Intl.DateTimeFormat`: the time of day and the date text are inputs. Only the `HH:MM` formatting is modelled.
- Timers: the 30-second interval and the 100 ms `setTimeout` are not modelled. Every evaluation is one sequential call; the evaluation `saveRecitationSettings` defers (after `ToggleSound`, say) is a later call of `CheckRecitationTime`.
- React's stale closures are not modelled; each call sees the state left by the previous one. Within one reminder pass, `handleMissedRecitation` reads the notified list as it was before the pass. The model lets each call see the slots added by earlier calls in the same pass, which differs only for a schedule that lists the same time twice.
- App.RecitationApp.HandleSettingsSave: the source's direct `checkRecitationTime()` call still sees the old settings and ledger. The model evaluates once, on the new state.
- App.RecitationApp.HandlePress: the alert texts and the choice between the two "not available" alerts are not modelled. That choice compares a `{hours, minutes}` object with a `Date`, and the refused tap changes no state either way.
- Notification delivery and permissions: a reminder is a request with a 30-minute delay, not a `Date` trigger. Delivery is not modelled, so a reminder that has already fired stays in `Gateway.Pending`. The rollover then also cancels identifiers that `getAllScheduledNotificationsAsync` would no longer return.
- App.RecitationApp.RemindOfMissed: the log holds each slot's cancellation and schedule request side by side, where the source sends all cancellations of the pass first. `SourceOrderSamePending` shows that the scheduled identifiers come out the same.
- Failures are not modelled. Storage and the notification service never fail, so the `catch` branches and the `Array.isArray` guards of `saveCompletedRecitations` and `saveSession` are unreachable.
- A settings entry that is not valid JSON is not modelled. There, `JSON.parse` would throw; the model reads such an entry as an object without fields. Both writers only ever store an object.
- Stored times that are not valid `HH:MM` texts are not modelled: `LoadRecitationSettings` requires stored times to be valid times.
- `checkMissedRecitations`: as written it calls an undefined `format` and always ends in its `catch`.
- `getTimeStatus`: it compares an object with a `Date`.
- `checkAndResetDaily` and `loadLastResetDate`: neither is ever called.
- The editor's `loadSettings` runs only without a `settings` property, and the app always passes one.
- The `volume` field is left out because it is a floating-point setting with no logic attached.
- RecitationSettings.ValidateTimes: the source measures gaps with `Date` arithmetic on 2000-01-01. The model uses the difference in minutes of the day, which is the same for valid times on a day without a clock change.

## Findings

| source | as written | input that shows it | evidently intended | confidence | as-written member | corrected member |
|---|---|---|---|---|---|---|
| App.js:250 | `completedRecitations.includes(time)` compares the slot's text with ledger entries. Those entries are `{time, timestamp, actualTime}` objects (App.js:501-505), so no slot is ever seen as completed. | Slot 09:00 completed at 09:10: the next evaluation at 09:10 makes 09:00 current again and reminds of it. | A slot counts as completed when a ledger record names it (`rec.time === time`, as `findNextRecitationTime` does at App.js:550). | high (not executed) | Schedule.AsWrittenReselectsCompletedSlot | Schedule.CompletedNeverReselected |
