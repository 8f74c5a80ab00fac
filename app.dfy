/**
 * The state machine of the main screen (App.js): the tap counter, the day's
 * ledger of completed recitations, the reminders already sent, the current
 * slot, the capped history and the daily rollover. The clock is an input
 * (a time of day and a date text), storage is a `Store`, notifications go
 * to a `Gateway`.
 */
module App {
  import opened Wrappers
  import opened ClockTime
  import opened Records
  import opened Schedule
  import opened Services

  /** What a tap leads to; the source shows a different alert for each of the last two. */
  datatype PressOutcome =
    | Unavailable                     // no current slot and nothing completed today
    | Counted(count: int)             // one more tap toward 95
    | AllDone                         // the 95th tap completed the day's last recitation
    | SlotDone(next: Option<Clock>)   // the 95th tap completed a recitation; the next slot

  /**
   * `!lastResetDate || lastResetDate !== today`: a missing or empty stored
   * date rolls over, and only today's date itself does not.
   */
  predicate NeedsRollover(entries: map<string, Stored>, today: string)
    ensures ResetKey !in entries || today == [] ==> NeedsRollover(entries, today)
    ensures !NeedsRollover(entries, today) ==> entries[ResetKey] == Text(today)
  {
    !(ResetKey in entries && entries[ResetKey] == Text(today) && today != [])
  }

  /** The storage after a rollover: today's date and an empty ledger. */
  function RolledOver(entries: map<string, Stored>, today: string): (r: map<string, Stored>)
    ensures ResetKey in r && r[ResetKey] == Text(today)
    ensures LedgerKey in r && r[LedgerKey] == Ledger([])
    ensures forall k :: k in entries && k != ResetKey && k != LedgerKey ==> k in r && r[k] == entries[k]
  {
    entries[ResetKey := Text(today)][LedgerKey := Ledger([])]
  }

  /** Once rolled over to a (non-empty) date, the same date does not roll over again. */
  lemma RolloverIdempotent(entries: map<string, Stored>, today: string)
    requires today != []
    ensures !NeedsRollover(RolledOver(entries, today), today)
  {
    assert ResetKey != LedgerKey;
  }

  /**
   * The record the 95th tap appends completes the slot that was current:
   * no later evaluation the same day makes it current again.
   */
  lemma PressRetiresSlot(sorted: seq<Clock>, ledger: seq<Completion>, slot: Clock, timeStr: string, now: Clock)
    ensures var after := ledger + [Completion(Some(slot), timeStr, timeStr)];
      Completed(after, slot) && Select(sorted, CompletedSlots(after), now) != Some(slot)
  {
    var after := ledger + [Completion(Some(slot), timeStr, timeStr)];
    RecordCompletes(ledger, slot, timeStr, timeStr, slot);
    CompletedNeverReselected(sorted, after, now, slot);
  }

  /** `loadCompletedRecitations`: the stored ledger if it is a list, otherwise empty. */
  function LedgerFrom(entries: map<string, Stored>): (r: seq<Completion>)
    ensures LedgerKey in entries && entries[LedgerKey].Ledger? ==> r == entries[LedgerKey].records
    ensures !(LedgerKey in entries && entries[LedgerKey].Ledger?) ==> r == []
  {
    if LedgerKey in entries && entries[LedgerKey].Ledger? then entries[LedgerKey].records else []
  }

  class RecitationApp {
    var count: int
    var sessions: seq<Session>
    var completed: seq<Completion>
    var notified: seq<Clock>
    var current: Option<Clock>
    var settings: Settings
    var soundEnabled: bool
    const store: Store
    const gateway: Gateway

    ghost predicate Valid()
      reads this
    {
      && 0 <= count < ClicksPerRecitation
      && AllValid(settings.times)
      && NoDuplicates(notified)
      && |sessions| <= HistoryLimit
    }

    /** The initial state of the component. */
    constructor(store: Store, gateway: Gateway)
      ensures Valid()
      ensures this.store == store && this.gateway == gateway
      ensures count == 0 && sessions == [] && completed == [] && notified == [] && current == None
      ensures settings == DefaultSettings && soundEnabled
    {
      this.store := store;
      this.gateway := gateway;
      count := 0;
      sessions := [];
      completed := [];
      notified := [];
      current := None;
      settings := DefaultSettings;
      soundEnabled := true;
    }

    /** `loadRecitationSettings`: stored settings, with defaults for missing fields, replace the current ones. */
    method LoadRecitationSettings()
      requires Valid() && WellFormed(store.entries)
      modifies this`settings, this`soundEnabled
      ensures Valid()
      ensures StoredSettingsFrom(store.entries).Some? ==>
        settings == SettingsFrom(StoredSettingsFrom(store.entries).value) && soundEnabled == settings.soundEnabled
      ensures StoredSettingsFrom(store.entries).None? ==>
        settings == old(settings) && soundEnabled == old(soundEnabled)
    {
      var saved := StoredSettingsFrom(store.entries);
      if saved.Some? {
        var newSettings := SettingsFrom(saved.value);
        settings := newSettings;
        soundEnabled := newSettings.soundEnabled;
      }
    }

    /** `loadCompletedRecitations`. */
    method LoadCompletedRecitations()
      modifies this`completed
      ensures completed == LedgerFrom(store.entries)
    {
      completed := LedgerFrom(store.entries);
    }

    /** `saveCompletedRecitations`: persist the ledger, then adopt it. */
    method SaveCompletedRecitations(newCompleted: seq<Completion>)
      modifies this`completed, store
      ensures store.entries == old(store.entries)[LedgerKey := Ledger(newCompleted)]
      ensures completed == newCompleted
    {
      store.SetItem(LedgerKey, Ledger(newCompleted));
      completed := newCompleted;
    }

    /** `saveSession`: the new session first, at most ten kept, persisted. */
    method SaveSession(session: Session)
      modifies this`sessions, store
      ensures sessions == PushSession(old(sessions), session)
      ensures |sessions| <= HistoryLimit
      ensures store.entries == old(store.entries)[SessionsKey := History(sessions)]
    {
      var updated := PushSession(sessions, session);
      store.SetItem(SessionsKey, History(updated));
      sessions := updated;
    }

    /**
     * `checkDayChange`: when the stored date is missing or differs from
     * today, store today and an empty ledger, forget the ledger and the
     * reminders sent, and cancel every scheduled notification.
     */
    method CheckDayChange(today: string) returns (rolled: bool)
      requires Valid()
      modifies this`completed, this`notified, store, gateway
      ensures Valid()
      ensures rolled == NeedsRollover(old(store.entries), today)
      ensures rolled ==>
        store.entries == RolledOver(old(store.entries), today) &&
        completed == [] && notified == [] &&
        gateway.log == old(gateway.log) + Cancellations(old(gateway.Pending())) &&
        gateway.Pending() == []
      ensures !rolled ==>
        store.entries == old(store.entries) && completed == old(completed) &&
        notified == old(notified) && gateway.log == old(gateway.log)
    {
      rolled := NeedsRollover(store.entries, today);
      if rolled {
        store.SetItem(ResetKey, Text(today));
        store.SetItem(LedgerKey, Ledger([]));
        completed := [];
        notified := [];
        gateway.CancelAll();
      }
    }

    /** `handleRecitationTime`: an immediate "time reached" notification. */
    method HandleRecitationTime(time: Clock)
      requires time.Valid()
      modifies gateway
      ensures gateway.log == old(gateway.log) + [Immediate(TimeReachedTitle, TimeReachedBody(time))]
    {
      gateway.Submit(Immediate(TimeReachedTitle, TimeReachedBody(time)));
    }

    /**
     * `handleMissedRecitation`: unless the slot was reminded of already,
     * replace its reminder by one 30 minutes ahead and note the slot.
     */
    method HandleMissedRecitation(time: Clock)
      requires time.Valid()
      modifies this`notified, gateway
      ensures notified == old(notified) + (if time in old(notified) then [] else [time])
      ensures gateway.log == old(gateway.log) + (if time in old(notified) then [] else ReminderFor(time))
    {
      if time in notified {
        return;
      }
      var identifier := MissedId(time);
      gateway.Submit(Cancelled(identifier));
      gateway.Submit(Scheduled(identifier, ReminderDelay, ReminderTitle, ReminderBody(time)));
      notified := notified + [time];
    }

    /**
     * `handlePress`: with no current slot and an empty ledger the tap is
     * refused and nothing changes. Otherwise the tap is counted; the 95th
     * appends one record for the current slot to the ledger, saves a
     * session, resets the counter and clears the current slot, and reports
     * whether the ledger now holds as many records as recitations are
     * configured, or else the next slot (looked up on the ledger as it was
     * before the tap, which is what the handler's closure sees).
     */
    method HandlePress(now: Clock) returns (outcome: PressOutcome)
      requires Valid() && now.Valid()
      modifies this`count, this`completed, this`sessions, this`current, store
      ensures Valid()
      ensures old(current).None? && old(completed) == [] ==>
        outcome == Unavailable && count == old(count) && completed == old(completed) &&
        sessions == old(sessions) && current == old(current) && store.entries == old(store.entries)
      ensures !(old(current).None? && old(completed) == []) && old(count) + 1 < ClicksPerRecitation ==>
        outcome == Counted(old(count) + 1) && count == old(count) + 1 && completed == old(completed) &&
        sessions == old(sessions) && current == old(current) && store.entries == old(store.entries)
      ensures !(old(current).None? && old(completed) == []) && old(count) + 1 == ClicksPerRecitation ==>
        var record := Completion(old(current), Format(now), Format(now));
        var session := Session(Format(now), old(current), Format(now), ClicksPerRecitation);
        completed == old(completed) + [record] &&
        sessions == PushSession(old(sessions), session) &&
        count == 0 && current == None &&
        store.entries == old(store.entries)[LedgerKey := Ledger(completed)][SessionsKey := History(sessions)] &&
        outcome == if |completed| == settings.count then AllDone
                   else SlotDone(FindNext(settings.times, old(completed), now))
    {
      if current.None? && |completed| == 0 {
        return Unavailable;
      }
      var newCount := count + 1;
      count := newCount;
      outcome := Counted(newCount);
      if newCount == ClicksPerRecitation {
        var timeStr := Format(now);
        var ledger := completed;
        var newCompleted := ledger + [Completion(current, timeStr, timeStr)];
        SaveCompletedRecitations(newCompleted);
        SaveSession(Session(timeStr, current, timeStr, ClicksPerRecitation));
        count := 0;
        current := None;
        if |newCompleted| == settings.count {
          outcome := AllDone;
        } else {
          outcome := SlotDone(FindNext(settings.times, ledger, now));
        }
      }
    }

    /**
     * `saveRecitationSettings`: store the new settings and adopt them, and
     * forget the current slot and the ledger held in memory (the stored
     * ledger is left as it was). The evaluation it defers by 100 ms is a
     * later, separate call of CheckRecitationTime.
     */
    method SaveRecitationSettings(newSettings: Settings)
      requires Valid() && AllValid(newSettings.times)
      modifies this`settings, this`soundEnabled, this`current, this`completed, store
      ensures Valid()
      ensures settings == newSettings && soundEnabled == newSettings.soundEnabled
      ensures current == None && completed == []
      ensures store.entries == old(store.entries)[SettingsKey := Config(ToStored(newSettings))]
    {
      store.SetItem(SettingsKey, Config(ToStored(newSettings)));
      settings := newSettings;
      soundEnabled := newSettings.soundEnabled;
      current := None;
      completed := [];
    }

    /**
     * `handleSettingsSave`: save the new settings as above, then evaluate
     * the schedule at once, with nothing completed.
     */
    method HandleSettingsSave(newSettings: Settings, now: Clock)
      requires Valid() && AllValid(newSettings.times) && now.Valid()
      modifies this`settings, this`soundEnabled, this`current, this`completed, this`notified, store, gateway
      ensures Valid()
      ensures settings == newSettings && soundEnabled == newSettings.soundEnabled && completed == []
      ensures store.entries == old(store.entries)[SettingsKey := Config(ToStored(newSettings))]
      ensures var sorted := SortClocks(newSettings.times);
        var added := Remind(Missed(sorted, {}, now), None, old(notified));
        AllValid(added) && AllValid(DueNow(sorted, {}, now)) &&
        current == Select(sorted, {}, now) &&
        notified == old(notified) + added &&
        gateway.log == old(gateway.log) + TimeReached(DueNow(sorted, {}, now)) + RemindersFor(added)
    {
      SaveRecitationSettings(newSettings);
      assert CompletedSlots(completed) == {};
      CheckRecitationTime(now);
    }

    /**
     * `toggleSound`: flip the sound flag and save the settings with it,
     * which, like any save, also forgets the current slot and the ledger
     * held in memory.
     */
    method ToggleSound()
      requires Valid()
      modifies this`settings, this`soundEnabled, this`current, this`completed, store
      ensures Valid()
      ensures soundEnabled == !old(soundEnabled)
      ensures settings == old(settings).(soundEnabled := !old(soundEnabled))
      ensures current == None && completed == []
      ensures store.entries == old(store.entries)[SettingsKey := Config(ToStored(settings))]
    {
      SaveRecitationSettings(settings.(soundEnabled := !soundEnabled));
    }

    /**
     * `checkRecitationTime`: one pass over the sorted slots that sends a
     * "time reached" notification for each uncompleted slot whose minute it
     * is and collects the missed slots and the first waiting one; then
     * reminds of the missed slots other than the current one and makes the
     * first missed slot, else the first waiting one, else none, current.
     */
    method CheckRecitationTime(now: Clock)
      requires Valid() && now.Valid()
      modifies this`current, this`notified, gateway
      ensures Valid()
      ensures var sorted := SortClocks(old(settings.times));
        var done := CompletedSlots(old(completed));
        var added := Remind(Missed(sorted, done, now), old(current), old(notified));
        AllValid(added) && AllValid(DueNow(sorted, done, now)) &&
        current == Select(sorted, done, now) &&
        notified == old(notified) + added &&
        gateway.log == old(gateway.log) + TimeReached(DueNow(sorted, done, now)) + RemindersFor(added)
    {
      var sortedTimes := SortClocks(settings.times);
      SortKeepsValid(settings.times);
      var missedRecitations, nextRecitationTime := ScanSlots(sortedTimes, completed, now);
      if |missedRecitations| > 0 {
        RemindOfMissed(missedRecitations, current);
        AppendAssoc(old(gateway.log), TimeReached(DueNow(sortedTimes, CompletedSlots(old(completed)), now)),
          RemindersFor(Remind(missedRecitations, old(current), old(notified))));
      }
      PickCurrent(missedRecitations, nextRecitationTime);
    }

    /**
     * The end of `checkRecitationTime`: the first missed slot, else the
     * first waiting one, else none becomes current. The source assigns
     * only when the value differs, which leaves the same state.
     */
    method PickCurrent(missed: seq<Clock>, next: Option<Clock>)
      requires Valid()
      modifies this`current
      ensures Valid()
      ensures current == if |missed| > 0 then Some(missed[0]) else next
    {
      if |missed| > 0 {
        if Some(missed[0]) != current {
          current := Some(missed[0]);
        }
      } else if next.Some? && next != current {
        current := next;
      } else if next.None? && |missed| == 0 {
        current := None;
      }
    }

    /**
     * The loop of `checkRecitationTime` over the sorted slots: a "time
     * reached" notification for each slot of its exact minute not in the
     * ledger, the missed slots in order, and the first slot still ahead.
     */
    method ScanSlots(sortedTimes: seq<Clock>, ledger: seq<Completion>, now: Clock)
      returns (missed: seq<Clock>, next: Option<Clock>)
      requires AllValid(sortedTimes) && now.Valid()
      modifies gateway
      ensures missed == Missed(sortedTimes, CompletedSlots(ledger), now)
      ensures next == Upcoming(sortedTimes, CompletedSlots(ledger), now)
      ensures AllValid(DueNow(sortedTimes, CompletedSlots(ledger), now))
      ensures gateway.log == old(gateway.log) + TimeReached(DueNow(sortedTimes, CompletedSlots(ledger), now))
    {
      missed := [];
      next := None;
      ghost var log0 := gateway.log;
      var i := 0;
      while i < |sortedTimes|
        invariant 0 <= i <= |sortedTimes|
        invariant missed == Missed(sortedTimes[..i], CompletedSlots(ledger), now)
        invariant next == Upcoming(sortedTimes[..i], CompletedSlots(ledger), now)
        invariant gateway.log == log0 + TimeReached(DueNow(sortedTimes[..i], CompletedSlots(ledger), now))
      {
        missed, next := ScanAt(sortedTimes, i, ledger, now, missed, next, log0);
        i := i + 1;
      }
      assert sortedTimes[..i] == sortedTimes;
    }

    /**
     * One turn of that loop: the slot at `i` is classified against now,
     * notified when it is due, and added to the missed slots or taken as
     * the next slot.
     */
    method ScanAt(sortedTimes: seq<Clock>, i: int, ledger: seq<Completion>, now: Clock,
                  missed0: seq<Clock>, next0: Option<Clock>, ghost log0: seq<Request>)
      returns (missed: seq<Clock>, next: Option<Clock>)
      requires AllValid(sortedTimes) && now.Valid() && 0 <= i < |sortedTimes|
      requires missed0 == Missed(sortedTimes[..i], CompletedSlots(ledger), now)
      requires next0 == Upcoming(sortedTimes[..i], CompletedSlots(ledger), now)
      requires gateway.log == log0 + TimeReached(DueNow(sortedTimes[..i], CompletedSlots(ledger), now))
      modifies gateway
      ensures missed == Missed(sortedTimes[..i + 1], CompletedSlots(ledger), now)
      ensures next == Upcoming(sortedTimes[..i + 1], CompletedSlots(ledger), now)
      ensures gateway.log == log0 + TimeReached(DueNow(sortedTimes[..i + 1], CompletedSlots(ledger), now))
    {
      var nowInMinutes := now.Minutes();
      var time := sortedTimes[i];
      var recitationTimeInMinutes := time.Minutes();
      var isPassed := nowInMinutes > recitationTimeInMinutes;
      var isCompleted := Completed(ledger, time);
      var isExactTime := nowInMinutes == recitationTimeInMinutes;
      ghost var done := CompletedSlots(ledger);
      ScanAdvance(sortedTimes, i, done, now);
      ghost var sent := TimeReached(DueNow(sortedTimes[..i], done, now));
      if isExactTime && !isCompleted {
        HandleRecitationTime(time);
        AppendAssoc(log0, sent, [Immediate(TimeReachedTitle, TimeReachedBody(time))]);
      }
      missed, next := missed0, next0;
      if isPassed && !isCompleted {
        missed := missed + [time];
      }
      if !isPassed && !isCompleted && next.None? {
        next := Some(time);
      }
    }

    /** One turn of that `forEach`: the slot at `j` is skipped, or handed to `handleMissedRecitation`. */
    method RemindAt(missed: seq<Clock>, j: int, skip: Option<Clock>, ghost seen: seq<Clock>, ghost log0: seq<Request>)
      requires AllValid(missed) && 0 <= j < |missed|
      requires notified == seen + Remind(missed[..j], skip, seen)
      requires gateway.log == log0 + RemindersFor(Remind(missed[..j], skip, seen))
      modifies this`notified, gateway
      ensures notified == seen + Remind(missed[..j + 1], skip, seen)
      ensures gateway.log == log0 + RemindersFor(Remind(missed[..j + 1], skip, seen))
    {
      var time := missed[j];
      ghost var before := Remind(missed[..j], skip, seen);
      RemindAdvance(missed, j, skip, seen);
      if Some(time) != skip {
        HandleMissedRecitation(time);
        if time !in seen && time !in before {
          AppendAssoc(seen, before, [time]);
          AppendAssoc(log0, RemindersFor(before), ReminderFor(time));
        }
      }
    }

    /**
     * `missedRecitations.forEach(...)`: each missed slot other than the
     * current one goes to `handleMissedRecitation`.
     */
    method RemindOfMissed(missed: seq<Clock>, skip: Option<Clock>)
      requires Valid() && AllValid(missed)
      modifies this`notified, gateway
      ensures Valid()
      ensures AllValid(Remind(missed, skip, old(notified)))
      ensures notified == old(notified) + Remind(missed, skip, old(notified))
      ensures gateway.log == old(gateway.log) + RemindersFor(Remind(missed, skip, old(notified)))
    {
      ghost var seen := notified;
      ghost var log0 := gateway.log;
      var j := 0;
      while j < |missed|
        invariant 0 <= j <= |missed|
        invariant AllValid(missed[..j])
        invariant notified == seen + Remind(missed[..j], skip, seen)
        invariant gateway.log == log0 + RemindersFor(Remind(missed[..j], skip, seen))
      {
        RemindAt(missed, j, skip, seen, log0);
        j := j + 1;
      }
      assert missed[..j] == missed;
      NotifiedStaysDistinct(missed, skip, seen);
    }
  }
}
