/**
 * The schedule editor (components/RecitationSettings.js): how many
 * recitations a day and at which times, the 15-minute adjuster, the
 * two-hour spacing rule checked before saving, and the settings object it
 * saves. Alerts are left out; `onSave` is the settings a method returns.
 */
module RecitationSettings {
  import opened Wrappers
  import opened ClockTime
  import opened Records
  import opened Schedule
  import opened Services

  /** `DEFAULT_TIMES`. */
  const DefaultTimes := [Clock(9, 0), Clock(15, 0), Clock(21, 0)]

  /** Smallest gap between consecutive slots, in minutes (two hours). */
  const MinimumGap := 120

  /** The range of the count selector. */
  const FewestPerDay := 1
  const MostPerDay := 3

  /** `times.slice(0, n)`: at most the first `n` slots; a negative `n` drops that many from the end. */
  function Slice(times: seq<Clock>, n: int): (r: seq<Clock>)
    ensures |r| <= |times| && r == times[..|r|]
    ensures 0 <= n ==> |r| == if n < |times| then n else |times|
    ensures n < 0 ==> |r| == if -n < |times| then |times| + n else 0
  {
    if n < 0 then (if -n < |times| then times[..|times| + n] else [])
    else if n < |times| then times[..n] else times
  }

  /* ---------- validateTimes ---------- */

  /**
   * Each slot at least two hours after the one before it, in list order;
   * a list of at most one slot has no pair to check.
   */
  predicate Spaced(times: seq<Clock>)
    ensures |times| <= 1 ==> Spaced(times)
  {
    forall i :: 0 <= i < |times| - 1 ==> times[i + 1].Minutes() - times[i].Minutes() >= MinimumGap
  }

  /**
   * `validateTimes`: walks the consecutive pairs of the first `timesPerDay`
   * slots and fails at the first gap under two hours.
   */
  method ValidateTimes(recitationTimes: seq<Clock>, timesPerDay: int) returns (ok: bool)
    ensures ok <==> Spaced(Slice(recitationTimes, timesPerDay))
  {
    var times := Slice(recitationTimes, timesPerDay);
    var i := 0;
    while i < |times| - 1
      invariant 0 <= i && (i == 0 || i <= |times| - 1)
      invariant forall k :: 0 <= k < i ==> times[k + 1].Minutes() - times[k].Minutes() >= MinimumGap
    {
      if times[i + 1].Minutes() - times[i].Minutes() < MinimumGap {
        return false;
      }
      i := i + 1;
    }
    return true;
  }

  /** In a spaced list each slot lies at least two hours per step after every earlier one. */
  lemma {:induction false} SpacedGrows(times: seq<Clock>, i: int, j: int)
    requires Spaced(times) && 0 <= i <= j < |times|
    ensures times[j].Minutes() - times[i].Minutes() >= MinimumGap * (j - i)
    decreases j - i
  {
    if i < j {
      SpacedGrows(times, i, j - 1);
    }
  }

  /** An accepted list is strictly increasing in time of day, hence already sorted. */
  lemma SpacedIsIncreasing(times: seq<Clock>)
    requires Spaced(times)
    ensures forall i, j :: 0 <= i < j < |times| ==> times[i].Minutes() < times[j].Minutes()
    ensures SortedByMinute(times)
  {
    forall i, j | 0 <= i < j < |times|
      ensures times[i].Minutes() < times[j].Minutes()
    {
      SpacedGrows(times, i, j);
    }
  }

  /** A day has room for at most twelve slots two hours apart. */
  lemma SpacedAtMostTwelve(times: seq<Clock>)
    requires Spaced(times) && AllValid(times)
    ensures |times| <= 12
  {
    if |times| > 0 {
      SpacedGrows(times, 0, |times| - 1);
    }
  }

  /* ---------- adjustTime ---------- */

  /**
   * The new value of one slot after `adjustTime(index, step)`: past the end
   * of the hour the minute becomes 00 of the next hour, before its start 59
   * of the previous hour; hours wrap around midnight.
   */
  function AdjustedClock(c: Clock, step: int): (r: Clock)
    requires c.Valid()
    ensures r.Valid()
  {
    var newMinutes := c.minute + step;
    if newMinutes >= 60 then Clock(NextHour(c.hour), 0)
    else if newMinutes < 0 then Clock(PreviousHour(c.hour), 59)
    else Clock(c.hour, newMinutes)
  }

  /**
   * The adjuster on minutes since midnight: a step that stays inside the
   * hour moves the slot by exactly the step; one past the hour lands on the
   * next full hour, one before it on the last minute of the previous hour,
   * both modulo a day.
   */
  lemma AdjustOnMinutes(c: Clock, step: int)
    requires c.Valid()
    ensures 0 <= c.minute + step < 60 ==> AdjustedClock(c, step).Minutes() == c.Minutes() + step
    ensures c.minute + step >= 60 ==>
      AdjustedClock(c, step).Minutes() == (c.Minutes() - c.minute + 60) % 1440
    ensures c.minute + step < 0 ==>
      AdjustedClock(c, step).Minutes() == (c.Minutes() - c.minute - 1 + 1440) % 1440
  {
    var r := AdjustedClock(c, step);
    if c.minute + step >= 60 {
      var top := c.Minutes() - c.minute + 60;
      assert top == (c.hour + 1) * 60;
      if c.hour == 23 {
        assert r == Clock(0, 0);
        assert top % 1440 == 0;
      } else {
        assert r == Clock(c.hour + 1, 0);
        assert top % 1440 == top;
      }
    } else if c.minute + step < 0 {
      var last := c.Minutes() - c.minute - 1 + 1440;
      assert last == c.hour * 60 + 1439;
      if c.hour == 0 {
        assert r == Clock(23, 59);
        assert last % 1440 == 1439;
      } else {
        assert r == Clock(c.hour - 1, 59);
        assert last % 1440 == last - 1440;
      }
    }
  }

  /** A step forward and the same step back cancel while neither leaves the hour. */
  lemma AdjustUndone(c: Clock, step: int)
    requires c.Valid() && 0 <= step
    ensures c.minute + step < 60 ==> AdjustedClock(AdjustedClock(c, step), -step) == c
    ensures step <= c.minute ==> AdjustedClock(AdjustedClock(c, -step), step) == c
  {
  }

  /**
   * Otherwise they do not: 10:50 forward and back gives 10:59, and 00:10
   * back and forward gives 00:00. The first shows the wrap around midnight
   * as well: 23:45 forward is 00:00, 00:00 back is 23:59.
   */
  lemma AdjustNotUndone()
    ensures AdjustedClock(Clock(10, 50), 15) == Clock(11, 0)
    ensures AdjustedClock(AdjustedClock(Clock(10, 50), 15), -15) == Clock(10, 59)
    ensures AdjustedClock(AdjustedClock(Clock(0, 10), -15), 15) == Clock(0, 0)
    ensures AdjustedClock(Clock(23, 45), 15) == Clock(0, 0)
    ensures AdjustedClock(Clock(0, 0), -15) == Clock(23, 59)
  {
    assert NextHour(10) == 11;
    assert PreviousHour(0) == 23;
  }

  /* ---------- The count selector ---------- */

  /** `Math.max(1, timesPerDay - 1)`. */
  function Decremented(n: int): (r: int)
    ensures r >= FewestPerDay
    ensures n > FewestPerDay ==> r == n - 1
    ensures n <= FewestPerDay ==> r == FewestPerDay
  {
    if n - 1 > FewestPerDay then n - 1 else FewestPerDay
  }

  /** `Math.min(3, timesPerDay + 1)`. */
  function Incremented(n: int): (r: int)
    ensures r <= MostPerDay
    ensures n < MostPerDay ==> r == n + 1
    ensures n >= MostPerDay ==> r == MostPerDay
  {
    if n + 1 < MostPerDay then n + 1 else MostPerDay
  }

  /** Pressing either button keeps a count inside 1..3 inside it. */
  lemma {:induction false} SelectorStaysInRange(n: int, presses: seq<bool>)
    requires FewestPerDay <= n <= MostPerDay
    ensures FewestPerDay <= AfterPresses(n, presses) <= MostPerDay
    decreases |presses|
  {
    if presses != [] {
      SelectorStaysInRange(if presses[0] then Incremented(n) else Decremented(n), presses[1..]);
    }
  }

  /** The count after a series of presses, `true` for "+" and `false` for "-". */
  function AfterPresses(n: int, presses: seq<bool>): int
    decreases |presses|
  {
    if presses == [] then n
    else AfterPresses(if presses[0] then Incremented(n) else Decremented(n), presses[1..])
  }

  /* ---------- saveSettings ---------- */

  /**
   * The object `saveSettings` writes: the first `timesPerDay` slots, the
   * count, and the stored `soundEnabled` when there is one, else true.
   */
  function MergedSettings(existing: Option<StoredSettings>, times: seq<Clock>, timesPerDay: int): (r: Settings)
    ensures r.times == Slice(times, timesPerDay) && r.count == timesPerDay
    ensures existing.Some? && existing.value.soundEnabled.Some? ==> r.soundEnabled == existing.value.soundEnabled.value
    ensures !(existing.Some? && existing.value.soundEnabled.Some?) ==> r.soundEnabled
  {
    var sound := match existing
      case Some(s) => (match s.soundEnabled case Some(b) => b case None => true)
      case None => true;
    Settings(Slice(times, timesPerDay), timesPerDay, sound)
  }

  /**
   * What the editor saves is what the app reads back: the same slots, the
   * same count and the same sound preference.
   */
  lemma SavedSettingsReadBack(existing: Option<StoredSettings>, times: seq<Clock>, timesPerDay: int)
    requires timesPerDay != 0
    ensures var saved := MergedSettings(existing, times, timesPerDay);
      SettingsFrom(ToStored(saved)) == saved &&
      SettingsFrom(ToStored(saved)).times == Slice(times, timesPerDay) &&
      SettingsFrom(ToStored(saved)).count == timesPerDay
  {
    LoadAfterSave(MergedSettings(existing, times, timesPerDay));
  }

  /** The settings `adjustTime` hands over: the first `timesPerDay` slots and sound switched on. */
  function AdjustedSettings(times: seq<Clock>, timesPerDay: int): (r: Settings)
    ensures r.times == Slice(times, timesPerDay) && r.count == timesPerDay && r.soundEnabled
  {
    Settings(Slice(times, timesPerDay), timesPerDay, true)
  }

  /**
   * The adjuster hands its settings over without checking the spacing:
   * 09:00 and 11:00 pass the check, and moving the second slot back by 15
   * minutes hands over 09:00 and 10:59, which do not.
   */
  lemma AdjustSkipsValidation()
    ensures Spaced(Slice([Clock(9, 0), Clock(11, 0)], 2))
    ensures AdjustedClock(Clock(11, 0), -15) == Clock(10, 59)
    ensures !Spaced(AdjustedSettings([Clock(9, 0), Clock(11, 0)][1 := AdjustedClock(Clock(11, 0), -15)], 2).times)
  {
    assert PreviousHour(11) == 10;
    var after := [Clock(9, 0), Clock(11, 0)][1 := Clock(10, 59)];
    assert Slice(after, 2) == after;
    assert after[1].Minutes() - after[0].Minutes() == 119;
  }

  /* ---------- The editor ---------- */

  /** The component's state: the count selected and the list of slots edited. */
  class ScheduleEditor {
    var timesPerDay: int
    var recitationTimes: seq<Clock>
    const store: Store

    ghost predicate Valid()
      reads this
    {
      AllValid(recitationTimes)
    }

    /** The initial state: `settings?.count || 1` and `settings?.times || [...DEFAULT_TIMES]`. */
    constructor(settings: Option<Settings>, store: Store)
      requires settings.Some? ==> AllValid(settings.value.times)
      ensures Valid() && this.store == store
      ensures timesPerDay == if settings.Some? && settings.value.count != 0 then settings.value.count else 1
      ensures recitationTimes == if settings.Some? then settings.value.times else DefaultTimes
    {
      this.store := store;
      timesPerDay := if settings.Some? && settings.value.count != 0 then settings.value.count else 1;
      recitationTimes := if settings.Some? then settings.value.times else DefaultTimes;
    }

    /** The "-" button. */
    method Decrement()
      modifies this`timesPerDay
      ensures timesPerDay == Decremented(old(timesPerDay))
    {
      timesPerDay := Decremented(timesPerDay);
    }

    /** The "+" button. */
    method Increment()
      modifies this`timesPerDay
      ensures timesPerDay == Incremented(old(timesPerDay))
    {
      timesPerDay := Incremented(timesPerDay);
    }

    /**
     * `adjustTime(index, step)`: a copy of the list with the slot at
     * `index` moved, adopted, and handed over at once as settings.
     */
    method AdjustTime(index: int, step: int) returns (saved: Settings)
      requires Valid() && 0 <= index < |recitationTimes|
      modifies this`recitationTimes
      ensures Valid()
      ensures |recitationTimes| == |old(recitationTimes)|
      ensures recitationTimes[index] == AdjustedClock(old(recitationTimes)[index], step)
      ensures forall k :: 0 <= k < |recitationTimes| && k != index ==> recitationTimes[k] == old(recitationTimes)[k]
      ensures saved == AdjustedSettings(recitationTimes, timesPerDay)
    {
      var newTimes := recitationTimes;
      var time := newTimes[index];
      newTimes := newTimes[index := AdjustedClock(time, step)];
      recitationTimes := newTimes;
      saved := AdjustedSettings(newTimes, timesPerDay);
    }

    /** `saveSettings`: merge into the stored object, write it, and hand it over. */
    method SaveSettings() returns (saved: Settings)
      modifies store
      ensures saved == MergedSettings(StoredSettingsFrom(old(store.entries)), recitationTimes, timesPerDay)
      ensures store.entries == old(store.entries)[SettingsKey := Config(ToStored(saved))]
    {
      var existing := StoredSettingsFrom(store.entries);
      saved := MergedSettings(existing, recitationTimes, timesPerDay);
      store.SetItem(SettingsKey, Config(ToStored(saved)));
    }

    /** `handleSave`: save only a schedule that passes `validateTimes`; otherwise storage is untouched. */
    method HandleSave() returns (saved: Option<Settings>)
      modifies store
      ensures Spaced(Slice(recitationTimes, timesPerDay)) ==>
        saved == Some(MergedSettings(StoredSettingsFrom(old(store.entries)), recitationTimes, timesPerDay)) &&
        store.entries == old(store.entries)[SettingsKey := Config(ToStored(saved.value))]
      ensures !Spaced(Slice(recitationTimes, timesPerDay)) ==>
        saved == None && store.entries == old(store.entries)
    {
      var ok := ValidateTimes(recitationTimes, timesPerDay);
      saved := None;
      if ok {
        var settings := SaveSettings();
        saved := Some(settings);
      }
    }
  }
}
