/**
 * The evaluation rule of the recitation schedule (App.js
 * `checkRecitationTime`, `handleMissedRecitation`, `findNextRecitationTime`)
 * stated as functions of the sorted slots, the completed slots and the time
 * of day, with the properties the app relies on.
 */
module Schedule {
  import opened Wrappers
  import opened ClockTime
  import opened Records

  /* ---------- Sorting the slots ---------- */

  predicate SortedByMinute(s: seq<Clock>) {
    forall i, j :: 0 <= i < j < |s| ==> s[i].Minutes() <= s[j].Minutes()
  }

  /** A slot no later than every slot of a sorted sequence can lead it. */
  lemma ConsSorted(h: Clock, rest: seq<Clock>)
    requires SortedByMinute(rest)
    requires forall x :: x in rest ==> h.Minutes() <= x.Minutes()
    ensures SortedByMinute([h] + rest)
  {
    forall i, j | 0 <= i < j < |[h] + rest|
      ensures ([h] + rest)[i].Minutes() <= ([h] + rest)[j].Minutes()
    {
      if i > 0 {
        assert ([h] + rest)[i] == rest[i - 1];
      }
      assert ([h] + rest)[j] == rest[j - 1];
    }
  }

  function Insert(c: Clock, s: seq<Clock>): (r: seq<Clock>)
    requires SortedByMinute(s)
    ensures SortedByMinute(r)
    ensures forall x :: x in r <==> x in s || x == c
    decreases |s|
  {
    if s == [] || c.Minutes() <= s[0].Minutes() then
      ConsSorted(c, s);
      [c] + s
    else
      var rest := Insert(c, s[1..]);
      assert forall x :: x in s[1..] ==> s[0].Minutes() <= x.Minutes() by {
        forall x | x in s[1..] ensures s[0].Minutes() <= x.Minutes() {
          var k :| 0 <= k < |s[1..]| && s[1..][k] == x;
          assert x == s[k + 1];
        }
      }
      ConsSorted(s[0], rest);
      [s[0]] + rest
  }

  /** Inserting adds exactly the one slot. */
  lemma {:induction false} InsertPermutes(c: Clock, s: seq<Clock>)
    requires SortedByMinute(s)
    ensures multiset(Insert(c, s)) == multiset(s) + multiset{c}
    decreases |s|
  {
    if s != [] && c.Minutes() > s[0].Minutes() {
      InsertPermutes(c, s[1..]);
      assert s == [s[0]] + s[1..];
    }
  }

  /** `[...times].sort()`: the slots in chronological order. */
  function SortClocks(s: seq<Clock>): (r: seq<Clock>)
    ensures SortedByMinute(r)
    decreases |s|
  {
    if s == [] then []
    else Insert(s[0], SortClocks(s[1..]))
  }

  /** Sorting is a permutation: the same slots, each as often as before. */
  lemma {:induction false} SortPermutes(s: seq<Clock>)
    ensures multiset(SortClocks(s)) == multiset(s)
    ensures forall x :: x in SortClocks(s) <==> x in s
    decreases |s|
  {
    if s != [] {
      var rest := SortClocks(s[1..]);
      SortPermutes(s[1..]);
      InsertPermutes(s[0], rest);
      assert s == [s[0]] + s[1..];
      assert multiset(s) == multiset(s[1..]) + multiset{s[0]};
      forall x ensures x in SortClocks(s) <==> x in s {
        assert x in SortClocks(s) <==> x in rest || x == s[0];
      }
    }
  }

  /** Sorting valid times gives valid times. */
  lemma SortKeepsValid(s: seq<Clock>)
    requires AllValid(s)
    ensures AllValid(SortClocks(s))
  {
    SortPermutes(s);
    var r := SortClocks(s);
    forall i | 0 <= i < |r| ensures r[i].Valid() {
      assert r[i] in s;
      var j :| 0 <= j < |s| && s[j] == r[i];
    }
  }

  /**
   * A list sorted by minute of the day is also sorted by its "HH:MM" texts,
   * the order JavaScript's `.sort()` uses.
   */
  lemma SortedAsText(s: seq<Clock>)
    requires SortedByMinute(s) && AllValid(s)
    ensures forall i, j :: 0 <= i < j < |s| ==> !TextLess(Format(s[j]), Format(s[i]))
  {
    forall i, j | 0 <= i < j < |s|
      ensures !TextLess(Format(s[j]), Format(s[i]))
    {
      FormatOrder(s[j], s[i]);
    }
  }

  /* ---------- Classifying one slot ---------- */

  /** `nowInMinutes > recitationTimeInMinutes`. */
  predicate IsPassed(t: Clock, now: Clock) {
    now.Minutes() > t.Minutes()
  }

  /** `nowInMinutes === recitationTimeInMinutes`. */
  predicate IsExact(t: Clock, now: Clock) {
    now.Minutes() == t.Minutes()
  }

  /** A slot is never both passed and at its exact minute. */
  lemma PassedExcludesExact(t: Clock, now: Clock)
    ensures !(IsPassed(t, now) && IsExact(t, now))
    ensures !IsPassed(t, now) <==> IsExact(t, now) || now.Minutes() < t.Minutes()
  {
  }

  /** A passed slot that is not completed: a missed recitation. */
  predicate Owed(t: Clock, done: set<Clock>, now: Clock) {
    IsPassed(t, now) && t !in done
  }

  /** A slot not yet passed and not completed. */
  predicate Waiting(t: Clock, done: set<Clock>, now: Clock) {
    !IsPassed(t, now) && t !in done
  }

  /* ---------- What one pass over the sorted slots collects ---------- */

  /** `missedRecitations`: the owed slots, in the order of `s`. */
  function Missed(s: seq<Clock>, done: set<Clock>, now: Clock): (r: seq<Clock>)
    ensures AllValid(s) ==> AllValid(r)
    decreases |s|
  {
    if s == [] then []
    else
      var t := s[|s| - 1];
      assert s == s[..|s| - 1] + [t];
      Missed(s[..|s| - 1], done, now) + (if Owed(t, done, now) then [t] else [])
  }

  /** The missed slots are exactly the owed slots of `s`. */
  lemma {:induction false} MissedMembers(s: seq<Clock>, done: set<Clock>, now: Clock)
    ensures forall t :: t in Missed(s, done, now) <==> t in s && Owed(t, done, now)
    decreases |s|
  {
    if s != [] {
      MissedMembers(s[..|s| - 1], done, now);
      assert s == s[..|s| - 1] + [s[|s| - 1]];
    }
  }

  lemma {:induction false} MissedSorted(s: seq<Clock>, done: set<Clock>, now: Clock)
    requires SortedByMinute(s)
    ensures SortedByMinute(Missed(s, done, now))
    decreases |s|
  {
    if s != [] {
      var init := s[..|s| - 1];
      MissedSorted(init, done, now);
      MissedMembers(init, done, now);
      var m := Missed(init, done, now);
      forall x | x in m ensures x.Minutes() <= s[|s| - 1].Minutes() {
        var k :| 0 <= k < |init| && init[k] == x;
      }
    }
  }

  /** `nextRecitationTime`: the first slot of `s` that is waiting, if any. */
  function Upcoming(s: seq<Clock>, done: set<Clock>, now: Clock): (r: Option<Clock>)
    ensures r.Some? ==> r.value in s && Waiting(r.value, done, now)
    decreases |s|
  {
    if s == [] then None
    else
      var t := s[|s| - 1];
      assert s == s[..|s| - 1] + [t];
      match Upcoming(s[..|s| - 1], done, now)
      case Some(u) => Some(u)
      case None => if Waiting(t, done, now) then Some(t) else None
  }

  /** There is no first waiting slot exactly when no slot of `s` waits. */
  lemma {:induction false} UpcomingMembers(s: seq<Clock>, done: set<Clock>, now: Clock)
    ensures Upcoming(s, done, now).None? <==> forall t :: t in s ==> !Waiting(t, done, now)
    decreases |s|
  {
    if s != [] {
      UpcomingMembers(s[..|s| - 1], done, now);
      assert s == s[..|s| - 1] + [s[|s| - 1]];
    }
  }

  lemma {:induction false} UpcomingEarliest(s: seq<Clock>, done: set<Clock>, now: Clock)
    requires SortedByMinute(s) && Upcoming(s, done, now).Some?
    ensures forall t :: t in s && Waiting(t, done, now) ==> Upcoming(s, done, now).value.Minutes() <= t.Minutes()
    decreases |s|
  {
    var init := s[..|s| - 1];
    assert s == init + [s[|s| - 1]];
    UpcomingMembers(init, done, now);
    if Upcoming(init, done, now).Some? {
      UpcomingEarliest(init, done, now);
      var u := Upcoming(init, done, now).value;
      var k :| 0 <= k < |init| && init[k] == u;
    }
  }

  /** The slots whose exact minute it is and that are not completed. */
  function DueNow(s: seq<Clock>, done: set<Clock>, now: Clock): (r: seq<Clock>)
    ensures AllValid(s) ==> AllValid(r)
    decreases |s|
  {
    if s == [] then []
    else
      var t := s[|s| - 1];
      assert s == s[..|s| - 1] + [t];
      DueNow(s[..|s| - 1], done, now) + (if IsExact(t, now) && t !in done then [t] else [])
  }

  /** The slots notified as due are exactly those of `s` at their minute and not completed. */
  lemma {:induction false} DueNowMembers(s: seq<Clock>, done: set<Clock>, now: Clock)
    ensures forall t :: t in DueNow(s, done, now) <==> t in s && IsExact(t, now) && t !in done
    decreases |s|
  {
    if s != [] {
      DueNowMembers(s[..|s| - 1], done, now);
      assert s == s[..|s| - 1] + [s[|s| - 1]];
    }
  }

  /**
   * The slot made current: the first missed one when some slot is missed,
   * otherwise the first waiting one, otherwise none.
   */
  function Select(sorted: seq<Clock>, done: set<Clock>, now: Clock): (r: Option<Clock>)
    ensures r.Some? ==> r.value in sorted && r.value !in done
    ensures r.None? <==> forall t :: t in sorted ==> t in done
  {
    var missed := Missed(sorted, done, now);
    MissedMembers(sorted, done, now);
    UpcomingMembers(sorted, done, now);
    if |missed| > 0 then
      assert missed[0] in missed;
      Some(missed[0])
    else Upcoming(sorted, done, now)
  }

  /**
   * Oldest debt first: when some scheduled slot is passed and not
   * completed, the current slot is the chronologically earliest such slot.
   */
  lemma OldestMissedFirst(times: seq<Clock>, done: set<Clock>, now: Clock, owed: Clock)
    requires owed in times && Owed(owed, done, now)
    ensures var cur := Select(SortClocks(times), done, now);
      cur.Some? && cur.value in times && Owed(cur.value, done, now) &&
      forall t :: t in times && Owed(t, done, now) ==> cur.value.Minutes() <= t.Minutes()
  {
    var sorted := SortClocks(times);
    SortPermutes(times);
    MissedSorted(sorted, done, now);
    MissedMembers(sorted, done, now);
    var m := Missed(sorted, done, now);
    assert owed in m;
    forall t | t in times && Owed(t, done, now) ensures m[0].Minutes() <= t.Minutes() {
      var k :| 0 <= k < |m| && m[k] == t;
    }
  }

  /**
   * With no missed slot, the current slot is the earliest slot not completed
   * (all of them lie at or after now), and there is none exactly when every
   * scheduled slot is completed.
   */
  lemma EarliestWaitingOtherwise(times: seq<Clock>, done: set<Clock>, now: Clock)
    requires forall t :: t in times ==> !Owed(t, done, now)
    ensures var cur := Select(SortClocks(times), done, now);
      (cur.None? <==> forall t :: t in times ==> t in done) &&
      (cur.Some? ==>
        cur.value in times && cur.value !in done && cur.value.Minutes() >= now.Minutes() &&
        forall t :: t in times && t !in done ==> cur.value.Minutes() <= t.Minutes())
  {
    var sorted := SortClocks(times);
    SortPermutes(times);
    MissedMembers(sorted, done, now);
    UpcomingMembers(sorted, done, now);
    var m := Missed(sorted, done, now);
    forall t ensures multiset(m)[t] == 0 {
      assert t !in m;
    }
    assert multiset(m) == multiset{};
    assert Select(sorted, done, now) == Upcoming(sorted, done, now);
    forall t | t in times && t !in done ensures Waiting(t, done, now) {
      PassedExcludesExact(t, now);
    }
    if Upcoming(sorted, done, now).Some? {
      UpcomingEarliest(sorted, done, now);
    }
  }

  /** A completed slot is never made current again the same day. */
  lemma CompletedNeverReselected(sorted: seq<Clock>, ledger: seq<Completion>, now: Clock, slot: Clock)
    requires Completed(ledger, slot)
    ensures Select(sorted, CompletedSlots(ledger), now) != Some(slot)
  {
    var m := Missed(sorted, CompletedSlots(ledger), now);
    MissedMembers(sorted, CompletedSlots(ledger), now);
    UpcomingMembers(sorted, CompletedSlots(ledger), now);
    if |m| > 0 {
      assert m[0] in m;
    }
  }

  /* ---------- Notification requests of one evaluation ---------- */

  const TimeReachedTitle := "Heure de Récitation"
  const ReminderTitle := "Rappel de Récitation"

  /** Minutes between detecting a missed slot and its reminder. */
  const ReminderDelay := 30

  const TimeReachedLead := "C'est l'heure de votre récitation de "

  function TimeReachedBody(t: Clock): string
    requires t.Valid()
  {
    TimeReachedLead + Format(t)
  }

  const MissedPrefix := "missed-"

  /** The stable identifier of a slot's reminder: `missed-HH:MM`. */
  function MissedId(t: Clock): (id: string)
    requires t.Valid()
    ensures |id| == 12 && id[..7] == MissedPrefix && id[7..] == Format(t)
  {
    MissedPrefix + Format(t)
  }

  /** Different slots have different reminder identifiers. */
  lemma MissedIdInjective(a: Clock, b: Clock)
    requires a.Valid() && b.Valid()
    ensures MissedId(a) == MissedId(b) <==> a == b
  {
    if MissedId(a) == MissedId(b) {
      assert Format(a) == MissedId(a)[7..] == MissedId(b)[7..] == Format(b);
      FormatInjective(a, b);
    }
  }

  const ReminderLead := "Vous avez manqué la récitation de "
  const ReminderTail := ". Allah'u'Abha !"

  function ReminderBody(t: Clock): string
    requires t.Valid()
  {
    ReminderLead + Format(t) + ReminderTail
  }

  /** One "time reached" notification per slot due now, in order. */
  function TimeReached(due: seq<Clock>): (r: seq<Request>)
    requires AllValid(due)
    ensures |r| == |due|
    decreases |due|
  {
    if due == [] then []
    else TimeReached(due[..|due| - 1]) + [Immediate(TimeReachedTitle, TimeReachedBody(due[|due| - 1]))]
  }

  /** The i-th "time reached" notification names the i-th due slot. */
  lemma {:induction false} TimeReachedEach(due: seq<Clock>)
    requires AllValid(due)
    ensures forall i :: 0 <= i < |due| ==> TimeReached(due)[i] == Immediate(TimeReachedTitle, TimeReachedBody(due[i]))
    decreases |due|
  {
    if due != [] {
      var init := due[..|due| - 1];
      assert AllValid(init);
      TimeReachedEach(init);
    }
  }

  /** What `handleMissedRecitation` asks for a slot it has not reminded of yet. */
  function ReminderFor(t: Clock): seq<Request>
    requires t.Valid()
  {
    [Cancelled(MissedId(t)), Scheduled(MissedId(t), ReminderDelay, ReminderTitle, ReminderBody(t))]
  }

  function RemindersFor(slots: seq<Clock>): (r: seq<Request>)
    requires AllValid(slots)
    ensures |r| == 2 * |slots|
    decreases |slots|
  {
    if slots == [] then []
    else RemindersFor(slots[..|slots| - 1]) + ReminderFor(slots[|slots| - 1])
  }

  /** The identifiers of the slots' reminders, in order. */
  function MissedIds(slots: seq<Clock>): (r: seq<string>)
    requires AllValid(slots)
    ensures |r| == |slots| && forall i :: 0 <= i < |slots| ==> r[i] == MissedId(slots[i])
  {
    seq(|slots|, i requires 0 <= i < |slots| => MissedId(slots[i]))
  }

  /** The schedule request of each slot's reminder, in order. */
  function ScheduledReminders(slots: seq<Clock>): (r: seq<Request>)
    requires AllValid(slots)
    ensures |r| == |slots|
    ensures forall i :: 0 <= i < |slots| ==> r[i] == ReminderFor(slots[i])[1]
    decreases |slots|
  {
    if slots == [] then []
    else ScheduledReminders(slots[..|slots| - 1]) + [ReminderFor(slots[|slots| - 1])[1]]
  }

  /**
   * The order a reminder pass reaches the notification service in:
   * `forEach` does not wait for `handleMissedRecitation`, so each call
   * sends its cancellation and yields, and the schedule requests follow
   * only after every cancellation of the pass.
   */
  function CancelsThenSchedules(slots: seq<Clock>): seq<Request>
    requires AllValid(slots)
  {
    Cancellations(MissedIds(slots)) + ScheduledReminders(slots)
  }

  lemma CancelsThenSchedulesSnoc(init: seq<Clock>, t: Clock)
    requires AllValid(init) && t.Valid()
    ensures AllValid(init + [t])
    ensures CancelsThenSchedules(init + [t]) ==
      (Cancellations(MissedIds(init)) + [Cancelled(MissedId(t))]) + (ScheduledReminders(init) + [ReminderFor(t)[1]])
  {
    var slots := init + [t];
    assert slots[..|init|] == init;
    assert MissedIds(slots)[..|init|] == MissedIds(init);
  }

  /** Cancelling `t`'s reminder commutes with scheduling the reminders of other slots. */
  lemma CancelPassesSchedules(pending: seq<string>, init: seq<Clock>, t: Clock)
    requires AllValid(init) && t.Valid() && t !in init
    ensures Without(AfterRequests(pending, ScheduledReminders(init)), MissedId(t)) ==
      AfterRequests(Without(pending, MissedId(t)), ScheduledReminders(init))
  {
    var ss := ScheduledReminders(init);
    forall i | 0 <= i < |ss| ensures ss[i].Scheduled? && ss[i].id != MissedId(t) {
      MissedIdInjective(init[i], t);
    }
    CancelCommutes(pending, ss, MissedId(t));
  }

  /**
   * For slots without repeats (which every reminder pass is, by
   * RemindOnce), all cancellations followed by all schedule requests leave
   * the same reminders pending, in the same order, as the pairs sent one
   * slot at a time.
   */
  lemma {:induction false} SourceOrderSamePending(pending: seq<string>, slots: seq<Clock>)
    requires AllValid(slots) && NoDuplicates(slots)
    ensures AfterRequests(pending, CancelsThenSchedules(slots)) == AfterRequests(pending, RemindersFor(slots))
    decreases |slots|
  {
    if slots != [] {
      var init := slots[..|slots| - 1];
      var t := slots[|slots| - 1];
      assert slots == init + [t];
      assert AllValid(init) && NoDuplicates(init) && t !in init;
      SourceOrderSamePending(pending, init);
      var id := MissedId(t);
      var sched := ReminderFor(t)[1];
      var cs := Cancellations(MissedIds(init));
      var ss := ScheduledReminders(init);
      var q := AfterRequests(pending, cs);
      var x := AfterRequests(pending, RemindersFor(init));
      calc {
        AfterRequests(pending, CancelsThenSchedules(slots));
        { CancelsThenSchedulesSnoc(init, t);
          AfterRequestsAppend(pending, cs + [Cancelled(id)], ss + [sched]); }
        AfterRequests(AfterRequests(pending, cs + [Cancelled(id)]), ss + [sched]);
        { AfterRequestsSnoc(pending, cs, Cancelled(id)); }
        AfterRequests(Without(q, id), ss + [sched]);
        { AfterRequestsSnoc(Without(q, id), ss, sched); }
        Apply(AfterRequests(Without(q, id), ss), sched);
        { CancelPassesSchedules(q, init, t); }
        Apply(Without(AfterRequests(q, ss), id), sched);
        { AfterRequestsAppend(pending, cs, ss); }
        Apply(Without(x, id), sched);
        { AfterRequestsPair(x, Cancelled(id), sched); }
        AfterRequests(x, ReminderFor(t));
        { RemindersForStep(init, t);
          AfterRequestsAppend(pending, RemindersFor(init), ReminderFor(t)); }
        AfterRequests(pending, RemindersFor(slots));
      }
    }
  }

  /**
   * The reminder pass: every missed slot other than `skip` (the slot that
   * was current) is handed to `handleMissedRecitation`, which reminds of it
   * unless it is already in the notified list, and then adds it there. The
   * result is the list of slots reminded of, in order.
   */
  function Remind(missed: seq<Clock>, skip: Option<Clock>, notified: seq<Clock>): (r: seq<Clock>)
    ensures AllValid(missed) ==> AllValid(r)
    decreases |missed|
  {
    if missed == [] then []
    else
      var added := Remind(missed[..|missed| - 1], skip, notified);
      var t := missed[|missed| - 1];
      if Some(t) == skip || t in notified || t in added then added else added + [t]
  }

  /** One more missed slot handed to the reminder pass. */
  lemma RemindStep(missed: seq<Clock>, j: int, skip: Option<Clock>, notified: seq<Clock>)
    requires 0 <= j < |missed|
    ensures var before := Remind(missed[..j], skip, notified);
      var t := missed[j];
      Remind(missed[..j + 1], skip, notified) ==
        if Some(t) == skip || t in notified || t in before then before else before + [t]
  {
    assert missed[..j + 1][..j] == missed[..j];
  }

  /**
   * One more slot examined by the pass of `checkRecitationTime`: what it
   * adds to the missed slots, the first waiting slot, the slots due now
   * and the "time reached" notifications.
   */
  lemma ScanAdvance(s: seq<Clock>, i: int, done: set<Clock>, now: Clock)
    requires AllValid(s) && 0 <= i < |s|
    ensures var t := s[i];
      var p := s[..i];
      var q := s[..i + 1];
      && t.Valid() && AllValid(p) && AllValid(DueNow(p, done, now)) && AllValid(DueNow(q, done, now))
      && Missed(q, done, now) == Missed(p, done, now) + (if Owed(t, done, now) then [t] else [])
      && Upcoming(q, done, now) ==
           (if Upcoming(p, done, now).Some? then Upcoming(p, done, now)
            else if Waiting(t, done, now) then Some(t) else None)
      && (IsExact(t, now) && t !in done ==>
            TimeReached(DueNow(q, done, now)) ==
              TimeReached(DueNow(p, done, now)) + [Immediate(TimeReachedTitle, TimeReachedBody(t))])
      && (!(IsExact(t, now) && t !in done) ==> DueNow(q, done, now) == DueNow(p, done, now))
  {
    var p := s[..i];
    var q := s[..i + 1];
    assert q[..i] == p;
    assert AllValid(p) && AllValid(q);
    var t := s[i];
    if IsExact(t, now) && t !in done {
      var d := DueNow(q, done, now);
      assert d == DueNow(p, done, now) + [t];
      assert d[..|d| - 1] == DueNow(p, done, now);
    }
  }

  /**
   * One more missed slot handed to the reminder pass, with the requests
   * it adds: none when it is skipped, its reminder otherwise.
   */
  lemma RemindAdvance(missed: seq<Clock>, j: int, skip: Option<Clock>, notified: seq<Clock>)
    requires AllValid(missed) && 0 <= j < |missed|
    ensures var before := Remind(missed[..j], skip, notified);
      var after := Remind(missed[..j + 1], skip, notified);
      var t := missed[j];
      && t.Valid() && AllValid(before) && AllValid(after)
      && (Some(t) == skip || t in notified || t in before ==> after == before)
      && (!(Some(t) == skip || t in notified || t in before) ==>
            after == before + [t] && RemindersFor(after) == RemindersFor(before) + ReminderFor(t))
  {
    assert AllValid(missed[..j]);
    assert AllValid(missed[..j + 1]);
    RemindStep(missed, j, skip, notified);
    var before := Remind(missed[..j], skip, notified);
    var t := missed[j];
    if !(Some(t) == skip || t in notified || t in before) {
      RemindersForStep(before, t);
    }
  }

  lemma RemindersForStep(slots: seq<Clock>, t: Clock)
    requires AllValid(slots) && t.Valid()
    ensures AllValid(slots + [t])
    ensures RemindersFor(slots + [t]) == RemindersFor(slots) + ReminderFor(t)
  {
    assert (slots + [t])[..|slots|] == slots;
  }

  /**
   * Reminders go out at most once per slot: the pass reminds only of missed
   * slots other than `skip` that were not notified before, each of them
   * once, and afterwards every missed slot other than `skip` is notified.
   */
  lemma {:induction false} RemindOnce(missed: seq<Clock>, skip: Option<Clock>, notified: seq<Clock>)
    ensures var added := Remind(missed, skip, notified);
      (forall t :: t in added ==> t in missed && Some(t) != skip && t !in notified) &&
      (forall t :: t in missed && Some(t) != skip ==> t in notified || t in added) &&
      NoDuplicates(added)
    decreases |missed|
  {
    if missed != [] {
      var init := missed[..|missed| - 1];
      RemindOnce(init, skip, notified);
      assert missed == init + [missed[|missed| - 1]];
    }
  }

  /** The notified list keeps no slot twice. */
  lemma NotifiedStaysDistinct(missed: seq<Clock>, skip: Option<Clock>, notified: seq<Clock>)
    requires NoDuplicates(notified)
    ensures NoDuplicates(notified + Remind(missed, skip, notified))
  {
    var added := Remind(missed, skip, notified);
    RemindOnce(missed, skip, notified);
    var n := notified + added;
    forall i, j | 0 <= i < j < |n| ensures n[i] != n[j] {
      if j >= |notified| && i < |notified| {
        assert n[j] == added[j - |notified|] && n[j] in added;
        assert n[i] in notified;
      }
    }
  }

  /* ---------- The next slot ---------- */

  /**
   * `times.filter(not completed).filter(time => time > currentTime)`, the
   * comparison being the one on "HH:MM" texts.
   */
  function LaterOpen(times: seq<Clock>, ledger: seq<Completion>, now: Clock): (r: seq<Clock>)
    requires AllValid(times) && now.Valid()
    ensures AllValid(r)
    ensures forall t :: t in r <==> t in times && !Completed(ledger, t) && TextLess(Format(now), Format(t))
    decreases |times|
  {
    if times == [] then []
    else
      var t := times[0];
      assert times == [t] + times[1..];
      (if !Completed(ledger, t) && TextLess(Format(now), Format(t)) then [t] else []) + LaterOpen(times[1..], ledger, now)
  }

  /** `findNextRecitationTime`: the first of the sorted later open slots. */
  function FindNext(times: seq<Clock>, ledger: seq<Completion>, now: Clock): (r: Option<Clock>)
    requires AllValid(times) && now.Valid()
    ensures r.Some? ==> r.value in times && !Completed(ledger, r.value) && TextLess(Format(now), Format(r.value))
  {
    var open := LaterOpen(times, ledger, now);
    var later := SortClocks(open);
    SortPermutes(open);
    if |later| == 0 then None
    else
      assert later[0] in later;
      Some(later[0])
  }

  /**
   * The next slot is the earliest scheduled slot that is not completed and
   * lies strictly after now; there is none exactly when no such slot exists.
   */
  lemma FindNextIsEarliestLater(times: seq<Clock>, ledger: seq<Completion>, now: Clock)
    requires AllValid(times) && now.Valid()
    ensures FindNext(times, ledger, now).None? <==>
      forall t :: t in times && !Completed(ledger, t) ==> t.Minutes() <= now.Minutes()
    ensures FindNext(times, ledger, now).Some? ==>
      var u := FindNext(times, ledger, now).value;
      u in times && !Completed(ledger, u) && u.Minutes() > now.Minutes() &&
      forall t :: t in times && !Completed(ledger, t) && t.Minutes() > now.Minutes() ==> u.Minutes() <= t.Minutes()
  {
    var open := LaterOpen(times, ledger, now);
    var later := SortClocks(open);
    SortPermutes(open);
    forall t | t in times
      ensures TextLess(Format(now), Format(t)) <==> t.Minutes() > now.Minutes()
    {
      FormatOrder(now, t);
    }
    if |later| > 0 {
      assert later[0] in later;
      forall t | t in times && !Completed(ledger, t) && t.Minutes() > now.Minutes()
        ensures later[0].Minutes() <= t.Minutes()
      {
        var k :| 0 <= k < |later| && later[k] == t;
      }
    } else {
      forall t | t in times && !Completed(ledger, t) ensures t.Minutes() <= now.Minutes() {
        assert t !in later;
      }
    }
  }

  /* ---------- The completion test as written ---------- */

  /**
   * JavaScript values as far as `completedRecitations.includes(time)` can
   * tell them apart: the ledger holds record objects, `time` is a string.
   */
  datatype JsValue = JsString(text: string) | JsRecord(record: Completion)

  function AsJsArray(ledger: seq<Completion>): (r: seq<JsValue>)
    ensures |r| == |ledger| && forall i :: 0 <= i < |r| ==> r[i] == JsRecord(ledger[i])
  {
    seq(|ledger|, i requires 0 <= i < |ledger| => JsRecord(ledger[i]))
  }

  /** `arr.includes(text)`: some element is strictly equal to the string `text`. */
  predicate IncludesText(arr: seq<JsValue>, text: string) {
    exists i :: 0 <= i < |arr| && arr[i] == JsString(text)
  }

  /**
   * The slots the source's `isCompleted` test reports as completed: none,
   * whatever the ledger holds, since a string never equals a record.
   */
  function DoneAsWritten(sorted: seq<Clock>, ledger: seq<Completion>): (r: set<Clock>)
    ensures r == {}
  {
    var arr := AsJsArray(ledger);
    forall t | t in sorted && t.Valid() ensures !IncludesText(arr, Format(t)) {
      forall i | 0 <= i < |arr| ensures arr[i] != JsString(Format(t)) {
        assert arr[i] == JsRecord(ledger[i]);
      }
    }
    set t | t in sorted && t.Valid() && IncludesText(arr, Format(t))
  }

  /**
   * `checkRecitationTime`'s choice of the current slot with the completion
   * test as written: the ledger plays no part, as if nothing were completed.
   */
  function SelectAsWritten(sorted: seq<Clock>, ledger: seq<Completion>, now: Clock): (r: Option<Clock>)
    ensures r == Select(sorted, {}, now)
  {
    Select(sorted, DoneAsWritten(sorted, ledger), now)
  }

  /**
   * As written, the 09:00 slot completed at 09:10 is made current again by
   * the next evaluation at 09:10, while the records-based test leaves no
   * current slot.
   */
  lemma AsWrittenReselectsCompletedSlot()
    ensures var nine := Clock(9, 0);
      var ledger := [Completion(Some(nine), "09:10", "09:10")];
      Completed(ledger, nine) &&
      SelectAsWritten([nine], ledger, Clock(9, 10)) == Some(nine) &&
      Select([nine], CompletedSlots(ledger), Clock(9, 10)) == None
  {
    var nine := Clock(9, 0);
    var ledger := [Completion(Some(nine), "09:10", "09:10")];
    assert ledger[0].slot == Some(nine);
    assert Missed([nine], {}, Clock(9, 10)) == [nine] by {
      assert [nine][..0] == [];
    }
    assert CompletedSlots(ledger) == {nine};
    assert Missed([nine], {nine}, Clock(9, 10)) == [] by {
      assert [nine][..0] == [];
    }
    assert Upcoming([nine], {nine}, Clock(9, 10)) == None by {
      assert [nine][..0] == [];
    }
  }
}
