/**
 * The values the app keeps and persists: completion records (the day's
 * ledger), history sessions, and the recitation settings with the defaults
 * applied when they are read back from storage.
 */
module Records {
  import opened Wrappers
  import opened ClockTime

  /** Taps needed to complete one recitation (`CLICKS_PER_RECITATION`). */
  const ClicksPerRecitation := 95

  /**
   * One entry of `completedRecitations`: `{time, timestamp, actualTime}`.
   * `slot` is the slot that was current when the 95th tap landed; it is None
   * when that tap came with no current slot.
   */
  datatype Completion = Completion(slot: Option<Clock>, timestamp: string, actualTime: string)

  /**
   * One entry of the history: `{date, scheduledTime, actualTime, count}`.
   * The source fills `date` with the "HH:MM" text of the completion time.
   */
  datatype Session = Session(date: string, scheduledTime: Option<Clock>, actualTime: string, count: int)

  /** A slot counts as completed when some ledger record names it. */
  predicate Completed(ledger: seq<Completion>, t: Clock) {
    exists i :: 0 <= i < |ledger| && ledger[i].slot == Some(t)
  }

  /** The set of completed slots. */
  function CompletedSlots(ledger: seq<Completion>): (done: set<Clock>)
    ensures forall t :: t in done <==> Completed(ledger, t)
  {
    set i | 0 <= i < |ledger| && ledger[i].slot.Some? :: ledger[i].slot.value
  }

  /** Appending a record for slot `t` completes `t` and no other slot. */
  lemma RecordCompletes(ledger: seq<Completion>, t: Clock, timestamp: string, actualTime: string, u: Clock)
    ensures Completed(ledger + [Completion(Some(t), timestamp, actualTime)], u) <==> Completed(ledger, u) || u == t
  {
    var longer := ledger + [Completion(Some(t), timestamp, actualTime)];
    if u == t {
      assert longer[|ledger|].slot == Some(u);
    }
    if Completed(ledger, u) {
      var i :| 0 <= i < |ledger| && ledger[i].slot == Some(u);
      assert longer[i] == ledger[i];
    }
    if Completed(longer, u) && u != t {
      var i :| 0 <= i < |longer| && longer[i].slot == Some(u);
      assert ledger[i] == longer[i];
    }
  }

  /** Most entries the history keeps. */
  const HistoryLimit := 10

  /** `[session, ...sessions].slice(0, 10)`. */
  function PushSession(sessions: seq<Session>, session: Session): (r: seq<Session>)
    ensures |r| == if |sessions| < HistoryLimit then |sessions| + 1 else HistoryLimit
    ensures r[0] == session
    ensures r[1..] == sessions[..|r| - 1]
  {
    var all := [session] + sessions;
    all[..if |all| < HistoryLimit then |all| else HistoryLimit]
  }

  /** The history after saving `news` one after the other. */
  function PushAll(sessions: seq<Session>, news: seq<Session>): seq<Session>
    decreases |news|
  {
    if news == [] then sessions else PushAll(PushSession(sessions, news[0]), news[1..])
  }

  function Reversed(s: seq<Session>): (r: seq<Session>)
    ensures |r| == |s|
    decreases |s|
  {
    if s == [] then [] else Reversed(s[1..]) + [s[0]]
  }

  /** The first `n` entries, or all of them when there are fewer. */
  function Newest(s: seq<Session>, n: nat): (r: seq<Session>)
    ensures |r| <= n && |r| <= |s| && r == s[..|r|]
    ensures |r| == n || r == s
  {
    if |s| <= n then s else s[..n]
  }

  /**
   * Saving sessions one after the other leaves the ten most recent ones,
   * newest first, followed by nothing older than them.
   */
  lemma {:induction false} PushAllKeepsNewest(sessions: seq<Session>, news: seq<Session>)
    requires |sessions| <= HistoryLimit
    ensures PushAll(sessions, news) == Newest(Reversed(news) + sessions, HistoryLimit)
    decreases |news|
  {
    if news != [] {
      var h := PushSession(sessions, news[0]);
      PushAllKeepsNewest(h, news[1..]);
      assert Reversed(news) == Reversed(news[1..]) + [news[0]];
      var r := Reversed(news[1..]);
      assert h == Newest([news[0]] + sessions, HistoryLimit);
      assert Reversed(news) + sessions == r + ([news[0]] + sessions);
      NewestOfAppend(r, [news[0]] + sessions, HistoryLimit);
    }
  }

  lemma NewestOfAppend(a: seq<Session>, b: seq<Session>, n: nat)
    ensures Newest(a + Newest(b, n), n) == Newest(a + b, n)
  {
    if |b| > n {
      var l := |Newest(a + b, n)|;
      assert (a + b[..n])[..l] == (a + b)[..l];
    }
  }

  /** The recitation settings the app runs on (`recitationSettings`, volume left out). */
  datatype Settings = Settings(times: seq<Clock>, count: int, soundEnabled: bool)

  /** A settings object read from storage: every field may be missing. */
  datatype StoredSettings = StoredSettings(times: Option<seq<Clock>>, count: Option<int>, soundEnabled: Option<bool>)

  /** The app's initial settings: one recitation at 06:00, sound on. */
  const DefaultSettings := Settings([Clock(6, 0)], 1, true)

  /** The object written to storage for some settings. */
  function ToStored(s: Settings): (r: StoredSettings)
    ensures r.times.Some? && r.count.Some? && r.soundEnabled.Some?
  {
    StoredSettings(Some(s.times), Some(s.count), Some(s.soundEnabled))
  }

  /**
   * The defaulting of `loadRecitationSettings`: `times || ['06:00']`,
   * `count || 1` (a stored 0 is falsy too) and `soundEnabled` unless undefined.
   */
  function SettingsFrom(saved: StoredSettings): (s: Settings)
    ensures saved.times.Some? ==> s.times == saved.times.value
    ensures saved.times.None? ==> s.times == DefaultSettings.times
    ensures s.count != 0
    ensures saved.count.Some? && saved.count.value != 0 ==> s.count == saved.count.value
    ensures saved.count.None? || saved.count.value == 0 ==> s.count == 1
    ensures saved.soundEnabled.Some? ==> s.soundEnabled == saved.soundEnabled.value
    ensures saved.soundEnabled.None? ==> s.soundEnabled
  {
    Settings(
      match saved.times case Some(t) => t case None => DefaultSettings.times,
      match saved.count case Some(n) => (if n == 0 then 1 else n) case None => 1,
      match saved.soundEnabled case Some(b) => b case None => true)
  }

  /** Settings written and read back are the same, unless their count is 0. */
  lemma LoadAfterSave(s: Settings)
    ensures SettingsFrom(ToStored(s)) == (if s.count == 0 then s.(count := 1) else s)
  {
  }

  /**
   * A request to the notification service: an immediate notification
   * (`trigger: null`), one scheduled `delayMinutes` ahead under an
   * identifier, or the cancellation of a scheduled one.
   */
  datatype Request =
    | Immediate(title: string, body: string)
    | Scheduled(id: string, delayMinutes: int, title: string, body: string)
    | Cancelled(id: string)

  /** No element occurs twice. */
  predicate NoDuplicates<T(==)>(s: seq<T>) {
    forall i, j :: 0 <= i < j < |s| ==> s[i] != s[j]
  }

  lemma AppendFresh<T>(s: seq<T>, x: T)
    requires NoDuplicates(s) && x !in s
    ensures NoDuplicates(s + [x])
  {
    var n := s + [x];
    forall i, j | 0 <= i < j < |n| ensures n[i] != n[j] {
      if j == |s| {
        assert n[i] == s[i];
      }
    }
  }

  /** `ids` with every occurrence of `id` removed; an identifier list without repeats keeps none. */
  function Without(ids: seq<string>, id: string): (r: seq<string>)
    ensures forall x :: x in r <==> x in ids && x != id
    ensures NoDuplicates(ids) ==> NoDuplicates(r)
    decreases |ids|
  {
    if ids == [] then []
    else
      var rest := Without(ids[1..], id);
      assert NoDuplicates(ids) ==> NoDuplicates(ids[1..]) && ids[0] !in ids[1..];
      var r := (if ids[0] == id then [] else [ids[0]]) + rest;
      assert NoDuplicates(ids) ==> NoDuplicates(r) by {
        if NoDuplicates(ids) && ids[0] != id {
          forall i, j | 0 <= i < j < |r| ensures r[i] != r[j] {
            if i == 0 {
              assert r[j] == rest[j - 1] && r[j] in rest;
            } else {
              assert r[i] == rest[i - 1] && r[j] == rest[j - 1];
            }
          }
        }
      }
      r
  }

  lemma {:induction false} WithoutAppend(a: seq<string>, b: seq<string>, id: string)
    ensures Without(a + b, id) == Without(a, id) + Without(b, id)
    decreases |a|
  {
    if a == [] {
      assert a + b == b;
    } else {
      var ab := a + b;
      assert ab[0] == a[0] && ab[1..] == a[1..] + b;
      WithoutAppend(a[1..], b, id);
      AppendAssoc(if a[0] == id then [] else [a[0]], Without(a[1..], id), Without(b, id));
    }
  }

  lemma {:induction false} WithoutCommutes(ids: seq<string>, x: string, y: string)
    ensures Without(Without(ids, x), y) == Without(Without(ids, y), x)
    decreases |ids|
  {
    if ids != [] {
      WithoutCommutes(ids[1..], x, y);
      WithoutAppend(if ids[0] == x then [] else [ids[0]], Without(ids[1..], x), y);
      WithoutAppend(if ids[0] == y then [] else [ids[0]], Without(ids[1..], y), x);
    }
  }

  /**
   * The identifiers still scheduled after one request: scheduling under an
   * identifier replaces what was scheduled under it, cancelling removes it,
   * and immediate notifications are never pending.
   */
  function Apply(pending: seq<string>, r: Request): seq<string> {
    match r
    case Immediate(_, _) => pending
    case Scheduled(id, _, _, _) => Without(pending, id) + [id]
    case Cancelled(id) => Without(pending, id)
  }

  /**
   * The identifiers still scheduled after a series of requests; the
   * service never holds two notifications under one identifier.
   */
  function AfterRequests(pending: seq<string>, reqs: seq<Request>): (r: seq<string>)
    ensures NoDuplicates(pending) ==> NoDuplicates(r)
    decreases |reqs|
  {
    if reqs == [] then pending
    else
      var before := AfterRequests(pending, reqs[..|reqs| - 1]);
      var last := reqs[|reqs| - 1];
      if last.Scheduled? then
        assert NoDuplicates(before) ==> NoDuplicates(Apply(before, last)) by {
          if NoDuplicates(before) {
            AppendFresh(Without(before, last.id), last.id);
          }
        }
        Apply(before, last)
      else Apply(before, last)
  }

  lemma {:induction false} AfterRequestsAppend(pending: seq<string>, a: seq<Request>, b: seq<Request>)
    ensures AfterRequests(pending, a + b) == AfterRequests(AfterRequests(pending, a), b)
    decreases |b|
  {
    if b != [] {
      assert (a + b)[..|a + b| - 1] == a + b[..|b| - 1];
      AfterRequestsAppend(pending, a, b[..|b| - 1]);
    } else {
      assert a + b == a;
    }
  }

  lemma AfterRequestsSnoc(pending: seq<string>, reqs: seq<Request>, r: Request)
    ensures AfterRequests(pending, reqs + [r]) == Apply(AfterRequests(pending, reqs), r)
  {
    assert (reqs + [r])[..|reqs|] == reqs;
  }

  lemma AfterRequestsPair(pending: seq<string>, a: Request, b: Request)
    ensures AfterRequests(pending, [a, b]) == Apply(Apply(pending, a), b)
  {
    AfterRequestsSnoc(pending, [a], b);
    AfterRequestsSnoc(pending, [], a);
    assert [] + [a] == [a] && [a] + [b] == [a, b];
  }

  /** A cancellation commutes with schedule requests under other identifiers. */
  lemma {:induction false} CancelCommutes(pending: seq<string>, reqs: seq<Request>, id: string)
    requires forall i :: 0 <= i < |reqs| ==> reqs[i].Scheduled? && reqs[i].id != id
    ensures Without(AfterRequests(pending, reqs), id) == AfterRequests(Without(pending, id), reqs)
    decreases |reqs|
  {
    if reqs != [] {
      var init := reqs[..|reqs| - 1];
      var j := reqs[|reqs| - 1].id;
      CancelCommutes(pending, init, id);
      var x := AfterRequests(pending, init);
      WithoutAppend(Without(x, j), [j], id);
      WithoutCommutes(x, j, id);
    }
  }

  /** One cancellation per identifier, in order. */
  function Cancellations(ids: seq<string>): (r: seq<Request>)
    ensures |r| == |ids|
    ensures forall i :: 0 <= i < |ids| ==> r[i] == Cancelled(ids[i])
    decreases |ids|
  {
    if ids == [] then [] else Cancellations(ids[..|ids| - 1]) + [Cancelled(ids[|ids| - 1])]
  }

  /** Cancelling a list of identifiers leaves exactly the others pending. */
  lemma {:induction false} CancellationsRemove(pending: seq<string>, ids: seq<string>)
    ensures forall x :: x in AfterRequests(pending, Cancellations(ids)) <==> x in pending && x !in ids
    decreases |ids|
  {
    if ids != [] {
      var init := ids[..|ids| - 1];
      CancellationsRemove(pending, init);
      assert Cancellations(ids)[..|ids| - 1] == Cancellations(init);
      assert forall x :: x in ids <==> x in init || x == ids[|ids| - 1];
    }
  }

  /** Immediate notifications leave the scheduled ones as they were. */
  lemma {:induction false} ImmediatesKeepPending(pending: seq<string>, reqs: seq<Request>)
    requires forall i :: 0 <= i < |reqs| ==> reqs[i].Immediate?
    ensures AfterRequests(pending, reqs) == pending
    decreases |reqs|
  {
    if reqs != [] {
      ImmediatesKeepPending(pending, reqs[..|reqs| - 1]);
    }
  }

  /** Cancelling every pending identifier leaves nothing pending. */
  lemma CancellingAllClears(pending: seq<string>)
    ensures AfterRequests(pending, Cancellations(pending)) == []
  {
    var p := AfterRequests(pending, Cancellations(pending));
    CancellationsRemove(pending, pending);
    forall x ensures multiset(p)[x] == 0 {
      assert x !in p;
    }
    assert multiset(p) == multiset{};
  }

}
