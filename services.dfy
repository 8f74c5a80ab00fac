/**
 * The app's collaborators as in-memory stand-ins: the key/value storage
 * (AsyncStorage) and the notification service, which only records the
 * requests it receives.
 */
module Services {
  import opened Wrappers
  import opened ClockTime
  import opened Records

  const SettingsKey := "recitationSettings"
  const LedgerKey := "completedRecitations"
  const SessionsKey := "sessions"
  const ResetKey := "lastResetDate"

  /** A stored value: a plain text, or the JSON of a ledger, a history or a settings object. */
  datatype Stored =
    | Text(text: string)
    | Ledger(records: seq<Completion>)
    | History(sessions: seq<Session>)
    | Config(settings: StoredSettings)

  /** Stored schedule times, when present, are valid times of day. */
  predicate WellFormed(entries: map<string, Stored>) {
    SettingsKey in entries && entries[SettingsKey].Config? && entries[SettingsKey].settings.times.Some? ==>
      AllValid(entries[SettingsKey].settings.times.value)
  }

  /**
   * The settings object `loadRecitationSettings` parses, if one is stored;
   * a stored value that is not an object has none of the fields. What is
   * read from well-formed storage carries valid times only.
   */
  function StoredSettingsFrom(entries: map<string, Stored>): (r: Option<StoredSettings>)
    ensures r.None? <==> SettingsKey !in entries
    ensures SettingsKey in entries && entries[SettingsKey].Config? ==> r == Some(entries[SettingsKey].settings)
    ensures SettingsKey in entries && !entries[SettingsKey].Config? ==> r == Some(StoredSettings(None, None, None))
    ensures WellFormed(entries) && r.Some? && r.value.times.Some? ==> AllValid(r.value.times.value)
  {
    if SettingsKey !in entries then None
    else match entries[SettingsKey]
      case Config(s) => Some(s)
      case _ => Some(StoredSettings(None, None, None))
  }

  class Store {
    var entries: map<string, Stored>

    constructor(entries: map<string, Stored>)
      ensures this.entries == entries
    {
      this.entries := entries;
    }

    /** `AsyncStorage.setItem`. */
    method SetItem(key: string, value: Stored)
      modifies this
      ensures entries == old(entries)[key := value]
    {
      entries := entries[key := value];
    }
  }

  class Gateway {
    /** Every request received, oldest first. */
    var log: seq<Request>

    constructor()
      ensures log == []
    {
      log := [];
    }

    /**
     * The identifiers of the notifications scheduled and not cancelled;
     * no identifier is pending twice.
     */
    function Pending(): (r: seq<string>)
      reads this
      ensures NoDuplicates(r)
    {
      AfterRequests([], log)
    }

    method Submit(r: Request)
      modifies this
      ensures log == old(log) + [r]
    {
      log := log + [r];
    }

    /** Cancels every scheduled notification, one request per identifier. */
    method CancelAll()
      modifies this
      ensures log == old(log) + Cancellations(old(Pending()))
      ensures Pending() == []
    {
      var ids := Pending();
      ghost var log0 := log;
      var i := 0;
      while i < |ids|
        invariant 0 <= i <= |ids|
        invariant log == log0 + Cancellations(ids[..i])
      {
        Submit(Cancelled(ids[i]));
        assert ids[..i + 1][..i] == ids[..i];
        i := i + 1;
      }
      assert ids[..i] == ids;
      AfterRequestsAppend([], log0, Cancellations(ids));
      CancellingAllClears(ids);
    }
  }
}
