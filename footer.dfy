/**
 * The footer: backing up the app's stored settings to a file, restoring
 * them from one, and a weekly reminder to back up.
 */
module Footer {
  import opened Wrappers
  import opened Calendar

  /** The storage keys a backup copies. */
  const BackupKeys: seq<string> := [
    "trocheCount",
    "lastDoseUpdate",
    "isShipmentVisible",
    "shipmentTracking",
    "mantrasByCategory",
    "mantraCategory",
    "reflectionEntries",
    "moodHistory",
    "dailyActivityLogs",
    "showKalmScoreTip",
    "backupReminderDismissed"
  ]

  const FileNotRead: string := "File could not be read."
  const InvalidFormat: string := "Invalid backup file format."
  const InvalidJson: string := "Unexpected token in JSON"

  /** The browser's string-to-string storage. */
  class LocalStorage {
    var items: map<string, string>

    constructor(items: map<string, string>)
      ensures this.items == items
    {
      this.items := items;
    }

    method SetItem(key: string, value: string)
      modifies this
      ensures items == old(items)[key := value]
    {
      items := items[key := value];
    }
  }

  // ---------------------------------------------------------------- backup

  /** What a backup holds: each listed key that has a stored value, with that value. */
  function BackupOf(items: map<string, string>): (data: map<string, string>)
    ensures forall k :: k in data <==> k in BackupKeys && k in items
    ensures forall k :: k in data ==> data[k] == items[k]
  {
    map k | k in items && k in BackupKeys :: items[k]
  }

  /** Collects the listed keys one by one, skipping those with no stored value. */
  method Backup(storage: LocalStorage) returns (data: map<string, string>)
    ensures data == BackupOf(storage.items)
  {
    data := map[];
    var i := 0;
    while i < |BackupKeys|
      invariant 0 <= i <= |BackupKeys|
      invariant forall k :: k in data <==> k in BackupKeys[..i] && k in storage.items
      invariant forall k :: k in data ==> data[k] == storage.items[k]
    {
      var key := BackupKeys[i];
      assert BackupKeys[..i + 1] == BackupKeys[..i] + [key];
      if key in storage.items {
        data := data[key := storage.items[key]];
      }
      i := i + 1;
    }
    assert BackupKeys[..i] == BackupKeys;
  }

  /** The downloaded file's name, dated with the UTC day. */
  function BackupFileName(utcDay: Date): (name: string)
    requires ValidDate(utcDay)
    ensures |name| == 32
  {
    "calmcount_backup_" + Iso(utcDay) + ".json"
  }

  /** The day can be read back from the file name. */
  lemma BackupFileNameRoundTrip(utcDay: Date)
    requires ValidDate(utcDay)
    ensures ParseIso(BackupFileName(utcDay)[17..27]) == Some(utcDay)
  {
    assert BackupFileName(utcDay)[17..27] == Iso(utcDay);
    IsoRoundTrip(utcDay);
  }

  // ---------------------------------------------------------------- restore

  /** A parsed JSON value. */
  datatype Json =
    | JNull
    | JBool(b: bool)
    | JNumber(n: real)
    | JString(s: string)
    | JArray(elements: seq<Json>)
    | JObject(fields: map<string, Json>)

  datatype RestoreOutcome = NoFile | Failed(message: string) | Restored

  /** The string-valued members of `fields` among `keys`, unwrapped. */
  function StringValues(fields: map<string, Json>, keys: set<string>): (m: map<string, string>)
    ensures forall k :: k in m <==> k in keys && k in fields && fields[k].JString?
    ensures forall k :: k in m ==> m[k] == fields[k].s
  {
    map k | k in keys && k in fields && fields[k].JString? :: fields[k].s
  }

  /**
   * Restores a chosen backup file. An unreadable or empty file, text that is
   * not JSON, and JSON that is not an object are refused and nothing is
   * written; otherwise every string member is stored under its key and no
   * other key changes.
   */
  method Restore(storage: LocalStorage, file: Option<string>, parse: string -> Option<Json>)
    returns (r: RestoreOutcome)
    modifies storage
    ensures file.None? ==> r == NoFile && storage.items == old(storage.items)
    ensures file == Some("") ==> r == Failed(FileNotRead) && storage.items == old(storage.items)
    ensures file.Some? && file.value != "" && parse(file.value).None? ==>
              r == Failed(InvalidJson) && storage.items == old(storage.items)
    ensures file.Some? && file.value != "" && parse(file.value).Some? && !parse(file.value).value.JObject? ==>
              r == Failed(InvalidFormat) && storage.items == old(storage.items)
    ensures file.Some? && file.value != "" && parse(file.value).Some? && parse(file.value).value.JObject? ==>
              var fields := parse(file.value).value.fields;
              r == Restored && storage.items == old(storage.items) + StringValues(fields, fields.Keys)
  {
    if file.None? {
      return NoFile;
    }
    var jsonString := file.value;
    if jsonString == "" {
      return Failed(FileNotRead);
    }
    var restoredData := parse(jsonString);
    if restoredData.None? {
      return Failed(InvalidJson);
    }
    if !restoredData.value.JObject? {
      return Failed(InvalidFormat);
    }
    WriteStrings(storage, restoredData.value.fields);
    return Restored;
  }

  /** Stores every string member of a restored object under its key, one key at a time. */
  method WriteStrings(storage: LocalStorage, fields: map<string, Json>)
    modifies storage
    ensures storage.items == old(storage.items) + StringValues(fields, fields.Keys)
  {
    var keys := fields.Keys;
    ghost var done: set<string> := {};
    while keys != {}
      invariant keys + done == fields.Keys && keys !! done
      invariant storage.items == old(storage.items) + StringValues(fields, done)
      decreases keys
    {
      var key :| key in keys;
      StringValuesStep(old(storage.items), fields, done, key);
      if fields[key].JString? {
        storage.SetItem(key, fields[key].s);
      }
      keys := keys - {key};
      done := done + {key};
    }
  }

  /** One more key of the object: its string value, if any, is written over what is stored. */
  lemma StringValuesStep(base: map<string, string>, fields: map<string, Json>, done: set<string>, key: string)
    requires key in fields
    ensures fields[key].JString? ==>
              (base + StringValues(fields, done))[key := fields[key].s] == base + StringValues(fields, done + {key})
    ensures !fields[key].JString? ==>
              base + StringValues(fields, done) == base + StringValues(fields, done + {key})
  {
    var before, after := StringValues(fields, done), StringValues(fields, done + {key});
    if fields[key].JString? {
      assert forall k :: k in (base + before)[key := fields[key].s] <==> k in base + after;
    } else {
      assert before == after;
    }
  }

  /** A backup written out as a JSON object of strings. */
  function BackupJson(data: map<string, string>): (j: Json)
    ensures j.JObject? && j.fields.Keys == data.Keys
  {
    JObject(map k | k in data :: JString(data[k]))
  }

  /** Restoring a backup of the storage writes back the same values: the storage does not change. */
  lemma RestoreOwnBackupChangesNothing(items: map<string, string>)
    ensures var fields := BackupJson(BackupOf(items)).fields;
            items + StringValues(fields, fields.Keys) == items
  {
    var data := BackupOf(items);
    var fields := BackupJson(data).fields;
    var restored := StringValues(fields, fields.Keys);
    assert forall k :: k in restored ==> k in data && restored[k] == data[k];
  }

  /** Restoring a backup into empty storage recreates exactly the backed-up keys and values. */
  lemma RestoreIntoEmptyStorage(items: map<string, string>)
    ensures var fields := BackupJson(BackupOf(items)).fields;
            map[] + StringValues(fields, fields.Keys) == BackupOf(items)
  {
    var data := BackupOf(items);
    var fields := BackupJson(data).fields;
    var restored := StringValues(fields, fields.Keys);
    assert forall k :: k in restored <==> k in data;
  }

  // ---------------------------------------------------------------- reminder

  /**
   * The reminder is due when it was never dismissed, or when the dismissal
   * day's midnight lies more than a week before now. A stored value that is
   * not a date never compares as earlier.
   */
  function ReminderDue(lastDismissed: Option<string>, today: Date, secondOfDay: int): (due: bool)
    requires ValidDate(today)
    ensures lastDismissed.None? || lastDismissed == Some("") ==> due
    ensures lastDismissed.Some? && lastDismissed.value != "" && ParseIso(lastDismissed.value).None? ==> !due
  {
    if lastDismissed.None? || lastDismissed.value == "" then true
    else
      match ParseIso(lastDismissed.value)
      case None => false
      case Some(d) =>
        DayNumber(d) * SecondsPerDay < DayNumber(today) * SecondsPerDay + secondOfDay - 7 * SecondsPerDay
  }

  /**
   * Never dismissed: due. Dismissed eight or more days ago: due. Dismissed
   * within the last six days, today included: not due. Exactly seven days
   * ago: due once midnight has passed.
   */
  lemma ReminderDueCases(d: Date, today: Date, secondOfDay: int)
    requires ValidDate(d) && ValidDate(today) && 0 <= secondOfDay < SecondsPerDay
    ensures ReminderDue(None, today, secondOfDay)
    ensures DayNumber(d) <= DayNumber(today) - 8 ==> ReminderDue(Some(Iso(d)), today, secondOfDay)
    ensures DayNumber(d) >= DayNumber(today) - 6 ==> !ReminderDue(Some(Iso(d)), today, secondOfDay)
    ensures DayNumber(d) == DayNumber(today) - 7 ==>
              (ReminderDue(Some(Iso(d)), today, secondOfDay) <==> secondOfDay > 0)
  {
    IsoRoundTrip(d);
    var a, b := DayNumber(d), DayNumber(today);
    assert a * SecondsPerDay - (b - 7) * SecondsPerDay == (a - b + 7) * SecondsPerDay;
  }

  class FooterState {
    var lastDismissed: Option<string>
    var showReminder: bool

    constructor(stored: Option<string>)
      ensures lastDismissed == stored && !showReminder
    {
      lastDismissed := stored;
      showReminder := false;
    }

    /** On load and whenever the dismissal changes: shows the reminder when due, never hides it. */
    method ReminderEffect(today: Date, secondOfDay: int)
      requires ValidDate(today)
      modifies this
      ensures showReminder == (old(showReminder) || ReminderDue(lastDismissed, today, secondOfDay))
      ensures lastDismissed == old(lastDismissed)
    {
      if ReminderDue(lastDismissed, today, secondOfDay) {
        showReminder := true;
      }
    }

    /** Hides the reminder and records today's date as the dismissal. */
    method DismissReminder(today: Date)
      requires ValidDate(today)
      modifies this
      ensures !showReminder && lastDismissed == Some(Iso(today))
    {
      showReminder := false;
      lastDismissed := Some(Iso(today));
    }
  }

  /** Dismissing and then re-running the effect the new value triggers keeps the reminder hidden. */
  method DismissStaysHidden(footer: FooterState, today: Date, secondOfDay: int)
    requires ValidDate(today) && 0 <= secondOfDay < SecondsPerDay
    modifies footer
    ensures !footer.showReminder
  {
    footer.DismissReminder(today);
    ReminderDueCases(today, today, secondOfDay);
    footer.ReminderEffect(today, secondOfDay);
  }
}
