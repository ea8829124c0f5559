/**
 * The dose counter (troches left, one used per day, refilled by shipments,
 * editable by hand) and the daily mood check-in.
 */
module DoseTracker {
  import opened Wrappers
  import opened Text
  import opened Calendar
  import opened Types

  const InitialCount: int := 30
  const ShipmentSize: int := 30
  const MaxEditLength: int := 3

  function Max(a: int, b: int): int {
    if a < b then b else a
  }

  // ---------------------------------------------------------------- the count

  /** The count after `days` daily doses: one per day, never below zero. */
  function Decremented(count: int, days: int): (r: int)
    ensures r >= 0 && r >= count - days
    ensures r == 0 || r == count - days
  {
    Max(0, count - days)
  }

  /** Catching up over two periods is the same as catching up over both at once. */
  lemma DecrementedCompose(count: int, a: int, b: int)
    requires a >= 0 && b >= 0
    ensures Decremented(Decremented(count, a), b) == Decremented(count, a + b)
  {
  }

  /** The counter's colour: blue above 10, yellow above 5, red otherwise. */
  datatype ProgressStyle = ProgressStyle(gradientId: string, from: string, to: string, text: string)

  const Blue: ProgressStyle := ProgressStyle("progressGradientBlue", "#38bdf8", "#6366f1", "text-white")
  const Yellow: ProgressStyle := ProgressStyle("progressGradientYellow", "#facc15", "#f59e0b", "text-yellow-300")
  const Red: ProgressStyle := ProgressStyle("progressGradientRed", "#ef4444", "#f43f5e", "text-red-400")

  function GetProgressStyle(count: int): (s: ProgressStyle)
    ensures s == Blue <==> count > 10
    ensures s == Yellow <==> 5 < count <= 10
    ensures s == Red <==> count <= 5
  {
    assert Blue.gradientId[16] != Yellow.gradientId[16] && Blue.gradientId[16] != Red.gradientId[16];
    assert Yellow.gradientId[16] != Red.gradientId[16];
    if count > 10 then Blue
    else if count > 5 then Yellow
    else Red
  }

  /** How alarming a style is: red 2, yellow 1, blue 0. */
  function Alarm(s: ProgressStyle): nat {
    if s == Red then 2 else if s == Yellow then 1 else 0
  }

  /** Fewer troches never look less alarming. */
  lemma ProgressStyleMonotone(fewer: int, more: int)
    requires fewer <= more
    ensures Alarm(GetProgressStyle(fewer)) >= Alarm(GetProgressStyle(more))
  {
  }

  /** A digits-only string is worth less than ten to the power of its length. */
  lemma {:induction false} DigitsValueBelow(s: string)
    requires AllDigits(s)
    ensures DigitsValue(s) < Pow10(|s|)
  {
    if s != [] {
      DigitsValueBelow(s[..|s| - 1]);
      assert Pow10(|s|) == 10 * Pow10(|s| - 1);
    }
  }

  /** Whatever the edit field accepts and holds a digit saves as a count from 0 to 999. */
  lemma AcceptedBufferSavesSmallCount(buffer: string)
    requires AllDigits(buffer) && 0 < |buffer| <= MaxEditLength
    ensures ParseInt(buffer).Some? && 0 <= ParseInt(buffer).value <= 999
  {
    ParseIntOfDigits(buffer);
    DigitsValueBelow(buffer);
    assert Pow10(|buffer|) <= Pow10(3) by {
      if |buffer| < 3 {
        assert Pow10(2) == 100;
      }
    }
  }

  class DoseCounter {
    var trocheCount: int
    /** The day the count was last brought up to date. */
    var lastUpdate: int
    var isEditing: bool
    /** The text of the edit field. */
    var editedCount: string

    /** The stored count (30 by default) and update day (today by default); not editing. */
    constructor(storedCount: Option<int>, storedLastUpdate: Option<int>, today: int)
      ensures trocheCount == storedCount.GetOr(InitialCount)
      ensures lastUpdate == storedLastUpdate.GetOr(today)
      ensures !isEditing && editedCount == IntToString(trocheCount)
    {
      trocheCount := storedCount.GetOr(InitialCount);
      lastUpdate := storedLastUpdate.GetOr(today);
      isEditing := false;
      editedCount := IntToString(storedCount.GetOr(InitialCount));
    }

    /** Sets the count; when it changes, the edit field is refreshed from it. */
    method SetCount(n: int)
      modifies this
      ensures trocheCount == n
      ensures editedCount == if n != old(trocheCount) then IntToString(n) else old(editedCount)
      ensures lastUpdate == old(lastUpdate) && isEditing == old(isEditing)
    {
      if n != trocheCount {
        editedCount := IntToString(n);
      }
      trocheCount := n;
    }

    /** On opening: one dose per day passed since the last update, and the update day becomes today. */
    method CatchUp(today: int)
      modifies this
      ensures today > old(lastUpdate) ==>
                trocheCount == Decremented(old(trocheCount), today - old(lastUpdate)) && lastUpdate == today
      ensures today <= old(lastUpdate) ==> trocheCount == old(trocheCount) && lastUpdate == old(lastUpdate)
      ensures editedCount == if trocheCount != old(trocheCount) then IntToString(trocheCount) else old(editedCount)
      ensures isEditing == old(isEditing)
    {
      if today > lastUpdate {
        var daysPassed := today - lastUpdate;
        if daysPassed > 0 {
          SetCount(Decremented(trocheCount, daysPassed));
          lastUpdate := today;
        }
      }
    }

    /** A new shipment adds exactly 30 troches. */
    method AddShipment()
      modifies this
      ensures trocheCount == old(trocheCount) + ShipmentSize
      ensures editedCount == IntToString(trocheCount)
      ensures lastUpdate == old(lastUpdate) && isEditing == old(isEditing)
    {
      SetCount(trocheCount + ShipmentSize);
    }

    method StartEditing()
      modifies this
      ensures isEditing
      ensures trocheCount == old(trocheCount) && lastUpdate == old(lastUpdate) && editedCount == old(editedCount)
    {
      isEditing := true;
    }

    /** The edit field accepts only digits, at most three of them; other input is ignored. */
    method CountChange(val: string)
      modifies this
      ensures editedCount == if AllDigits(val) && |val| <= MaxEditLength then val else old(editedCount)
      ensures trocheCount == old(trocheCount) && lastUpdate == old(lastUpdate) && isEditing == old(isEditing)
    {
      if AllDigits(val) && |val| <= MaxEditLength {
        editedCount := val;
      }
    }

    /**
     * Saves the field as the count, raised to at least zero; a field that
     * does not parse leaves the count alone. Editing ends either way.
     */
    method SaveCount()
      modifies this
      ensures ParseInt(old(editedCount)).Some? ==> trocheCount == Max(0, ParseInt(old(editedCount)).value)
      ensures ParseInt(old(editedCount)).None? ==> trocheCount == old(trocheCount)
      ensures old(editedCount) == IntToString(old(trocheCount)) && old(trocheCount) >= 0 ==>
                trocheCount == old(trocheCount)
      ensures !isEditing && lastUpdate == old(lastUpdate)
      ensures editedCount == if trocheCount != old(trocheCount) then IntToString(trocheCount) else old(editedCount)
    {
      ParseIntOfIntToString(trocheCount);
      var newCount := ParseInt(editedCount);
      if newCount.Some? {
        SetCount(Max(0, newCount.value));
      }
      isEditing := false;
    }

    /** Enter saves; Escape restores the field from the count and ends editing. */
    method KeyDown(key: string)
      modifies this
      ensures key == "Enter" ==>
                && (ParseInt(old(editedCount)).Some? ==> trocheCount == Max(0, ParseInt(old(editedCount)).value))
                && (ParseInt(old(editedCount)).None? ==> trocheCount == old(trocheCount))
                && (old(editedCount) == IntToString(old(trocheCount)) && old(trocheCount) >= 0 ==>
                      trocheCount == old(trocheCount))
                && !isEditing && lastUpdate == old(lastUpdate)
                && editedCount == if trocheCount != old(trocheCount) then IntToString(trocheCount) else old(editedCount)
      ensures key == "Escape" ==> !isEditing && editedCount == IntToString(old(trocheCount))
                                  && trocheCount == old(trocheCount) && lastUpdate == old(lastUpdate)
      ensures key != "Enter" && key != "Escape" ==>
                trocheCount == old(trocheCount) && lastUpdate == old(lastUpdate)
                && isEditing == old(isEditing) && editedCount == old(editedCount)
    {
      if key == "Enter" {
        SaveCount();
      } else if key == "Escape" {
        editedCount := IntToString(trocheCount);
        isEditing := false;
      }
    }
  }

  // ---------------------------------------------------------------- the check-in

  /** Selecting the selected mood clears it; selecting another mood selects that one. */
  function SelectMood(prev: Option<int>, mood: int): (r: Option<int>)
    ensures r == None <==> prev == Some(mood)
    ensures r != None ==> r == Some(mood)
  {
    if prev == Some(mood) then None else Some(mood)
  }

  /** Selecting a mood twice gives back an empty or same-mood selection, and clears any other mood. */
  lemma SelectMoodTwice(prev: Option<int>, mood: int)
    ensures prev == None || prev == Some(mood) ==> SelectMood(SelectMood(prev, mood), mood) == prev
    ensures prev.Some? && prev != Some(mood) ==> SelectMood(SelectMood(prev, mood), mood) == None
  {
  }

  /** The tags without any copy of `tag`, in their order. */
  function RemoveTag(tags: seq<string>, tag: string): (r: seq<string>)
    ensures forall x :: x in r <==> x in tags && x != tag
    ensures |r| <= |tags|
  {
    if tags == [] then []
    else
      var rest := RemoveTag(tags[1..], tag);
      assert tags == [tags[0]] + tags[1..];
      if tags[0] == tag then rest else [tags[0]] + rest
  }

  /**
   * Removal keeps the order and the copies of the other tags: it distributes
   * over concatenation, and a single tag stays exactly when it is another one.
   */
  lemma {:induction false} RemoveTagConcat(a: seq<string>, b: seq<string>, tag: string)
    ensures RemoveTag(a + b, tag) == RemoveTag(a, tag) + RemoveTag(b, tag)
  {
    if a == [] {
      assert a + b == b;
    } else {
      var keep := if a[0] == tag then [] else [a[0]];
      calc {
        RemoveTag(a + b, tag);
        { assert a + b == [a[0]] + (a[1..] + b); }
        RemoveTag([a[0]] + (a[1..] + b), tag);
        { RemoveTagCons(a[0], a[1..] + b, tag); }
        keep + RemoveTag(a[1..] + b, tag);
        { RemoveTagConcat(a[1..], b, tag); }
        keep + (RemoveTag(a[1..], tag) + RemoveTag(b, tag));
        (keep + RemoveTag(a[1..], tag)) + RemoveTag(b, tag);
        { RemoveTagCons(a[0], a[1..], tag); assert a == [a[0]] + a[1..]; }
        RemoveTag(a, tag) + RemoveTag(b, tag);
      }
    }
  }

  /** A tag in front is dropped exactly when it is `tag`; so is a single tag. */
  lemma RemoveTagCons(x: string, rest: seq<string>, tag: string)
    ensures RemoveTag([x] + rest, tag) == (if x == tag then [] else [x]) + RemoveTag(rest, tag)
    ensures RemoveTag([x], tag) == if x == tag then [] else [x]
  {
    assert ([x] + rest)[1..] == rest;
    assert [x][1..] == [];
  }

  /** Removing a tag that is absent changes nothing. */
  lemma {:induction false} RemoveAbsentTag(tags: seq<string>, tag: string)
    requires tag !in tags
    ensures RemoveTag(tags, tag) == tags
  {
    if tags != [] {
      RemoveAbsentTag(tags[1..], tag);
    }
  }

  /** A selected tag is removed; an unselected one is added at the end. */
  function ToggleTag(tags: seq<string>, tag: string): (r: seq<string>)
    ensures forall x :: x in r <==> if x == tag then tag !in tags else x in tags
  {
    if tag in tags then RemoveTag(tags, tag) else tags + [tag]
  }

  /** Toggling a tag twice restores the selection as a set, and exactly when the tag was not selected. */
  lemma ToggleTagTwice(tags: seq<string>, tag: string)
    ensures forall x :: x in ToggleTag(ToggleTag(tags, tag), tag) <==> x in tags
    ensures tag !in tags ==> ToggleTag(ToggleTag(tags, tag), tag) == tags
  {
    if tag !in tags {
      RemoveAbsentTag(tags, tag);
      assert RemoveTag(tags + [tag], tag) == RemoveTag(tags, tag) by {
        RemoveTagAppend(tags, tag);
      }
    }
  }

  lemma {:induction false} RemoveTagAppend(tags: seq<string>, tag: string)
    ensures RemoveTag(tags + [tag], tag) == RemoveTag(tags, tag)
  {
    if tags == [] {
      assert RemoveTag([tag][1..], tag) == [];
    } else {
      assert (tags + [tag])[1..] == tags[1..] + [tag];
      RemoveTagAppend(tags[1..], tag);
    }
  }

  /** The first log of `day`, if any. */
  function TodaysLog(history: seq<MoodLog>, day: int): (r: Option<MoodLog>)
    ensures r.Some? ==> r.value in history && r.value.date == day
    ensures r.Some? ==> exists i :: 0 <= i < |history| && history[i] == r.value
                                   && forall j :: 0 <= j < i ==> history[j].date != day
    ensures r.None? ==> forall x :: x in history ==> x.date != day
    ensures history != [] && history[0].date == day ==> r == Some(history[0])
  {
    if history == [] then None
    else if history[0].date == day then Some(history[0])
    else TodaysLog(history[1..], day)
  }

  /** The logs of every other day, in their order. */
  function OtherDays(history: seq<MoodLog>, day: int): (r: seq<MoodLog>)
    ensures forall x :: x in r <==> x in history && x.date != day
  {
    if history == [] then []
    else
      var rest := OtherDays(history[1..], day);
      assert history == [history[0]] + history[1..];
      if history[0].date != day then [history[0]] + rest else rest
  }

  /**
   * The filter keeps order and multiplicity: it distributes over concatenation,
   * and a single log stays exactly when it is of another day.
   */
  lemma {:induction false} OtherDaysConcat(a: seq<MoodLog>, b: seq<MoodLog>, day: int)
    ensures OtherDays(a + b, day) == OtherDays(a, day) + OtherDays(b, day)
  {
    if a == [] {
      assert a + b == b;
    } else {
      var keep := if a[0].date != day then [a[0]] else [];
      calc {
        OtherDays(a + b, day);
        { assert a + b == [a[0]] + (a[1..] + b); }
        OtherDays([a[0]] + (a[1..] + b), day);
        { OtherDaysCons(a[0], a[1..] + b, day); }
        keep + OtherDays(a[1..] + b, day);
        { OtherDaysConcat(a[1..], b, day); }
        keep + (OtherDays(a[1..], day) + OtherDays(b, day));
        (keep + OtherDays(a[1..], day)) + OtherDays(b, day);
        { OtherDaysCons(a[0], a[1..], day); assert a == [a[0]] + a[1..]; }
        OtherDays(a, day) + OtherDays(b, day);
      }
    }
  }

  /** A log in front is kept exactly when it is from another day; so is a single log. */
  lemma OtherDaysCons(x: MoodLog, rest: seq<MoodLog>, day: int)
    ensures OtherDays([x] + rest, day) == (if x.date != day then [x] else []) + OtherDays(rest, day)
    ensures OtherDays([x], day) == if x.date != day then [x] else []
  {
    assert ([x] + rest)[1..] == rest;
    assert [x][1..] == [];
  }

  /** A check-in replaces the day's log: it becomes the day's only log, and every other day's log stays. */
  lemma CheckinUpsert(history: seq<MoodLog>, log: MoodLog)
    ensures var r := OtherDays(history, log.date) + [log];
            && TodaysLog(r, log.date) == Some(log)
            && (forall x :: x in r && x.date == log.date ==> x == log)
            && (forall x: MoodLog :: x.date != log.date ==> (x in r <==> x in history))
  {
    var r := OtherDays(history, log.date) + [log];
    TodaysLogOfAppend(OtherDays(history, log.date), log);
  }

  lemma {:induction false} TodaysLogOfAppend(s: seq<MoodLog>, log: MoodLog)
    requires forall x :: x in s ==> x.date != log.date
    ensures TodaysLog(s + [log], log.date) == Some(log)
  {
    if s != [] {
      assert (s + [log])[1..] == s[1..] + [log];
      TodaysLogOfAppend(s[1..], log);
    }
  }

  class MoodTracker {
    var moodHistory: seq<MoodLog>
    var selectedMood: Option<int>
    var selectedTags: seq<string>
    var intention: string
    var isCheckinOpen: bool
    const today: int

    /** The form shows `log` when there is one, and is open and blank otherwise. */
    ghost predicate Shows(log: Option<MoodLog>)
      reads this
    {
      match log
      case Some(l) =>
        selectedMood == Some(l.mood) && selectedTags == l.tags && intention == l.intention && !isCheckinOpen
      case None =>
        selectedMood == None && selectedTags == [] && intention == "" && isCheckinOpen
    }

    /** The form starts from today's log, if there is one. */
    constructor(history: seq<MoodLog>, today: int)
      ensures moodHistory == history && this.today == today
      ensures Shows(TodaysLog(history, today))
    {
      moodHistory := history;
      this.today := today;
      var todays := TodaysLog(history, today);
      isCheckinOpen := todays.None?;
      if todays.Some? {
        selectedMood := Some(todays.value.mood);
        selectedTags := todays.value.tags;
        intention := todays.value.intention;
      } else {
        selectedMood := None;
        selectedTags := [];
        intention := "";
      }
    }

    /** Whenever the history changes, the form is reloaded from today's log. */
    method Sync()
      modifies this
      ensures moodHistory == old(moodHistory)
      ensures Shows(TodaysLog(moodHistory, today))
    {
      var todays := TodaysLog(moodHistory, today);
      if todays.Some? {
        selectedMood := Some(todays.value.mood);
        selectedTags := todays.value.tags;
        intention := todays.value.intention;
        isCheckinOpen := false;
      } else {
        selectedMood := None;
        selectedTags := [];
        intention := "";
        isCheckinOpen := true;
      }
    }

    method HandleMoodSelect(mood: int)
      modifies this
      ensures selectedMood == SelectMood(old(selectedMood), mood)
      ensures moodHistory == old(moodHistory) && selectedTags == old(selectedTags)
      ensures intention == old(intention) && isCheckinOpen == old(isCheckinOpen)
    {
      selectedMood := SelectMood(selectedMood, mood);
    }

    method HandleTagToggle(tag: string)
      modifies this
      ensures selectedTags == ToggleTag(old(selectedTags), tag)
      ensures moodHistory == old(moodHistory) && selectedMood == old(selectedMood)
      ensures intention == old(intention) && isCheckinOpen == old(isCheckinOpen)
    {
      selectedTags := ToggleTag(selectedTags, tag);
    }

    /**
     * Without a mood or with a blank intention nothing happens. Otherwise
     * today's log is replaced by one with the trimmed intention, and the
     * form closes and shows it.
     */
    method HandleSaveCheckin()
      modifies this
      ensures old(selectedMood).None? || Trim(old(intention)) == [] ==>
                moodHistory == old(moodHistory) && selectedMood == old(selectedMood)
                && selectedTags == old(selectedTags) && intention == old(intention)
                && isCheckinOpen == old(isCheckinOpen)
      ensures old(selectedMood).Some? && Trim(old(intention)) != [] ==>
                var log := MoodLog(today, old(selectedMood).value, old(selectedTags), Trim(old(intention)));
                && moodHistory == OtherDays(old(moodHistory), today) + [log]
                && Shows(Some(log))
    {
      if selectedMood.None? || Trim(intention) == [] {
        return;
      }
      var log := MoodLog(today, selectedMood.value, selectedTags, Trim(intention));
      moodHistory := OtherDays(moodHistory, today) + [log];
      isCheckinOpen := false;
      CheckinUpsert(old(moodHistory), log);
      Sync();
    }
  }
}
