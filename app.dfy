/**
 * The wellness score shown on the main screen, and the per-day record of
 * which activities were done.
 */
module App {
  import opened Wrappers
  import opened Types

  // ---------------------------------------------------------------- newest first

  ghost predicate SortedDesc(s: seq<MoodLog>) {
    forall i, j :: 0 <= i < j < |s| ==> s[i].date >= s[j].date
  }

  /** Places `x` before the first log that is not newer than it. */
  function InsertDesc(x: MoodLog, s: seq<MoodLog>): (r: seq<MoodLog>)
    requires SortedDesc(s)
    ensures SortedDesc(r)
    ensures multiset(r) == multiset(s) + multiset{x}
  {
    if s == [] || s[0].date <= x.date then [x] + s
    else
      assert SortedDesc(s[1..]);
      var rest := InsertDesc(x, s[1..]);
      InsertKeepsBound(x, s[1..], rest, s[0].date);
      assert s == [s[0]] + s[1..];
      [s[0]] + rest
  }

  /** Every log of an insertion result comes from the list or is the inserted one, so a common bound carries over. */
  lemma InsertKeepsBound(x: MoodLog, s: seq<MoodLog>, r: seq<MoodLog>, bound: int)
    requires multiset(r) == multiset(s) + multiset{x}
    requires x.date <= bound && forall j :: 0 <= j < |s| ==> s[j].date <= bound
    ensures forall j :: 0 <= j < |r| ==> r[j].date <= bound
  {
    forall j | 0 <= j < |r|
      ensures r[j].date <= bound
    {
      assert r[j] in multiset(r);
      if r[j] != x {
        assert r[j] in multiset(s);
        var k :| 0 <= k < |s| && s[k] == r[j];
      }
    }
  }

  /** The history ordered newest first; logs of the same day keep their order. */
  function SortDesc(s: seq<MoodLog>): (r: seq<MoodLog>)
    ensures SortedDesc(r)
    ensures multiset(r) == multiset(s)
  {
    if s == [] then []
    else
      assert s == [s[0]] + s[1..];
      InsertDesc(s[0], SortDesc(s[1..]))
  }

  // ---------------------------------------------------------------- streak

  /** How many logs at the front of the list fall on consecutive days, going back one day at a time. */
  function Run(s: seq<MoodLog>): (k: nat)
    ensures k <= |s|
    ensures s != [] ==> k >= 1
  {
    if |s| <= 1 then |s|
    else if s[1].date == s[0].date - 1 then 1 + Run(s[1..])
    else 1
  }

  /** The run is made of consecutive days and stops at the first log that breaks it. */
  lemma {:induction false} RunIsConsecutive(s: seq<MoodLog>)
    ensures forall i :: 0 <= i < Run(s) ==> s[i].date == s[0].date - i
    ensures Run(s) < |s| ==> s[Run(s)].date != s[0].date - Run(s)
  {
    if |s| > 1 && s[1].date == s[0].date - 1 {
      RunIsConsecutive(s[1..]);
      forall i | 0 < i < Run(s)
        ensures s[i].date == s[0].date - i
      {
        assert s[i] == s[1..][i - 1];
      }
    }
  }

  /** The streak: the run of the newest-first history, if its newest log is from today or yesterday. */
  function Streak(sorted: seq<MoodLog>, today: int): (k: nat)
    ensures k > 0 ==> sorted != [] && sorted[0].date >= today - 1
    ensures sorted != [] && sorted[0].date >= today - 1 ==> k == Run(sorted) && k >= 1
  {
    if sorted != [] && today - sorted[0].date <= 1 then Run(sorted) else 0
  }

  /** Five points per streak day, for at most ten days. */
  function StreakScore(streak: nat): (points: int)
    ensures 0 <= points <= 50
    ensures streak <= 10 ==> points == 5 * streak
    ensures streak >= 10 ==> points == 50
  {
    (if streak < 10 then streak else 10) * 5
  }

  // ---------------------------------------------------------------- mood momentum

  /** Recent logs weigh more: 8 for today, one less per day back, never below 1. */
  function Weight(date: int, today: int): (w: int)
    ensures w >= 1
    ensures w >= 8 - (today - date)
    ensures w == 1 || w == 8 - (today - date)
  {
    var daysAgo := today - date;
    if 8 - daysAgo > 1 then 8 - daysAgo else 1
  }

  /** The logs of the last seven days, in their order. */
  function Recent(sorted: seq<MoodLog>, today: int): (r: seq<MoodLog>)
    ensures forall x :: x in r <==> x in sorted && x.date >= today - 7
    ensures |r| <= |sorted|
  {
    if sorted == [] then []
    else
      var rest := Recent(sorted[..|sorted| - 1], today);
      var last := sorted[|sorted| - 1];
      assert sorted == sorted[..|sorted| - 1] + [last];
      if last.date >= today - 7 then rest + [last] else rest
  }

  /** A single log is kept exactly when it is from the last seven days. */
  lemma RecentSingle(x: MoodLog, today: int)
    ensures Recent([x], today) == if x.date >= today - 7 then [x] else []
  {
    assert [x][..0] == [];
  }

  /** The filter keeps order and multiplicity: it distributes over concatenation. */
  lemma {:induction false} RecentConcat(a: seq<MoodLog>, b: seq<MoodLog>, today: int)
    ensures Recent(a + b, today) == Recent(a, today) + Recent(b, today)
  {
    if b == [] {
      assert a + b == a;
    } else {
      var front, last := b[..|b| - 1], b[|b| - 1];
      var keep := if last.date >= today - 7 then [last] else [];
      calc {
        Recent(a + b, today);
        { assert a + b == (a + front) + [last]; }
        Recent((a + front) + [last], today);
        { RecentSnoc(a + front, last, today); }
        Recent(a + front, today) + keep;
        { RecentConcat(a, front, today); }
        (Recent(a, today) + Recent(front, today)) + keep;
        Recent(a, today) + (Recent(front, today) + keep);
        { RecentSnoc(front, last, today); assert b == front + [last]; }
        Recent(a, today) + Recent(b, today);
      }
    }
  }

  /** A log at the end is kept exactly when it is from the last seven days. */
  lemma RecentSnoc(init: seq<MoodLog>, x: MoodLog, today: int)
    ensures Recent(init + [x], today) == Recent(init, today) + (if x.date >= today - 7 then [x] else [])
  {
    var s := init + [x];
    assert s[..|s| - 1] == init;
  }

  function TotalWeight(logs: seq<MoodLog>, today: int): (w: int)
    ensures w >= |logs|
  {
    if logs == [] then 0
    else TotalWeight(logs[..|logs| - 1], today) + Weight(logs[|logs| - 1].date, today)
  }

  /** The sum of each mood times its weight; never negative when no mood is. */
  function WeightedMood(logs: seq<MoodLog>, today: int): (r: int)
    ensures logs == [] ==> r == 0
    ensures MoodsInRange(logs, 0, 5) ==> 0 <= r <= 5 * TotalWeight(logs, today)
  {
    if logs == [] then 0
    else
      var last := logs[|logs| - 1];
      ScaledMoodBounds(last.mood, Weight(last.date, today));
      assert last in logs;
      assert MoodsInRange(logs, 0, 5) ==> MoodsInRange(logs[..|logs| - 1], 0, 5);
      WeightedMood(logs[..|logs| - 1], today) + last.mood * Weight(last.date, today)
  }

  /** One weighted mood from 0 to 5 lies between 0 and 5 times its weight. */
  lemma ScaledMoodBounds(mood: int, w: int)
    requires w >= 0
    ensures 0 <= mood <= 5 ==> 0 <= mood * w <= 5 * w
  {
    if 0 <= mood <= 5 {
      assert mood * w <= 5 * w by { assert (5 - mood) * w >= 0; }
    }
  }

  /** The weighted average mood of the recent logs, scaled by 8. */
  function MoodScore(sorted: seq<MoodLog>, today: int): (r: real)
    ensures Recent(sorted, today) == [] ==> r == 0.0
  {
    var recent := Recent(sorted, today);
    if |recent| > 0 then
      var total := TotalWeight(recent, today);
      (if total > 0 then WeightedMood(recent, today) as real / total as real else 0.0) * 8.0
    else 0.0
  }

  ghost predicate MoodsInRange(logs: seq<MoodLog>, lo: int, hi: int) {
    forall x :: x in logs ==> lo <= x.mood <= hi
  }

  /** A weighted sum of moods between `lo` and `hi` lies between `lo` and `hi` times the total weight. */
  lemma {:induction false} WeightedMoodBounds(logs: seq<MoodLog>, today: int, lo: int, hi: int)
    requires MoodsInRange(logs, lo, hi)
    ensures lo * TotalWeight(logs, today) <= WeightedMood(logs, today) <= hi * TotalWeight(logs, today)
  {
    if logs != [] {
      var init, last := logs[..|logs| - 1], logs[|logs| - 1];
      assert MoodsInRange(init, lo, hi) by {
        forall x | x in init
          ensures lo <= x.mood <= hi
        {
          assert x in logs;
        }
      }
      assert last in logs;
      WeightedMoodBounds(init, today, lo, hi);
      StepBounds(lo, hi, last.mood, Weight(last.date, today), TotalWeight(init, today), WeightedMood(init, today));
    }
  }

  /** Adding one weighted mood keeps the weighted sum between the bounds. */
  lemma StepBounds(lo: int, hi: int, m: int, w: int, total: int, sum: int)
    requires lo * total <= sum <= hi * total
    requires lo <= m <= hi && w >= 0
    ensures lo * (total + w) <= sum + m * w <= hi * (total + w)
  {
    MulMonotone(lo, m, w);
    MulMonotone(m, hi, w);
    assert lo * (total + w) == lo * total + lo * w;
    assert hi * (total + w) == hi * total + hi * w;
  }

  lemma MulMonotone(a: int, b: int, w: int)
    requires a <= b && w >= 0
    ensures a * w <= b * w
  {
    assert b * w - a * w == (b - a) * w;
  }

  /** An average of values from 1 to 5 lies between 1 and 5. */
  lemma AverageBounds(sum: int, total: int)
    requires total > 0 && total <= sum <= 5 * total
    ensures 1.0 <= sum as real / total as real <= 5.0
  {
    var t := total as real;
    var q := sum as real / t;
    assert q * t == sum as real;
  }

  /** With moods from 1 to 5 the mood component is at most 40, and at least 8 when there are recent logs. */
  lemma MoodScoreBounds(sorted: seq<MoodLog>, today: int)
    requires MoodsInRange(sorted, 1, 5)
    ensures 0.0 <= MoodScore(sorted, today) <= 40.0
    ensures Recent(sorted, today) != [] ==> 8.0 <= MoodScore(sorted, today)
  {
    var recent := Recent(sorted, today);
    if |recent| > 0 {
      var total := TotalWeight(recent, today);
      var sum := WeightedMood(recent, today);
      WeightedMoodBounds(recent, today, 1, 5);
      AverageBounds(sum, total);
    }
  }

  // ---------------------------------------------------------------- activity bonus

  /** How many of the day's four activities were done. */
  function ActivityCount(a: DailyActivities): (n: nat)
    ensures n <= 4
    ensures n == 0 <==> forall b :: !a.Done(b)
    ensures n == 4 <==> forall b :: a.Done(b)
  {
    assert a.Done(Meditation) == a.meditation && a.Done(Breathing) == a.breathing;
    assert a.Done(Mantras) == a.mantras && a.Done(Reflections) == a.reflections;
    (if a.meditation then 1 else 0) + (if a.breathing then 1 else 0)
      + (if a.mantras then 1 else 0) + (if a.reflections then 1 else 0)
  }

  /** Two and a half points per activity done today; none without today's record. */
  function ActivityScore(today: Option<DailyActivities>): (points: real)
    ensures 0.0 <= points <= 10.0
    ensures today.Some? ==> points == 2.5 * ActivityCount(today.value) as real
    ensures today.None? ==> points == 0.0
  {
    if today.Some? then ActivityCount(today.value) as real * 2.5 else 0.0
  }

  /** `Math.round`: the nearest integer, halves rounded up. */
  function Round(x: real): (n: int)
    ensures x - 0.5 < n as real <= x + 0.5
  {
    (x + 0.5).Floor
  }

  /** The consecutive-day loop over the newest-first history. */
  method ComputeStreak(sorted: seq<MoodLog>, today: int) returns (streak: int)
    ensures streak == Streak(sorted, today)
  {
    streak := 0;
    if |sorted| > 0 {
      var mostRecent := sorted[0].date;
      if today - mostRecent <= 1 {
        streak := 1;
        var current := mostRecent;
        var i := 1;
        while i < |sorted|
          invariant 1 <= i <= |sorted|
          invariant streak == i && current == sorted[i - 1].date
          invariant Run(sorted) == (i - 1) + Run(sorted[i - 1..])
        {
          var nextExpected := current - 1;
          if sorted[i].date == nextExpected {
            assert sorted[i - 1..][1..] == sorted[i..];
            streak := streak + 1;
            current := sorted[i].date;
            i := i + 1;
          } else {
            break;
          }
        }
      }
    }
  }

  /** The weighted-mood loop over the recent logs. */
  method ComputeMoodScore(sorted: seq<MoodLog>, today: int) returns (moodScore: real)
    ensures moodScore == MoodScore(sorted, today)
  {
    var recent := Recent(sorted, today);
    moodScore := 0.0;
    if |recent| > 0 {
      var totalWeightedMood := 0;
      var totalWeight := 0;
      var j := 0;
      while j < |recent|
        invariant 0 <= j <= |recent|
        invariant totalWeightedMood == WeightedMood(recent[..j], today)
        invariant totalWeight == TotalWeight(recent[..j], today)
      {
        var log := recent[j];
        var weight := Weight(log.date, today);
        assert recent[..j + 1][..j] == recent[..j];
        totalWeightedMood := totalWeightedMood + log.mood * weight;
        totalWeight := totalWeight + weight;
        j := j + 1;
      }
      assert recent[..j] == recent;
      var weightedAvgMood := if totalWeight > 0 then totalWeightedMood as real / totalWeight as real else 0.0;
      moodScore := weightedAvgMood * 8.0;
    }
  }

  /** Reordering the history keeps every mood in range. */
  lemma MoodsInRangePermutation(s: seq<MoodLog>, t: seq<MoodLog>, lo: int, hi: int)
    requires multiset(s) == multiset(t) && MoodsInRange(s, lo, hi)
    ensures MoodsInRange(t, lo, hi)
  {
    forall x | x in t
      ensures lo <= x.mood <= hi
    {
      assert x in multiset(t);
      assert x in multiset(s);
    }
  }

  /**
   * The score: streak, mood momentum and activities, rounded and capped at
   * 100; 0 for an empty history.
   */
  function KalmScore(history: seq<MoodLog>, activities: Option<DailyActivities>, today: int): (score: int)
    ensures history == [] ==> score == 0
    ensures score <= 100
  {
    if history == [] then 0
    else
      var sorted := SortDesc(history);
      Min(100, Round(StreakScore(Streak(sorted, today)) as real + MoodScore(sorted, today) + ActivityScore(activities)))
  }

  /** With moods from 1 to 5 the score lies between 0 and 100. */
  lemma KalmScoreBounds(history: seq<MoodLog>, activities: Option<DailyActivities>, today: int)
    requires MoodsInRange(history, 1, 5)
    ensures 0 <= KalmScore(history, activities, today) <= 100
  {
    if history != [] {
      var sorted := SortDesc(history);
      MoodsInRangePermutation(history, sorted, 1, 5);
      MoodScoreBounds(sorted, today);
      FinalScoreBounds(StreakScore(Streak(sorted, today)), MoodScore(sorted, today), ActivityScore(activities));
    }
  }

  /** The score method: sorts the history newest first, then runs the streak and mood loops. */
  method CalculateKalmScore(history: seq<MoodLog>, activities: Option<DailyActivities>, today: int)
    returns (score: int, streak: int)
    ensures history == [] ==> score == 0 && streak == 0
    ensures history != [] ==> streak == Streak(SortDesc(history), today)
    ensures score == KalmScore(history, activities, today)
    ensures MoodsInRange(history, 1, 5) ==> 0 <= score <= 100
  {
    if |history| == 0 {
      return 0, 0;
    }
    var sorted := SortDesc(history);
    streak := ComputeStreak(sorted, today);
    var streakScore := StreakScore(streak);
    var moodScore := ComputeMoodScore(sorted, today);
    var activityScore := ActivityScore(activities);
    var finalScore := Round(streakScore as real + moodScore + activityScore);
    score := Min(100, finalScore);
    if MoodsInRange(history, 1, 5) {
      KalmScoreBounds(history, activities, today);
    }
  }

  /** Parts within their ranges give a final score from 0 to 100. */
  lemma FinalScoreBounds(streakScore: int, moodScore: real, activityScore: real)
    requires 0 <= streakScore <= 50 && 0.0 <= moodScore <= 40.0 && 0.0 <= activityScore <= 10.0
    ensures 0 <= Min(100, Round(streakScore as real + moodScore + activityScore)) <= 100
  {
    var x := streakScore as real + moodScore + activityScore;
    assert 0.0 <= x;
    assert x - 0.5 < Round(x) as real;
  }

  function Min(a: int, b: int): int {
    if a < b then a else b
  }

  /**
   * A newest log from today or yesterday (or later) starts a streak of at least one day; the
   * streak counts back day by day from it and stops at the first gap.
   */
  lemma StreakIsConsecutiveDays(sorted: seq<MoodLog>, today: int)
    ensures var k := Streak(sorted, today);
            && (k > 0 <==> sorted != [] && sorted[0].date >= today - 1)
            && (forall i :: 0 <= i < k ==> sorted[i].date == sorted[0].date - i)
            && (0 < k < |sorted| ==> sorted[k].date != sorted[0].date - k)
  {
    RunIsConsecutive(sorted);
  }

  // ---------------------------------------------------------------- daily activity log

  /** The position of the first record of `day`, or -1 when there is none. */
  function FindIndex(logs: seq<DailyActivities>, day: int): (i: int)
    ensures -1 <= i < |logs|
    ensures i >= 0 ==> logs[i].date == day
    ensures forall j :: 0 <= j < |logs| && (i < 0 || j < i) ==> logs[j].date != day
  {
    if logs == [] then -1
    else if logs[0].date == day then 0
    else
      var i := FindIndex(logs[1..], day);
      if i < 0 then -1 else i + 1
  }

  /** Today's record, the first one with today's date. */
  function FindDay(logs: seq<DailyActivities>, day: int): (r: Option<DailyActivities>)
    ensures r.Some? ==> r.value in logs && r.value.date == day
    ensures r.Some? ==> exists i :: 0 <= i < |logs| && logs[i] == r.value
                                   && forall j :: 0 <= j < i ==> logs[j].date != day
    ensures r.None? ==> forall x :: x in logs ==> x.date != day
  {
    var i := FindIndex(logs, day);
    if i < 0 then None else Some(logs[i])
  }

  /** The record with one more activity marked as done. */
  function MarkDone(d: DailyActivities, a: Activity): (r: DailyActivities)
    ensures r.date == d.date
    ensures forall b :: r.Done(b) == (b == a || d.Done(b))
  {
    match a
    case Meditation => d.(meditation := true)
    case Breathing => d.(breathing := true)
    case Mantras => d.(mantras := true)
    case Reflections => d.(reflections := true)
  }

  /** A new record for `day` with only `a` done. */
  function FreshDay(day: int, a: Activity): (r: DailyActivities)
    ensures r.date == day
    ensures forall b :: r.Done(b) == (b == a)
  {
    MarkDone(DailyActivities(day, false, false, false, false), a)
  }

  /**
   * Marks activity `a` as done today: unchanged if already done, otherwise
   * only that flag of today's record turns on, or a record for today is
   * appended with only that flag on.
   */
  function LogActivity(logs: seq<DailyActivities>, a: Activity, today: int): (r: seq<DailyActivities>)
    ensures var i := FindIndex(logs, today);
            i >= 0 && logs[i].Done(a) ==> r == logs
    ensures var i := FindIndex(logs, today);
            i >= 0 ==> |r| == |logs| && r[i].date == today
                       && (forall b :: r[i].Done(b) == (b == a || logs[i].Done(b)))
                       && (forall j :: 0 <= j < |logs| && j != i ==> r[j] == logs[j])
    ensures FindIndex(logs, today) < 0 ==>
              |r| == |logs| + 1 && r[..|logs|] == logs
              && r[|logs|].date == today && (forall b :: r[|logs|].Done(b) == (b == a))
  {
    var i := FindIndex(logs, today);
    if i > -1 then
      if logs[i].Done(a) then logs
      else logs[i := MarkDone(logs[i], a)]
    else
      logs + [FreshDay(today, a)]
  }

  /** After logging, today's record has the activity done. */
  lemma LogActivityMarksToday(logs: seq<DailyActivities>, a: Activity, today: int)
    ensures var r := FindDay(LogActivity(logs, a, today), today);
            r.Some? && r.value.Done(a)
  {
    var r := LogActivity(logs, a, today);
    var i := FindIndex(logs, today);
    if i >= 0 {
      assert r[i].date == today;
      assert FindIndex(r, today) == i;
    } else {
      assert forall j :: 0 <= j < |logs| ==> r[j] == logs[j];
      assert FindIndex(r, today) == |logs|;
    }
  }

  /** Logging the same activity twice on a day is the same as logging it once. */
  lemma LogActivityIdempotent(logs: seq<DailyActivities>, a: Activity, today: int)
    ensures LogActivity(LogActivity(logs, a, today), a, today) == LogActivity(logs, a, today)
  {
    var r := LogActivity(logs, a, today);
    var i := FindIndex(logs, today);
    if i >= 0 {
      assert forall j :: 0 <= j < i ==> r[j] == logs[j];
      assert FindIndex(r, today) == i;
    } else {
      assert forall j :: 0 <= j < |logs| ==> r[j] == logs[j];
      assert FindIndex(r, today) == |logs|;
    }
  }
}
