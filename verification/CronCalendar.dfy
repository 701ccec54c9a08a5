// The search for the next run: minute by minute over the UTC calendar.
module CronCalendar {
  import opened Prelude
  import opened CronExpr

  // The loop bound: two weeks of minutes.
  const SEARCH_STEPS := 60 * 24 * 14

  // A week of minutes.
  const WEEK := 60 * 24 * 7

  // gmtime's tm_min, tm_hour and tm_wday for a POSIX time in seconds.
  predicate TimeMatches(s: Schedule, t: int) {
    t / 60 % 60 in s.minutes && t / 3600 % 24 in s.hours && (t / 86400 + 4) % 7 in s.weekdays
  }

  // The same for a count of whole minutes since the epoch.
  predicate MinuteMatches(s: Schedule, e: int) {
    e % 60 in s.minutes && e / 60 % 24 in s.hours && (e / 1440 + 4) % 7 in s.weekdays
  }

  // The search from its step `i` on, starting at `rounded` seconds.
  function Search(s: Schedule, rounded: int, i: nat): int
    requires i <= SEARCH_STEPS
    decreases SEARCH_STEPS - i
  {
    if i == SEARCH_STEPS then -1
    else if TimeMatches(s, rounded + 60 * i) then (rounded + 60 * i) * 1000
    else Search(s, rounded, i + 1)
  }

  function NextRun(s: Schedule, fromMillis: nat): int {
    Search(s, fromMillis / 1000 + 60, 0)
  }

  // None stands for the exception that the parser let through.
  function NextCronRun(expr: string, fromMillis: nat): Option<int> {
    match ReadExpr(expr)
    case Parsed(s) => Some(NextRun(s, fromMillis))
    case Invalid(_) => Some(-1)
    case Threw => None
  }

  method ComputeNextCronRun(expr: string, fromMillis: nat) returns (result: Option<int>)
    ensures result == NextCronRun(expr, fromMillis)
  {
    var parsed := ParseCronExpr(expr);
    if parsed.Threw? {
      return None;
    }
    if parsed.Invalid? {
      return Some(-1);
    }
    var run := SearchFrom(parsed.schedule, fromMillis);
    return Some(run);
  }

  // The loop over candidate minutes.
  method SearchFrom(s: Schedule, fromMillis: nat) returns (run: int)
    ensures run == NextRun(s, fromMillis)
  {
    var rounded := fromMillis / 1000 + 60;
    for i := 0 to SEARCH_STEPS
      invariant NextRun(s, fromMillis) == Search(s, rounded, i)
    {
      var candidate := rounded + 60 * i;
      var minuteOk := candidate / 60 % 60 in s.minutes;
      var hourOk := candidate / 3600 % 24 in s.hours;
      var weekdayOk := (candidate / 86400 + 4) % 7 in s.weekdays;
      if minuteOk && hourOk && weekdayOk {
        return candidate * 1000;
      }
    }
    return -1;
  }

  // What a next run is: the least matching minute after the minute of `fromMillis`, at
  // most a week ahead; the seconds of `fromMillis` are kept.
  ghost predicate IsNextRun(s: Schedule, fromMillis: nat, run: int) {
    var b, e := fromMillis / 60000, run / 60000;
    && run > 0
    && b < e <= b + 10080
    && MinuteMatches(s, e)
    && (forall k :: b < k < e ==> !MinuteMatches(s, k))
    && run % 60000 == fromMillis % 60000 / 1000 * 1000
  }

  // ------------------------------------------------------------------
  // Proofs

  lemma SecondsAndMinutes(s: Schedule, t: int)
    requires t >= 0
    ensures TimeMatches(s, t) <==> MinuteMatches(s, t / 60)
  {
    assert t / 3600 == t / 60 / 60;
    assert t / 86400 == t / 60 / 1440;
  }

  // A minute of the week, as a residue, decides minute, hour and weekday.
  lemma ResidueDecides(e: int, q: int, day: int, hour: int, minute: int)
    requires e == WEEK * q + day * 1440 + hour * 60 + minute
    requires 0 <= minute < 60 && 0 <= hour < 24 && 0 <= day < 7
    ensures e % 60 == minute && e / 60 % 24 == hour && (e / 1440 + 4) % 7 == (day + 4) % 7
  {
    assert e == 60 * (168 * q + day * 24 + hour) + minute;
    assert e / 60 == 168 * q + day * 24 + hour;
    assert e / 60 == 24 * (7 * q + day) + hour;
    assert e == 1440 * (7 * q + day) + (hour * 60 + minute);
    assert e / 1440 == 7 * q + day;
  }

  // Minute, hour and weekday of the day `day` after 1 January 1970, a Thursday, decide a
  // match.
  lemma MatchMeaning(s: Schedule, e: int, day: int, hour: int, minute: int, week: int, weekday: int)
    requires e == day * 1440 + hour * 60 + minute && 0 <= minute < 60 && 0 <= hour < 24
    requires day + 4 == 7 * week + weekday && 0 <= weekday < 7
    ensures MinuteMatches(s, e) <==> minute in s.minutes && hour in s.hours && weekday in s.weekdays
  {
    assert e == 60 * (24 * day + hour) + minute;
    assert e / 60 == 24 * day + hour;
    assert e == 1440 * day + (hour * 60 + minute);
    assert e / 1440 == day;
  }

  // Within any week of minutes some minute matches a usable schedule.
  lemma WeekHasMatch(s: Schedule, b: int) returns (e: int)
    requires Usable(s)
    ensures b < e <= b + WEEK && MinuteMatches(s, e)
  {
    var minute :| minute in s.minutes;
    var hour :| hour in s.hours;
    var weekday :| weekday in s.weekdays;
    var day := (weekday + 3) % 7;
    var target := day * 1440 + hour * 60 + minute;
    // the next minute with the same place in the week
    var weeks;
    e, weeks := NextInWeek(b, target);
    ResidueDecides(e, weeks, day, hour, minute);
    DayOfWeekday(weekday);
  }

  lemma NextInWeek(b: int, target: int) returns (e: int, weeks: int)
    ensures b < e <= b + WEEK && e == WEEK * weeks + target
  {
    weeks := -((target - (b + 1)) / WEEK);
    e := b + 1 + (target - (b + 1)) % WEEK;
  }

  lemma DayOfWeekday(weekday: int)
    requires 0 <= weekday < 7
    ensures ((weekday + 3) % 7 + 4) % 7 == weekday
  {
  }

  // The loop finds the first match when there is one within its bound.
  lemma {:induction false} SearchFinds(s: Schedule, rounded: int, i: nat, hit: nat)
    requires rounded >= 0 && i <= hit < SEARCH_STEPS
    requires TimeMatches(s, rounded + 60 * hit)
    ensures exists j ::
      i <= j <= hit && Search(s, rounded, i) == (rounded + 60 * j) * 1000 && FirstMatch(s, rounded, i, j)
    decreases hit - i
  {
    if TimeMatches(s, rounded + 60 * i) {
      assert FirstMatch(s, rounded, i, i);
    } else {
      SearchFinds(s, rounded, i + 1, hit);
      var j :| i + 1 <= j <= hit && Search(s, rounded, i + 1) == (rounded + 60 * j) * 1000 &&
          FirstMatch(s, rounded, i + 1, j);
      assert FirstMatch(s, rounded, i, j);
    }
  }

  ghost predicate FirstMatch(s: Schedule, rounded: int, i: int, j: int) {
    TimeMatches(s, rounded + 60 * j) && forall k :: i <= k < j ==> !TimeMatches(s, rounded + 60 * k)
  }

  // Main result. For every usable schedule, so for every accepted expression, and every
  // time, the search never falls through: it returns the least matching minute after the
  // current one, never more than a week away.
  lemma NextRunMeaning(s: Schedule, fromMillis: nat)
    requires Usable(s)
    ensures IsNextRun(s, fromMillis, NextRun(s, fromMillis))
  {
    var rounded := fromMillis / 1000 + 60;
    var b := fromMillis / 60000;
    assert rounded / 60 == b + 1;
    var e := WeekHasMatch(s, b);
    var hit := e - (b + 1);
    StepMinute(rounded, b, hit);
    SecondsAndMinutes(s, rounded + 60 * hit);
    SearchFinds(s, rounded, 0, hit);
    var j :| 0 <= j <= hit && Search(s, rounded, 0) == (rounded + 60 * j) * 1000 && FirstMatch(s, rounded, 0, j);
    FirstMatchIsNextRun(s, fromMillis, j);
  }

  lemma StepMinute(rounded: int, b: int, i: int)
    requires rounded / 60 == b + 1
    ensures (rounded + 60 * i) / 60 == b + 1 + i
    ensures (rounded + 60 * i) % 60 == rounded % 60
  {
  }

  lemma FirstMatchIsNextRun(s: Schedule, fromMillis: nat, j: nat)
    requires j < WEEK && FirstMatch(s, fromMillis / 1000 + 60, 0, j)
    ensures IsNextRun(s, fromMillis, (fromMillis / 1000 + 60 + 60 * j) * 1000)
  {
    var rounded := fromMillis / 1000 + 60;
    var b := fromMillis / 60000;
    assert rounded / 60 == b + 1;
    var t := rounded + 60 * j;
    StepMinute(rounded, b, j);
    SecondsAndMinutes(s, t);
    MillisOf(t);
    forall k | b < k < b + 1 + j
      ensures !MinuteMatches(s, k)
    {
      var i := k - (b + 1);
      StepMinute(rounded, b, i);
      SecondsAndMinutes(s, rounded + 60 * i);
      assert !TimeMatches(s, rounded + 60 * i);
    }
    KeptSeconds(fromMillis);
  }

  lemma MillisOf(t: int)
    requires t >= 0
    ensures t * 1000 / 60000 == t / 60
    ensures t * 1000 % 60000 == t % 60 * 1000
  {
  }

  lemma KeptSeconds(fromMillis: nat)
    ensures (fromMillis / 1000 + 60) % 60 * 1000 == fromMillis % 60000 / 1000 * 1000
  {
    var seconds, rest := fromMillis / 1000, fromMillis % 1000;
    SecondOfMinute(seconds / 60, seconds % 60, rest);
    assert fromMillis == 60000 * (seconds / 60) + (1000 * (seconds % 60) + rest);
    NextMinute(seconds);
  }

  lemma SecondOfMinute(minutes: nat, second: nat, rest: nat)
    requires second < 60 && rest < 1000
    ensures (60000 * minutes + (1000 * second + rest)) % 60000 == 1000 * second + rest
    ensures (1000 * second + rest) / 1000 == second
  {
  }

  lemma NextMinute(seconds: nat)
    ensures (seconds + 60) % 60 == seconds % 60
  {
  }

  // The same for expressions: -1 is the answer to the expressions the parser refuses, and
  // to no other.
  lemma NextCronRunMeaning(expr: string, fromMillis: nat)
    ensures NextCronRun(expr, fromMillis) == Some(-1) <==> ReadExpr(expr).Invalid?
    ensures ReadExpr(expr).Parsed? ==>
      NextCronRun(expr, fromMillis).Some? &&
          IsNextRun(ReadExpr(expr).schedule, fromMillis, NextCronRun(expr, fromMillis).value)
  {
    if ReadExpr(expr).Parsed? {
      ParsedIsUsable(expr);
      NextRunMeaning(ReadExpr(expr).schedule, fromMillis);
    }
  }
}
