/**
 The portable cron contract (contract/cron.ts): five fields, matching a UTC minute, and the
 bounded search for the next matching minute.
 */
module Cron {
  import opened Text
  import opened Calendar
  import opened CronFields

  // ----- expressions -----

  /** The whitespace-separated words from position `at` on. */
  function WordsFrom(s: string, at: nat): seq<string>
    requires at <= |s|
    decreases |s| - at
  {
    var from := SkipWhile(s, at, |s|, IsWhitespace);
    if from == |s| then []
    else
      var to := SkipWhile(s, from, |s|, IsInk);
      [s[from..to]] + WordsFrom(s, to)
  }

  const MAX_EXPRESSION := 1024

  datatype Cron = Cron(minute: Field, hour: Field, dayOfMonth: Field, month: Field, dayOfWeek: Field)
  {
    function Normalized(): string {
      Join([minute.normalized, hour.normalized, dayOfMonth.normalized, month.normalized, dayOfWeek.normalized], ' ')
    }

    /** What parsing guarantees of every field. */
    ghost predicate Valid() {
      Sane(minute, 0) && Sane(hour, 1) && Sane(dayOfMonth, 2) && Sane(month, 3) && Sane(dayOfWeek, 4)
    }
  }

  /** `parsePortableCron`; None is the TypeError. */
  function Parse(expression: string): (c: Option<Cron>)
    ensures c.Some? ==> c.value.Valid()
  {
    var source := Trim(expression);
    if |source| == 0 || |source| > MAX_EXPRESSION then None
    else ParseWords(WordsFrom(source, 0))
  }

  function ParseWords(words: seq<string>): (c: Option<Cron>)
    ensures c.Some? ==> c.value.Valid()
  {
    if |words| != 5 then None
    else
      var a, b, c, d, e := ParseField(words[0], 0), ParseField(words[1], 1), ParseField(words[2], 2),
                           ParseField(words[3], 3), ParseField(words[4], 4);
      if a.None? || b.None? || c.None? || d.None? || e.None? then None
      else
        ParsedFieldSane(words[0], 0); ParsedFieldSane(words[1], 1); ParsedFieldSane(words[2], 2);
        ParsedFieldSane(words[3], 3); ParsedFieldSane(words[4], 4);
        Some(Cron(a.value, b.value, c.value, d.value, e.value))
  }

  // ----- matching -----

  function DayOf(t: int): int { t / DAY_MS }

  function MinuteOfDay(t: int): (m: int)
    ensures 0 <= m < DAY_MINUTES
  {
    (t % DAY_MS) / MINUTE_MS
  }

  /** `matchesCronDay`. */
  predicate MatchesDay(c: Cron, day: int) {
    var byDate, byWeekday := Date(day) in c.dayOfMonth.values, WeekDay(day) in c.dayOfWeek.values;
    if !c.dayOfMonth.unrestricted && !c.dayOfWeek.unrestricted then byDate || byWeekday else byDate && byWeekday
  }

  predicate MatchesMinute(c: Cron, minuteOfDay: int) {
    0 <= minuteOfDay < DAY_MINUTES && minuteOfDay % 60 in c.minute.values && minuteOfDay / 60 in c.hour.values
  }

  /** `matchesParsedCron` at the instant `t`, in milliseconds since the epoch. */
  predicate Matches(c: Cron, t: int) {
    && MatchesMinute(c, MinuteOfDay(t))
    && Month(DayOf(t)) in c.month.values
    && MatchesDay(c, DayOf(t))
  }

  /** The instant at which a minute of a day starts. */
  function Instant(day: int, minuteOfDay: int): int { day * DAY_MS + minuteOfDay * MINUTE_MS }

  lemma InstantParts(day: int, minuteOfDay: int)
    requires 0 <= minuteOfDay < DAY_MINUTES
    ensures DayOf(Instant(day, minuteOfDay)) == day && MinuteOfDay(Instant(day, minuteOfDay)) == minuteOfDay
    ensures Instant(day, minuteOfDay) % MINUTE_MS == 0
  {
  }

  lemma InstantOf(t: int)
    requires t % MINUTE_MS == 0
    ensures Instant(DayOf(t), MinuteOfDay(t)) == t
  {
  }

  /** Whole minutes are ordered like their day and minute of the day; `after` need not be whole. */
  lemma InstantOrder(t: int, after: int)
    requires t % MINUTE_MS == 0
    ensures after < t <==> DayOf(after) < DayOf(t) || (DayOf(after) == DayOf(t) && MinuteOfDay(after) < MinuteOfDay(t))
  {
    InstantOf(t);
  }

  // ----- the search -----

  const MAX_SEARCH_DAYS := 5 * 366 + 1

  /** A matching whole minute after `after` on search days 0 to MAX_SEARCH_DAYS. */
  predicate Candidate(c: Cron, after: int, t: int) {
    t % MINUTE_MS == 0 && after < t && DayOf(t) <= DayOf(after) + MAX_SEARCH_DAYS && Matches(c, t)
  }

  /** `[...values].sort((left, right) => left - right)`. */
  method SortedValues(values: set<nat>, high: nat) returns (list: seq<nat>)
    requires forall v :: v in values ==> v <= high
    ensures forall j, k :: 0 <= j < k < |list| ==> list[j] < list[k]
    ensures forall v :: v in list <==> v in values
  {
    list := [];
    for v := 0 to high + 1
      invariant forall j, k :: 0 <= j < k < |list| ==> list[j] < list[k]
      invariant forall k :: 0 <= k < |list| ==> list[k] < v
      invariant forall x :: x in list <==> x in values && x < v
    {
      if v in values { list := list + [v]; }
    }
  }

  /** The hour and minute loops: the least allowed minute of the day beyond `floor`. */
  method SearchDay(c: Cron, hours: seq<nat>, minutes: seq<nat>, floor: int) returns (found: Option<nat>)
    requires c.Valid()
    requires forall j, k :: 0 <= j < k < |hours| ==> hours[j] < hours[k]
    requires forall j, k :: 0 <= j < k < |minutes| ==> minutes[j] < minutes[k]
    requires forall v :: v in hours <==> v in c.hour.values
    requires forall v :: v in minutes <==> v in c.minute.values
    ensures found.Some? ==> found.value > floor && MatchesMinute(c, found.value)
    ensures forall m :: floor < m && (found.None? || m < found.value) ==> !MatchesMinute(c, m)
  {
    for h := 0 to |hours|
      invariant forall m :: floor < m && MatchesMinute(c, m) ==> m / 60 !in hours[..h]
    {
      var hour := hours[h];
      assert hour in hours && hour <= 23;
      assert hours[..h + 1] == hours[..h] + [hour];
      var initialHour, initialMinute := floor / 60, floor % 60;
      if hour < initialHour { continue; }
      for k := 0 to |minutes|
        invariant forall m :: floor < m && MatchesMinute(c, m) && m / 60 == hour ==> m % 60 !in minutes[..k]
      {
        var minute := minutes[k];
        assert minute in minutes && minute <= 59;
        assert minutes[..k + 1] == minutes[..k] + [minute];
        if hour < initialHour || (hour == initialHour && minute <= initialMinute) { continue; }
        HourMinute(hour, minute);
        LeastInDay(c, hours, minutes, h, k, floor);
        return Some(hour * 60 + minute);
      }
      assert minutes[..|minutes|] == minutes;
    }
    assert hours[..|hours|] == hours;
    found := None;
  }

  lemma HourMinute(hour: nat, minute: nat)
    requires hour <= 23 && minute <= 59
    ensures (hour * 60 + minute) / 60 == hour && (hour * 60 + minute) % 60 == minute
    ensures hour * 60 + minute < DAY_MINUTES
  {
  }

  lemma LeastInDay(c: Cron, hours: seq<nat>, minutes: seq<nat>, h: nat, k: nat, floor: int)
    requires h < |hours| && k < |minutes| && minutes[k] <= 59
    requires forall i, j :: 0 <= i < j < |hours| ==> hours[i] < hours[j]
    requires forall i, j :: 0 <= i < j < |minutes| ==> minutes[i] < minutes[j]
    requires forall v :: v in hours <==> v in c.hour.values
    requires forall v :: v in minutes <==> v in c.minute.values
    requires forall m :: floor < m && MatchesMinute(c, m) ==> m / 60 !in hours[..h]
    requires forall m :: floor < m && MatchesMinute(c, m) && m / 60 == hours[h] ==> m % 60 !in minutes[..k]
    ensures forall m :: floor < m < hours[h] * 60 + minutes[k] ==> !MatchesMinute(c, m)
  {
    forall m | floor < m && MatchesMinute(c, m) ensures hours[h] * 60 + minutes[k] <= m {
      NotBefore(hours, h, m / 60);
      var i :| h <= i < |hours| && hours[i] == m / 60;
      if i == h { NotBefore(minutes, k, m % 60); }
    }
  }

  lemma NotBefore(list: seq<nat>, from: nat, x: nat)
    requires from <= |list| && x in list && x !in list[..from]
    ensures exists i :: from <= i < |list| && list[i] == x
  {
    assert list == list[..from] + list[from..];
    assert x in list[from..];
  }

  /** The least matching minute after `after`; None exactly when the window holds no match. */
  method NextOccurrence(c: Cron, after: int) returns (next: Option<int>)
    requires c.Valid()
    ensures next.Some? ==> Candidate(c, after, next.value) && forall t :: Candidate(c, after, t) ==> next.value <= t
    ensures next.None? <==> forall t :: !Candidate(c, after, t)
  {
    hide Matches, MatchesMinute, MatchesDay, Candidate, MakeDay, Month, Date, Year;
    var initialDay, initialMinute := DayOf(after), MinuteOfDay(after);
    var hours := SortedValues(c.hour.values, 23);
    var minutes := SortedValues(c.minute.values, 59);
    StartSearch(c, after);
    for dayOffset := 0 to MAX_SEARCH_DAYS + 1
      invariant forall t :: Candidate(c, after, t) ==> DayOf(t) >= initialDay + dayOffset
    {
      var day := initialDay + dayOffset;
      if Month(day) !in c.month.values || !MatchesDay(c, day) {
        SkipDay(c, after, day);
        continue;
      }
      var found := SearchDay(c, hours, minutes, if dayOffset == 0 then initialMinute else -1);
      if found.Some? {
        MakeDayOfParts(day);
        var candidate := Instant(MakeDay(Year(day), Month(day), Date(day)), found.value);
        FoundOnDay(c, after, day, found.value);
        return Some(candidate);
      }
      EmptyDay(c, after, day);
    }
    Exhausted(c, after);
    next := None;
  }

  lemma StartSearch(c: Cron, after: int)
    ensures forall t :: Candidate(c, after, t) ==> DayOf(t) >= DayOf(after)
  {
    hide Matches;
    forall t | Candidate(c, after, t) ensures DayOf(t) >= DayOf(after) { InstantOrder(t, after); }
  }

  lemma SkipDay(c: Cron, after: int, day: int)
    requires Month(day) !in c.month.values || !MatchesDay(c, day)
    requires forall t :: Candidate(c, after, t) ==> DayOf(t) >= day
    ensures forall t :: Candidate(c, after, t) ==> DayOf(t) >= day + 1
  {
    hide Month, MatchesDay;
  }

  lemma EmptyDay(c: Cron, after: int, day: int)
    requires DayOf(after) <= day
    requires forall m :: (if day == DayOf(after) then MinuteOfDay(after) else -1) < m ==> !MatchesMinute(c, m)
    requires forall t :: Candidate(c, after, t) ==> DayOf(t) >= day
    ensures forall t :: Candidate(c, after, t) ==> DayOf(t) >= day + 1
  {
    hide Month, MatchesDay, MatchesMinute, DayOf, MinuteOfDay;
    forall t | Candidate(c, after, t) ensures DayOf(t) >= day + 1 {
      InstantOrder(t, after);
      assert MatchesMinute(c, MinuteOfDay(t));
    }
  }

  lemma FoundOnDay(c: Cron, after: int, day: int, m: int)
    requires DayOf(after) <= day <= DayOf(after) + MAX_SEARCH_DAYS
    requires Month(day) in c.month.values && MatchesDay(c, day)
    requires MatchesMinute(c, m) && (if day == DayOf(after) then MinuteOfDay(after) else -1) < m
    requires forall x :: (if day == DayOf(after) then MinuteOfDay(after) else -1) < x < m ==> !MatchesMinute(c, x)
    requires forall t :: Candidate(c, after, t) ==> DayOf(t) >= day
    ensures Candidate(c, after, Instant(day, m))
    ensures forall t :: Candidate(c, after, t) ==> Instant(day, m) <= t
  {
    hide Month, MatchesDay;
    var first := Instant(day, m);
    InstantParts(day, m);
    InstantOrder(first, after);
    forall t | Candidate(c, after, t) ensures first <= t {
      InstantOrder(t, after);
      InstantOrder(first, t);
      assert MatchesMinute(c, MinuteOfDay(t));
    }
  }

  lemma Exhausted(c: Cron, after: int)
    requires forall t :: Candidate(c, after, t) ==> DayOf(t) >= DayOf(after) + MAX_SEARCH_DAYS + 1
    ensures forall t :: !Candidate(c, after, t)
  {
    hide Matches;
  }
}
