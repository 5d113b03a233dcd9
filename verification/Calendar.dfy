/**
 The proleptic Gregorian calendar of section 21.4.1 of ECMA-262, over unbounded integers:
 days since the epoch, years, months, dates and weekdays in UTC.
 */
module Calendar {

  const MINUTE_MS := 60_000
  const DAY_MINUTES := 1440
  const DAY_MS := 86_400_000

  predicate IsLeap(y: int) { y % 4 == 0 && (y % 100 != 0 || y % 400 == 0) }

  function YearLength(y: int): int { if IsLeap(y) then 366 else 365 }

  /** DayFromYear: the day number of 1 January. */
  function YearStart(y: int): int {
    365 * (y - 1970) + (y - 1969) / 4 - (y - 1901) / 100 + (y - 1601) / 400
  }

  lemma YearStep(y: int)
    ensures YearStart(y + 1) == YearStart(y) + YearLength(y)
  {
    FloorStep(y - 1969, 4);
    FloorStep(y - 1901, 100);
    FloorStep(y - 1601, 400);
  }

  lemma FloorStep(x: int, k: int)
    requires k == 4 || k == 100 || k == 400
    ensures (x + 1) / k == x / k + if (x + 1) % k == 0 then 1 else 0
  {
  }

  lemma {:induction false} YearsGrow(a: int, b: int)
    requires a <= b
    ensures YearStart(a) + 365 * (b - a) <= YearStart(b) <= YearStart(a) + 366 * (b - a)
    decreases b - a
  {
    if a < b {
      YearsGrow(a, b - 1);
      YearStep(b - 1);
    }
  }

  predicate InYear(y: int, day: int) { YearStart(y) <= day < YearStart(y + 1) }

  function YearUp(y: int, day: int): (r: int)
    requires YearStart(y) <= day
    ensures InYear(r, day)
    decreases day - YearStart(y)
  {
    YearStep(y);
    if day < YearStart(y + 1) then y else YearUp(y + 1, day)
  }

  function YearDown(y: int, day: int): (r: int)
    requires day < YearStart(y + 1)
    ensures InYear(r, day)
    decreases YearStart(y + 1) - day
  {
    YearStep(y);
    if YearStart(y) <= day then y else YearDown(y - 1, day)
  }

  /** YearFromTime. */
  function Year(day: int): (y: int)
    ensures InYear(y, day)
  {
    if day >= 0 then YearUp(1970, day) else YearDown(1969, day)
  }

  lemma YearUnique(y: int, day: int)
    requires InYear(y, day)
    ensures Year(day) == y
  {
    var z := Year(day);
    if z < y { YearsGrow(z + 1, y); }
    if y < z { YearsGrow(y + 1, z); }
  }

  /** The day within the year on which month `m` (1 to 12) starts; 13 is the end of the year. */
  function MonthStart(leap: bool, m: int): int
    requires 1 <= m <= 13
  {
    var l := if leap then 1 else 0;
    if m == 1 then 0 else if m == 2 then 31 else if m == 3 then 59 + l else if m == 4 then 90 + l
    else if m == 5 then 120 + l else if m == 6 then 151 + l else if m == 7 then 181 + l
    else if m == 8 then 212 + l else if m == 9 then 243 + l else if m == 10 then 273 + l
    else if m == 11 then 304 + l else if m == 12 then 334 + l else 365 + l
  }

  function MonthLength(leap: bool, m: int): int
    requires 1 <= m <= 12
  {
    MonthStart(leap, m + 1) - MonthStart(leap, m)
  }

  function MonthUp(leap: bool, dayInYear: int, m: int): (r: int)
    requires 1 <= m <= 12 && MonthStart(leap, m) <= dayInYear < MonthStart(leap, 13)
    ensures 1 <= r <= 12 && MonthStart(leap, r) <= dayInYear < MonthStart(leap, r + 1)
    decreases 12 - m
  {
    if m == 12 || dayInYear < MonthStart(leap, m + 1) then m else MonthUp(leap, dayInYear, m + 1)
  }

  /** MonthFromTime, counted from 1 as the cron fields count. */
  function Month(day: int): (m: int)
    ensures 1 <= m <= 12
  {
    YearStep(Year(day));
    MonthUp(IsLeap(Year(day)), day - YearStart(Year(day)), 1)
  }

  /** DateFromTime. */
  function Date(day: int): (d: int)
    ensures 1 <= d <= MonthLength(IsLeap(Year(day)), Month(day))
  {
    YearStep(Year(day));
    day - YearStart(Year(day)) - MonthStart(IsLeap(Year(day)), Month(day)) + 1
  }

  /** WeekDay, 0 for Sunday. */
  function WeekDay(day: int): int { (day + 4) % 7 }

  /** MakeDay, for a month from 1 to 12. */
  function MakeDay(y: int, m: int, d: int): int
    requires 1 <= m <= 12
  {
    YearStart(y) + MonthStart(IsLeap(y), m) + d - 1
  }

  /** Taking a day apart and putting it together again is the identity. */
  lemma MakeDayOfParts(day: int)
    ensures MakeDay(Year(day), Month(day), Date(day)) == day
  {
  }

  /** Putting a valid date together and taking it apart is the identity. */
  lemma PartsOfMakeDay(y: int, m: int, d: int)
    requires 1 <= m <= 12 && 1 <= d <= MonthLength(IsLeap(y), m)
    ensures Year(MakeDay(y, m, d)) == y && Month(MakeDay(y, m, d)) == m && Date(MakeDay(y, m, d)) == d
    ensures YearStart(y) <= MakeDay(y, m, d) < YearStart(y + 1)
  {
    YearStep(y);
    MonthsGrow(IsLeap(y), m);
    YearUnique(y, MakeDay(y, m, d));
  }

  lemma MonthsGrow(leap: bool, m: int)
    requires 1 <= m <= 12
    ensures 28 <= MonthLength(leap, m) <= 31
    ensures MonthStart(leap, m + 1) <= MonthStart(leap, 13)
    ensures forall k :: 1 <= k <= m ==> MonthStart(leap, k) <= MonthStart(leap, m)
    ensures forall k :: m < k <= 13 ==> MonthStart(leap, m + 1) <= MonthStart(leap, k)
  {
  }
}
