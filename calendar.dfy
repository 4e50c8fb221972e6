/** Proleptic Gregorian calendar over day numbers: a date is the number of days
    since 1970-01-01 (pandas' datetime64 at day resolution). Year, month, day
    and weekday are derived from it the way pandas' `.dt` accessors do. */
module Calendar {
  import opened Wrappers

  /** A date: days since 1970-01-01 (negative before it). */
  type Day = int

  predicate Leap(y: int) {
    (y % 4 == 0 && y % 100 != 0) || y % 400 == 0
  }

  function YearLength(y: int): int {
    if Leap(y) then 366 else 365
  }

  function MonthLength(y: int, m: int): int {
    if m == 2 then (if Leap(y) then 29 else 28)
    else if m == 4 || m == 6 || m == 9 || m == 11 then 30
    else 31
  }

  /** Days from the first of month m to the end of year y. */
  function DaysFrom(y: int, m: int): int
    requires 1 <= m <= 12
    decreases 12 - m
  {
    if m == 12 then MonthLength(y, 12) else MonthLength(y, m) + DaysFrom(y, m + 1)
  }

  lemma DaysFromJanuary(y: int)
    ensures DaysFrom(y, 1) == YearLength(y)
  {
  }

  /** The year containing the day `z` days after 1 January of year `y`, and
      the 0-based day of that year. */
  function YearAndOffset(z: int, y: int): (r: (int, int))
    ensures 0 <= r.1 < YearLength(r.0)
    decreases if z < 0 then 400 - z else z
  {
    if z < 0 then YearAndOffset(z + YearLength(y - 1), y - 1)
    else if z >= YearLength(y) then YearAndOffset(z - YearLength(y), y + 1)
    else (y, z)
  }

  /** Month and day-of-month of the 0-based day `doy` counted from the first
      of month m of year y. */
  function MonthAndDay(doy: int, y: int, m: int): (r: (int, int))
    requires 1 <= m <= 12 && 0 <= doy < DaysFrom(y, m)
    ensures m <= r.0 <= 12 && 1 <= r.1 <= MonthLength(y, r.0)
    decreases 12 - m
  {
    if doy < MonthLength(y, m) then (m, doy + 1)
    else MonthAndDay(doy - MonthLength(y, m), y, m + 1)
  }

  datatype Civil = Civil(year: int, month: int, day: int)

  predicate ValidCivil(c: Civil) {
    1 <= c.month <= 12 && 1 <= c.day <= MonthLength(c.year, c.month)
  }

  /** Calendar date of a day number. */
  function CivilOf(z: Day): (c: Civil)
    ensures ValidCivil(c)
  {
    var (y, doy) := YearAndOffset(z, 1970);
    DaysFromJanuary(y);
    var (m, d) := MonthAndDay(doy, y, 1);
    Civil(y, m, d)
  }

  function Year(z: Day): int { CivilOf(z).year }

  function Month(z: Day): (m: int)
    ensures 1 <= m <= 12
  {
    CivilOf(z).month
  }

  /** Key of the calendar month of z; consecutive months have consecutive keys
      (the bins of pandas' resample('M')). */
  function MonthKey(z: Day): int { Year(z) * 12 + Month(z) - 1 }

  /** pandas `.dt.weekday`: Monday = 0 ... Sunday = 6; 1970-01-01 was a Thursday. */
  function Weekday(z: Day): (w: int)
    ensures 0 <= w < 7
  {
    (z + 3) % 7
  }

  /** IS_WEEKEND: 1 when the weekday is Saturday (5) or Sunday (6), else 0. */
  function IsWeekend(z: Day): (flag: int)
    ensures flag == 1 <==> Weekday(z) == 5 || Weekday(z) == 6
    ensures flag == 0 <==> !(Weekday(z) == 5 || Weekday(z) == 6)
  {
    if Weekday(z) in {5, 6} then 1 else 0
  }

  /** The weekday advances by one, modulo 7, from one day to the next. */
  lemma WeekdayNext(z: Day)
    ensures Weekday(z + 1) == (Weekday(z) + 1) % 7
  {
    var q := (z + 3) / 7;
    assert z + 3 == 7 * q + Weekday(z);
    if Weekday(z) == 6 {
      assert z + 4 == 7 * (q + 1);
    } else {
      assert z + 4 == 7 * q + (Weekday(z) + 1);
    }
  }

  /** Number of weekend days among the n days starting at z. */
  function WeekendCount(z: Day, n: nat): nat
    decreases n
  {
    if n == 0 then 0 else IsWeekend(z) + WeekendCount(z + 1, n - 1)
  }

  /** Any seven consecutive days hold exactly two weekend days. */
  lemma {:induction false} WeekendsPerWeek(z: Day)
    ensures WeekendCount(z, 7) == 2
  {
    WeekendCountSeven(z);
    WeekdayAfter(z);
    WeekdayAfter(z + 1);
    WeekdayAfter(z + 2);
    WeekdayAfter(z + 3);
    WeekdayAfter(z + 4);
    WeekdayAfter(z + 5);
    var w := Weekday(z);
    if w == 0 {
    } else if w == 1 {
    } else if w == 2 {
    } else if w == 3 {
    } else if w == 4 {
    } else if w == 5 {
    } else {
    }
  }

  /** The next weekday, without the modulus. */
  lemma WeekdayAfter(z: Day)
    ensures Weekday(z + 1) == if Weekday(z) == 6 then 0 else Weekday(z) + 1
  {
    WeekdayNext(z);
  }

  /** Seven days unrolled. */
  lemma WeekendCountSeven(z: Day)
    ensures WeekendCount(z, 7) == IsWeekend(z) + IsWeekend(z + 1) + IsWeekend(z + 2) + IsWeekend(z + 3) +
      IsWeekend(z + 4) + IsWeekend(z + 5) + IsWeekend(z + 6)
  {
    assert WeekendCount(z + 6, 1) == IsWeekend(z + 6);
    assert WeekendCount(z + 4, 3) == IsWeekend(z + 4) + IsWeekend(z + 5) + WeekendCount(z + 6, 1);
    assert WeekendCount(z + 2, 5) == IsWeekend(z + 2) + IsWeekend(z + 3) + WeekendCount(z + 4, 3);
  }

  lemma {:induction false} WeekdayShift(z: Day, k: nat)
    ensures Weekday(z + k) == (Weekday(z) + k) % 7
  {
    if k > 0 {
      WeekdayShift(z, k - 1);
      WeekdayNext(z + k - 1);
      ModSevenStep(Weekday(z) + k - 1);
    }
  }

  /** Adding one commutes with reducing modulo 7. */
  lemma ModSevenStep(a: int)
    ensures (a % 7 + 1) % 7 == (a + 1) % 7
  {
    var q := a / 7;
    assert a == 7 * q + a % 7;
    if a % 7 == 6 {
      assert a + 1 == 7 * (q + 1);
    } else {
      assert a + 1 == 7 * q + (a % 7 + 1);
    }
  }

  // ----- Seasons (get_season) -----

  datatype Season = Winter | Spring | Summer | Fall

  /** (month, day) pairs ordered as in a calendar year. */
  predicate MonthDayLe(m1: int, d1: int, m2: int, d2: int) {
    m1 < m2 || (m1 == m2 && d1 <= d2)
  }

  datatype SeasonSpan = SeasonSpan(startM: int, startD: int, endM: int, endD: int, season: Season)

  /** The season table of get_season, in its order, inside the leap year 2000. */
  const SeasonTable: seq<SeasonSpan> := [
    SeasonSpan(1, 1, 3, 20, Winter),
    SeasonSpan(3, 21, 6, 20, Spring),
    SeasonSpan(6, 21, 9, 22, Summer),
    SeasonSpan(9, 23, 12, 20, Fall),
    SeasonSpan(12, 21, 12, 31, Winter)
  ]

  predicate InSpan(s: SeasonSpan, m: int, d: int) {
    MonthDayLe(s.startM, s.startD, m, d) && MonthDayLe(m, d, s.endM, s.endD)
  }

  /** `next(...)` over the table: the first span containing (m, d); None is the
      StopIteration the source would raise. */
  function FirstSeason(table: seq<SeasonSpan>, m: int, d: int): (r: Option<Season>)
    ensures r.Some? <==> exists i :: 0 <= i < |table| && InSpan(table[i], m, d)
    ensures r.Some? ==> exists i :: 0 <= i < |table| && InSpan(table[i], m, d) && table[i].season == r.value
  {
    if table == [] then None
    else if InSpan(table[0], m, d) then Some(table[0].season)
    else
      var r := FirstSeason(table[1..], m, d);
      assert forall i :: 1 <= i < |table| ==> table[i] == table[1..][i - 1];
      r
  }

  /** get_season: the date's (month, day) looked up in the table of year 2000. */
  function GetSeason(z: Day): Option<Season> {
    var c := CivilOf(z);
    FirstSeason(SeasonTable, c.month, c.day)
  }

  /** The spans of the table never overlap. */
  lemma SeasonSpansDisjoint(m: int, d: int, i: int, j: int)
    requires 0 <= i < j < |SeasonTable|
    ensures !(InSpan(SeasonTable[i], m, d) && InSpan(SeasonTable[j], m, d))
  {
  }

  /** get_season is total on calendar days (Feb 29 included) and returns the
      season whose span holds the day. Totality rests on DATE holding dates
      without a time of day, as GHCN daily dates do: a timestamp after
      midnight on the last day of a span (Mar 20, Jun 20, Sep 22, Dec 20)
      lies between two spans, and there `next()` raises StopIteration. */
  lemma GetSeasonTotal(z: Day)
    ensures GetSeason(z).Some?
    ensures var c := CivilOf(z);
      GetSeason(z) == Some(
        if MonthDayLe(c.month, c.day, 3, 20) || MonthDayLe(12, 21, c.month, c.day) then Winter
        else if MonthDayLe(c.month, c.day, 6, 20) then Spring
        else if MonthDayLe(c.month, c.day, 9, 22) then Summer
        else Fall)
  {
    var c := CivilOf(z);
    var t := SeasonTable;
    var m, d := c.month, c.day;
    assert t[1..] == [t[1], t[2], t[3], t[4]];
    assert t[1..][1..] == [t[2], t[3], t[4]];
    assert t[1..][1..][1..] == [t[3], t[4]];
    assert t[1..][1..][1..][1..] == [t[4]];
    if !InSpan(t[0], m, d) {
      assert FirstSeason(t, m, d) == FirstSeason(t[1..], m, d);
      if !InSpan(t[1], m, d) {
        assert FirstSeason(t[1..], m, d) == FirstSeason(t[1..][1..], m, d);
        if !InSpan(t[2], m, d) {
          assert FirstSeason(t[1..][1..], m, d) == FirstSeason(t[1..][1..][1..], m, d);
          if !InSpan(t[3], m, d) {
            assert FirstSeason(t[1..][1..][1..], m, d) == FirstSeason(t[1..][1..][1..][1..], m, d);
            assert InSpan(t[4], m, d);
          }
        }
      }
    }
  }
}
