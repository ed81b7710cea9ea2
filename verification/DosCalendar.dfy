/**
 The DOS dates against a calendar of its own: the days are counted one at a time from
 1 January 1970, the day Unix time starts on.
 */
module DosCalendar {
  import opened DosTime

  datatype Civil = Civil(year: nat, month: nat, day: nat)

  predicate LeapYear(rule: Rule, year: nat) {
    year % 4 == 0 && (rule == FourYearly || year % 100 != 0 || year % 400 == 0)
  }

  /** Long and short months take turns, starting over with August. */
  function DaysIn(rule: Rule, year: nat, month: nat): nat {
    if month == 2 then (if LeapYear(rule, year) then 29 else 28) else 30 + (month + month / 8) % 2
  }

  function NextDay(rule: Rule, c: Civil): Civil {
    if c.day < DaysIn(rule, c.year, c.month) then Civil(c.year, c.month, c.day + 1)
    else if c.month < 12 then Civil(c.year, c.month + 1, 1)
    else Civil(c.year + 1, 1, 1)
  }

  function AfterDays(rule: Rule, n: nat): Civil {
    if n == 0 then Civil(1970, 1, 1) else NextDay(rule, AfterDays(rule, n - 1))
  }

  /** The day the sixteen bits of a DOS date name. */
  function Named(date: nat): Civil {
    Civil(1980 + date / 512, date / 32 % 16, date % 32)
  }

  function FromDate(x: Date): Civil {
    Civil(1980 + x.y, x.m, x.d)
  }

  // ----- ten years up to 1980

  lemma {:induction false} DaysOn(rule: Rule, n: nat, c: Civil, k: nat)
    requires AfterDays(rule, n) == c && c.day + k <= DaysIn(rule, c.year, c.month)
    ensures AfterDays(rule, n + k) == Civil(c.year, c.month, c.day + k)
  {
    hide DaysIn;
    if k > 0 { DaysOn(rule, n, c, k - 1); }
  }

  lemma MonthOn(rule: Rule, n: nat, year: nat, month: nat)
    requires AfterDays(rule, n) == Civil(year, month, 1) && DaysIn(rule, year, month) >= 1
    ensures AfterDays(rule, n + DaysIn(rule, year, month)) ==
            if month < 12 then Civil(year, month + 1, 1) else Civil(year + 1, 1, 1)
  {
    hide DaysIn;
    DaysOn(rule, n, Civil(year, month, 1), DaysIn(rule, year, month) - 1);
  }

  lemma MonthsAgree(rule: Rule, year: nat, month: nat)
    requires 1 <= month <= 12
    ensures DaysIn(rule, year, month) == MonthLength(LeapYear(rule, year), month) >= 28
  {
    hide LeapYear;
  }

  lemma {:induction false} MonthsOn(rule: Rule, n: nat, year: nat, month: nat)
    requires 1 <= month <= 12 && AfterDays(rule, n) == Civil(year, 1, 1)
    ensures AfterDays(rule, n + DaysToMonth(LeapYear(rule, year), month)) == Civil(year, month, 1)
  {
    hide LeapYear, AfterDays, DaysIn, MonthLength;
    if month > 1 {
      MonthsOn(rule, n, year, month - 1);
      MonthsAgree(rule, year, month - 1);
      MonthOn(rule, n + DaysToMonth(LeapYear(rule, year), month - 1), year, month - 1);
    }
  }

  lemma YearOn(rule: Rule, n: nat, year: nat)
    requires AfterDays(rule, n) == Civil(year, 1, 1)
    ensures AfterDays(rule, n + if LeapYear(rule, year) then 366 else 365) == Civil(year + 1, 1, 1)
  {
    hide LeapYear, AfterDays, DaysIn, DaysToMonth;
    MonthsOn(rule, n, year, 12);
    MonthStart(LeapYear(rule, year), 12);
    MonthsAgree(rule, year, 12);
    MonthOn(rule, n + DaysToMonth(LeapYear(rule, year), 12), year, 12);
  }

  /** Two of the ten years before 1980 are leap years. */
  lemma NineteenEighty(rule: Rule)
    ensures AfterDays(rule, 3652) == Civil(1980, 1, 1)
  {
    hide AfterDays, LeapYear;
    LeapYears(rule);
    assert AfterDays(rule, 0) == Civil(1970, 1, 1) by { DayZero(rule); }
    YearOn(rule, 0, 1970);
    YearOn(rule, 365, 1971);
    YearOn(rule, 730, 1972);
    YearOn(rule, 1096, 1973);
    YearOn(rule, 1461, 1974);
    YearOn(rule, 1826, 1975);
    YearOn(rule, 2191, 1976);
    YearOn(rule, 2557, 1977);
    YearOn(rule, 2922, 1978);
    YearOn(rule, 3287, 1979);
  }

  lemma DayZero(rule: Rule)
    ensures AfterDays(rule, 0) == Civil(1970, 1, 1)
  {
  }

  lemma LeapYears(rule: Rule)
    ensures forall year | 1970 <= year < 1980 :: LeapYear(rule, year) <==> year == 1972 || year == 1976
  {
  }

  // ----- from 1980 on

  lemma LeapsAgree(rule: Rule, y: nat)
    ensures LeapYear(rule, 1980 + y) == IsLeap(rule, y)
  {
  }

  /** The day after a date of the model is the next date of this calendar, one day further on. */
  lemma NextAgrees(rule: Rule, x: Date) returns (z: Date)
    requires ValidDate(rule, x)
    ensures ValidDate(rule, z) && FromDate(z) == NextDay(rule, FromDate(x))
    ensures DayNumber(rule, z) == DayNumber(rule, x) + 1
  {
    hide IsLeap, LeapYear, DaysToMonth, DaysToYear, DaysIn, MonthLength;
    LeapsAgree(rule, x.y);
    MonthsAgree(rule, 1980 + x.y, x.m);
    MonthSum(IsLeap(rule, x.y), x.m);
    if x.d < MonthLength(IsLeap(rule, x.y), x.m) {
      z := Date(x.y, x.m, x.d + 1);
    } else if x.m < 12 {
      z := Date(x.y, x.m + 1, 1);
      MonthsAgree(rule, 1980 + x.y, x.m + 1);
    } else {
      z := Date(x.y + 1, 1, 1);
      LeapsAgree(rule, x.y + 1);
      MonthsAgree(rule, 1980 + x.y + 1, 1);
      NextYear(rule, x.y);
      YearSum(IsLeap(rule, x.y));
      YearSum(IsLeap(rule, x.y + 1));
    }
  }

  lemma MonthSum(leap: bool, m: nat)
    requires m >= 1
    ensures DaysToMonth(leap, m + 1) == DaysToMonth(leap, m) + MonthLength(leap, m)
  {
    hide MonthLength;
  }

  lemma YearSum(leap: bool)
    ensures DaysToMonth(leap, 1) == 0
    ensures DaysToMonth(leap, 12) + MonthLength(leap, 12) == if leap then 366 else 365
  {
    hide DaysToMonth;
    MonthStart(leap, 1);
    MonthStart(leap, 12);
  }

  /** From 1980 on the days counted from 1970 are the dates of the model. */
  lemma {:induction false} DatesAgree(rule: Rule, n: nat) returns (x: Date)
    requires n >= 3652
    ensures ValidDate(rule, x) && FromDate(x) == AfterDays(rule, n) && DayNumber(rule, x) == n - 3652
  {
    hide ValidDate, DayNumber, NextDay;
    if n == 3652 {
      NineteenEighty(rule);
      x := Date(0, 1, 1);
      FirstDay(rule);
    } else {
      var w := DatesAgree(rule, n - 1);
      x := NextAgrees(rule, w);
    }
  }

  lemma FirstDay(rule: Rule)
    ensures ValidDate(rule, Date(0, 1, 1)) && DayNumber(rule, Date(0, 1, 1)) == 0
  {
  }

  /** A date of the model is the day its number says, counted from 1 January 1970. */
  lemma DayIs(rule: Rule, x: Date, n: nat)
    requires n >= 3652
    ensures ValidDate(rule, x) && DayNumber(rule, x) == n - 3652 <==> AfterDays(rule, n) == FromDate(x)
  {
    hide ValidDate, DayNumber, AfterDays;
    var z := DatesAgree(rule, n);
    if ValidDate(rule, x) && DayNumber(rule, x) == n - 3652 { OneDate(rule, x, z); }
  }

  // ----- the conversions

  /** What date_unix2dos finds for a moment from 1980 on: the day, counted from 1 January 1970,
      and the clock, two seconds to a step. */
  lemma DosOfIs(t: nat, time: nat, date: nat)
    requires t >= 315532800
    ensures IsDosOf(t, time, date) <==>
            && date < 0x10000 && AfterDays(FourYearly, t / 86400) == Named(date)
            && time / 2048 < 24 && time / 32 % 64 < 60 && time % 32 < 30
            && time / 2048 * 3600 + time / 32 % 64 * 60 + time % 32 * 2 == t % 86400 - t % 86400 % 2
  {
    hide ValidDate, DayNumber, AfterDays;
    DaysSince(t);
    DayIs(FourYearly, DateOf(date), t / 86400);
  }

  lemma DaysSince(t: nat)
    requires t >= 315532800
    ensures t / 86400 >= 3652
  {
  }

  /** There is no DOS date for a moment before 1980. */
  lemma NoneBefore(t: nat, time: nat, date: nat)
    requires t < 315532800
    ensures !IsDosOf(t, time, date)
  {
    hide ValidDate, DaysToYear, DaysToMonth;
    assert t / 86400 < 3652;
    if ValidDate(FourYearly, DateOf(date)) { StartsAtZero(DateOf(date)); }
  }

  lemma StartsAtZero(x: Date)
    requires ValidDate(FourYearly, x)
    ensures DayNumber(FourYearly, x) >= 0
  {
  }

  /** The date is that of the calendar proper before 1 March 2100, and no longer from then on. */
  lemma DosIsCivil(t: nat, time: nat, date: nat)
    requires IsDosOf(t, time, date)
    ensures AfterDays(Gregorian, t / 86400) == Named(date) <==> t < 4107542400
  {
    hide ValidDate, DayNumber, AfterDays, ValidTime, SecondsOf;
    if t < 315532800 { NoneBefore(t, time, date); }
    DaysSince(t);
    DosIsGregorian(t, time, date);
    DayIs(Gregorian, DateOf(date), t / 86400);
  }

  /** date_dos2unix on a valid date counts the seconds since the start of 1 January 1970. */
  lemma Dos2UnixIs(time: nat, date: nat)
    requires ValidDate(FourYearly, DateOf(date))
    ensures var days := (Dos2Unix(time, date) - SecondsOf(time)) / 86400;
            && days >= 0 && AfterDays(FourYearly, days) == Named(date)
            && Dos2Unix(time, date)
               == 86400 * days + time / 2048 * 3600 + time / 32 % 64 * 60 + time % 32 * 2
  {
    hide ValidDate, DayNumber, AfterDays, Dos2Unix;
    Dos2UnixCounts(time, date);
    StartsAtZero(DateOf(date));
    DayIs(FourYearly, DateOf(date), DayNumber(FourYearly, DateOf(date)) + 3652);
  }

  // ----- one moment, digit by digit

  /** Two seconds before the end of 1999 travel as "279FBF7D". */
  lemma EndOf1999(time: nat, date: nat)
    requires IsDosOf(946684798, time, date)
    ensures Named(date) == Civil(1999, 12, 31)
    ensures Hex4(date) + (if time < 0x10000 then Hex4(time) else "") == "279FBF7D"
  {
    hide DaysToMonth, DaysToYear, Dos2Unix, SecondsOf, ValidTime, Accumulated;
    YearStart(19);
    MonthStart(false, 12);
    LastMonth();
    OneDate(FourYearly, DateOf(date), DateOf(0x279f));
    SamePacking(date, 0x279f);
    BeforeMidnight();
    SameTime(time, 0xbf7d);
  }

  lemma BeforeMidnight()
    ensures ValidTime(0xbf7d) && SecondsOf(0xbf7d) == 86398
  {
  }
}
