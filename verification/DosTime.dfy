/**
 The DOS dates of a YAPP header: conversion to and from Unix time with its leap-year arithmetic,
 and the eight hex digits they travel in, against a calendar that counts days.
 */
module DosTime {

  // ----- the calendar

  /** The code takes every fourth year for a leap year; the calendar does not. */
  datatype Rule = FourYearly | Gregorian

  /** Year y counts from 1980. */
  predicate IsLeap(rule: Rule, y: nat) {
    var year := 1980 + y;
    year % 4 == 0 && (rule == FourYearly || year % 100 != 0 || year % 400 == 0)
  }

  function YearLength(rule: Rule, y: nat): nat {
    if IsLeap(rule, y) then 366 else 365
  }

  function MonthLength(leap: bool, m: nat): nat {
    if m == 2 then (if leap then 29 else 28) else if m == 4 || m == 6 || m == 9 || m == 11 then 30 else 31
  }

  function DaysToYear(rule: Rule, y: nat): nat {
    if y == 0 then 0 else DaysToYear(rule, y - 1) + YearLength(rule, y - 1)
  }

  function DaysToMonth(leap: bool, m: nat): nat {
    if m <= 1 then 0 else DaysToMonth(leap, m - 1) + MonthLength(leap, m - 1)
  }

  datatype Date = Date(y: nat, m: nat, d: nat)

  predicate ValidDate(rule: Rule, x: Date) {
    1 <= x.m <= 12 && 1 <= x.d <= MonthLength(IsLeap(rule, x.y), x.m)
  }

  /** Days since 1 January 1980. */
  function DayNumber(rule: Rule, x: Date): int {
    DaysToYear(rule, x.y) + DaysToMonth(IsLeap(rule, x.y), x.m) + x.d - 1
  }

  lemma {:induction false} YearStart(y: nat)
    ensures DaysToYear(FourYearly, y) == 365 * y + (y + 3) / 4
  {
    if y > 0 { YearStart(y - 1); }
  }

  function Accumulated(i: nat): nat {
    match i
    case 0 => 0
    case 1 => 31
    case 2 => 59
    case 3 => 90
    case 4 => 120
    case 5 => 151
    case 6 => 181
    case 7 => 212
    case 8 => 243
    case 9 => 273
    case 10 => 304
    case 11 => 334
    case _ => 0
  }

  /** The table of the code holds the lengths of the months summed up. */
  lemma {:induction false} MonthStart(leap: bool, m: nat)
    requires 1 <= m <= 12
    ensures DaysToMonth(leap, m) == Accumulated(m - 1) + (if leap && m > 2 then 1 else 0)
    ensures m < 12 ==> Accumulated(m) == Accumulated(m - 1) + MonthLength(false, m)
  {
    if m > 1 { MonthStart(leap, m - 1); }
  }

  lemma {:induction false} MonthFits(leap: bool, m: nat, k: nat)
    requires 1 <= m <= k
    ensures DaysToMonth(leap, m) + (if m < k then MonthLength(leap, m) else 0) <= DaysToMonth(leap, k)
    decreases k
  {
    if m < k { MonthFits(leap, m, k - 1); }
  }

  lemma {:induction false} YearFits(rule: Rule, y: nat, k: nat)
    requires y <= k
    ensures DaysToYear(rule, y) + (if y < k then YearLength(rule, y) else 0) <= DaysToYear(rule, k)
    decreases k
  {
    if y < k { YearFits(rule, y, k - 1); }
  }

  lemma DayInYear(rule: Rule, x: Date)
    requires ValidDate(rule, x)
    ensures DaysToMonth(IsLeap(rule, x.y), x.m) + x.d <= YearLength(rule, x.y)
  {
    hide DaysToMonth;
    var leap := IsLeap(rule, x.y);
    MonthFits(leap, x.m, 12);
    MonthStart(leap, 12);
  }

  /** A day has one date. */
  lemma OneDate(rule: Rule, a: Date, b: Date)
    requires ValidDate(rule, a) && ValidDate(rule, b) && DayNumber(rule, a) == DayNumber(rule, b)
    ensures a == b
  {
    hide DaysToYear, DaysToMonth, YearLength, IsLeap;
    DayInYear(rule, a);
    DayInYear(rule, b);
    if a.y < b.y { YearFits(rule, a.y, b.y); } else { YearFits(rule, b.y, a.y); }
    if a.y == b.y {
      if a.m < b.m { MonthFits(IsLeap(rule, a.y), a.m, b.m); } else { MonthFits(IsLeap(rule, a.y), b.m, a.m); }
    }
  }

  // ----- a DOS time and date

  const DAY := 86400
  const EPOCH := 3652
  const LAST_YEAR := 127

  function DateOf(date: nat): Date {
    Date(date / 512, date / 32 % 16, date % 32)
  }

  /** Hours, minutes and two-second steps packed into sixteen bits. */
  predicate ValidTime(time: nat) {
    time / 2048 < 24 && time / 32 % 64 < 60 && time % 32 < 30
  }

  function SecondsOf(time: nat): nat {
    time / 2048 * 3600 + time / 32 % 64 * 60 + time % 32 * 2
  }

  /** time and date are what DOS calls the moment t. */
  predicate IsDosOf(t: nat, time: nat, date: nat) {
    && date < 0x10000 && ValidDate(FourYearly, DateOf(date)) && DayNumber(FourYearly, DateOf(date)) == t / DAY - EPOCH
    && ValidTime(time) && SecondsOf(time) == t % DAY - t % DAY % 2
  }

  /** The days DOS can express: 1980 to 2107. */
  predicate InRange(t: nat) {
    EPOCH <= t / DAY && t / DAY - EPOCH < 365 * 128 + 32
  }

  method DateUnix2Dos(t: nat) returns (time: nat, date: nat)
    requires InRange(t)
    ensures IsDosOf(t, time, date)
  {
    hide IsDosOf, Accumulated, DaysToYear, DaysToMonth;
    time := t % 60 / 2 + t / 60 % 60 * 32 + t / 3600 % 24 * 2048;
    TimeFields(t, time);
    var day := t / DAY - EPOCH;
    var year := day / 365;
    if (year + 3) / 4 + 365 * year > day {
      year := year - 1;
    }
    ghost var dayNumber := day;
    YearFound(day, year);
    day := day - ((year + 3) / 4 + 365 * year);
    var nlDay, month: nat;
    if day == 59 && year % 4 == 0 {
      nlDay := day;
      month := 2;
      First();
    } else {
      nlDay := if year % 4 != 0 || day <= 59 then day else day - 1;
      month := FindMonth(nlDay);
    }
    date := nlDay - Accumulated(month - 1) + 1 + month * 32 + year * 512;
    DateFields(year, month, nlDay, day, date);
    Together(t, time, date, dayNumber);
  }

  /** The month whose days contain a day of a common year. */
  method FindMonth(nlDay: nat) returns (month: nat)
    requires nlDay < 365
    ensures 1 <= month <= 12 && Accumulated(month - 1) <= nlDay && (month < 12 ==> nlDay < Accumulated(month))
  {
    month := 0;
    while month < 12
      invariant month <= 12 && (month > 0 ==> Accumulated(month - 1) <= nlDay)
    {
      if Accumulated(month) > nlDay { break; }
      month := month + 1;
    }
  }

  lemma First()
    ensures Accumulated(1) == 31 && Accumulated(2) == 59
  {
  }

  /** One step back is always enough, because there are fewer leap days than days in a year. */
  lemma YearFound(day: nat, year: nat)
    requires day < 365 * 128 + 32
    requires year == if (day / 365 + 3) / 4 + 365 * (day / 365) > day then day / 365 - 1 else day / 365
    ensures year <= LAST_YEAR && DaysToYear(FourYearly, year) == (year + 3) / 4 + 365 * year
    ensures DaysToYear(FourYearly, year) <= day < DaysToYear(FourYearly, year) + YearLength(FourYearly, year)
  {
    YearStart(year);
    YearStart(year + 1);
  }

  /** The day of the year found becomes month and day, 29 February included. */
  lemma DateFields(year: nat, month: nat, nlDay: nat, day: nat, date: nat)
    requires year <= LAST_YEAR && 1 <= month <= 12 && day < YearLength(FourYearly, year)
    requires nlDay == if year % 4 != 0 || day <= 59 then day else day - 1
    requires Accumulated(month - 1) <= nlDay
    requires if day == 59 && year % 4 == 0 then month == 2 else month < 12 ==> nlDay < Accumulated(month)
    requires date == nlDay - Accumulated(month - 1) + 1 + month * 32 + year * 512
    ensures DateOf(date) == Date(year, month, nlDay - Accumulated(month - 1) + 1) && date < 0x10000
    ensures ValidDate(FourYearly, DateOf(date))
    ensures DaysToMonth(year % 4 == 0, month) + DateOf(date).d - 1 == day
  {
    hide Accumulated, DaysToMonth;
    First();
    LastMonth();
    MonthStart(year % 4 == 0, month);
    MonthOrder(month);
    var d := nlDay - Accumulated(month - 1) + 1;
    assert d <= 31;
    Unpack(year, month, d, date);
  }

  lemma LastMonth()
    ensures Accumulated(11) == 334
  {
  }

  lemma MonthOrder(month: nat)
    requires 1 <= month <= 12
    ensures month > 2 ==> Accumulated(month - 1) >= 59
    ensures month <= 2 ==> Accumulated(month - 1) <= 31 && Accumulated(month) <= 59
  {
  }

  lemma Unpack(year: nat, month: nat, d: nat, date: nat)
    requires year <= LAST_YEAR && month <= 12 && d <= 31 && date == d + month * 32 + year * 512
    ensures DateOf(date) == Date(year, month, d) && date < 0x10000
  {
    assert date / 32 == month + year * 16;
  }

  lemma TimeFields(t: nat, time: nat)
    requires time == t % 60 / 2 + t / 60 % 60 * 32 + t / 3600 % 24 * 2048
    ensures ValidTime(time) && SecondsOf(time) == t % DAY - t % DAY % 2
  {
    var s, m, h := t % 60, t / 60 % 60, t / 3600 % 24;
    PackTime(h, m, s / 2, time);
    SplitDay(t);
    EvenSeconds(h, m, s);
  }

  lemma PackTime(h: nat, m: nat, s: nat, time: nat)
    requires h < 24 && m < 60 && s < 30 && time == s + m * 32 + h * 2048
    ensures time / 2048 == h && time / 32 % 64 == m && time % 32 == s
  {
    assert time / 32 == m + h * 64;
  }

  lemma EvenSeconds(h: nat, m: nat, s: nat)
    ensures var n := h * 3600 + m * 60 + s; h * 3600 + m * 60 + s / 2 * 2 == n - n % 2
  {
    Halve(h * 1800 + m * 30, s);
  }

  lemma Halve(k: nat, s: nat)
    ensures (2 * k + s) % 2 == s % 2 && s / 2 * 2 == s - s % 2
  {
  }

  lemma SplitDay(t: nat)
    ensures t % DAY == t / 3600 % 24 * 3600 + t / 60 % 60 * 60 + t % 60
  {
    var s, m := t % 60, t / 60;
    assert t == 60 * m + s && m / 60 == t / 3600;
    var h := m / 60;
    assert m == 60 * h + m % 60;
    assert t == h / 24 * DAY + (h % 24 * 3600 + m % 60 * 60 + s);
  }

  lemma Together(t: nat, time: nat, date: nat, day: nat)
    requires date < 0x10000 && ValidDate(FourYearly, DateOf(date)) && ValidTime(time)
    requires SecondsOf(time) == t % DAY - t % DAY % 2
    requires day == t / DAY - EPOCH
    requires var x := DateOf(date);
             DaysToYear(FourYearly, x.y) + DaysToMonth(x.y % 4 == 0, x.m) + x.d - 1 == day
    ensures IsDosOf(t, time, date)
  {
    hide DaysToYear, DaysToMonth, ValidTime, SecondsOf, MonthLength;
    assert IsLeap(FourYearly, DateOf(date).y) == (DateOf(date).y % 4 == 0);
  }

  // ----- and back

  /** date_dos2unix; a month of zero would read in front of the table. */
  function Dos2Unix(time: nat, date: nat): int
    requires date / 32 % 16 >= 1
  {
    var month := date / 32 % 16 - 1;
    var year := date / 512;
    time % 32 * 2 + 60 * (time / 32 % 64) + time / 2048 * 3600
    + DAY * (date % 32 - 1 + Accumulated(month) + year / 4 + year * 365
             - (if year % 4 == 0 && month < 2 then 1 else 0) + 3653)
  }

  /** On a valid date it counts the seconds from 1 January 1970. */
  lemma Dos2UnixCounts(time: nat, date: nat)
    requires ValidDate(FourYearly, DateOf(date))
    ensures Dos2Unix(time, date) == SecondsOf(time) + DAY * (DayNumber(FourYearly, DateOf(date)) + EPOCH)
  {
    hide Accumulated, DaysToMonth, DaysToYear;
    var x := DateOf(date);
    YearStart(x.y);
    MonthStart(x.y % 4 == 0, x.m);
    LeapDays(x.y);
    assert IsLeap(FourYearly, x.y) == (x.y % 4 == 0);
  }

  lemma LeapDays(y: nat)
    ensures (y + 3) / 4 == y / 4 + (if y % 4 == 0 then 0 else 1)
  {
  }

  lemma SecondsInDay(time: nat)
    requires ValidTime(time)
    ensures SecondsOf(time) < DAY && SecondsOf(time) % 2 == 0
  {
    var h, m, s := time / 2048, time / 32 % 64, time % 32;
    assert SecondsOf(time) == 2 * (h * 1800 + m * 30 + s);
  }

  /** There and back gives the time rounded down to an even second, and it fits an int as long
      as the time did. */
  lemma UnixToDosAndBack(t: nat, time: nat, date: nat)
    requires IsDosOf(t, time, date)
    ensures DateOf(date).m >= 1 && Dos2Unix(time, date) == t - t % 2
    ensures t < 0x8000_0000 ==> 0 <= Dos2Unix(time, date) < 0x8000_0000
  {
    hide ValidDate, DayNumber, SecondsOf, Dos2Unix, ValidTime;
    ValidMonth(date);
    Dos2UnixCounts(time, date);
    assert t == DAY * (t / DAY) + t % DAY;
    assert t % 2 == t % DAY % 2;
  }

  lemma ValidMonth(date: nat)
    requires ValidDate(FourYearly, DateOf(date))
    ensures date / 32 % 16 >= 1
  {
  }

  /** Back and there gives the same sixteen bits each: the conversion is one to one on the valid
      DOS dates. */
  lemma DosToUnixAndBack(time: nat, date: nat)
    requires date < 0x10000 && ValidDate(FourYearly, DateOf(date)) && ValidTime(time)
    ensures DateOf(date).m >= 1 && Dos2Unix(time, date) >= 0
    ensures InRange(Dos2Unix(time, date)) && IsDosOf(Dos2Unix(time, date), time, date)
    ensures forall time', date' :: IsDosOf(Dos2Unix(time, date), time', date') ==> time' == time && date' == date
  {
    hide ValidDate, DayNumber, SecondsOf, Dos2Unix, ValidTime;
    ValidMonth(date);
    Dos2UnixCounts(time, date);
    SecondsInDay(time);
    DayInRange(date);
    var t, n := Dos2Unix(time, date), DayNumber(FourYearly, DateOf(date)) + EPOCH;
    assert t / DAY == n && t % DAY == SecondsOf(time);
    forall time', date' | IsDosOf(t, time', date') ensures time' == time && date' == date {
      OneDate(FourYearly, DateOf(date), DateOf(date'));
      SamePacking(date, date');
      SecondsInDay(time');
      SameTime(time, time');
    }
  }

  lemma DayInRange(date: nat)
    requires date < 0x10000 && ValidDate(FourYearly, DateOf(date))
    ensures 0 <= DayNumber(FourYearly, DateOf(date)) < 365 * 128 + 32
  {
    hide DaysToYear, DaysToMonth;
    var x := DateOf(date);
    DayInYear(FourYearly, x);
    YearFits(FourYearly, x.y, 128);
    YearStart(128);
    MonthFits(IsLeap(FourYearly, x.y), 1, x.m);
  }

  lemma SamePacking(a: nat, b: nat)
    requires DateOf(a) == DateOf(b)
    ensures a == b
  {
    RepackDate(a);
    RepackDate(b);
  }

  lemma RepackDate(a: nat)
    ensures a == a / 512 * 512 + a / 32 % 16 * 32 + a % 32
  {
    assert a / 32 / 16 == a / 512;
  }

  lemma SameTime(a: nat, b: nat)
    requires ValidTime(a) && ValidTime(b) && SecondsOf(a) == SecondsOf(b)
    ensures a == b
  {
    SameClock(a / 2048, a / 32 % 64, a % 32, b / 2048, b / 32 % 64, b % 32);
    Repack(a);
    Repack(b);
  }

  lemma SameClock(h: nat, m: nat, s: nat, h': nat, m': nat, s': nat)
    requires m < 60 && s < 30 && m' < 60 && s' < 30
    requires h * 3600 + m * 60 + s * 2 == h' * 3600 + m' * 60 + s' * 2
    ensures h == h' && m == m' && s == s'
  {
  }

  lemma Repack(a: nat)
    ensures a == a / 2048 * 2048 + a / 32 % 64 * 32 + a % 32
  {
  }

  // ----- the calendar proper

  lemma {:induction false} GregorianYears(y: nat)
    requires y <= 128
    ensures DaysToYear(Gregorian, y) == DaysToYear(FourYearly, y) - if y > 120 then 1 else 0
    ensures y < 128 ==> IsLeap(Gregorian, y) == (IsLeap(FourYearly, y) && y != 120)
  {
    hide IsLeap, DaysToYear;
    if y < 128 { GregorianLeap(y); }
    if y == 0 {
      FirstYear(Gregorian);
      FirstYear(FourYearly);
    } else {
      GregorianYears(y - 1);
      NextYear(Gregorian, y - 1);
      NextYear(FourYearly, y - 1);
      FourYears(y - 1);
    }
  }

  lemma FirstYear(rule: Rule)
    ensures DaysToYear(rule, 0) == 0
  {
  }

  lemma NextYear(rule: Rule, y: nat)
    ensures DaysToYear(rule, y + 1) == DaysToYear(rule, y) + YearLength(rule, y)
  {
    hide YearLength;
  }

  lemma GregorianLeap(y: nat)
    requires y < 128
    ensures IsLeap(Gregorian, y) == (IsLeap(FourYearly, y) && y != 120)
  {
    Centuries(y);
  }

  /** Of the years from 1980 to 2107 two end a century, and one of them is a leap year. */
  lemma Centuries(y: nat)
    requires y < 128
    ensures (1980 + y) % 100 == 0 <==> y == 20 || y == 120
    ensures y == 20 ==> (1980 + y) % 400 == 0
    ensures y == 120 ==> (1980 + y) % 400 != 0
  {
    var c := if y < 20 then 19 else if y < 120 then 20 else 21;
    Rest100(1980 + y, c);
  }

  lemma Rest100(n: nat, c: nat)
    requires 100 * c <= n < 100 * c + 100
    ensures n % 100 == n - 100 * c
  {
  }

  /** A DOS date is the date of the calendar up to 28 February 2100 and on no day after it. */
  lemma DosIsGregorian(t: nat, time: nat, date: nat)
    requires IsDosOf(t, time, date)
    ensures ValidDate(Gregorian, DateOf(date)) && DayNumber(Gregorian, DateOf(date)) == t / DAY - EPOCH
            <==> t / DAY - EPOCH < 43889
  {
    hide DaysToYear, DaysToMonth, IsLeap, ValidTime, SecondsOf;
    var x := DateOf(date);
    GregorianYears(x.y);
    YearStart(x.y);
    var leap := IsLeap(FourYearly, x.y);
    MonthStart(leap, x.m);
    MonthStart(IsLeap(Gregorian, x.y), x.m);
    DayInYear(FourYearly, x);
    MonthOrder(x.m);
    FourYears(x.y);
  }

  lemma FourYears(y: nat)
    ensures IsLeap(FourYearly, y) <==> y % 4 == 0
  {
  }

  // ----- eight hex digits

  predicate IsHex(c: char) {
    '0' <= c <= '9' || 'a' <= c <= 'f' || 'A' <= c <= 'F'
  }

  function Digit(c: char): nat
    requires IsHex(c)
  {
    if '0' <= c <= '9' then c as nat - '0' as nat
    else if 'a' <= c <= 'f' then c as nat - 'a' as nat + 10
    else c as nat - 'A' as nat + 10
  }

  function Hex(n: nat): char
    requires n < 16
  {
    if n < 10 then ('0' as nat + n) as char else ('A' as nat + n - 10) as char
  }

  /** "%04X" */
  function Hex4(n: nat): string
    requires n < 0x10000
  {
    [Hex(n / 4096), Hex(n / 256 % 16), Hex(n / 16 % 16), Hex(n % 16)]
  }

  /** strtoul, base 16, on hex digits. */
  function FromHex(s: string): nat
    requires forall i | 0 <= i < |s| :: IsHex(s[i])
  {
    if s == [] then 0 else 16 * FromHex(s[..|s| - 1]) + Digit(s[|s| - 1])
  }

  lemma HexDigit(n: nat)
    requires n < 16
    ensures IsHex(Hex(n)) && Digit(Hex(n)) == n
  {
  }

  /** Both cases are read, and each digit for what it is. */
  lemma DigitIs(n: nat)
    requires n < 16
    ensures var lower, upper := "0123456789abcdef"[n], "0123456789ABCDEF"[n];
            IsHex(lower) && Digit(lower) == n && IsHex(upper) && Digit(upper) == n && Hex(n) == upper
  {
  }

  lemma HexIs(c: char)
    ensures IsHex(c) <==> c in "0123456789abcdefABCDEF"
  {
    var s := "0123456789abcdefABCDEF";
    if '0' <= c <= '9' { assert s[c as nat - '0' as nat] == c; }
    if 'a' <= c <= 'f' { assert s[c as nat - 'a' as nat + 10] == c; }
    if 'A' <= c <= 'F' { assert s[c as nat - 'A' as nat + 16] == c; }
  }

  lemma HexAndBack(n: nat)
    requires n < 0x10000
    ensures forall i | 0 <= i < 4 :: IsHex(Hex4(n)[i])
    ensures FromHex(Hex4(n)) == n
  {
    hide IsHex, Digit, Hex, FromHex;
    var a, b, c, d := n / 4096, n / 256 % 16, n / 16 % 16, n % 16;
    HexDigit(a);
    HexDigit(b);
    HexDigit(c);
    HexDigit(d);
    NoDigits();
    var s1, s2, s3 := [Hex(a)], [Hex(a), Hex(b)], [Hex(a), Hex(b), Hex(c)];
    assert [] + [Hex(a)] == s1 && s1 + [Hex(b)] == s2 && s2 + [Hex(c)] == s3 && s3 + [Hex(d)] == Hex4(n);
    FromHexSnoc([], Hex(a));
    FromHexSnoc(s1, Hex(b));
    FromHexSnoc(s2, Hex(c));
    FromHexSnoc(s3, Hex(d));
    Digits4(n);
  }

  lemma NoDigits()
    ensures FromHex([]) == 0
  {
  }

  lemma Digits4(n: nat)
    ensures n == 16 * (16 * (16 * (n / 4096) + n / 256 % 16) + n / 16 % 16) + n % 16
  {
    var p := n / 16;
    var q := p / 16;
    assert n == 16 * p + n % 16 && p == 16 * q + p % 16 && q == n / 256;
    assert q == 16 * (q / 16) + q % 16 && q / 16 == n / 4096;
  }

  lemma FromHexSnoc(s: string, c: char)
    requires IsHex(c) && forall i | 0 <= i < |s| :: IsHex(s[i])
    ensures forall i | 0 <= i < |s + [c]| :: IsHex((s + [c])[i])
    ensures FromHex(s + [c]) == 16 * FromHex(s) + Digit(c)
  {
    hide IsHex, Digit;
    assert (s + [c])[..|s|] == s;
  }

  /** yapp2unix: zero for anything but eight hex digits. */
  function Yapp2Unix(s: string): int
    requires |s| == 8 && (forall i | 0 <= i < 8 :: IsHex(s[i])) ==> FromHex(s[..4]) / 32 % 16 >= 1
  {
    if |s| != 8 || exists i | 0 <= i < 8 :: !IsHex(s[i]) then 0
    else Dos2Unix(FromHex(s[4..]), FromHex(s[..4]))
  }

  method Unix2Yapp(t: nat) returns (buffer: string)
    requires InRange(t)
    ensures |buffer| == 8 && (forall i | 0 <= i < 8 :: IsHex(buffer[i]))
    ensures FromHex(buffer[..4]) / 32 % 16 >= 1 && Yapp2Unix(buffer) == t - t % 2
    ensures var date, time := FromHex(buffer[..4]), FromHex(buffer[4..]);
            IsDosOf(t, time, date) && time < 0x10000 && buffer == Hex4(date) + Hex4(time)
  {
    hide IsHex, Hex4, FromHex, Dos2Unix;
    var time, date := DateUnix2Dos(t);
    UnixToDosAndBack(t, time, date);
    TimeIsShort(time);
    HexAndBack(date);
    HexAndBack(time);
    HexLength(date, time);
    buffer := Hex4(date) + Hex4(time);
    assert buffer[..4] == Hex4(date) && buffer[4..] == Hex4(time);
  }

  lemma HexLength(a: nat, b: nat)
    requires a < 0x10000 && b < 0x10000
    ensures |Hex4(a)| == 4 && |Hex4(b)| == 4
  {
  }

  lemma TimeIsShort(time: nat)
    requires ValidTime(time)
    ensures time < 0x10000
  {
  }
}
