// kernel/ktime.c: the seconds since 1970, in 32-bit unsigned arithmetic.
module Ktime {
  import opened Base

  const MINUTE := 60
  const HOUR := 3600
  const DAY := 86400
  const YEAR := 31536000   // 365 days

  // As read from the clock: the year counts from 1900, the month from 0.
  datatype Time = Time(year: nat, month: nat, day: nat, hour: nat, minute: nat, second: nat)

  // What a 32-bit register keeps.
  function Wrap(x: int): (r: nat)
    ensures r < U32
  {
    x % U32
  }

  // Seconds of a leap year before each month.
  function DaysOfMonth(): (r: seq<nat>)
    ensures |r| == 12
  {
    [0, DAY * 31, DAY * 60, DAY * 91, DAY * 121, DAY * 152, DAY * 182,
     DAY * 213, DAY * 244, DAY * 274, DAY * 305, DAY * 335]
  }

  function GetStartupTime(tm: Time): nat
    requires tm.month < 12
  {
    var year := Wrap(tm.year - 70);
    var r0 := Wrap(Wrap(year * YEAR) + Wrap(Wrap(1 + Wrap(year - 3) / 4) * DAY));
    var r1 := Wrap(r0 + DaysOfMonth()[tm.month]);
    var r2 := if tm.month >= 2 && Wrap(year + 2) % 4 != 0 then Wrap(r1 - DAY) else r1;
    var r3 := Wrap(r2 + Wrap(Wrap(tm.day - 1) * DAY));
    var r4 := Wrap(r3 + Wrap(tm.hour * HOUR));
    var r5 := Wrap(r4 + Wrap(tm.minute * MINUTE));
    Wrap(r5 + tm.second)
  }

  // ---- counting days -------------------------------------------------------------------------

  // `year` counts from 1970 here; every fourth year has 366 days, as 1972 does.
  datatype Date = Date(year: nat, month: nat, day: nat)

  predicate Leap(year: nat) { year % 4 == 2 }

  function MonthLength(year: nat, month: nat): nat
    requires month < 12
  {
    if month == 1 then if Leap(year) then 29 else 28
    else if month == 3 || month == 5 || month == 8 || month == 10 then 30 else 31
  }

  predicate ValidDate(d: Date) { d.month < 12 && 1 <= d.day <= MonthLength(d.year, d.month) }

  function NextDay(d: Date): (r: Date)
    requires ValidDate(d)
    ensures ValidDate(r)
  {
    if d.day < MonthLength(d.year, d.month) then d.(day := d.day + 1)
    else if d.month < 11 then Date(d.year, d.month + 1, 1)
    else Date(d.year + 1, 0, 1)
  }

  // n days after 1 January 1970, one day at a time.
  function DayAfter(n: nat): (r: Date)
    ensures ValidDate(r)
  {
    if n == 0 then Date(0, 0, 1) else NextDay(DayAfter(n - 1))
  }

  function DaysBefore(month: nat): nat
    requires month < 12
  {
    [0, 31, 60, 91, 121, 152, 182, 213, 244, 274, 305, 335][month]
  }

  // The days before d, in closed form.
  function DayNumber(d: Date): int
    requires ValidDate(d)
  {
    365 * d.year + (d.year + 1) / 4 + DaysBefore(d.month) - (if d.month >= 2 && !Leap(d.year) then 1 else 0) + d.day - 1
  }

  lemma NextDayNumber(d: Date)
    requires ValidDate(d)
    ensures DayNumber(NextDay(d)) == DayNumber(d) + 1
  {
  }

  lemma {:induction false} DayAfterNumber(n: nat)
    ensures DayNumber(DayAfter(n)) == n
  {
    if n > 0 {
      DayAfterNumber(n - 1);
      NextDayNumber(DayAfter(n - 1));
    }
  }

  // ---- the two agree -------------------------------------------------------------------------

  lemma WrapSum(a: int, b: int)
    ensures Wrap(Wrap(a) + b) == Wrap(a + b) == Wrap(a + Wrap(b))
  {
    WrapSplit(a);
    WrapSplit(b);
    hide Wrap;
    WrapMultiple(a / U32, Wrap(a) + b);
    WrapMultiple(b / U32, a + Wrap(b));
  }

  lemma WrapSplit(a: int)
    ensures a == U32 * (a / U32) + Wrap(a)
    ensures 0 <= a < U32 ==> Wrap(a) == a
  {
  }

  lemma WrapProduct(a: int, k: int)
    ensures Wrap(Wrap(a) * k) == Wrap(a * k)
  {
    var q := a / U32;
    assert a == U32 * q + Wrap(a);
    assert a * k == U32 * (q * k) + Wrap(a) * k;
    WrapMultiple(q * k, Wrap(a) * k);
  }

  lemma WrapMultiple(q: int, r: int)
    ensures Wrap(U32 * q + r) == Wrap(r)
  {
  }

  // The wrap of year - 3 in 1970, 1971 and 1972 cancels: a quarter of 2^32 days is 0.
  lemma LeapDays(year: nat)
    requires year < U32
    ensures Wrap(Wrap(1 + Wrap(year - 3) / 4) * DAY) == Wrap((year + 1) / 4 * DAY)
  {
    LeapQuarter(year);
    hide Wrap;
    var leap := (year + 1) / 4;
    if year < 3 {
      WrapQuarter();
    } else {
      WrapProduct(leap, DAY);
    }
  }

  lemma LeapQuarter(year: nat)
    requires year < U32
    ensures year < 3 ==> Wrap(1 + Wrap(year - 3) / 4) == U32 / 4 && (year + 1) / 4 == 0
    ensures year >= 3 ==> Wrap(1 + Wrap(year - 3) / 4) == (year + 1) / 4
  {
    WrapSplit(year - 3);
    if year < 3 { assert Wrap(year - 3) == U32 + year - 3; }
  }

  lemma WrapQuarter()
    ensures Wrap(U32 / 4 * DAY) == 0 == Wrap(0)
  {
  }

  function DateOf(tm: Time): Date
    requires tm.year >= 70
  {
    Date(tm.year - 70, tm.month, tm.day)
  }

  // get_startup_time is the number of days by the closed form, and the time of day, modulo 2^32.
  lemma StartupTimeIs(tm: Time)
    requires 70 <= tm.year < 70 + U32 && ValidDate(DateOf(tm))
    ensures GetStartupTime(tm) == Wrap(DayNumber(DateOf(tm)) * DAY + tm.hour * HOUR + tm.minute * MINUTE + tm.second)
  {
    hide Wrap;
    var year := tm.year - 70;
    YearFits(year);
    var leap := (year + 1) / 4;
    LeapDays(year);
    WrapBoth(year * YEAR, leap * DAY);
    var a := year * YEAR + leap * DAY;
    var b := a + DaysOfMonth()[tm.month];
    WrapSum(a, DaysOfMonth()[tm.month]);
    var short := tm.month >= 2 && !Leap(year);
    var c := if short then b - DAY else b;
    WrapSum(b, -DAY);
    WrapProduct(tm.day - 1, DAY);
    var d := c + (tm.day - 1) * DAY;
    WrapBoth(c, (tm.day - 1) * DAY);
    var e := d + tm.hour * HOUR;
    WrapBoth(d, tm.hour * HOUR);
    var f := e + tm.minute * MINUTE;
    WrapBoth(e, tm.minute * MINUTE);
    WrapSum(f, tm.second);
    assert d == DayNumber(DateOf(tm)) * DAY;
  }

  lemma WrapBoth(a: int, b: int)
    ensures Wrap(Wrap(a) + Wrap(b)) == Wrap(a + b)
  {
    WrapSum(a, Wrap(b));
    WrapSum(a, b);
  }

  lemma YearFits(year: nat)
    requires year < U32
    ensures Wrap(year) == year && (Wrap(year + 2) % 4 != 0 <==> !Leap(year))
  {
  }

  // The day that lies n days after 1 January 1970 starts at n * 86400 seconds, modulo 2^32.
  lemma CountsDays(n: nat, hour: nat, minute: nat, second: nat)
    requires DayAfter(n).year < U32
    ensures var d := DayAfter(n);
      GetStartupTime(Time(d.year + 70, d.month, d.day, hour, minute, second)) ==
        Wrap(n * DAY + hour * HOUR + minute * MINUTE + second)
  {
    hide GetStartupTime, Wrap, DayNumber, DayAfter;
    DayAfterNumber(n);
    var d := DayAfter(n);
    StartupTimeIs(Time(d.year + 70, d.month, d.day, hour, minute, second));
  }

  // Every valid date is reached, once.
  lemma {:induction false} EveryDateIsCounted(d: Date)
    requires ValidDate(d)
    ensures DayNumber(d) >= 0 && DayAfter(DayNumber(d)) == d
    decreases d.year, d.month, d.day
  {
    if d != Date(0, 0, 1) {
      var p := PreviousDay(d);
      EveryDateIsCounted(p);
      NextDayNumber(p);
    }
  }

  function PreviousDay(d: Date): (r: Date)
    requires ValidDate(d) && d != Date(0, 0, 1)
    ensures ValidDate(r) && NextDay(r) == d
  {
    if d.day > 1 then d.(day := d.day - 1)
    else if d.month > 0 then Date(d.year, d.month - 1, MonthLength(d.year, d.month - 1))
    else Date(d.year - 1, 11, 31)
  }

  // ---- POSIX.1-2017, Base Definitions, section 4.16 ------------------------------------------

  // Years from 1900; the Gregorian rule.
  predicate Gregorian(year: nat) { (year + 1900) % 4 == 0 && ((year + 1900) % 100 != 0 || (year + 1900) % 400 == 0) }

  function DayOfYear(tm: Time): int
    requires tm.month < 12
  {
    DaysBefore(tm.month) - (if tm.month >= 2 && !Gregorian(tm.year) then 1 else 0) + tm.day - 1
  }

  // The days of the formula: those of the year, of the years before, and the leap days.
  function PosixDays(tm: Time): int
    requires tm.month < 12
  {
    DayOfYear(tm) + (tm.year - 70) * 365 + (tm.year - 69) / 4 - (tm.year - 1) / 100 + (tm.year + 299) / 400
  }

  function SecondsSinceEpoch(tm: Time): int
    requires tm.month < 12
  {
    tm.second + tm.minute * 60 + tm.hour * 3600 + DayOfYear(tm) * 86400 + (tm.year - 70) * 31536000
      + (tm.year - 69) / 4 * 86400 - (tm.year - 1) / 100 * 86400 + (tm.year + 299) / 400 * 86400
  }

  predicate ValidTime(tm: Time) {
    tm.year >= 70 && ValidDate(DateOf(tm)) && tm.hour < 24 && tm.minute < 60 && tm.second < 60
  }

  lemma PosixSeconds(tm: Time)
    requires tm.month < 12
    ensures SecondsSinceEpoch(tm) == PosixDays(tm) * DAY + tm.hour * HOUR + tm.minute * MINUTE + tm.second
  {
    hide DayOfYear;
  }

  lemma SameDays(tm: Time)
    requires ValidTime(tm) && tm.year <= 200
    ensures 0 <= DayNumber(DateOf(tm)) < 131 * 366
    ensures PosixDays(tm) == DayNumber(DateOf(tm)) - if tm.year == 200 && tm.month >= 2 then 1 else 0
  {
  }

  // From March 2100 on the formula counts one day less, and before it counts yet another one less its own value is
  // past 32 bits.
  lemma FewerDays(tm: Time)
    requires ValidTime(tm) && (tm.year > 200 || (tm.year == 200 && tm.month >= 2))
    ensures PosixDays(tm) < DayNumber(DateOf(tm)) && PosixDays(tm) >= 130 * 365
    ensures tm.year <= 207 ==> PosixDays(tm) == DayNumber(DateOf(tm)) - 1 && DayNumber(DateOf(tm)) < 138 * 366
    ensures tm.year > 207 ==> PosixDays(tm) >= 138 * 365 + 33
  {
  }

  // It agrees with POSIX exactly up to the end of February 2100.
  lemma AgreesWithPosix(tm: Time)
    requires ValidTime(tm) && tm.year < 70 + U32
    ensures GetStartupTime(tm) == SecondsSinceEpoch(tm) <==> tm.year < 200 || (tm.year == 200 && tm.month < 2)
  {
    hide GetStartupTime, DayNumber, PosixDays, SecondsSinceEpoch, Wrap;
    StartupTimeIs(tm);
    PosixSeconds(tm);
    WrapSplit(DayNumber(DateOf(tm)) * DAY + tm.hour * HOUR + tm.minute * MINUTE + tm.second);
    if tm.year <= 200 { SameDays(tm); } else { FewerDays(tm); }
  }

  predicate Earlier(a: Time, b: Time) {
    || a.year < b.year
    || (a.year == b.year && (
      || a.month < b.month
      || (a.month == b.month && (
        || a.day < b.day
        || (a.day == b.day
            && a.hour * HOUR + a.minute * MINUTE + a.second < b.hour * HOUR + b.minute * MINUTE + b.second)))))
  }

  // All the seconds, not modulo 2^32.
  function Total(tm: Time): int
    requires ValidTime(tm)
  {
    DayNumber(DateOf(tm)) * DAY + tm.hour * HOUR + tm.minute * MINUTE + tm.second
  }

  // Later times have greater totals, in every year; so a later time has a greater value as long as its total is
  // below 2^32, and the first total that is not has the value 0.
  lemma StrictlyIncreasing(a: Time, b: Time)
    requires ValidTime(a) && ValidTime(b) && b.year < 70 + U32 && Earlier(a, b)
    ensures Total(a) < Total(b)
    ensures Total(b) < U32 ==> GetStartupTime(a) < GetStartupTime(b)
    ensures Total(b) == U32 ==> GetStartupTime(b) == 0
  {
    hide GetStartupTime, DayNumber, Wrap;
    StartupTimeIs(a);
    StartupTimeIs(b);
    EarlierDay(a, b);
    WrapSplit(Total(a));
    WrapSplit(Total(b));
    WrapMultiple(1, 0);
    WrapSplit(0);
  }

  lemma EarlierDay(a: Time, b: Time)
    requires ValidTime(a) && ValidTime(b) && Earlier(a, b)
    ensures 0 <= DayNumber(DateOf(a)) <= DayNumber(DateOf(b))
    ensures DayNumber(DateOf(a)) == DayNumber(DateOf(b)) ==> DateOf(a) == DateOf(b)
  {
  }

  // Below 2^32 is before 06:28:16 on 6 February 2106, in a calendar with a 29 February 2100.
  lemma LastTotal(tm: Time)
    requires ValidTime(tm)
    ensures Total(Time(206, 1, 6, 6, 28, 16)) == U32
    ensures Total(tm) < U32 <==> Earlier(tm, Time(206, 1, 6, 6, 28, 16))
  {
    var end := Time(206, 1, 6, 6, 28, 16);
    assert Total(end) == U32;
    hide DayNumber;
    if Earlier(tm, end) { EarlierDay(tm, end); }
    if Earlier(end, tm) { EarlierDay(end, tm); }
  }
}
