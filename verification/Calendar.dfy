/** The calendar: days and seconds since 1 January 1970, and the fields of a date and time. */
module Calendar {
  import opened Common

  const EPOCH := 1970
  const DAY := 86400

  predicate IsLeapYear(year: nat) {
    if year % 100 == 0 then year % 400 == 0 else year % 4 == 0
  }

  function DaysOfYear(year: nat): nat {
    if IsLeapYear(year) then 366 else 365
  }

  const DAYS_OF_MONTH: seq<nat> := [31, 28, 31, 30, 31, 30, 31, 31, 30, 31, 30, 31]

  function DaysOfMonth(month: nat, year: nat): nat
    requires month <= 11
  {
    if month == 1 && IsLeapYear(year) then 29 else DAYS_OF_MONTH[month]
  }

  /** The days from 1 January 1970 to the start of a year. */
  function DaysTo(year: nat): nat {
    if year <= EPOCH then 0 else DaysTo(year - 1) + DaysOfYear(year - 1)
  }

  /** The days from the start of a year to the start of a month. */
  function DaysInto(month: nat, year: nat): nat
    requires month <= 12
  {
    if month == 0 then 0 else DaysInto(month - 1, year) + DaysOfMonth(month - 1, year)
  }

  /** Month and day count from 0 and 1. */
  predicate ValidDate(day: nat, month: nat, year: nat) {
    EPOCH <= year && month <= 11 && 1 <= day <= DaysOfMonth(month, year)
  }

  predicate ValidTime(hours: nat, minutes: nat, seconds: nat) {
    hours <= 23 && minutes <= 59 && seconds <= 59
  }

  /** The days from 1 January 1970 to a date. */
  function DaysBefore(day: nat, month: nat, year: nat): nat
    requires ValidDate(day, month, year)
  {
    DaysTo(year) + DaysInto(month, year) + day - 1
  }

  /** 1 January 1970 was a Thursday; Sunday is 0. */
  function WeekDay(days: nat): nat {
    (days + 4) % 7
  }

  function Moment(days: nat, hours: nat, minutes: nat, seconds: nat): nat {
    ((days * 24 + hours) * 60 + minutes) * 60 + seconds
  }

  // ---------------------------------------------------------------- facts about dates

  /** The days into the months in closed form: from March on five months have 153 days, as the Gregorian calendar
      has it. */
  lemma MonthDays(month: nat, year: nat)
    requires month <= 11
    ensures DaysInto(month, year) ==
      if month < 2 then 31 * month else 59 + (153 * (month - 2) + 2) / 5 + if DaysOfYear(year) == 366 then 1 else 0
  {
  }

  /** The months of a year make up the year. */
  lemma WholeYear(year: nat)
    ensures DaysInto(12, year) == DaysOfYear(year)
  {
    MonthDays(11, year);
    assert DaysInto(12, year) == DaysInto(11, year) + 31;
  }

  lemma {:induction false} MonthsRise(m: nat, n: nat, year: nat)
    requires m < n <= 12
    ensures DaysInto(m, year) + DaysOfMonth(m, year) <= DaysInto(n, year)
    decreases n
  {
    if m < n - 1 { MonthsRise(m, n - 1, year); }
  }

  lemma {:induction false} YearsRise(y: nat, z: nat)
    requires EPOCH <= y < z
    ensures DaysTo(y) + DaysOfYear(y) <= DaysTo(z)
    decreases z
  {
    if y < z - 1 { YearsRise(y, z - 1); }
  }

  lemma {:induction false} YearsBounded(year: nat)
    requires EPOCH <= year
    ensures 365 * (year - EPOCH) <= DaysTo(year) <= 366 * (year - EPOCH)
    decreases year
  {
    if year > EPOCH { YearsBounded(year - 1); }
  }

  lemma DateInYear(day: nat, month: nat, year: nat)
    requires ValidDate(day, month, year)
    ensures DaysInto(month, year) + day - 1 < DaysOfYear(year)
  {
    WholeYear(year);
    MonthsRise(month, 12, year);
  }

  /** No two dates are the same number of days after 1970. */
  lemma DaysUnique(day: nat, month: nat, year: nat, day': nat, month': nat, year': nat)
    requires ValidDate(day, month, year) && ValidDate(day', month', year')
    requires DaysBefore(day, month, year) == DaysBefore(day', month', year')
    ensures day == day' && month == month' && year == year'
  {
    DateInYear(day, month, year);
    DateInYear(day', month', year');
    if year < year' { YearsRise(year, year'); }
    if year' < year { YearsRise(year', year); }
    if month < month' { MonthsRise(month, month', year); }
    if month' < month { MonthsRise(month', month, year); }
  }

  /** A date and a time of day. */
  datatype Date = Date(day: nat, month: nat, year: nat, hours: nat, minutes: nat, seconds: nat) {
    predicate Valid() {
      ValidDate(day, month, year) && ValidTime(hours, minutes, seconds)
    }

    /** The seconds from 1 January 1970. */
    function Total(): nat
      requires Valid()
    {
      Moment(DaysBefore(day, month, year), hours, minutes, seconds)
    }
  }

  lemma MomentUnique(days: nat, h: nat, m: nat, s: nat, days': nat, h': nat, m': nat, s': nat)
    requires ValidTime(h, m, s) && ValidTime(h', m', s')
    requires Moment(days, h, m, s) == Moment(days', h', m', s')
    ensures days == days' && h == h' && m == m' && s == s'
  {
  }

  /** No two dates and times are the same number of seconds after 1970. */
  lemma TotalUnique(a: Date, b: Date)
    requires a.Valid() && b.Valid() && a.Total() == b.Total()
    ensures a == b
  {
    hide Moment, DaysBefore;
    MomentUnique(DaysBefore(a.day, a.month, a.year), a.hours, a.minutes, a.seconds,
                 DaysBefore(b.day, b.month, b.year), b.hours, b.minutes, b.seconds);
    DaysUnique(a.day, a.month, a.year, b.day, b.month, b.year);
  }

  /** How many leap days there are before a year. */
  function Leaps(year: nat): int
    requires year > 0
  {
    (year - 1) / 4 - (year - 1) / 100 + (year - 1) / 400
  }

  lemma DivNext(n: nat, d: nat)
    requires d > 1
    ensures (n + 1) / d == n / d + (if (n + 1) % d == 0 then 1 else 0)
  {
    DivBounds(n, d);
    var q, r := n / d, n % d;
    if r + 1 < d { DivIs(n + 1, d, q, r + 1); }
    else { assert d * (q + 1) == d * q + d; DivIs(n + 1, d, q + 1, 0); }
  }

  lemma LeapStep(year: nat)
    requires year > 0
    ensures Leaps(year + 1) == Leaps(year) + (if IsLeapYear(year) then 1 else 0)
  {
    DivNext(year - 1, 4);
    DivNext(year - 1, 100);
    DivNext(year - 1, 400);
    assert year % 100 == 0 ==> year % 4 == 0;
    assert year % 400 == 0 ==> year % 100 == 0;
  }

  /** The days up to a year in closed form. */
  lemma {:induction false} LeapDays(year: nat)
    requires EPOCH <= year
    ensures DaysTo(year) == 365 * (year - EPOCH) + Leaps(year) - Leaps(EPOCH)
    decreases year
  {
    if year > EPOCH {
      LeapDays(year - 1);
      LeapStep(year - 1);
    }
  }

  /** The calendar repeats itself every 400 years, in days and weekdays. */
  lemma FourCenturies(year: nat)
    requires EPOCH <= year
    ensures DaysTo(year + 400) == DaysTo(year) + 146097 && WeekDay(DaysTo(year + 400)) == WeekDay(DaysTo(year))
  {
    hide DaysTo, Leaps;
    LeapDays(year);
    LeapDays(year + 400);
    LeapsRepeat(year);
    WeeksMore(DaysTo(year), 20871);
  }

  lemma LeapsRepeat(year: nat)
    requires year > 0
    ensures Leaps(year + 400) == Leaps(year) + 97
  {
    DivMore(year - 1, 4, 100);
    DivMore(year - 1, 100, 4);
    DivMore(year - 1, 400, 1);
  }

  /** The start of the century, a Saturday, in days and seconds since 1970. */
  lemma NewCentury()
    ensures ValidDate(1, 0, 2000) && DaysBefore(1, 0, 2000) == 10957 && WeekDay(DaysBefore(1, 0, 2000)) == 6
    ensures Date(1, 0, 2000, 0, 0, 0).Total() == 946684800
  {
    LeapDays(2000);
    hide DaysTo, DaysInto;
    MonthDays(0, 2000);
  }

  /** 29 February 2024, a Thursday. */
  lemma LeapDay()
    ensures ValidDate(29, 1, 2024) && DaysBefore(29, 1, 2024) == 19782 && WeekDay(DaysBefore(29, 1, 2024)) == 4
    ensures Date(29, 1, 2024, 23, 59, 59).Total() == 1709251199 && !ValidDate(29, 1, 2023)
  {
    LeapDays(2024);
    hide DaysTo, DaysInto;
    MonthDays(1, 2024);
  }

  lemma DivMore(n: nat, d: nat, k: nat)
    requires d == 4 || d == 100 || d == 400
    ensures (n + d * k) / d == n / d + k
  {
  }

  lemma WeeksMore(days: nat, weeks: nat)
    ensures WeekDay(days + 7 * weeks) == WeekDay(days)
  {
  }

  // ---------------------------------------------------------------- what the loops need

  lemma YearStep(year: nat)
    requires EPOCH <= year
    ensures DaysTo(EPOCH) == 0 && DaysTo(year + 1) == DaysTo(year) + DaysOfYear(year)
  {
  }

  lemma MonthStep(month: nat, year: nat)
    requires month <= 11
    ensures DaysOfMonth(month, year) > 0
    ensures DaysInto(0, year) == 0 && DaysInto(month + 1, year) == DaysInto(month, year) + DaysOfMonth(month, year)
  {
  }

  /** Division as in C, towards zero. */
  function Quot(a: int, b: nat): int
    requires b > 0
  {
    if a >= 0 then a / b else -(-a / b)
  }

  function Rem(a: int, b: nat): int
    requires b > 0
  {
    a - b * Quot(a, b)
  }

  /** In the last minute before 1970 only the seconds are negative. */
  lemma LastMinute(a: int)
    requires -60 < a < 0
    ensures Rem(a, 60) % WORD == a + WORD && Quot(a, 60) == 0
    ensures Rem(0, 60) % WORD == 0 && Quot(0, 60) == 0 && Rem(0, 24) % WORD == 0 && Quot(0, 24) == 0
  {
  }

  lemma SomeDays()
    ensures DaysTo(WORD) > 0
  {
    var year: nat := WORD;
    YearStep(EPOCH);
    YearsRise(EPOCH + 1, year);
  }

  lemma NoDays(days: nat, seconds: nat)
    requires days == 0
    ensures Moment(days, 0, 0, seconds) == seconds
  {
  }

  /** From 1970 on this is plain division. */
  lemma Towards(a: int)
    requires a >= 0
    ensures Rem(a, 60) % WORD == a % 60 && Quot(a, 60) == a / 60
    ensures Rem(a / 60, 60) % WORD == a / 60 % 60 && Quot(a / 60, 60) == a / 60 / 60
    ensures Rem(a / 60 / 60, 24) % WORD == a / 60 / 60 % 24 && Quot(a / 60 / 60, 24) == a / 60 / 60 / 24
    ensures Rem(a / 60 / 60 / 24 + 4, 7) % WORD == (a / 60 / 60 / 24 + 4) % 7
  {
  }

  lemma NotYet(year: nat)
    ensures year <= EPOCH ==> DaysTo(year) == 0
  {
  }

  lemma ShortMonth(month: nat, year: nat)
    requires month <= 11
    ensures DaysOfMonth(month, year) <= 31
  {
  }

  lemma SmallDay(year: nat, day: nat, month: nat)
    requires month <= 11 && 1 <= day <= DaysOfMonth(month, year)
    ensures (day - 1) % WORD == day - 1
  {
    ShortMonth(month, year);
  }

  lemma YearsBelow(year: nat, rest: nat)
    requires year < WORD && rest < DaysOfYear(year)
    ensures if year < EPOCH then DaysTo(year) == 0 else DaysTo(year) + rest < DaysTo(WORD)
    ensures DaysTo(year) + rest < DaysTo(WORD) + rest
  {
    YearsBounded(WORD);
    if year >= EPOCH { YearsRise(year, WORD); }
  }

  lemma SplitTime(t: nat)
    ensures t / 60 / 60 / 24 == t / DAY
    ensures Moment(t / DAY, t / 60 / 60 % 24, t / 60 % 60, t % 60) == t
    ensures ValidTime(t / 60 / 60 % 24, t / 60 % 60, t % 60)
  {
  }

  lemma WordSum(a: nat, b: nat)
    ensures (a % WORD + b) % WORD == (a + b) % WORD
  {
  }

  /** The weekday that is computed in 32-bit words is the right one if and only if the number of days, and
      the 4 added to it, has wrapped around a multiple of 7 times, such as never. */
  lemma WeekDayExactly(days: nat)
    ensures (days + 4) % WORD % 7 == WeekDay(days) <==> (days + 4) / WORD % 7 == 0
  {
    var q, r := (days + 4) / WORD, (days + 4) % WORD;
    assert days + 4 == 7 * (613566756 * q) + 4 * q + r;
    assert (days + 4) % 7 == (4 * q + r) % 7;
  }

  /** It is not in the year 12 million, when the number of days has wrapped around once. */
  lemma WeekDayGoesWrong(year: nat)
    requires year == 12_000_000
    ensures ValidDate(1, 0, year) && (DaysBefore(1, 0, year) + 4) % WORD % 7 != WeekDay(DaysBefore(1, 0, year))
  {
    LeapDays(year);
    hide DaysTo;
    assert DaysInto(0, year) == 0;
    assert DaysBefore(1, 0, year) == 4382190472;
  }

  lemma WeekDayInTime(day: nat, month: nat, year: nat)
    requires ValidDate(day, month, year) && year < 11_000_000
    ensures (DaysBefore(day, month, year) + 4) % WORD % 7 == WeekDay(DaysBefore(day, month, year))
  {
    hide DaysTo, DaysInto, DaysOfMonth;
    DateInYear(day, month, year);
    YearsBounded(year);
  }

  lemma MomentRises(days: nat, days': nat, h: nat, m: nat, s: nat)
    ensures Moment(days, h, m, s) == Moment(days', h, m, s) <==> days == days'
  {
  }

  lemma DayOfTotal(date: Date)
    requires date.Valid() && date.year < WORD
    ensures date.Total() / DAY < DaysTo(WORD)
  {
    var days := DaysBefore(date.day, date.month, date.year);
    hide DaysTo, DaysInto;
    DateInYear(date.day, date.month, date.year);
    YearsRise(date.year, WORD);
    hide DaysBefore, DaysOfMonth;
    assert date.Total() / DAY == days by { SplitTime(date.Total()); }
  }

  /** No moment of a year that fits into a word is too late for a signed 64-bit word. */
  lemma TotalFits(date: Date)
    requires date.Valid() && date.year < WORD
    ensures date.Total() < 0x8000_0000_0000_0000
  {
    hide DaysTo, DaysInto;
    DateInYear(date.day, date.month, date.year);
    YearsBounded(date.year);
  }

  /** What has been split into year and month, day and time of day is put together again. */
  lemma SetExactly(time: nat, y: nat, rest: nat, date: Date)
    requires y < WORD && rest < DaysOfYear(y)
    requires time / DAY < DaysTo(WORD) ==> EPOCH <= y && DaysTo(y) + rest == time / DAY
    requires DaysTo(WORD) <= time / DAY ==> DaysTo(WORD) + rest <= time / DAY
    requires date.year == y && date.month <= 11 && 1 <= date.day <= DaysOfMonth(date.month, y)
    requires DaysInto(date.month, y) + date.day - 1 == rest
    requires ValidTime(date.hours, date.minutes, date.seconds) &&
      Moment(time / DAY, date.hours, date.minutes, date.seconds) == time
    ensures time / DAY < DaysTo(WORD) ==> date.Valid() && date.Total() == time
    ensures Moment(DaysTo(y) + rest, date.hours, date.minutes, date.seconds) == time <==> time / DAY < DaysTo(WORD)
    ensures forall d: Date :: d.Valid() && d.year < WORD && d.Total() == time ==> date.Valid() && d == date
  {
    hide DaysTo, DaysInto, IsLeapYear, DaysOfMonth, Moment, ValidTime;
    YearsBelow(y, rest);
    MomentRises(DaysTo(y) + rest, time / DAY, date.hours, date.minutes, date.seconds);
    forall d: Date | d.Valid() && d.year < WORD && d.Total() == time ensures date.Valid() && d == date {
      DayOfTotal(d);
      TotalUnique(d, date);
    }
  }

  // ---------------------------------------------------------------- the class

  class Time {
    var seconds: nat
    var minutes: nat
    var hours: nat
    var monthDay: nat
    var month: nat
    var year: nat       // minus 1900, as a 32-bit word
    var weekDay: nat

    function Year(): nat
      reads this
    {
      (year + 1900) % WORD
    }

    ghost function Fields(): Date
      reads this
    {
      Date(monthDay, month, Year(), hours, minutes, seconds)
    }

    /** These are the fields of a date from 1970 on. */
    ghost predicate Valid()
      reads this
    {
      Fields().Valid() && year < WORD
    }

    ghost function Total(): nat
      requires Valid()
      reads this
    {
      Fields().Total()
    }

    constructor ()
      ensures Valid() && Fields() == Date(1, 0, EPOCH, 0, 0, 0) && weekDay == 4
    {
      seconds, minutes, hours, monthDay, month, year, weekDay := 0, 0, 0, 1, 0, 70, 4;
    }

    /** What is to be read back from these fields, whether or not they are those of a date from 1970 on. */
    ghost function Read(): nat
      requires month <= 11
      reads this
    {
      Moment(DaysTo(Year()) + DaysInto(month, Year()) + (monthDay - 1) % WORD, hours, minutes, seconds)
    }

    /** Exact from 1970 on as long as the year fits into a word.  Whatever date and time is this long after
        1970, this finds it. */
    method Set(time: int)
      modifies this
      ensures month <= 11 && year < WORD && (Read() == time <==> 0 <= time && time / DAY < DaysTo(WORD))
      ensures -60 < time < 0 ==> Read() == time + WORD
      ensures 0 <= time ==> monthDay >= 1 && weekDay == WeekDay(time / DAY)
      ensures 0 <= time && time / DAY < DaysTo(WORD) ==> Valid() && Total() == time
      ensures forall date: Date :: date.Valid() && date.year < WORD && date.Total() == time ==>
        Valid() && Fields() == date
    {
      hide DaysTo, DaysInto, IsLeapYear, DaysOfMonth, Moment, ValidTime, DaysBefore, ValidDate, Quot, Rem;
      var t := time;
      seconds := Rem(t, 60) % WORD;
      t := Quot(t, 60);
      minutes := Rem(t, 60) % WORD;
      t := Quot(t, 60);
      hours := Rem(t, 24) % WORD;
      t := Quot(t, 24);
      weekDay := Rem(t + 4, 7) % WORD;
      var y, rest := SetYear(t);
      year := (y - 1900) % WORD;
      month, monthDay := SetMonth(y, rest);
      assert Year() == y;
      if time >= 0 {
        Towards(time);
        SplitTime(time);
        SetExactly(time, y, rest, Date(monthDay, month, Year(), hours, minutes, seconds));
        SmallDay(y, monthDay, month);
      } else if time > -60 {
        LastMinute(time);
        SomeDays();
        SmallDay(y, monthDay, month);
        NoDays(DaysTo(Year()) + DaysInto(month, Year()) + (monthDay - 1) % WORD, time + WORD);
      }
    }

    /** The year that a day is in, and the days since it began; before 1970 it is 1970. */
    static method SetYear(days: int) returns (year: nat, rest: int)
      ensures year < WORD && rest < DaysOfYear(year) && (0 <= rest <==> 0 <= days)
      ensures 0 <= days < DaysTo(WORD) ==> EPOCH <= year && DaysTo(year) + rest == days
      ensures DaysTo(WORD) <= days ==> DaysTo(WORD) + rest <= days
    {
      hide DaysTo, IsLeapYear;
      YearStep(EPOCH);
      year, rest := 1970, days;
      ghost var wrapped := false;
      while true
        invariant year < WORD && (0 <= rest <==> 0 <= days)
        invariant !wrapped ==> EPOCH <= year && DaysTo(year) + rest == days
        invariant wrapped ==> DaysTo(WORD) + rest <= days
        decreases if rest >= 0 then rest else 0
      {
        if EPOCH <= year { YearStep(year); }
        var inYear := if IsLeapYear(year) then 366 else 365;
        if rest < inYear { break; }
        rest := rest - inYear;
        wrapped := wrapped || year + 1 == WORD;
        year := (year + 1) % WORD;
      }
      if 0 <= rest { YearsBelow(year, rest); }
    }

    /** The month that a day of a year is in, and the day of the month. */
    static method SetMonth(year: nat, rest: int) returns (month: nat, monthDay: nat)
      requires rest < DaysOfYear(year)
      ensures month <= 11
      ensures 0 <= rest ==> 1 <= monthDay <= DaysOfMonth(month, year) && DaysInto(month, year) + monthDay - 1 == rest
    {
      hide DaysInto, DaysOfMonth;
      WholeYear(year);
      MonthStep(0, year);
      var t := rest;
      month := 0;
      while true
        invariant month <= 11 && DaysInto(month, year) + t == rest < DaysInto(12, year) && (0 <= t <==> 0 <= rest)
        decreases if t >= 0 then t else 0
      {
        MonthStep(month, year);
        var inMonth := DaysOfMonth(month, year);
        if t < inMonth { break; }
        t := t - inMonth;
        month := month + 1;
      }
      if 0 <= t { ShortMonth(month, year); }
      monthDay := (t + 1) % WORD;
    }

    method SetTime(nHours: nat, nMinutes: nat, nSeconds: nat) returns (ok: bool)
      modifies this`hours, this`minutes, this`seconds
      ensures ok == ValidTime(nHours, nMinutes, nSeconds)
      ensures if ok then hours == nHours && minutes == nMinutes && seconds == nSeconds
        else hours == old(hours) && minutes == old(minutes) && seconds == old(seconds)
    {
      if nSeconds > 59 || nMinutes > 59 || nHours > 23 { return false; }
      seconds, minutes, hours := nSeconds, nMinutes, nHours;
      return true;
    }

    /** The months count from 1 here. */
    method SetDate(nMonthDay: nat, nMonth: nat, nYear: nat) returns (ok: bool)
      requires nYear < WORD
      modifies this`monthDay, this`month, this`year, this`weekDay
      ensures ok == (nMonth >= 1 && ValidDate(nMonthDay, nMonth - 1, nYear))
      ensures !ok ==> monthDay == old(monthDay) && month == old(month) && year == old(year) && weekDay == old(weekDay)
      ensures ok ==> monthDay == nMonthDay && month == nMonth - 1 && Year() == nYear && year < WORD
      ensures ok ==> weekDay == (DaysBefore(nMonthDay, nMonth - 1, nYear) + 4) % WORD % 7
    {
      hide DaysTo, DaysInto, IsLeapYear, WeekDay;
      if nYear < 1970 || !(1 <= nMonth <= 12) { return false; }
      var inMonth := DaysOfMonth(nMonth - 1, nYear);
      if !(1 <= nMonthDay <= inMonth) { return false; }
      monthDay, month, year := nMonthDay, nMonth - 1, nYear - 1900;
      var total := nMonthDay - 1;
      var m := nMonth - 1;
      MonthStep(0, nYear);
      while m > 0
        modifies {}
        invariant 0 <= m <= 11 && total + DaysInto(m, nYear) == DaysInto(nMonth - 1, nYear) + nMonthDay - 1
      {
        MonthStep(m - 1, nYear);
        total := total + DaysOfMonth(m - 1, nYear);
        m := m - 1;
      }
      DateInYear(nMonthDay, nMonth - 1, nYear);
      ghost var inYear := total;
      ghost var exact := total;
      var y := nYear - 1;
      while y >= 1970
        modifies {}
        invariant 1969 <= y < nYear && 0 <= exact && DaysTo(y + 1) + exact == DaysTo(nYear) + inYear
        invariant total == exact % WORD
      {
        YearStep(y);
        var more := if IsLeapYear(y) then 366 else 365;
        WordSum(exact, more);
        exact := exact + more;
        total := (total + more) % WORD;
        y := y - 1;
      }
      YearStep(EPOCH);
      WordSum(exact, 4);
      weekDay := (total + 4) % WORD % 7;
      return true;
    }

    method Get() returns (r: nat)
      requires month <= 11 && year < WORD
      ensures r == Read()
      ensures Valid() ==> r == Total()
    {
      hide DaysTo, DaysInto, DaysOfMonth, IsLeapYear, ValidTime;
      r := 0;
      var y := 1970;
      YearStep(EPOCH);
      NotYet(Year());
      while y < (year + 1900) % WORD
        invariant 1970 <= y && (y <= Year() || y == 1970) && r == DaysTo(y)
      {
        YearStep(y);
        r := r + if IsLeapYear(y) then 366 else 365;
        y := y + 1;
      }
      MonthStep(0, Year());
      for m := 0 to month
        invariant r == DaysTo(Year()) + DaysInto(m, Year())
      {
        MonthStep(m, Year());
        r := r + DaysOfMonth(m, (year + 1900) % WORD);
      }
      if Valid() { SmallDay(Year(), monthDay, month); }
      r := r + (monthDay - 1) % WORD;
      r := r * 24;
      r := r + hours;
      r := r * 60;
      r := r + minutes;
      r := r * 60;
      r := r + seconds;
    }
  }

  // ---------------------------------------------------------------- round trips

  /** A moment that is set is read back if and only if it is not before 1970 and its year fits into a word.  One
      second before 1970 is read as 4294967295. */
  method SetThenGet(time: int) returns (r: nat)
    ensures r == time <==> 0 <= time && time / DAY < DaysTo(WORD)
    ensures -60 < time < 0 ==> r == time + WORD
  {
    var t := new Time();
    t.Set(time);
    r := t.Get();
  }

  /** A date and time from 1970 on that is read gives the same fields again. */
  method GetThenSet(t: Time)
    requires t.Valid()
    modifies t
    ensures t.Valid() && t.Fields() == old(t.Fields())
  {
    var r := t.Get();
    t.Set(r);
  }

  /** The first moment that is lost, at the start of the year 2^32. */
  lemma FirstLost(time: nat)
    requires time == 135_536_014_634_284_800
    ensures time / DAY == DaysTo(WORD) && (time - 1) / DAY < DaysTo(WORD)
  {
    var year: nat := WORD;
    LeapDays(year);
    hide DaysTo;
  }
}
