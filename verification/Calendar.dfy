/**
 * Times and dates: the closed-form day, month and year formulas, in 32-bit unsigned arithmetic,
 * against a calendar that counts day by day from Monday, 1 January of year 1.
 */
module Calendar {
  // ----- the calendar, counted day by day -----

  /** Section "Leap years" of Appendix C of RFC 3339. */
  predicate Leap(year: int) {
    year % 4 == 0 && (year % 100 != 0 || year % 400 == 0)
  }

  function LeapDay(year: int): (n: nat)
    ensures n <= 1
  {
    if Leap(year) then 1 else 0
  }

  function MonthLength(year: int, month: int): (n: nat)
    ensures 28 <= n <= 31
  {
    if month == 2 then 28 + LeapDay(year)
    else if month == 4 || month == 6 || month == 9 || month == 11 then 30
    else 31
  }

  function YearLength(year: int): (n: nat) {
    365 + LeapDay(year)
  }

  /** 'yday' counts from 1; 'weekday' from 0, Sunday. */
  datatype Date = Date(year: int, month: int, day: int, yday: int, weekday: int)

  predicate ValidDate(year: int, month: int, day: int) {
    year >= 1 && 1 <= month <= 12 && 1 <= day <= MonthLength(year, month)
  }

  function Tomorrow(d: Date): Date {
    var weekday := (d.weekday + 1) % 7;
    if d.day < MonthLength(d.year, d.month) then Date(d.year, d.month, d.day + 1, d.yday + 1, weekday)
    else if d.month < 12 then Date(d.year, d.month + 1, 1, d.yday + 1, weekday)
    else Date(d.year + 1, 1, 1, 1, weekday)
  }

  /** The date 'n' days after the first. */
  function DateAt(n: nat): Date {
    if n == 0 then Date(1, 1, 1, 1, 1) else Tomorrow(DateAt(n - 1))
  }

  // ----- the same calendar, counted by years and months -----

  function DaysBeforeYear(year: int): (n: nat)
    decreases year
  {
    if year <= 1 then 0 else DaysBeforeYear(year - 1) + YearLength(year - 1)
  }

  function DaysBeforeMonth(year: int, month: int): (n: nat)
    decreases month
  {
    if month <= 1 then 0 else DaysBeforeMonth(year, month - 1) + MonthLength(year, month - 1)
  }

  /** How many days after the first. */
  function DayNumber(year: int, month: int, day: int): int {
    DaysBeforeYear(year) + DaysBeforeMonth(year, month) + day - 1
  }

  lemma YearOfMonths(year: int)
    ensures DaysBeforeMonth(year, 12) + 31 == YearLength(year)
  {
    assert DaysBeforeMonth(year, 3) == 59 + LeapDay(year);
    assert DaysBeforeMonth(year, 5) == 120 + LeapDay(year);
    assert DaysBeforeMonth(year, 7) == 181 + LeapDay(year);
    assert DaysBeforeMonth(year, 9) == 243 + LeapDay(year);
    assert DaysBeforeMonth(year, 11) == 304 + LeapDay(year);
  }

  lemma NextWeekday(n: int)
    ensures ((n % 7) + 1) % 7 == (1 + n) % 7
  {
  }

  lemma DateAtStep(n: nat)
    requires n > 0
    ensures DateAt(n) == Tomorrow(DateAt(n - 1))
  {
  }

  lemma NextMonth(year: int, month: int)
    requires 1 <= month
    ensures DaysBeforeMonth(year, month + 1) == DaysBeforeMonth(year, month) + MonthLength(year, month)
    ensures year >= 1 ==> DaysBeforeYear(year + 1) == DaysBeforeYear(year) + YearLength(year)
    ensures DaysBeforeMonth(year, 1) == 0 && MonthLength(year, 12) == 31
  {
  }

  /** Both ways of counting agree. */
  lemma {:induction false} DateAtCounts(n: nat)
    ensures
      var d := DateAt(n);
      && ValidDate(d.year, d.month, d.day) && DayNumber(d.year, d.month, d.day) == n
      && d.yday == DaysBeforeMonth(d.year, d.month) + d.day
      && d.weekday == (1 + n) % 7
  {
    if n > 0 {
      DateAtCounts(n - 1);
      hide ValidDate, DayNumber, DaysBeforeMonth;
      DateAtStep(n);
      TomorrowCounts(DateAt(n - 1));
      NextWeekday(n);
    }
  }

  lemma TomorrowCounts(d: Date)
    requires ValidDate(d.year, d.month, d.day) && d.yday == DaysBeforeMonth(d.year, d.month) + d.day
    ensures
      var e := Tomorrow(d);
      && ValidDate(e.year, e.month, e.day) && e.yday == DaysBeforeMonth(e.year, e.month) + e.day
      && DayNumber(e.year, e.month, e.day) == DayNumber(d.year, d.month, d.day) + 1
  {
    hide DaysBeforeYear, DaysBeforeMonth, LeapDay, MonthLength, YearLength;
    YearOfMonths(d.year);
    NextMonth(d.year, d.month);
    NextMonth(d.year + 1, 1);
  }

  lemma {:induction false} YearsApart(y: int, z: int)
    requires 1 <= y < z
    ensures DaysBeforeYear(y) + YearLength(y) <= DaysBeforeYear(z)
    decreases z
  {
    if y < z - 1 { YearsApart(y, z - 1); }
  }

  lemma {:induction false} MonthsApart(year: int, m: int, k: int)
    requires 1 <= m < k
    ensures DaysBeforeMonth(year, m) + MonthLength(year, m) <= DaysBeforeMonth(year, k)
    decreases k
  {
    if m < k - 1 { MonthsApart(year, m, k - 1); }
  }

  lemma WithinYear(year: int, month: int, day: int)
    requires ValidDate(year, month, day)
    ensures 0 <= DaysBeforeMonth(year, month) + day - 1 < YearLength(year)
  {
    YearOfMonths(year);
    if month < 12 { MonthsApart(year, month, 12); }
  }

  /** No two dates have the same number. */
  lemma OneDate(y: int, m: int, d: int, y2: int, m2: int, d2: int)
    requires ValidDate(y, m, d) && ValidDate(y2, m2, d2) && DayNumber(y, m, d) == DayNumber(y2, m2, d2)
    ensures y == y2 && m == m2 && d == d2
  {
    WithinYear(y, m, d);
    WithinYear(y2, m2, d2);
    if y < y2 { YearsApart(y, y2); } else if y2 < y { YearsApart(y2, y); }
    if m < m2 { MonthsApart(y, m, m2); } else if m2 < m { MonthsApart(y, m2, m); }
  }

  /** Counting to a date's number gives the date. */
  lemma DateOfNumber(n: int, y: int, m: int, d: int)
    requires ValidDate(y, m, d) && n == DayNumber(y, m, d)
    ensures n >= 0 && DateAt(n) == Date(y, m, d, DaysBeforeMonth(y, m) + d, (1 + n) % 7)
  {
    WithinYear(y, m, d);
    DateAtCounts(n);
    var e := DateAt(n);
    OneDate(y, m, d, e.year, e.month, e.day);
  }

  // ----- the closed forms -----

  /** fftime_absdays */
  function AbsDays(year: int): int {
    year * 365 + year / 4 - year / 100 + year / 400
  }

  lemma AbsDaysStep(year: int)
    ensures AbsDays(year) == AbsDays(year - 1) + YearLength(year)
  {
    Quotients(year, 4);
    Quotients(year, 100);
    Quotients(year, 400);
    Divides(year);
  }

  lemma Divides(year: int)
    ensures year % 100 == 0 ==> year % 4 == 0
    ensures year % 400 == 0 ==> year % 100 == 0
  {
  }

  lemma Quotients(x: int, k: int)
    requires k == 4 || k == 100 || k == 400
    ensures x / k == (x - 1) / k + (if x % k == 0 then 1 else 0)
  {
  }

  lemma {:induction false} AbsDaysCounts(year: int)
    requires year >= 1
    ensures DaysBeforeYear(year) == AbsDays(year - 1)
  {
    if year > 1 {
      AbsDaysCounts(year - 1);
      AbsDaysStep(year - 1);
    }
  }

  /** mon_ydays: days from 1 March to the first of a month, 1 being March. */
  function MonDays(mon: int): int {
    367 * mon / 12 - 30
  }

  /** yday_mon: the month of a day counted from 1 March. */
  function DayMon(yday: int): int {
    (yday + 31) * 10 / 306
  }

  /** The month formulas, from March to December. */
  lemma MonDaysCounts(year: int, mon: int)
    requires 1 <= mon <= 10
    ensures MonDays(mon) + 59 + LeapDay(year) == DaysBeforeMonth(year, mon + 2)
    ensures MonDays(mon + 1) - MonDays(mon) == MonthLength(year, mon + 2)
  {
    YearOfMonths(year);
  }

  lemma MonthOfDay(yday: int)
    requires 0 <= yday < 366
    ensures
      var mon := DayMon(yday);
      && 1 <= mon <= 12 && MonDays(mon) <= yday
      && (mon < 12 ==> yday < MonDays(mon + 1)) && (yday >= 306 <==> mon >= 11)
  {
  }

  /** 400 years have 146097 days, give or take the leap days that have not come yet. */
  lemma AbsDaysBounds(year: int)
    ensures 146097 * year - 699 <= 400 * AbsDays(year) <= 146097 * year + 396
  {
    var q, c, g := year / 4, year / 100, year / 400;
    assert 4 * q <= year <= 4 * q + 3;
    assert 100 * c <= year <= 100 * c + 99;
    assert 400 * g <= year <= 400 * g + 399;
  }

  /** The estimated year, counted from March, is right or one too many. */
  lemma Estimate(days: nat)
    ensures
      var year := 1 + days * 400 / AbsDays(400);
      AbsDays(year - 1) <= days < AbsDays(year + 1)
  {
    var year := 1 + days * 400 / AbsDays(400);
    AbsDaysBounds(year - 1);
    AbsDaysBounds(year + 1);
  }

  /** January and February belong to the year that began the March before. */
  lemma EndOfMarchYear(year: int, yday: int)
    requires year >= 0 && 306 <= yday < YearLength(year + 1)
    ensures
      var mon := DayMon(yday);
      var n := AbsDays(year) + yday - 306;
      n >= 0 && DateAt(n) == Date(year + 1, mon - 10, yday - MonDays(mon) + 1, yday - 306 + 1, (1 + n) % 7)
  {
    hide ValidDate, DayNumber, DateAt, DaysBeforeYear, DaysBeforeMonth, AbsDays, DayMon, MonDays, MonthLength, LeapDay, YearLength;
    var mon := DayMon(yday);
    WinterMonth(year + 1, yday);
    DateOfNumber(AbsDays(year) + yday - 306, year + 1, mon - 10, yday - MonDays(mon) + 1);
  }

  lemma WinterMonth(year: int, yday: int)
    requires year >= 1 && 306 <= yday < YearLength(year)
    ensures
      var mon := DayMon(yday);
      && ValidDate(year, mon - 10, yday - MonDays(mon) + 1) && DaysBeforeMonth(year, mon - 10) == MonDays(mon) - 306
      && DayNumber(year, mon - 10, yday - MonDays(mon) + 1) == AbsDays(year - 1) + yday - 306
  {
    hide Leap, AbsDays;
    AbsDaysCounts(year);
    assert DayMon(yday) == if yday < 337 then 11 else 12;
    assert MonDays(11) == 306 && MonDays(12) == 337;
    NextMonth(year, 1);
  }

  lemma StartOfMarchYear(year: int, yday: int)
    requires year >= 1 && 0 <= yday < 306
    ensures
      var mon := DayMon(yday);
      var n := AbsDays(year) + yday - 306;
      n >= 0 && DateAt(n) == Date(year, mon + 2, yday - MonDays(mon) + 1, yday + 31 + 28 + LeapDay(year) + 1, (1 + n) % 7)
  {
    hide DateAt, DaysBeforeYear, DaysBeforeMonth, AbsDays, DayMon, MonDays, MonthLength, LeapDay;
    var mon := DayMon(yday);
    MonthOfDay(yday);
    MonDaysCounts(year, mon);
    AbsDaysCounts(year);
    AbsDaysStep(year);
    DateOfNumber(AbsDays(year) + yday - 306, year, mon + 2, yday - MonDays(mon) + 1);
  }

  // ----- splitting and joining -----

  const DAY_SECS := 86400

  /** The last day count, from 1 March of year 0, whose product with 400 fits in 32 bits. */
  const LAST_DAY := 10737418

  function U32(x: int): (u: nat)
    ensures u < 0x1_0000_0000
    ensures 0 <= x < 0x1_0000_0000 ==> u == x
    ensures 0 - 0x1_0000_0000 <= x < 0 ==> u == x + 0x1_0000_0000
    ensures 0x1_0000_0000 <= x < 0x2_0000_0000 ==> u == x - 0x1_0000_0000
    ensures 0 <= x ==> u <= x
  {
    x % 0x1_0000_0000
  }

  /** (int)x < 0 */
  predicate Negative(x: nat) {
    x >= 0x8000_0000
  }

  datatype Time = Time(sec: int, nsec: int)

  datatype DateTime = DateTime(date: Date, hour: int, min: int, sec: int, nsec: int)

  predicate ValidClock(hour: int, min: int, sec: int, nsec: int) {
    0 <= hour <= 23 && 0 <= min <= 59 && 0 <= sec <= 59 && 0 <= nsec <= 999999999
  }

  /** A time on the calendar. */
  function On(t: Time): DateTime
    requires t.sec >= 0
  {
    var s := t.sec % DAY_SECS;
    DateTime(DateAt(t.sec / DAY_SECS), s / 3600, s % 3600 / 60, s % 60, t.nsec)
  }

  /** Beyond the last day the year is wrong, however the arithmetic wraps. */
  lemma YearAtLeast(n: nat, year: int)
    requires year >= 1 && DaysBeforeYear(year) <= n
    ensures DateAt(n).year >= year
  {
    DateAtCounts(n);
    var d := DateAt(n);
    WithinYear(d.year, d.month, d.day);
    if d.year < year { YearsApart(d.year, year); }
  }

  lemma TooFar(n: nat, days: nat)
    requires n + 306 > LAST_DAY && (n + 306 < 0x1_0000_0000 ==> days == n + 306)
    ensures DateAt(n).year > 2 + U32(days * 400) / AbsDays(400)
  {
    hide DateAt, DaysBeforeYear;
    if n + 306 < 10738900 {
      Wraps(days);
      AbsDaysCounts(29000);
      YearAtLeast(n, 29000);
    } else {
      AbsDaysCounts(29401);
      YearAtLeast(n, 29401);
    }
  }

  lemma Wraps(days: nat)
    requires LAST_DAY < days < 10738900
    ensures U32(days * 400) == days * 400 - 0x1_0000_0000
  {
  }

  /** The year and its day, counted from 1 March: at most one correction. */
  method SplitYear(days: int) returns (year: int, yday: int)
    requires 0 <= days < 0x1_0000_0000
    ensures 0 <= year < 0x1_0000_0000 && 0 <= yday < 0x1_0000_0000
    ensures days <= LAST_DAY ==> AbsDays(year) <= days < AbsDays(year + 1) && yday == days - AbsDays(year)
    ensures year <= 1 + U32(days * 400) / AbsDays(400)
  {
    assert AbsDays(400) == 146097;
    hide U32, AbsDays, LeapDay;
    year := U32(1 + U32(days * 400) / AbsDays(400));
    yday := U32(days - U32(AbsDays(year)));
    Estimate(days);
    AbsDaysStep(year);
    if days <= LAST_DAY { Wrapped(days, year); }
    if Negative(yday) {
      yday := U32(yday + 365 + LeapDay(year));
      year := U32(year - 1);
    }
  }

  /** A difference of day counts, seen as a signed number. */
  lemma Wrapped(days: int, year: int)
    requires 0 <= days <= LAST_DAY && 1 <= year <= 29399 && AbsDays(year - 1) <= days < AbsDays(year + 1)
    requires AbsDays(year) == AbsDays(year - 1) + YearLength(year)
    ensures Negative(U32(days - U32(AbsDays(year)))) <==> days < AbsDays(year)
    ensures days >= AbsDays(year) ==> U32(days - U32(AbsDays(year))) == days - AbsDays(year)
    ensures days < AbsDays(year) ==>
      U32(U32(days - U32(AbsDays(year))) + YearLength(year)) == days - AbsDays(year - 1)
  {
    AbsDaysBounds(year);
    AbsDaysBounds(year + 1);
    hide U32, AbsDays;
  }

  /** The month and its day, and the new year moved from 1 March to 1 January. */
  method SplitMonth(march: int, day: int, weekday: int) returns (d: Date)
    requires 0 <= march < 0x1_0000_0000 && 0 <= day < 0x1_0000_0000
    ensures day < YearLength(march + 1) && march < 0x8000_0000 ==>
      d == if day >= 306 then Date(march + 1, DayMon(day) - 10, day - MonDays(DayMon(day)) + 1, day - 306 + 1, weekday)
        else Date(march, DayMon(day) + 2, day - MonDays(DayMon(day)) + 1, day + 31 + 28 + LeapDay(march) + 1, weekday)
    ensures d.year <= march + 1
  {
    hide U32;
    var year, yday := march, day;
    var mon: int := U32(U32(U32(yday + 31) * 10) / 306);
    var mday: int := U32(yday - U32(U32(367 * mon) / 12 - 30));
    if day < YearLength(march + 1) { MonthOfDay(yday); }
    if yday >= 306 {
      year := U32(year + 1);
      mon := U32(mon - 10);
      yday := U32(yday - 306);
    } else {
      mon := U32(mon + 2);
      yday := U32(yday + 31 + 28 + LeapDay(year));
    }
    d := Date(year, mon, U32(mday + 1), U32(yday + 1), weekday);
  }

  /**
   * fftime_split2 without time zones.  The date is the calendar's, for every time of a day whose
   * count from 1 March of year 0 is at most LAST_DAY, and for no later one.
   */
  method Split2(t: Time) returns (dt: DateTime)
    requires 0 <= t.sec < 0x8000_0000_0000_0000
    ensures t.sec / DAY_SECS + 306 <= LAST_DAY ==> dt == On(t)
    ensures t.sec / DAY_SECS + 306 > LAST_DAY ==> dt.date.year != On(t).date.year
  {
    hide U32, DateAt, AbsDays, DayMon, MonDays, YearLength, LeapDay;
    ghost var n := t.sec / DAY_SECS;
    var days := U32(t.sec / DAY_SECS);
    var daysec := U32(t.sec % DAY_SECS);
    var weekday := U32(1 + days) % 7;
    days := U32(days + 306);
    var year, yday := SplitYear(days);
    var date := SplitMonth(year, yday, weekday);
    dt := DateTime(date, daysec / 3600, daysec % 3600 / 60, daysec % 60, t.nsec);
    if n + 306 <= LAST_DAY {
      MarchYears(days, year);
      if yday >= 306 { EndOfMarchYear(year, yday); } else { StartOfMarchYear(year, yday); }
    } else {
      TooFar(n, days);
    }
  }

  lemma MarchYears(days: int, year: int)
    requires 306 <= days <= LAST_DAY && year >= 0 && AbsDays(year) <= days < AbsDays(year + 1)
    ensures days - AbsDays(year) < YearLength(year + 1) && year < 0x8000_0000
    ensures year == 0 ==> days - AbsDays(year) >= 306
  {
    AbsDaysStep(year + 1);
    AbsDaysBounds(year);
  }

  // ----- joining -----

  predicate Uint(x: int) {
    0 <= x < 0x1_0000_0000
  }

  /** The fields as C holds them: 'year' is an int, the others are unsigned. */
  predicate Fields(dt: DateTime) {
    && 0 - 0x8000_0000 <= dt.date.year < 0x8000_0000 && Uint(dt.date.month) && Uint(dt.date.day)
    && Uint(dt.hour) && Uint(dt.min) && Uint(dt.sec) && Uint(dt.nsec)
  }

  /** Months beyond December belong to later years, month 0 is the December before. */
  function YearOf(year: int, month: int): int {
    year + (month - 1) / 12
  }

  function MonthOf(month: int): (m: int)
    ensures 1 <= m <= 12
  {
    (month - 1) % 12 + 1
  }

  /** The seconds of a date and time, whether or not its fields are in range. */
  function Seconds(dt: DateTime): int {
    DayNumber(YearOf(dt.date.year, dt.date.month), MonthOf(dt.date.month), dt.date.day) * DAY_SECS
      + dt.hour * 3600 + dt.min * 60 + dt.sec
  }

  /** mon_norm */
  method MonthNorm(month: int, year: int) returns (m: int, y: int)
    requires Uint(month) && 0 <= year < 0x8000_0000
    ensures Uint(y) && (month == 0 ==> m == 0 && y == year)
    ensures month > 0 ==> m == MonthOf(month) && y == YearOf(year, month)
  {
    m, y := month, year;
    if m > 12 {
      m := m - 1;
      y := U32(y + m / 12);
      m := m % 12 + 1;
    }
  }

  lemma FirstMonths(month: int)
    requires Uint(month)
    ensures month == 0 ==> MonthOf(month) == 12 && YearOf(0, month) == -1
    ensures forall year :: YearOf(year, month) == year + YearOf(0, month)
  {
  }

  /** The number of a day; month 0 of year 1 is the December that ends just before day 0. */
  function JoinedDays(d: Date): int
    requires d.year >= 1
  {
    if YearOf(d.year, d.month) >= 1 then DayNumber(YearOf(d.year, d.month), MonthOf(d.month), d.day)
    else d.day - 32
  }

  /** The day count in 32 bits. */
  method JoinDate(d: Date) returns (days: int)
    requires 1 <= d.year < 0x8000_0000 && Uint(d.month) && Uint(d.day)
    ensures days == U32(JoinedDays(d))
  {
    FirstMonths(d.month);
    hide U32, DaysBeforeMonth, DaysBeforeYear, AbsDays, MonDays, MonthOf, YearOf, JoinedDays;
    ghost var y, m := YearOf(d.year, d.month), MonthOf(d.month);
    var mon, year := MonthNorm(d.month, d.year);
    mon := U32(mon - 2);
    if mon == 0 || Negative(mon) {
      mon := U32(mon + 12);
      year := U32(year - 1);
    }
    assert y >= 1 ==> year == (if m <= 2 then y - 1 else y) && mon == (if m <= 2 then m + 10 else m - 2);
    assert y < 1 ==> year == 0 && mon == 10;
    JoinedCounts(d);
    days := U32(AbsDays(year) - AbsDays(1) + MonDays(mon) + (31 + 28) + d.day - 1);
  }

  /** The count from the months and years that begin in March. */
  lemma JoinedCounts(d: Date)
    requires d.year >= 1
    ensures
      var y, m := YearOf(d.year, d.month), MonthOf(d.month);
      var year, mon := if y < 1 then 0 else if m <= 2 then y - 1 else y, if y < 1 then 10 else if m <= 2 then m + 10 else m - 2;
      AbsDays(year) - AbsDays(1) + MonDays(mon) + (31 + 28) + d.day - 1 == JoinedDays(d)
  {
    assert AbsDays(1) == 365 && AbsDays(0) == 0 && MonDays(10) == 275;
    var y, m := YearOf(d.year, d.month), MonthOf(d.month);
    hide DaysBeforeMonth, DaysBeforeYear, AbsDays, MonDays, MonthOf, YearOf;
    if y >= 1 { JoinCounts(y, m); }
  }

  lemma JoinCounts(year: int, month: int)
    requires year >= 1 && 1 <= month <= 12
    ensures
      var y, mon := if month <= 2 then year - 1 else year, if month <= 2 then month + 10 else month - 2;
      AbsDays(y) - 365 + MonDays(mon) + 59 == DaysBeforeYear(year) + DaysBeforeMonth(year, month)
  {
    AbsDaysCounts(year);
    AbsDaysStep(year);
    if month > 2 { MonDaysCounts(year, month - 2); }
  }

  /** fftime_join2 without time zones: the seconds since the first day. */
  method Join2(dt: DateTime, noDate: bool) returns (t: Time)
    requires Fields(dt)
    ensures 0 <= t.sec < 0x8000_0000_0000_0000
    ensures !noDate && dt.date.year <= 0 ==> t == Time(0, 0)
    ensures noDate ==> t == Time(U32(dt.hour * 3600) + U32(dt.min * 60) + dt.sec, dt.nsec)
    ensures !noDate && dt.date.year > 0 ==>
      t == Time(U32(JoinedDays(dt.date)) * DAY_SECS + U32(dt.hour * 3600) + U32(dt.min * 60) + dt.sec, dt.nsec)
  {
    var days := 0;
    if !noDate {
      if dt.date.year <= 0 {
        return Time(0, 0);
      }
      days := JoinDate(dt.date);
    }
    t := Time(days * DAY_SECS + U32(U32(dt.hour * 60) * 60) + U32(dt.min * 60) + dt.sec, dt.nsec);
    Twice(dt.hour);
  }

  lemma Twice(hour: int)
    requires Uint(hour)
    ensures U32(U32(hour * 60) * 60) == U32(hour * 3600)
  {
    var k := hour * 60 / 0x1_0000_0000;
    assert hour * 3600 == U32(hour * 60) * 60 + (k * 60) * 0x1_0000_0000;
  }

  // ----- round trips -----

  predicate ValidDateTime(dt: DateTime) {
    && ValidDate(dt.date.year, dt.date.month, dt.date.day)
    && ValidClock(dt.hour, dt.min, dt.sec, dt.nsec)
  }

  const MonthDays := [31, 28, 31, 30, 31, 30, 31, 31, 30, 31, 30, 31]

  /** The date part of fftime_chk. */
  predicate CheckDate(year: int, month: int, day: int) {
    && year != 0 && U32(month - 1) < 12
    && (U32(day - 1) < MonthDays[U32(month - 1)] || (day == 29 && month == 2 && Leap(year)))
  }

  /** The test accepts exactly the dates of the calendar, and those of years before year 0 too. */
  lemma CheckDateMeans(year: int, month: int, day: int)
    requires Uint(month) && Uint(day)
    ensures CheckDate(year, month, day) <==> year != 0 && 1 <= month <= 12 && 1 <= day <= MonthLength(year, month)
    ensures year > 0 ==> (CheckDate(year, month, day) <==> ValidDate(year, month, day))
  {
  }

  /** A time, split and joined. */
  lemma SplitThenJoin(t: Time)
    requires t.sec >= 0
    ensures ValidDate(On(t).date.year, On(t).date.month, On(t).date.day)
    ensures 0 <= On(t).hour <= 23 && 0 <= On(t).min <= 59 && 0 <= On(t).sec <= 59
    ensures Seconds(On(t)) == t.sec && On(t).nsec == t.nsec
  {
    DateAtCounts(t.sec / DAY_SECS);
    InRange(On(t).date);
    hide DateAt, DayNumber, YearOf, MonthOf;
    var s := t.sec % DAY_SECS;
    assert s == s / 3600 * 3600 + s % 3600 / 60 * 60 + s % 60 by { ClockParts(s); }
  }

  lemma InRange(d: Date)
    requires 1 <= d.month <= 12
    ensures YearOf(d.year, d.month) == d.year && MonthOf(d.month) == d.month
  {
  }

  lemma DayAndRest(n: int, s: int)
    requires 0 <= s < DAY_SECS
    ensures (n * DAY_SECS + s) / DAY_SECS == n && (n * DAY_SECS + s) % DAY_SECS == s
  {
  }

  lemma ClockParts(s: int)
    requires 0 <= s < DAY_SECS
    ensures s == s / 3600 * 3600 + s % 3600 / 60 * 60 + s % 60
  {
    var h, r := s / 3600, s % 3600;
    assert s % 60 == r % 60 by { assert s == (h * 60 + r / 60) * 60 + r % 60; }
  }

  /** A valid date and time, joined and split: the day of the week and of the year come out too. */
  lemma JoinThenSplit(dt: DateTime)
    requires ValidDateTime(dt)
    ensures Seconds(dt) >= 0
    ensures
      var n := DayNumber(dt.date.year, dt.date.month, dt.date.day);
      On(Time(Seconds(dt), dt.nsec)) == DateTime(
        Date(dt.date.year, dt.date.month, dt.date.day, DaysBeforeMonth(dt.date.year, dt.date.month) + dt.date.day, (1 + n) % 7),
        dt.hour, dt.min, dt.sec, dt.nsec)
  {
    var d := dt.date;
    DateOfNumber(DayNumber(d.year, d.month, d.day), d.year, d.month, d.day);
    InRange(d);
    JoinedParts(dt);
  }

  /** The day and the clock are the quotient and the remainder of the seconds. */
  lemma JoinedParts(dt: DateTime)
    requires 0 <= dt.hour <= 23 && 0 <= dt.min <= 59 && 0 <= dt.sec <= 59
    ensures
      var n := DayNumber(YearOf(dt.date.year, dt.date.month), MonthOf(dt.date.month), dt.date.day);
      var s := Seconds(dt) % DAY_SECS;
      && Seconds(dt) / DAY_SECS == n && (n >= 0 ==> Seconds(dt) >= 0)
      && s / 3600 == dt.hour && s % 3600 / 60 == dt.min && s % 60 == dt.sec
  {
    hide DayNumber, YearOf, MonthOf;
    var n := DayNumber(YearOf(dt.date.year, dt.date.month), MonthOf(dt.date.month), dt.date.day);
    var s := dt.hour * 3600 + dt.min * 60 + dt.sec;
    assert Seconds(dt) == n * DAY_SECS + s;
    DayAndRest(n, s);
    ClockOf(dt.hour, dt.min, dt.sec);
  }

  lemma ClockOf(hour: int, min: int, sec: int)
    requires 0 <= hour && 0 <= min < 60 && 0 <= sec < 60
    ensures
      var s := hour * 3600 + min * 60 + sec;
      s / 3600 == hour && s % 3600 / 60 == min && s % 60 == sec
  {
    var s := hour * 3600 + min * 60 + sec;
    assert s == (hour * 60 + min) * 60 + sec;
  }

  /** fftime_join2 undoes fftime_split2. */
  method SplitAndJoin(t: Time) returns (r: Time)
    requires t.sec >= 0 && t.sec / DAY_SECS + 306 <= LAST_DAY && 0 <= t.nsec <= 999999999
    ensures r == t
  {
    hide DateAt, U32, DayNumber, YearOf, MonthOf;
    SplitThenJoin(t);
    SplitFields(t);
    var dt := Split2(t);
    r := Join2(dt, false);
    NoWrap(On(t), t.sec);
  }

  lemma SplitFields(t: Time)
    requires t.sec >= 0 && t.sec / DAY_SECS + 306 <= LAST_DAY && 0 <= t.nsec <= 999999999
    ensures var d := On(t).date; 1 <= d.year <= 30000 && YearOf(d.year, d.month) == d.year && DayNumber(d.year, MonthOf(d.month), d.day) == t.sec / DAY_SECS
    ensures Fields(On(t))
  {
    DateAtCounts(t.sec / DAY_SECS);
    var d := On(t).date;
    InRange(d);
    WithinYear(d.year, d.month, d.day);
    if d.year > 30000 {
      AbsDaysCounts(30000);
      YearsApart(30000, d.year);
    }
  }

  /** The parts of a time that fits do not wrap. */
  lemma NoWrap(dt: DateTime, sec: int)
    requires 0 <= dt.hour <= 23 && 0 <= dt.min <= 59 && 0 <= dt.sec <= 59
    requires Seconds(dt) == sec && 0 <= sec / DAY_SECS <= LAST_DAY
    ensures var n := DayNumber(YearOf(dt.date.year, dt.date.month), MonthOf(dt.date.month), dt.date.day);
      U32(n) == n && U32(dt.hour * 3600) == dt.hour * 3600 && U32(dt.min * 60) == dt.min * 60
  {
    hide DayNumber, YearOf, MonthOf;
    var n := DayNumber(YearOf(dt.date.year, dt.date.month), MonthOf(dt.date.month), dt.date.day);
    var s := dt.hour * 3600 + dt.min * 60 + dt.sec;
    DayAndRest(n, s);
  }

  /** fftime_split2 undoes fftime_join2, and fills in the day of the year and of the week. */
  method JoinAndSplit(dt: DateTime) returns (r: DateTime)
    requires ValidDateTime(dt) && DayNumber(dt.date.year, dt.date.month, dt.date.day) + 306 <= LAST_DAY
    ensures r.date.year == dt.date.year && r.date.month == dt.date.month && r.date.day == dt.date.day
    ensures r.hour == dt.hour && r.min == dt.min && r.sec == dt.sec && r.nsec == dt.nsec
    ensures r.date.yday == DaysBeforeMonth(dt.date.year, dt.date.month) + dt.date.day
    ensures r.date.weekday == (1 + DayNumber(dt.date.year, dt.date.month, dt.date.day)) % 7
  {
    hide DateAt, U32, DayNumber, DaysBeforeMonth;
    JoinThenSplit(dt);
    ValidFields(dt);
    NoWrap(dt, Seconds(dt));
    var t := Join2(dt, false);
    r := Split2(t);
  }

  lemma ValidFields(dt: DateTime)
    requires ValidDateTime(dt) && DayNumber(dt.date.year, dt.date.month, dt.date.day) + 306 <= LAST_DAY
    ensures Fields(dt) && dt.date.year >= 1 && YearOf(dt.date.year, dt.date.month) == dt.date.year
    ensures MonthOf(dt.date.month) == dt.date.month && Seconds(dt) / DAY_SECS == DayNumber(dt.date.year, dt.date.month, dt.date.day)
  {
    var d := dt.date;
    InRange(d);
    WithinYear(d.year, d.month, d.day);
    DayAndRest(DayNumber(d.year, d.month, d.day), dt.hour * 3600 + dt.min * 60 + dt.sec);
    if d.year > 30000 {
      AbsDaysCounts(30000);
      YearsApart(30000, d.year);
    }
  }

  /** What joins without wrapping and splits right. */
  predicate InReach(dt: DateTime) {
    && DayNumber(YearOf(dt.date.year, dt.date.month), MonthOf(dt.date.month), dt.date.day) >= 0
    && 0 <= Seconds(dt) / DAY_SECS <= LAST_DAY - 306
    && dt.hour * 3600 < 0x1_0000_0000 && dt.min * 60 < 0x1_0000_0000
  }

  /** fftime_chk for a date and a time; it accepts years before the first. */
  predicate Check(dt: DateTime) {
    CheckDate(dt.date.year, dt.date.month, dt.date.day) && ValidClock(dt.hour, dt.min, dt.sec, dt.nsec)
  }

  lemma CheckMeans(dt: DateTime)
    requires Fields(dt) && dt.date.year > 0
    ensures Check(dt) <==> ValidDateTime(dt)
  {
    CheckDateMeans(dt.date.year, dt.date.month, dt.date.day);
  }

  /** The time that a date and time stand for, with all that wraps. */
  function JoinedTime(dt: DateTime): Time {
    if dt.date.year <= 0 then Time(0, 0)
    else Time(U32(JoinedDays(dt.date)) * DAY_SECS + U32(dt.hour * 3600) + U32(dt.min * 60) + dt.sec, dt.nsec)
  }

  /** In reach nothing wraps. */
  lemma JoinedInReach(dt: DateTime)
    requires Fields(dt) && dt.date.year > 0 && YearOf(dt.date.year, dt.date.month) >= 1 && InReach(dt)
    ensures JoinedTime(dt) == Time(Seconds(dt), dt.nsec)
  {
    hide DayNumber;
  }

  /**
   * fftime_norm for a date and a time: one that passes the check is kept; any other becomes the date
   * and time of the instant that it stands for, with its nanoseconds as they were.
   */
  method Normalize(dt: DateTime) returns (r: DateTime)
    requires Fields(dt)
    ensures Check(dt) ==> r == dt
    ensures !Check(dt) ==>
      if JoinedTime(dt).sec / DAY_SECS + 306 <= LAST_DAY then r == On(JoinedTime(dt))
      else r.date.year != On(JoinedTime(dt)).date.year
    ensures !Check(dt) && dt.date.year > 0 && YearOf(dt.date.year, dt.date.month) >= 1 && InReach(dt) ==>
      r == On(Time(Seconds(dt), dt.nsec)) && Seconds(r) == Seconds(dt)
    ensures !Check(dt) && JoinedTime(dt).sec / DAY_SECS + 306 <= LAST_DAY ==>
      (ValidDateTime(r) <==> dt.date.year <= 0 || dt.nsec <= 999999999)
  {
    if Check(dt) {
      return dt;
    }
    var t := Join2(dt, false);
    if dt.date.year > 0 && YearOf(dt.date.year, dt.date.month) >= 1 && InReach(dt) { JoinedInReach(dt); }
    OnValid(t);
    hide DayNumber, DateAt, U32, JoinedDays, YearOf, MonthOf, ValidDateTime, ValidDate, ValidClock, Check, InReach;
    r := Split2(t);
    SplitThenJoin(t);
  }

  lemma OnValid(t: Time)
    requires t.sec >= 0
    ensures ValidDateTime(On(t)) <==> 0 <= t.nsec <= 999999999
  {
    SplitThenJoin(t);
    hide DateAt;
  }
}
