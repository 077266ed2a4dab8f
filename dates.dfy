/**
 * The calendar arithmetic behind JavaScript's Date in a fixed time zone: the
 * constructor `new Date(y, m, d)` with its month and day overflow, day numbers,
 * week days, and the date-fns helpers addDays, startOfDay and endOfDay.
 * Months are numbered as getMonth numbers them: 0 is January, 11 is December.
 */
module Dates {

  const MsPerDay := 86400000

  /** The Gregorian leap-year rule (RFC 3339, Appendix C). */
  predicate IsLeapYear(y: int) {
    y % 4 == 0 && (y % 100 != 0 || y % 400 == 0)
  }

  /** Length of month `m` of year `y` in the Gregorian calendar. */
  function MonthLength(y: int, m: int): (n: int)
    requires 0 <= m < 12
    ensures 28 <= n <= 31
    ensures m == 1 ==> n == (if IsLeapYear(y) then 29 else 28)
  {
    if m == 1 then (if IsLeapYear(y) then 29 else 28)
    else if m == 3 || m == 5 || m == 8 || m == 10 then 30
    else 31
  }

  /** A calendar day as getFullYear, getMonth and getDate report it. */
  datatype Date = Date(year: int, month: int, day: int) {
    predicate Valid() {
      0 <= month < 12 && 1 <= day <= MonthLength(year, month)
    }
  }

  /** The Date constructor reads a year argument from 0 to 99 as 1900 to 1999. */
  function ConstructorYear(y: int): int {
    if 0 <= y <= 99 then 1900 + y else y
  }

  function PrevMonthYear(y: int, m: int): int { if m == 0 then y - 1 else y }
  function PrevMonth(m: int): int { if m == 0 then 11 else m - 1 }
  function NextMonthYear(y: int, m: int): int { if m == 11 then y + 1 else y }
  function NextMonth(m: int): int { if m == 11 then 0 else m + 1 }

  /** A day number below 1 walks back through the preceding months. */
  function RollBack(y: int, m: int, d: int): (r: Date)
    requires 0 <= m < 12 && d < 1
    ensures r.Valid()
    decreases -d
  {
    var py, pm := PrevMonthYear(y, m), PrevMonth(m);
    var d' := d + MonthLength(py, pm);
    if d' < 1 then RollBack(py, pm, d') else Date(py, pm, d')
  }

  /** A day number past the end of the month walks forward through the following months. */
  function RollForward(y: int, m: int, d: int): (r: Date)
    requires 0 <= m < 12 && 1 <= d
    ensures r.Valid()
    decreases d
  {
    if d <= MonthLength(y, m) then Date(y, m, d)
    else RollForward(NextMonthYear(y, m), NextMonth(m), d - MonthLength(y, m))
  }

  /**
   * ECMAScript's MakeDay followed by the conversion back to a calendar day: the month
   * argument overflows into the year (floor division), then the day argument overflows
   * into the neighbouring months. Date.prototype.setDate does the same.
   */
  function Normalize(y: int, m: int, d: int): (r: Date)
    ensures r.Valid()
  {
    var y', m' := y + m / 12, m % 12;
    if d < 1 then RollBack(y', m', d) else RollForward(y', m', d)
  }

  /** `new Date(y, m, d)`, read back through getFullYear, getMonth and getDate. */
  function MakeDate(y: int, m: int, d: int): (r: Date)
    ensures r.Valid()
  {
    Normalize(ConstructorYear(y), m, d)
  }

  /**
   * The day `new Date(y, m, d)` lands on: day d of month m mod 12 of the year the two-digit
   * rule and the month overflow give, counted on from that month's 1st whatever d is.
   */
  lemma MakeDateNumber(y: int, m: int, d: int)
    ensures Ordinal(MakeDate(y, m, d)) == DayNumber(ConstructorYear(y) + m / 12, m % 12, d)
    ensures 0 <= y <= 99 ==> Ordinal(MakeDate(y, m, d)) == DayNumber(1900 + y + m / 12, m % 12, d)
  {
    NormalizeNumber(ConstructorYear(y), m, d);
  }

  /** Days from 1 January of year 1 (proleptic Gregorian) to 1 January of year `y`. */
  function DaysBeforeYear(y: int): int {
    365 * (y - 1) + (y - 1) / 4 - (y - 1) / 100 + (y - 1) / 400
  }

  /** Days from 1 January to the first of month `m` (m == 12 gives the length of the year). */
  function DaysBeforeMonth(y: int, m: int): int
    requires 0 <= m <= 12
  {
    var leap := if IsLeapYear(y) && m >= 2 then 1 else 0;
    leap + (if m == 0 then 0 else if m == 1 then 31 else if m == 2 then 59 else if m == 3 then 90
            else if m == 4 then 120 else if m == 5 then 151 else if m == 6 then 181
            else if m == 7 then 212 else if m == 8 then 243 else if m == 9 then 273
            else if m == 10 then 304 else if m == 11 then 334 else 365)
  }

  /** The day number of day `d` of month `m` of year `y`, for any `d`, counting from 1 January of year 1. */
  function DayNumber(y: int, m: int, d: int): int
    requires 0 <= m < 12
  {
    DaysBeforeYear(y) + DaysBeforeMonth(y, m) + d - 1
  }

  function Ordinal(t: Date): int
    requires t.Valid()
  {
    DayNumber(t.year, t.month, t.day)
  }

  /** 1 January 1970, the day getTime counts from. */
  const UnixEpoch := Date(1970, 0, 1)

  /**
   * Date.prototype.getDay: 0 is Sunday. The epoch day was a Thursday (4), and the week
   * days run on by one a day from there, in both directions.
   */
  function WeekDay(t: Date): (w: int)
    requires t.Valid()
    ensures 0 <= w < 7
    ensures w == (Ordinal(t) - Ordinal(UnixEpoch) + 4) % 7
  {
    EpochOrdinal();
    WholeWeeks(Ordinal(t) - 719162 + 4, 102737);
    (Ordinal(t) + 1) % 7
  }

  lemma EpochOrdinal()
    ensures Ordinal(UnixEpoch) == 719162
  {
    assert DaysBeforeYear(1970) == 719162;
  }

  lemma NextWeekDay(x: int)
    ensures (x + 1) % 7 == (x % 7 + 1) % 7
  {
  }

  /** Whole weeks do not change the week day. */
  lemma WholeWeeks(x: int, k: int)
    ensures (x + 7 * k) % 7 == x % 7
  {
    var q, r := x / 7, x % 7;
    assert x + 7 * k == 7 * (q + k) + r;
  }

  lemma MonthStep(y: int, m: int)
    requires 0 <= m < 12
    ensures DaysBeforeMonth(y, m + 1) == DaysBeforeMonth(y, m) + MonthLength(y, m)
  {
  }

  /** Consecutive years are a year's length apart: the leap-year rule is what DaysBeforeYear counts. */
  lemma YearStep(y: int)
    ensures DaysBeforeYear(y + 1) == DaysBeforeYear(y) + DaysBeforeMonth(y, 12)
  {
    assert y / 4 - (y - 1) / 4 == if y % 4 == 0 then 1 else 0;
    assert y / 100 - (y - 1) / 100 == if y % 100 == 0 then 1 else 0;
    assert y / 400 - (y - 1) / 400 == if y % 400 == 0 then 1 else 0;
  }

  /** The day before the first of a month is the last day of the month before. */
  lemma PrevMonthNumber(y: int, m: int, d: int)
    requires 0 <= m < 12
    ensures DayNumber(PrevMonthYear(y, m), PrevMonth(m), d + MonthLength(PrevMonthYear(y, m), PrevMonth(m)))
         == DayNumber(y, m, d)
  {
    if m == 0 {
      YearStep(y - 1);
    } else {
      MonthStep(y, m - 1);
    }
  }

  lemma {:induction false} RollBackNumber(y: int, m: int, d: int)
    requires 0 <= m < 12 && d < 1
    ensures Ordinal(RollBack(y, m, d)) == DayNumber(y, m, d)
    decreases -d
  {
    var py, pm := PrevMonthYear(y, m), PrevMonth(m);
    var d' := d + MonthLength(py, pm);
    PrevMonthNumber(y, m, d);
    if d' < 1 {
      RollBackNumber(py, pm, d');
    }
  }

  lemma {:induction false} RollForwardNumber(y: int, m: int, d: int)
    requires 0 <= m < 12 && 1 <= d
    ensures Ordinal(RollForward(y, m, d)) == DayNumber(y, m, d)
    decreases d
  {
    if d > MonthLength(y, m) {
      RollForwardNumber(NextMonthYear(y, m), NextMonth(m), d - MonthLength(y, m));
      if m == 11 {
        YearStep(y);
      } else {
        MonthStep(y, m);
      }
    }
  }

  /**
   * Normalisation keeps the day number: `Normalize(y, m, d)` is day d - 1 after the first of
   * month m mod 12 of year y + floor(m / 12), which is how ECMAScript's MakeDay defines it.
   */
  lemma NormalizeNumber(y: int, m: int, d: int)
    ensures Ordinal(Normalize(y, m, d)) == DayNumber(y + m / 12, m % 12, d)
  {
    if d < 1 {
      RollBackNumber(y + m / 12, m % 12, d);
    } else {
      RollForwardNumber(y + m / 12, m % 12, d);
    }
  }

  /** A valid date normalises to itself. */
  lemma NormalizeValid(t: Date)
    requires t.Valid()
    ensures Normalize(t.year, t.month, t.day) == t
  {
  }

  /** A wall-clock instant: a calendar day and the milliseconds since its midnight. */
  datatype Timestamp = Timestamp(date: Date, ms: int) {
    predicate Valid() {
      date.Valid() && 0 <= ms < MsPerDay
    }
  }

  /** Date.prototype.getTime, shifted by a constant: only differences and comparisons are used. */
  function Instant(t: Timestamp): int
    requires t.date.Valid()
  {
    Ordinal(t.date) * MsPerDay + t.ms
  }

  /** date-fns addDays: setDate(getDate() + n), which normalises without the two-digit-year rule. */
  function AddDays(t: Date, n: int): (r: Date)
    requires t.Valid()
    ensures r.Valid() && Ordinal(r) == Ordinal(t) + n
  {
    NormalizeNumber(t.year, t.month, t.day + n);
    assert t.month / 12 == 0 && t.month % 12 == t.month;
    assert DayNumber(t.year, t.month, t.day + n) == Ordinal(t) + n;
    Normalize(t.year, t.month, t.day + n)
  }

  /** The day after a day falls on the next week day, Saturday (6) being followed by Sunday (0). */
  lemma WeekDayOfNextDay(t: Date)
    requires t.Valid()
    ensures WeekDay(AddDays(t, 1)) == (WeekDay(t) + 1) % 7
  {
    var a := Ordinal(t);
    assert Ordinal(AddDays(t, 1)) == a + 1;
    NextWeekDay(a + 1);
  }

  /** date-fns startOfDay: midnight of the same day. */
  function StartOfDay(t: Timestamp): (r: Timestamp)
    requires t.Valid()
    ensures r.Valid() && r.date == t.date
    ensures Instant(r) == Ordinal(t.date) * MsPerDay
    ensures Instant(t) - Instant(r) == t.ms
  {
    Timestamp(t.date, 0)
  }

  /** date-fns endOfDay: 23:59:59.999 of the given day. */
  function EndOfDay(t: Date): (r: Timestamp)
    requires t.Valid()
    ensures r.Valid() && r.date == t && Instant(r) == (Ordinal(t) + 1) * MsPerDay - 1
  {
    Timestamp(t, MsPerDay - 1)
  }
}
