/**
 * The month grid of the appointments calendar: days in the month, the week day of the 1st,
 * the cells (leading blanks, then one cell per day flagged when an appointment falls on it),
 * month navigation, day selection and the selected-cell highlight.
 */
module CalendarView {
  import opened Base
  import opened Dates
  import JsString

  datatype Appointment = Appointment(
    id: int,
    name: string,
    emailAddress: Option<string>,
    phone: Option<string>,
    status: string,
    datetime: string,
    appointmentType: Option<string>,
    location: Option<string>,
    notes: Option<string>)

  /**
   * parseISO reduced to wall-clock time in the fixed zone: a text either reads as a valid
   * calendar day and time of day, or gives None, the Invalid Date.
   */
  type Parser = parse: string -> Option<Timestamp> | forall s :: parse(s).Some? ==> parse(s).value.Valid()
    witness (s: string) => None

  /** isSameDay(parseISO(apt.appointment_datetime), d): an Invalid Date falls on no day. */
  predicate FallsOn(parse: Parser, a: Appointment, d: Date) {
    parse(a.datetime).Some? && parse(a.datetime).value.date == d
  }

  /**
   * getDaysInMonth: the day of `new Date(year, month + 1, 0)`, the day before the 1st of the
   * next month, which is the Gregorian length of the month after the constructor's year and
   * month overflow.
   */
  function DaysInMonth(year: int, month: int): (n: int)
    ensures n == MonthLength(ConstructorYear(year) + month / 12, month % 12)
  {
    var y := ConstructorYear(year);
    var y', m' := y + (month + 1) / 12, (month + 1) % 12;
    assert PrevMonthYear(y', m') == y + month / 12 && PrevMonth(m') == month % 12;
    MakeDate(year, month + 1, 0).day
  }

  /** For a month as getMonth reports it: 28 or 29 days in February by the leap-year rule, 30 in April, June, September and November, 31 otherwise. */
  lemma DaysInMonthGregorian(year: int, month: int)
    requires 0 <= month < 12
    ensures DaysInMonth(year, month) == MonthLength(ConstructorYear(year), month)
    ensures month == 1 ==> DaysInMonth(year, month) == if IsLeapYear(ConstructorYear(year)) then 29 else 28
    ensures month in {3, 5, 8, 10} ==> DaysInMonth(year, month) == 30
    ensures month in {0, 2, 4, 6, 7, 9, 11} ==> DaysInMonth(year, month) == 31
  {
    assert month / 12 == 0 && month % 12 == month;
  }

  /** getFirstDayOfMonth: the week day (0 is Sunday) of `new Date(year, month, 1)`. */
  function FirstDayOfMonth(year: int, month: int): (w: int)
    ensures 0 <= w < 7
    ensures w == (Ordinal(MakeDate(year, month, 1)) - Ordinal(UnixEpoch) + 4) % 7
  {
    WeekDay(MakeDate(year, month, 1))
  }

  lemma WeekDayShift(a: int, b: int, n: int)
    requires b == a + n
    ensures (b + 1) % 7 == ((a + 1) % 7 + n) % 7
  {
  }

  lemma FirstOfNextMonthNumber(y: int, month: int)
    requires 0 <= month < 12
    ensures DayNumber(y + (month + 1) / 12, (month + 1) % 12, 1) == DayNumber(y, month, 1) + MonthLength(y, month)
  {
    if month == 11 {
      YearStep(y);
    } else {
      MonthStep(y, month);
    }
  }

  lemma FirstOfMonthNumber(year: int, month: int)
    ensures Ordinal(MakeDate(year, month, 1)) == DayNumber(ConstructorYear(year) + month / 12, month % 12, 1)
  {
    NormalizeNumber(ConstructorYear(year), month, 1);
  }

  /** The 1st of the next month is MonthLength days after the 1st of this one. */
  lemma FirstOfMonthStep(year: int, month: int)
    requires 0 <= month < 12
    ensures Ordinal(MakeDate(year, month + 1, 1)) == Ordinal(MakeDate(year, month, 1)) + MonthLength(ConstructorYear(year), month)
  {
    var y := ConstructorYear(year);
    FirstOfMonthNumber(year, month);
    FirstOfMonthNumber(year, month + 1);
    assert month / 12 == 0 && month % 12 == month;
    FirstOfNextMonthNumber(y, month);
  }

  /** The 1st of the next month falls DaysInMonth week days after the 1st of this one. */
  lemma FirstDayOfNextMonth(year: int, month: int)
    requires 0 <= month < 12
    ensures FirstDayOfMonth(year, month + 1) == (FirstDayOfMonth(year, month) + DaysInMonth(year, month)) % 7
  {
    var a := Ordinal(MakeDate(year, month, 1));
    var b := Ordinal(MakeDate(year, month + 1, 1));
    var n := MonthLength(ConstructorYear(year), month);
    FirstOfMonthStep(year, month);
    DaysInMonthGregorian(year, month);
    FirstDayOfMonthIs(year, month);
    FirstDayOfMonthIs(year, month + 1);
    WeekDayShift(a, b, n);
  }

  lemma FirstDayOfMonthIs(year: int, month: int)
    ensures FirstDayOfMonth(year, month) == (Ordinal(MakeDate(year, month, 1)) + 1) % 7
  {
  }

  /**
   * A fixed point for the grid's columns: January 1970 starts on a Thursday (4), so its
   * grid has four leading blanks, and October 2023 starts on a Sunday (0), with none.
   */
  lemma FirstDayOfKnownMonths()
    ensures FirstDayOfMonth(1970, 0) == 4
    ensures FirstDayOfMonth(2023, 9) == 0
  {
    assert MakeDate(1970, 0, 1) == UnixEpoch;
    EpochOrdinal();
    var oct := MakeDate(2023, 9, 1);
    assert oct == Date(2023, 9, 1);
    assert DaysBeforeYear(2023) == 738520;
    assert Ordinal(oct) == 738793;
  }

  /** One grid cell: a leading blank (day null, not in the month) or a day of the displayed month. */
  datatype DayInfo =
    | Blank
    | InMonth(day: int, date: Date, hasAppointment: bool, isToday: bool)
  {
    predicate IsCurrentMonth() { InMonth? }
  }

  /** appointments.some(apt => isSameDay(parseISO(apt.appointment_datetime), d)). */
  function HasAppointmentOn(appointments: seq<Appointment>, parse: Parser, d: Date): (b: bool)
    ensures b <==> exists a :: a in appointments && FallsOn(parse, a, d)
  {
    if appointments == [] then false
    else
      assert forall a :: a in appointments <==> a == appointments[0] || a in appointments[1..] by {
        assert appointments == [appointments[0]] + appointments[1..];
      }
      FallsOn(parse, appointments[0], d) || HasAppointmentOn(appointments[1..], parse, d)
  }

  /** Day `i` of a displayed month needs no normalisation. */
  lemma InMonthDate(year: int, month: int, i: int)
    requires 0 <= month < 12 && 1 <= i <= DaysInMonth(year, month)
    ensures MakeDate(year, month, i) == Date(ConstructorYear(year), month, i)
  {
    DaysInMonthGregorian(year, month);
  }

  /**
   * generateCalendarDays: FirstDayOfMonth blanks, then the days 1 to DaysInMonth in order.
   * `today` is the current date that isToday reads from the clock.
   */
  method GenerateCalendarDays(selectedDate: Date, appointments: seq<Appointment>, parse: Parser, today: Date)
    returns (days: seq<DayInfo>)
    requires selectedDate.Valid()
    ensures |days| == FirstDayOfMonth(selectedDate.year, selectedDate.month)
                      + DaysInMonth(selectedDate.year, selectedDate.month)
    ensures forall k :: 0 <= k < FirstDayOfMonth(selectedDate.year, selectedDate.month) ==> days[k] == Blank
    ensures forall k :: FirstDayOfMonth(selectedDate.year, selectedDate.month) <= k < |days| ==>
              && days[k].InMonth?
              && days[k].day == k - FirstDayOfMonth(selectedDate.year, selectedDate.month) + 1
              && days[k].date == Date(ConstructorYear(selectedDate.year), selectedDate.month, days[k].day)
              && days[k].date.Valid()
              && (days[k].hasAppointment <==> exists a :: a in appointments && FallsOn(parse, a, days[k].date))
              && (days[k].isToday <==> days[k].date == today)
    ensures forall j, k :: 0 <= j < k < |days| && days[j].InMonth? && days[j].isToday ==> !days[k].isToday
  {
    var year := selectedDate.year;
    var month := selectedDate.month;
    var daysInMonth := DaysInMonth(year, month);
    var firstDayOfMonth := FirstDayOfMonth(year, month);
    days := [];
    var i := 0;
    while i < firstDayOfMonth
      invariant 0 <= i <= firstDayOfMonth
      invariant |days| == i
      invariant forall k :: 0 <= k < i ==> days[k] == Blank
    {
      days := days + [Blank];
      i := i + 1;
    }
    DaysInMonthGregorian(year, month);
    i := 1;
    while i <= daysInMonth
      invariant 1 <= i <= daysInMonth + 1
      invariant |days| == firstDayOfMonth + i - 1
      invariant forall k :: 0 <= k < firstDayOfMonth ==> days[k] == Blank
      invariant forall k :: firstDayOfMonth <= k < |days| ==>
                  && days[k].InMonth?
                  && days[k].day == k - firstDayOfMonth + 1
                  && days[k].date == Date(ConstructorYear(year), month, days[k].day)
                  && days[k].date.Valid()
                  && (days[k].hasAppointment <==> exists a :: a in appointments && FallsOn(parse, a, days[k].date))
                  && (days[k].isToday <==> days[k].date == today)
    {
      var currentDate := MakeDate(year, month, i);
      InMonthDate(year, month, i);
      var hasAppointment := HasAppointmentOn(appointments, parse, currentDate);
      days := days + [InMonth(i, currentDate, hasAppointment, currentDate == today)];
      i := i + 1;
    }
  }

  /** The previous-month button: `new Date(year, month - 1, 1)`, so January goes to December of the year before. */
  function GoToPreviousMonth(selectedDate: Date): (r: Date)
    requires selectedDate.Valid()
    ensures r == Date(PrevMonthYear(ConstructorYear(selectedDate.year), selectedDate.month), PrevMonth(selectedDate.month), 1)
  {
    MakeDate(selectedDate.year, selectedDate.month - 1, 1)
  }

  /** The next-month button: `new Date(year, month + 1, 1)`, so December goes to January of the year after. */
  function GoToNextMonth(selectedDate: Date): (r: Date)
    requires selectedDate.Valid()
    ensures r == Date(NextMonthYear(ConstructorYear(selectedDate.year), selectedDate.month), NextMonth(selectedDate.month), 1)
  {
    MakeDate(selectedDate.year, selectedDate.month + 1, 1)
  }

  /**
   * Going back a month and forward again shows the same month, outside the constructor's
   * two-digit years and January of year 100 (whose previous month, December 99, comes
   * forward into January 2000).
   */
  lemma PreviousThenNext(selectedDate: Date)
    requires selectedDate.Valid()
    requires !(0 <= selectedDate.year <= 99) && !(selectedDate.year == 100 && selectedDate.month == 0)
    ensures GoToNextMonth(GoToPreviousMonth(selectedDate)) == Date(selectedDate.year, selectedDate.month, 1)
  {
  }

  /**
   * The click handler of a cell: `dayInfo.day && onDateChange(new Date(year, month, dayInfo.day))`.
   * A blank (day null) leaves the selected date alone.
   */
  function OnDayClick(selectedDate: Date, cell: DayInfo): (r: Date)
    requires selectedDate.Valid()
    ensures cell.Blank? ==> r == selectedDate
    ensures cell.InMonth? && 1 <= cell.day <= DaysInMonth(selectedDate.year, selectedDate.month) ==>
              r == Date(ConstructorYear(selectedDate.year), selectedDate.month, cell.day)
  {
    if cell.Blank? || cell.day == 0 then selectedDate
    else
      assert 1 <= cell.day <= DaysInMonth(selectedDate.year, selectedDate.month) ==>
        MakeDate(selectedDate.year, selectedDate.month, cell.day)
        == Date(ConstructorYear(selectedDate.year), selectedDate.month, cell.day) by {
        if 1 <= cell.day <= DaysInMonth(selectedDate.year, selectedDate.month) {
          InMonthDate(selectedDate.year, selectedDate.month, cell.day);
        }
      }
      MakeDate(selectedDate.year, selectedDate.month, cell.day)
  }

  /** The selected-cell highlight: `isSameDay(selectedDate, dayInfo.date || new Date())`. */
  predicate IsHighlighted(selectedDate: Date, cell: DayInfo, today: Date) {
    selectedDate == (if cell.InMonth? then cell.date else today)
  }

  /** A blank cell compares against the current date, so blanks light up exactly while today is selected. */
  lemma BlankHighlightedOnlyOnToday(selectedDate: Date, today: Date)
    ensures IsHighlighted(selectedDate, Blank, today) <==> selectedDate == today
  {
  }

  /**
   * A day cell of the displayed month is highlighted exactly when it is the selected day;
   * but in the years 0 to 99 the cells are built in 1900 to 1999, so none is.
   */
  lemma InMonthHighlightedIffSelected(selectedDate: Date, day: int, hasAppointment: bool, isToday: bool, today: Date)
    requires selectedDate.Valid()
    ensures var cell := InMonth(day, Date(ConstructorYear(selectedDate.year), selectedDate.month, day), hasAppointment, isToday);
            IsHighlighted(selectedDate, cell, today) <==> !(0 <= selectedDate.year <= 99) && day == selectedDate.day
  {
  }

  /** The agenda's time label: `appointment_datetime.slice(11, 16)`. */
  function TimeLabel(datetime: string): (r: string)
    ensures |r| <= 5
    ensures |datetime| >= 16 ==> r == datetime[11..16]
    ensures |datetime| < 16 ==> r == (if |datetime| <= 11 then [] else datetime[11..])
  {
    JsString.Slice(datetime, 11, 16)
  }

  /** On an ISO 8601 text "YYYY-MM-DDTHH:MM..." the label is the "HH:MM" part. */
  lemma TimeLabelOfIsoText(date: string, hhmm: string, rest: string)
    requires |date| == 10 && |hhmm| == 5
    ensures TimeLabel(date + "T" + hhmm + rest) == hhmm
  {
    var s := date + "T" + hhmm + rest;
    assert s[11..16] == hhmm;
  }
}
