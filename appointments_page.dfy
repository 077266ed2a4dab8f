/**
 * The Appointments page: the appointment list and its handlers (delete, save as an edit
 * or as a new appointment, the modals), the agenda of the selected day that an effect
 * keeps in step with the list, the "upcoming" sidebar (the next seven days, sorted by
 * time) and the status colour table.
 */
module AppointmentsPage {
  import opened Base
  import opened Dates
  import opened Lists
  import JsString
  import opened CalendarView

  // ---------------------------------------------------------------------------
  // The agenda of the selected day
  // ---------------------------------------------------------------------------

  function FallsOnDay(parse: Parser, d: Date): Appointment -> bool {
    (a: Appointment) => FallsOn(parse, a, d)
  }

  /** `appointments.filter(apt => isSameDay(parseISO(apt.appointment_datetime), selectedDate))`. */
  function AppointmentsOn(appointments: seq<Appointment>, parse: Parser, d: Date): (r: seq<Appointment>)
    ensures forall a :: a in r <==> a in appointments && FallsOn(parse, a, d)
  {
    Filter(appointments, FallsOnDay(parse, d))
  }

  /**
   * The agenda is exactly the appointments of that day: every occurrence of each of them,
   * none of the others, in the order of the list.
   */
  lemma AgendaIsTheDay(appointments: seq<Appointment>, parse: Parser, d: Date, a: Appointment)
    ensures IsSubsequence(AppointmentsOn(appointments, parse, d), appointments)
    ensures multiset(AppointmentsOn(appointments, parse, d))[a]
         == if FallsOn(parse, a, d) then multiset(appointments)[a] else 0
  {
    FilterIsSubsequence(appointments, FallsOnDay(parse, d));
    FilterCount(appointments, FallsOnDay(parse, d), a);
  }

  /** The dot the month grid draws on a day and the agenda of that day agree: a dot iff the agenda is not empty. */
  lemma GridDotMatchesAgenda(appointments: seq<Appointment>, parse: Parser, d: Date)
    ensures HasAppointmentOn(appointments, parse, d) <==> AppointmentsOn(appointments, parse, d) != []
  {
    var r := AppointmentsOn(appointments, parse, d);
    if r != [] {
      assert r[0] in r;
    }
  }

  // ---------------------------------------------------------------------------
  // The upcoming sidebar
  // ---------------------------------------------------------------------------

  /**
   * isAfter(aptDate, startOfDay(now)) && isBefore(aptDate, endOfDay(addDays(startOfDay(now), 7))).
   * Both comparisons are false on an Invalid Date, so an appointment whose text does not
   * parse is never upcoming.
   */
  predicate InUpcomingWindow(parse: Parser, now: Timestamp, a: Appointment)
    requires now.Valid()
  {
    var t := parse(a.datetime);
    && t.Some?
    && Instant(StartOfDay(now)) < Instant(t.value)
    && Instant(t.value) < Instant(EndOfDay(AddDays(StartOfDay(now).date, 7)))
  }

  function UpcomingFilter(parse: Parser, now: Timestamp): Appointment -> bool
    requires now.Valid()
  {
    (a: Appointment) => InUpcomingWindow(parse, now, a)
  }

  /** `parseISO(apt.appointment_datetime).getTime()`, the sort key (every appointment that reaches the sort parses). */
  function TimeOf(parse: Parser): Appointment -> int {
    (a: Appointment) => if parse(a.datetime).Some? then Instant(parse(a.datetime).value) else 0
  }

  /** getUpcomingAppointments: the appointments of the window, sorted by time with `(a, b) => a - b`. */
  function GetUpcomingAppointments(appointments: seq<Appointment>, parse: Parser, now: Timestamp): (r: seq<Appointment>)
    requires now.Valid()
    ensures forall a :: a in r <==> a in appointments && InUpcomingWindow(parse, now, a)
    ensures SortedBy(r, TimeOf(parse))
  {
    var w := Filter(appointments, UpcomingFilter(parse, now));
    var r := SortByKey(w, TimeOf(parse));
    assert forall a :: a in r <==> a in w by {
      assert forall a :: a in r <==> a in multiset(r);
    }
    r
  }

  /**
   * The sidebar is a stable sort of the window: the same appointments as often as the list
   * has them, and appointments at the same instant in the order of the list.
   */
  lemma UpcomingIsStableSortOfWindow(appointments: seq<Appointment>, parse: Parser, now: Timestamp, k: int)
    requires now.Valid()
    ensures multiset(GetUpcomingAppointments(appointments, parse, now))
         == multiset(Filter(appointments, UpcomingFilter(parse, now)))
    ensures Filter(GetUpcomingAppointments(appointments, parse, now), HasKey(TimeOf(parse), k))
         == Filter(Filter(appointments, UpcomingFilter(parse, now)), HasKey(TimeOf(parse), k))
  {
    SortByKeyStable(Filter(appointments, UpcomingFilter(parse, now)), TimeOf(parse), k);
  }

  /**
   * The window in days: an appointment is upcoming iff it falls from today to today + 7,
   * except at midnight exactly today and at 23:59:59.999 exactly on day 7, the two instants
   * the strict comparisons leave out.
   */
  lemma UpcomingWindowInDays(now: Timestamp, t: Timestamp)
    requires now.Valid() && t.Valid()
    ensures (Instant(StartOfDay(now)) < Instant(t) < Instant(EndOfDay(AddDays(StartOfDay(now).date, 7))))
        <==> var k := Ordinal(t.date) - Ordinal(now.date);
             0 <= k <= 7 && !(k == 0 && t.ms == 0) && !(k == 7 && t.ms == MsPerDay - 1)
  {
    var k := Ordinal(t.date) - Ordinal(now.date);
    assert Instant(StartOfDay(now)) == Ordinal(now.date) * MsPerDay;
    assert Instant(EndOfDay(AddDays(StartOfDay(now).date, 7))) == (Ordinal(now.date) + 8) * MsPerDay - 1;
    assert Instant(t) - Instant(StartOfDay(now)) == k * MsPerDay + t.ms;
  }

  /** The window read in calendar days: a parsed time k days after today, with the two excluded instants. */
  lemma InUpcomingWindowInDays(parse: Parser, now: Timestamp, a: Appointment)
    requires now.Valid()
    ensures InUpcomingWindow(parse, now, a) <==>
              && parse(a.datetime).Some?
              && var t := parse(a.datetime).value;
                 var k := Ordinal(t.date) - Ordinal(now.date);
                 0 <= k <= 7 && !(k == 0 && t.ms == 0) && !(k == 7 && t.ms == MsPerDay - 1)
  {
    if parse(a.datetime).Some? {
      UpcomingWindowInDays(now, parse(a.datetime).value);
    }
  }

  // ---------------------------------------------------------------------------
  // Status colours
  // ---------------------------------------------------------------------------

  const Gray := "bg-gray-100 text-gray-800"

  /** getStatusColor: a switch on `status.toLowerCase()`. */
  function StatusColor(status: string): (r: string)
    ensures r == Gray <==> JsString.ToLower(status) !in ["pending", "confirmed", "cancelled", "completed"]
    ensures JsString.ToLower(status) == "pending" ==> r == "bg-yellow-100 text-yellow-800"
    ensures JsString.ToLower(status) == "confirmed" ==> r == "bg-green-100 text-green-800"
    ensures JsString.ToLower(status) == "cancelled" ==> r == "bg-red-100 text-red-800"
    ensures JsString.ToLower(status) == "completed" ==> r == "bg-blue-100 text-blue-800"
  {
    match JsString.ToLower(status)
    case "pending" => "bg-yellow-100 text-yellow-800"
    case "confirmed" => "bg-green-100 text-green-800"
    case "cancelled" => "bg-red-100 text-red-800"
    case "completed" => "bg-blue-100 text-blue-800"
    case _ => Gray
  }

  /** The table ignores case: a status and its lower-case form get the same colour. */
  lemma StatusColorIgnoresCase(status: string)
    ensures StatusColor(JsString.ToLower(status)) == StatusColor(status)
  {
    JsString.ToLowerIdempotent(status);
  }

  // ---------------------------------------------------------------------------
  // List updates
  // ---------------------------------------------------------------------------

  function IdIsNot(id: int): Appointment -> bool {
    (a: Appointment) => a.id != id
  }

  function IdIs(id: int): Appointment -> bool {
    (a: Appointment) => a.id == id
  }

  /** Delete by id keeps every other appointment, as often as it occurs and in order, and no appointment with the id. */
  lemma DeleteKeepsOthers(appointments: seq<Appointment>, id: int, a: Appointment)
    ensures forall b :: b in Filter(appointments, IdIsNot(id)) ==> b.id != id
    ensures IsSubsequence(Filter(appointments, IdIsNot(id)), appointments)
    ensures a.id != id ==> multiset(Filter(appointments, IdIsNot(id)))[a] == multiset(appointments)[a]
  {
    FilterIsSubsequence(appointments, IdIsNot(id));
    FilterCount(appointments, IdIsNot(id), a);
  }

  datatype View = ListView | CalendarGrid

  /** The state of the page component. */
  class Page {
    var view: View
    var appointments: seq<Appointment>
    var loading: bool
    var isModalOpen: bool
    var isViewModalOpen: bool
    var editingAppointment: Option<Appointment>
    var viewingAppointment: Option<Appointment>
    var selectedDate: Date
    var selectedDateAppointments: seq<Appointment>
    const parse: Parser

    /**
     * The effect on [selectedDate, appointments] has run: while the list is not empty the
     * agenda is the selected day's appointments (an empty list leaves the last agenda in place).
     */
    predicate AgendaInStep()
      reads this
    {
      |appointments| > 0 ==> selectedDateAppointments == AppointmentsOn(appointments, parse, selectedDate)
    }

    predicate Valid()
      reads this
    {
      selectedDate.Valid() && AgendaInStep()
    }

    /** The first render: calendar view, an empty list still loading, today selected. */
    constructor (parse: Parser, today: Date)
      requires today.Valid()
      ensures Valid()
      ensures view == CalendarGrid && appointments == [] && loading
      ensures !isModalOpen && !isViewModalOpen && editingAppointment == None && viewingAppointment == None
      ensures selectedDate == today && selectedDateAppointments == [] && this.parse == parse
    {
      view := CalendarGrid;
      appointments := [];
      loading := true;
      isModalOpen := false;
      isViewModalOpen := false;
      editingAppointment := None;
      viewingAppointment := None;
      selectedDate := today;
      selectedDateAppointments := [];
      this.parse := parse;
    }

    /** The effect on [selectedDate, appointments] (lines 55-62), run after every change of either. */
    method SyncSelectedDateAppointments()
      modifies this
      ensures selectedDateAppointments
           == if |appointments| > 0 then AppointmentsOn(appointments, parse, selectedDate) else old(selectedDateAppointments)
      ensures AgendaInStep()
      ensures view == old(view) && appointments == old(appointments) && loading == old(loading)
      ensures isModalOpen == old(isModalOpen) && isViewModalOpen == old(isViewModalOpen)
      ensures editingAppointment == old(editingAppointment) && viewingAppointment == old(viewingAppointment)
      ensures selectedDate == old(selectedDate)
    {
      if |appointments| > 0 {
        selectedDateAppointments := AppointmentsOn(appointments, parse, selectedDate);
      }
    }

    /** fetchAppointments: the list becomes the response body, or stays and an error toast shows; loading ends either way. */
    method FetchAppointments(response: Response<seq<Appointment>>) returns (toast: Toast)
      requires Valid()
      modifies this
      ensures Valid()
      ensures appointments == (if response.Ok? then response.data else old(appointments))
      ensures !loading
      ensures toast == (if response.Ok? then NoToast else ToastError("Failed to load appointments"))
      ensures |appointments| == 0 ==> selectedDateAppointments == old(selectedDateAppointments)
      ensures view == old(view) && selectedDate == old(selectedDate)
      ensures isModalOpen == old(isModalOpen) && isViewModalOpen == old(isViewModalOpen)
      ensures editingAppointment == old(editingAppointment) && viewingAppointment == old(viewingAppointment)
    {
      loading := true;
      if response.Ok? {
        appointments := response.data;
        toast := NoToast;
      } else {
        toast := ToastError("Failed to load appointments");
      }
      loading := false;
      SyncSelectedDateAppointments();
    }

    /** The List / Calendar toggle. */
    method SetView(v: View)
      modifies this
      ensures view == v
      ensures appointments == old(appointments) && selectedDate == old(selectedDate)
      ensures selectedDateAppointments == old(selectedDateAppointments) && loading == old(loading)
      ensures isModalOpen == old(isModalOpen) && isViewModalOpen == old(isViewModalOpen)
      ensures editingAppointment == old(editingAppointment) && viewingAppointment == old(viewingAppointment)
    {
      view := v;
    }

    /** onDateChange from the month grid: a new selected day, then the effect. */
    method SelectDate(d: Date)
      requires Valid() && d.Valid()
      modifies this
      ensures Valid()
      ensures selectedDate == d
      ensures |appointments| > 0 ==> selectedDateAppointments == AppointmentsOn(appointments, parse, d)
      ensures |appointments| == 0 ==> selectedDateAppointments == old(selectedDateAppointments)
      ensures view == old(view) && appointments == old(appointments) && loading == old(loading)
      ensures isModalOpen == old(isModalOpen) && isViewModalOpen == old(isViewModalOpen)
      ensures editingAppointment == old(editingAppointment) && viewingAppointment == old(viewingAppointment)
    {
      selectedDate := d;
      SyncSelectedDateAppointments();
    }

    /** handleView: opens the read-only modal on the appointment. */
    method HandleView(a: Appointment)
      modifies this
      ensures viewingAppointment == Some(a) && isViewModalOpen
      ensures view == old(view) && appointments == old(appointments) && loading == old(loading)
      ensures selectedDate == old(selectedDate) && selectedDateAppointments == old(selectedDateAppointments)
      ensures isModalOpen == old(isModalOpen) && editingAppointment == old(editingAppointment)
    {
      viewingAppointment := Some(a);
      isViewModalOpen := true;
    }

    /** The view modal's onClose. */
    method CloseViewModal()
      modifies this
      ensures viewingAppointment == None && !isViewModalOpen
      ensures view == old(view) && appointments == old(appointments) && loading == old(loading)
      ensures selectedDate == old(selectedDate) && selectedDateAppointments == old(selectedDateAppointments)
      ensures isModalOpen == old(isModalOpen) && editingAppointment == old(editingAppointment)
    {
      isViewModalOpen := false;
      viewingAppointment := None;
    }

    /** handleEdit: opens the edit modal on the appointment. */
    method HandleEdit(a: Appointment)
      modifies this
      ensures editingAppointment == Some(a) && isModalOpen
      ensures view == old(view) && appointments == old(appointments) && loading == old(loading)
      ensures selectedDate == old(selectedDate) && selectedDateAppointments == old(selectedDateAppointments)
      ensures isViewModalOpen == old(isViewModalOpen) && viewingAppointment == old(viewingAppointment)
    {
      editingAppointment := Some(a);
      isModalOpen := true;
    }

    /** The "New Appointment" button: the modal opens with nothing being edited. */
    method HandleNew()
      modifies this
      ensures editingAppointment == None && isModalOpen
      ensures view == old(view) && appointments == old(appointments) && loading == old(loading)
      ensures selectedDate == old(selectedDate) && selectedDateAppointments == old(selectedDateAppointments)
      ensures isViewModalOpen == old(isViewModalOpen) && viewingAppointment == old(viewingAppointment)
    {
      editingAppointment := None;
      isModalOpen := true;
    }

    /** The edit modal's onClose. */
    method CloseModal()
      modifies this
      ensures editingAppointment == None && !isModalOpen
      ensures view == old(view) && appointments == old(appointments) && loading == old(loading)
      ensures selectedDate == old(selectedDate) && selectedDateAppointments == old(selectedDateAppointments)
      ensures isViewModalOpen == old(isViewModalOpen) && viewingAppointment == old(viewingAppointment)
    {
      isModalOpen := false;
      editingAppointment := None;
    }

    /**
     * handleDelete: after the server accepts, every appointment with the id leaves the list
     * (the others stay, in order) and the agenda follows; after a failure only an error toast shows.
     */
    method HandleDelete(id: int, deleted: bool) returns (toast: Toast)
      requires Valid()
      modifies this
      ensures Valid()
      ensures appointments == if deleted then Filter(old(appointments), IdIsNot(id)) else old(appointments)
      ensures !deleted || appointments == [] ==> selectedDateAppointments == old(selectedDateAppointments)
      ensures deleted && appointments != [] ==>
                selectedDateAppointments == AppointmentsOn(appointments, parse, selectedDate)
      ensures toast == if deleted then ToastSuccess("Appointment deleted successfully") else ToastError("Failed to delete appointment")
      ensures view == old(view) && loading == old(loading) && selectedDate == old(selectedDate)
      ensures isModalOpen == old(isModalOpen) && isViewModalOpen == old(isViewModalOpen)
      ensures editingAppointment == old(editingAppointment) && viewingAppointment == old(viewingAppointment)
    {
      if deleted {
        appointments := Filter(appointments, IdIsNot(id));
        SyncSelectedDateAppointments();
        toast := ToastSuccess("Appointment deleted successfully");
      } else {
        toast := ToastError("Failed to delete appointment");
      }
    }

    /**
     * handleSave: with an appointment being edited, the server's record replaces every entry
     * with its id; otherwise the created record is appended. Only on success does the modal
     * close and the edit target clear.
     */
    method HandleSave(response: Response<Appointment>) returns (toast: Toast)
      requires Valid()
      modifies this
      ensures Valid()
      ensures response.Ok? && old(editingAppointment).Some? ==>
                appointments == ReplaceWhere(old(appointments), IdIs(old(editingAppointment).value.id), response.data)
                && toast == ToastSuccess("Appointment updated successfully")
      ensures response.Ok? && old(editingAppointment).None? ==>
                appointments == old(appointments) + [response.data]
                && toast == ToastSuccess("Appointment created successfully")
      ensures response.Ok? ==> !isModalOpen && editingAppointment == None
      ensures response.Ok? && appointments != [] ==>
                selectedDateAppointments == AppointmentsOn(appointments, parse, selectedDate)
      ensures response.Ok? && appointments == [] ==> selectedDateAppointments == old(selectedDateAppointments)
      ensures response.Failed? ==>
                && appointments == old(appointments)
                && selectedDateAppointments == old(selectedDateAppointments)
                && isModalOpen == old(isModalOpen) && editingAppointment == old(editingAppointment)
                && toast == ToastError("Failed to save appointment")
      ensures view == old(view) && loading == old(loading) && selectedDate == old(selectedDate)
      ensures isViewModalOpen == old(isViewModalOpen) && viewingAppointment == old(viewingAppointment)
    {
      if response.Failed? {
        toast := ToastError("Failed to save appointment");
        return;
      }
      if editingAppointment.Some? {
        appointments := ReplaceWhere(appointments, IdIs(editingAppointment.value.id), response.data);
        toast := ToastSuccess("Appointment updated successfully");
      } else {
        appointments := appointments + [response.data];
        toast := ToastSuccess("Appointment created successfully");
      }
      isModalOpen := false;
      editingAppointment := None;
      SyncSelectedDateAppointments();
    }

    /** The sidebar's list at the instant `now`. */
    function Upcoming(now: Timestamp): (r: seq<Appointment>)
      requires now.Valid()
      reads this
      ensures forall a :: a in r <==> a in appointments && InUpcomingWindow(parse, now, a)
      ensures SortedBy(r, TimeOf(parse))
    {
      GetUpcomingAppointments(appointments, parse, now)
    }
  }

  /** Deleting the id that every appointment has empties the list (and the agenda is then left as it was). */
  lemma {:induction false} DeletingTheLastEmptiesTheList(appointments: seq<Appointment>, id: int)
    requires forall a :: a in appointments ==> a.id == id
    ensures Filter(appointments, IdIsNot(id)) == []
  {
    if appointments != [] {
      assert appointments[0] in appointments;
      DeletingTheLastEmptiesTheList(appointments[1..], id);
    }
  }

  /** An edit keeps the length and the position of every entry with another id. */
  lemma EditKeepsOthers(appointments: seq<Appointment>, id: int, saved: Appointment)
    ensures |ReplaceWhere(appointments, IdIs(id), saved)| == |appointments|
    ensures forall i :: 0 <= i < |appointments| && appointments[i].id != id ==>
              ReplaceWhere(appointments, IdIs(id), saved)[i] == appointments[i]
    ensures forall i :: 0 <= i < |appointments| && appointments[i].id == id ==>
              ReplaceWhere(appointments, IdIs(id), saved)[i] == saved
  {
  }
}
