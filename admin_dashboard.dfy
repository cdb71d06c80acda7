/** The admin dashboard: an in-memory table of appointments and doctors with a
    five-counter stats record, the actions that rewrite a row and patch the
    counters, and the filtered, sorted and paged views of both tables.
    Network requests, `window.confirm` and date formatting are outside the
    model: the admin's answer to the confirmation dialog and the backend's
    reply are parameters, and an appointment's date is carried as its
    rendered `yyyy-MM-dd` key and as a timestamp. */
module AdminDashboard {
  import opened JsText
  import opened ListOps

  // ---------------------------------------------------------------------
  // Entities

  /** An appointment's `status` text. The four statuses the page names have
      their own constructors; `Other` holds any other text and never one of
      "pending", "confirmed", "completed" or "cancelled". */
  datatype Status = Pending | Confirmed | Completed | Cancelled | Other(text: string)

  datatype Appointment = Appointment(
    id: int,
    patientName: string,
    doctorName: string,
    appointmentType: string,
    day: string,   // the appointment date rendered as yyyy-MM-dd
    time: int,     // the appointment date as a timestamp
    status: Status)

  datatype Stats = Stats(total: int, confirmed: int, pending: int, cancelled: int, completed: int)

  datatype Doctor = Doctor(
    id: int,
    name: string,
    specialty: Option<string>,
    degree: string,
    city: Option<string>,
    experienceYears: int,
    totalPatients: int,
    avgRating: real,
    isAvailable: bool)

  /** The entries of an appointment's action menu. */
  datatype Action = View | Confirm | Complete | Cancel

  /** How a status or availability request ended: applied, when the reply
      body's `error` field is missing or falsy (an `error: ""` counts as
      applied); a body error, when that field is a non-empty text, which the
      page rethrows and whose text it never shows; or a rejected request,
      with the `error` text of the response body ("" when there is none). */
  datatype Reply = Applied | BodyError | Rejected(serverMessage: string)

  /** The reply to a request the backend accepted, from the `error` field of
      its body: `if (response.data.error) throw ...` tests truthiness, so an
      empty text is no error. */
  function ReplyOfBody(error: Option<string>): (r: Reply)
    ensures r.Applied? <==> error.None? || error.value == ""
    ensures r.BodyError? <==> error.Some? && error.value != ""
    ensures !r.Rejected?
  {
    if error.Some? && error.value != "" then BodyError else Applied
  }

  const AppointmentAlertDefault := "Failed to update appointment status. Please try again."
  const DoctorAlertDefault := "Failed to perform action. Please try again."

  /** The alert shown when an action fails. A body error is rethrown as a
      plain `Error`, which has no `response`, so it shows the default text. */
  function AlertText(reply: Reply, default: string): (text: string)
    requires !reply.Applied?
    ensures reply.Rejected? && reply.serverMessage != "" ==> text == reply.serverMessage
    ensures reply.Rejected? && reply.serverMessage == "" ==> text == default
    ensures reply.BodyError? ==> text == default
  {
    match reply
    case BodyError => default
    case Rejected(m) => if m != "" then m else default
  }

  // ---------------------------------------------------------------------
  // Appointment rows and the counts over them

  /** `j` is the first position of `rows` whose key is `id`. */
  predicate FirstWithKey<T>(rows: seq<T>, key: T -> int, id: int, j: int) {
    && 0 <= j < |rows| && key(rows[j]) == id
    && forall k :: 0 <= k < j ==> key(rows[k]) != id
  }

  /** `rows.find(row => row.id === id)`, for either table: the first row
      carrying the id, or nothing when no row does. */
  function FindById<T>(rows: seq<T>, key: T -> int, id: int): (r: Option<T>)
    ensures r.None? <==> forall i :: 0 <= i < |rows| ==> key(rows[i]) != id
    ensures r.Some? ==> exists j :: FirstWithKey(rows, key, id, j) && rows[j] == r.value
  {
    if rows == [] then None
    else if key(rows[0]) == id then
      assert FirstWithKey(rows, key, id, 0);
      Some(rows[0])
    else
      var r := FindById(rows[1..], key, id);
      assert r.Some? ==> exists j :: FirstWithKey(rows, key, id, j) && rows[j] == r.value by {
        if r.Some? {
          var j :| FirstWithKey(rows[1..], key, id, j) && rows[1..][j] == r.value;
          assert FirstWithKey(rows, key, id, j + 1);
        }
      }
      r
  }

  /** `appointments.find(apt => apt.id === id)`. */
  function FindAppointment(rows: seq<Appointment>, id: int): Option<Appointment>
  {
    FindById(rows, (a: Appointment) => a.id, id)
  }

  function Relabel(row: Appointment, id: int, s: Status): Appointment
  {
    if row.id == id then row.(status := s) else row
  }

  /** `appointments.map(apt => apt.id === id ? { ...apt, status } : apt)`. */
  function WithStatus(rows: seq<Appointment>, id: int, s: Status): seq<Appointment>
  {
    if rows == [] then [] else [Relabel(rows[0], id, s)] + WithStatus(rows[1..], id, s)
  }

  /** Only rows carrying the target id change, and of those only the status. */
  lemma {:induction false} WithStatusFrame(rows: seq<Appointment>, id: int, s: Status)
    ensures |WithStatus(rows, id, s)| == |rows|
    ensures forall i :: 0 <= i < |rows| && rows[i].id != id ==> WithStatus(rows, id, s)[i] == rows[i]
    ensures forall i :: 0 <= i < |rows| && rows[i].id == id ==>
      WithStatus(rows, id, s)[i] == rows[i].(status := s)
  {
    if rows != [] {
      WithStatusFrame(rows[1..], id, s);
      assert forall i :: 1 <= i < |rows| ==> WithStatus(rows, id, s)[i] == WithStatus(rows[1..], id, s)[i - 1];
    }
  }

  function Count(rows: seq<Appointment>, s: Status): nat
  {
    if rows == [] then 0 else (if rows[0].status == s then 1 else 0) + Count(rows[1..], s)
  }

  predicate UniqueIds(rows: seq<Appointment>) {
    forall i, j :: 0 <= i < j < |rows| ==> rows[i].id != rows[j].id
  }

  /** The stats record agrees with the table: `total` is the number of rows
      and each status counter is the number of rows with that status. */
  predicate CountsMatch(rows: seq<Appointment>, st: Stats) {
    && st.total == |rows|
    && st.pending == Count(rows, Pending)
    && st.confirmed == Count(rows, Confirmed)
    && st.completed == Count(rows, Completed)
    && st.cancelled == Count(rows, Cancelled)
  }

  function Ind(b: bool): int { if b then 1 else 0 }

  /** Relabelling a row that is absent changes nothing. */
  lemma {:induction false} WithStatusAbsent(rows: seq<Appointment>, id: int, s: Status)
    requires forall i :: 0 <= i < |rows| ==> rows[i].id != id
    ensures WithStatus(rows, id, s) == rows
  {
    if rows != [] {
      WithStatusAbsent(rows[1..], id, s);
    }
  }

  /** With unique ids, relabelling the row `id` from status `a.status` to
      `s` moves exactly one unit of count from the old status to the new. */
  lemma {:induction false} RelabelCount(rows: seq<Appointment>, id: int, s: Status, t: Status)
    requires UniqueIds(rows)
    ensures FindAppointment(rows, id).None? ==> Count(WithStatus(rows, id, s), t) == Count(rows, t)
    ensures FindAppointment(rows, id).Some? ==>
      Count(WithStatus(rows, id, s), t)
        == Count(rows, t) - Ind(FindAppointment(rows, id).value.status == t) + Ind(s == t)
  {
    if rows != [] {
      UniqueIdsTail(rows);
      var tail := rows[1..];
      assert WithStatus(rows, id, s) == [Relabel(rows[0], id, s)] + WithStatus(tail, id, s);
      CountCons(Relabel(rows[0], id, s), WithStatus(tail, id, s), t);
      CountCons(rows[0], tail, t);
      if rows[0].id == id {
        WithStatusAbsent(tail, id, s);
      } else {
        RelabelCount(tail, id, s, t);
      }
    }
  }

  lemma UniqueIdsTail(rows: seq<Appointment>)
    requires rows != [] && UniqueIds(rows)
    ensures UniqueIds(rows[1..])
    ensures forall i :: 0 <= i < |rows| - 1 ==> rows[1..][i].id != rows[0].id
  {
    forall i, j | 0 <= i < j < |rows| - 1 ensures rows[1..][i].id != rows[1..][j].id {
      assert rows[i + 1].id != rows[j + 1].id;
    }
  }

  lemma CountCons(row: Appointment, rows: seq<Appointment>, t: Status)
    ensures Count([row] + rows, t) == Ind(row.status == t) + Count(rows, t)
  {
    assert ([row] + rows)[1..] == rows;
  }

  // ---------------------------------------------------------------------
  // Counter patches, as the dashboard applies them

  function ConfirmedStats(st: Stats): Stats
  {
    st.(confirmed := st.confirmed + 1, pending := st.pending - 1)
  }

  function CompletedStats(st: Stats): Stats
  {
    st.(completed := st.completed + 1, confirmed := st.confirmed - 1)
  }

  /** Cancelling takes one from `confirmed` when the row was confirmed and
      from `pending` in every other case, completed rows included. */
  function CancelledStats(st: Stats, prior: Status): Stats
  {
    if prior == Confirmed then st.(cancelled := st.cancelled + 1, confirmed := st.confirmed - 1)
    else st.(cancelled := st.cancelled + 1, pending := st.pending - 1)
  }

  /** The menu shows confirm only on pending rows, complete only on confirmed
      rows, and cancel on every row that is not cancelled. */
  function MenuActions(s: Status): (acts: set<Action>)
    ensures View in acts
    ensures Confirm in acts <==> s == Pending
    ensures Complete in acts <==> s == Confirmed
    ensures Cancel in acts <==> s != Cancelled
  {
    {View}
      + (if s == Pending then {Confirm} else {})
      + (if s == Confirmed then {Complete} else {})
      + (if s != Cancelled then {Cancel} else {})
  }

  /** The table and counters after an accepted, applied action on row `id`. */
  function AfterAction(rows: seq<Appointment>, st: Stats, id: int, act: Action): (seq<Appointment>, Stats)
    requires FindAppointment(rows, id).Some?
  {
    match act
    case View => (rows, st)
    case Confirm => (WithStatus(rows, id, Confirmed), ConfirmedStats(st))
    case Complete => (WithStatus(rows, id, Completed), CompletedStats(st))
    case Cancel => (WithStatus(rows, id, Cancelled), CancelledStats(st, FindAppointment(rows, id).value.status))
  }

  /** Every action the menu offers keeps the counters equal to the counts
      over the table, except cancelling a row that is neither pending nor
      confirmed. */
  lemma MenuActionKeepsCounts(rows: seq<Appointment>, st: Stats, id: int, act: Action)
    requires UniqueIds(rows) && CountsMatch(rows, st)
    requires FindAppointment(rows, id).Some?
    requires act in MenuActions(FindAppointment(rows, id).value.status)
    requires act == Cancel ==> FindAppointment(rows, id).value.status in {Pending, Confirmed}
    ensures CountsMatch(AfterAction(rows, st, id, act).0, AfterAction(rows, st, id, act).1)
  {
    var to := match act
      case View => Pending
      case Confirm => Confirmed
      case Complete => Completed
      case Cancel => Cancelled;
    if act != View {
      WithStatusFrame(rows, id, to);
      RelabelCount(rows, id, to, Pending);
      RelabelCount(rows, id, to, Confirmed);
      RelabelCount(rows, id, to, Completed);
      RelabelCount(rows, id, to, Cancelled);
    }
  }

  /** Cancelling a completed row, which the menu allows, leaves `pending`
      one below the number of pending rows and `completed` one above the
      number of completed rows. */
  lemma CancelCompletedDrifts(rows: seq<Appointment>, st: Stats, id: int)
    requires UniqueIds(rows) && CountsMatch(rows, st)
    requires FindAppointment(rows, id).Some? && FindAppointment(rows, id).value.status == Completed
    ensures Cancel in MenuActions(Completed)
    ensures var (rows', st') := AfterAction(rows, st, id, Cancel);
      && st'.pending == Count(rows', Pending) - 1
      && st'.completed == Count(rows', Completed) + 1
      && !CountsMatch(rows', st')
  {
    RelabelCount(rows, id, Cancelled, Pending);
    RelabelCount(rows, id, Cancelled, Completed);
  }

  /** A one-row table: cancelling its completed appointment drives the
      pending counter to -1. */
  lemma CancelCompletedExample()
    ensures var row := Appointment(1, "P", "D", "video", "2025-01-01", 0, Completed);
      var (rows', st') := AfterAction([row], Stats(1, 0, 0, 0, 1), 1, Cancel);
      CountsMatch([row], Stats(1, 0, 0, 0, 1)) && st' == Stats(1, 0, -1, 1, 1) && !CountsMatch(rows', st')
  {
    var row := Appointment(1, "P", "D", "video", "2025-01-01", 0, Completed);
    assert WithStatus([row], 1, Cancelled) == [row.(status := Cancelled)];
  }

  /** The intended patch: take one from the counter of the status the row
      actually had. */
  function CancelledStatsCorrected(st: Stats, prior: Status): Stats
  {
    match prior
    case Pending => st.(cancelled := st.cancelled + 1, pending := st.pending - 1)
    case Confirmed => st.(cancelled := st.cancelled + 1, confirmed := st.confirmed - 1)
    case Completed => st.(cancelled := st.cancelled + 1, completed := st.completed - 1)
    case Cancelled => st
    case Other(_) => st.(cancelled := st.cancelled + 1)
  }

  /** With the corrected patch, cancelling any row keeps the counters equal
      to the counts over the table. */
  lemma CorrectedCancelKeepsCounts(rows: seq<Appointment>, st: Stats, id: int)
    requires UniqueIds(rows) && CountsMatch(rows, st)
    requires FindAppointment(rows, id).Some?
    ensures CountsMatch(WithStatus(rows, id, Cancelled),
                        CancelledStatsCorrected(st, FindAppointment(rows, id).value.status))
  {
    WithStatusFrame(rows, id, Cancelled);
    RelabelCount(rows, id, Cancelled, Pending);
    RelabelCount(rows, id, Cancelled, Confirmed);
    RelabelCount(rows, id, Cancelled, Completed);
    RelabelCount(rows, id, Cancelled, Cancelled);
  }

  // ---------------------------------------------------------------------
  // Doctor rows

  /** `doctors.find(d => d.id === id)`. */
  function FindDoctor(ds: seq<Doctor>, id: int): Option<Doctor>
  {
    FindById(ds, (d: Doctor) => d.id, id)
  }

  /** `doctors.filter(d => d.id !== id)`. */
  function WithoutDoctor(ds: seq<Doctor>, id: int): seq<Doctor>
  {
    Filter(ds, (d: Doctor) => d.id != id)
  }

  /** Deleting removes exactly the doctors with that id and keeps every
      other doctor, as often as before and in the same order. */
  lemma WithoutDoctorSpec(ds: seq<Doctor>, id: int)
    ensures forall d :: d in WithoutDoctor(ds, id) <==> d in ds && d.id != id
    ensures forall d :: multiset(WithoutDoctor(ds, id))[d] == if d.id != id then multiset(ds)[d] else 0
    ensures Subsequence(WithoutDoctor(ds, id), ds)
  {
    FilterMembers(ds, (d: Doctor) => d.id != id);
    FilterCount(ds, (d: Doctor) => d.id != id);
    FilterSubsequence(ds, (d: Doctor) => d.id != id);
  }

  function FlipAvailability(d: Doctor, id: int): Doctor
  {
    if d.id == id then d.(isAvailable := !d.isAvailable) else d
  }

  /** `doctors.map(d => d.id === id ? { ...d, isAvailable: !d.isAvailable } : d)`. */
  function WithAvailabilityToggled(ds: seq<Doctor>, id: int): (r: seq<Doctor>)
    ensures |r| == |ds|
    ensures forall i :: 0 <= i < |ds| && ds[i].id != id ==> r[i] == ds[i]
    ensures forall i :: 0 <= i < |ds| && ds[i].id == id ==>
      r[i].isAvailable == !ds[i].isAvailable && r[i].(isAvailable := ds[i].isAvailable) == ds[i]
  {
    seq(|ds|, i requires 0 <= i < |ds| => FlipAvailability(ds[i], id))
  }

  /** Toggling twice restores the table. */
  lemma ToggleTwice(ds: seq<Doctor>, id: int)
    ensures WithAvailabilityToggled(WithAvailabilityToggled(ds, id), id) == ds
  {
  }

  // ---------------------------------------------------------------------
  // The dashboard's state and its actions

  class Dashboard {
    var appointments: seq<Appointment>
    var doctors: seq<Doctor>
    var stats: Stats
    /** The row whose appointment action menu is open. */
    var activeAppointmentId: Option<int>
    /** The row whose doctor action menu is open. */
    var activeActionId: Option<int>

    /** The state after the dashboard data has been loaded. */
    constructor (appointments0: seq<Appointment>, doctors0: seq<Doctor>, stats0: Stats)
      ensures appointments == appointments0 && doctors == doctors0 && stats == stats0
      ensures activeAppointmentId == None && activeActionId == None
    {
      appointments, doctors, stats := appointments0, doctors0, stats0;
      activeAppointmentId, activeActionId := None, None;
    }

    /** The "more" button: opens the row's menu, or closes it if it is open. */
    method ToggleAppointmentMenu(id: int)
      modifies this
      ensures activeAppointmentId == (if old(activeAppointmentId) == Some(id) then None else Some(id))
      ensures appointments == old(appointments) && doctors == old(doctors) && stats == old(stats)
      ensures activeActionId == old(activeActionId)
    {
      activeAppointmentId := if activeAppointmentId == Some(id) then None else Some(id);
    }

    /** Confirm: on an applied reply, row `id` becomes confirmed and one unit
        moves from `pending` to `confirmed`. */
    method ConfirmAppointment(id: int, accepted: bool, reply: Reply) returns (alert: Option<string>)
      modifies this
      ensures accepted && reply.Applied? ==>
        appointments == WithStatus(old(appointments), id, Confirmed) && stats == ConfirmedStats(old(stats))
      ensures !(accepted && reply.Applied?) ==> appointments == old(appointments) && stats == old(stats)
      ensures stats.total == old(stats.total)
      ensures alert == (if accepted && !reply.Applied? then Some(AlertText(reply, AppointmentAlertDefault)) else None)
      ensures old(UniqueIds(appointments) && CountsMatch(appointments, stats)
                  && FindAppointment(appointments, id).Some?
                  && FindAppointment(appointments, id).value.status == Pending)
              ==> CountsMatch(appointments, stats)
      ensures doctors == old(doctors) && activeActionId == old(activeActionId)
      ensures activeAppointmentId == None
    {
      alert := None;
      if accepted {
        if reply.Applied? {
          if UniqueIds(appointments) && CountsMatch(appointments, stats)
             && FindAppointment(appointments, id).Some?
             && FindAppointment(appointments, id).value.status == Pending {
            MenuActionKeepsCounts(appointments, stats, id, Confirm);
          }
          appointments := WithStatus(appointments, id, Confirmed);
          stats := ConfirmedStats(stats);
        } else {
          alert := Some(AlertText(reply, AppointmentAlertDefault));
        }
      }
      activeAppointmentId := None;
    }

    /** Complete: on an applied reply, row `id` becomes completed and one unit
        moves from `confirmed` to `completed`. */
    method CompleteAppointment(id: int, accepted: bool, reply: Reply) returns (alert: Option<string>)
      modifies this
      ensures accepted && reply.Applied? ==>
        appointments == WithStatus(old(appointments), id, Completed) && stats == CompletedStats(old(stats))
      ensures !(accepted && reply.Applied?) ==> appointments == old(appointments) && stats == old(stats)
      ensures stats.total == old(stats.total)
      ensures alert == (if accepted && !reply.Applied? then Some(AlertText(reply, AppointmentAlertDefault)) else None)
      ensures old(UniqueIds(appointments) && CountsMatch(appointments, stats)
                  && FindAppointment(appointments, id).Some?
                  && FindAppointment(appointments, id).value.status == Confirmed)
              ==> CountsMatch(appointments, stats)
      ensures doctors == old(doctors) && activeActionId == old(activeActionId)
      ensures activeAppointmentId == None
    {
      alert := None;
      if accepted {
        if reply.Applied? {
          if UniqueIds(appointments) && CountsMatch(appointments, stats)
             && FindAppointment(appointments, id).Some?
             && FindAppointment(appointments, id).value.status == Confirmed {
            MenuActionKeepsCounts(appointments, stats, id, Complete);
          }
          appointments := WithStatus(appointments, id, Completed);
          stats := CompletedStats(stats);
        } else {
          alert := Some(AlertText(reply, AppointmentAlertDefault));
        }
      }
      activeAppointmentId := None;
    }

    /** Cancel: the row is looked up first; an unknown id returns at once,
        leaving even the open menu as it was. On an applied reply the row
        becomes cancelled and one unit moves to `cancelled` from the counter
        of the row's earlier status (`CancelledStatsCorrected`; the page as
        written uses `CancelledStats`, see `CancelCompletedDrifts`). */
    method CancelAppointment(id: int, accepted: bool, reply: Reply) returns (alert: Option<string>)
      modifies this
      ensures accepted && FindAppointment(old(appointments), id).None? ==>
        appointments == old(appointments) && stats == old(stats)
        && activeAppointmentId == old(activeAppointmentId) && alert == None
      ensures accepted && FindAppointment(old(appointments), id).Some? && reply.Applied? ==>
        appointments == WithStatus(old(appointments), id, Cancelled)
        && stats == CancelledStatsCorrected(old(stats), FindAppointment(old(appointments), id).value.status)
      ensures !(accepted && reply.Applied?) ==> appointments == old(appointments) && stats == old(stats)
      ensures stats.total == old(stats.total)
      ensures alert == (if accepted && FindAppointment(old(appointments), id).Some? && !reply.Applied?
                        then Some(AlertText(reply, AppointmentAlertDefault)) else None)
      ensures old(UniqueIds(appointments) && CountsMatch(appointments, stats)) ==> CountsMatch(appointments, stats)
      ensures !(accepted && FindAppointment(old(appointments), id).None?) ==> activeAppointmentId == None
      ensures doctors == old(doctors) && activeActionId == old(activeActionId)
    {
      alert := None;
      if accepted {
        var current := FindAppointment(appointments, id);
        if current.None? {
          return;
        }
        if reply.Applied? {
          if UniqueIds(appointments) && CountsMatch(appointments, stats) {
            CorrectedCancelKeepsCounts(appointments, stats, id);
          }
          appointments := WithStatus(appointments, id, Cancelled);
          stats := CancelledStatsCorrected(stats, current.value.status);
        } else {
          alert := Some(AlertText(reply, AppointmentAlertDefault));
        }
      }
      activeAppointmentId := None;
    }

    /** Delete: the delete request's body is not inspected, so any reply that
        was not rejected removes every doctor with that id. */
    method DeleteDoctor(id: int, accepted: bool, reply: Reply) returns (alert: Option<string>)
      modifies this
      ensures accepted && !reply.Rejected? ==> doctors == WithoutDoctor(old(doctors), id)
      ensures !(accepted && !reply.Rejected?) ==> doctors == old(doctors)
      ensures forall d :: d in doctors ==> d in old(doctors)
      ensures accepted && !reply.Rejected? ==> forall d :: d in doctors ==> d.id != id
      ensures alert == (if accepted && reply.Rejected? then Some(AlertText(reply, DoctorAlertDefault)) else None)
      ensures appointments == old(appointments) && stats == old(stats)
      ensures activeAppointmentId == old(activeAppointmentId) && activeActionId == None
    {
      alert := None;
      if accepted {
        if !reply.Rejected? {
          WithoutDoctorSpec(doctors, id);
          doctors := WithoutDoctor(doctors, id);
        } else {
          alert := Some(AlertText(reply, DoctorAlertDefault));
        }
      }
      activeActionId := None;
    }

    /** Toggle availability: an unknown id returns at once; otherwise an
        applied reply flips `isAvailable` of that doctor only. */
    method ToggleDoctorAvailability(id: int, reply: Reply) returns (alert: Option<string>)
      modifies this
      ensures FindDoctor(old(doctors), id).None? ==>
        doctors == old(doctors) && activeActionId == old(activeActionId) && alert == None
      ensures FindDoctor(old(doctors), id).Some? && reply.Applied? ==>
        doctors == WithAvailabilityToggled(old(doctors), id)
      ensures !reply.Applied? ==> doctors == old(doctors)
      ensures alert == (if FindDoctor(old(doctors), id).Some? && !reply.Applied?
                        then Some(AlertText(reply, DoctorAlertDefault)) else None)
      ensures FindDoctor(old(doctors), id).Some? ==> activeActionId == None
      ensures appointments == old(appointments) && stats == old(stats)
      ensures activeAppointmentId == old(activeAppointmentId)
    {
      alert := None;
      if FindDoctor(doctors, id).None? {
        return;
      }
      if reply.Applied? {
        doctors := WithAvailabilityToggled(doctors, id);
      } else {
        alert := Some(AlertText(reply, DoctorAlertDefault));
      }
      activeActionId := None;
    }
  }

  // ---------------------------------------------------------------------
  // Filtering

  /** Case-insensitive `includes`, as the search boxes use it. */
  predicate SearchHit(text: string, term: string) {
    Includes(ToLower(text), ToLower(term))
  }

  datatype DoctorFilters = DoctorFilters(search: string, specialty: string, city: string)

  /** Search hits the name, the specialty name or the degree; a blank
      specialty or location select imposes nothing. */
  predicate DoctorMatches(d: Doctor, f: DoctorFilters) {
    && (SearchHit(d.name, f.search)
        || (d.specialty.Some? && SearchHit(d.specialty.value, f.search))
        || SearchHit(d.degree, f.search))
    && (f.specialty == "" || d.specialty == Some(f.specialty))
    && (f.city == "" || d.city == Some(f.city))
  }

  datatype StatusFilter = AllStatuses | Only(status: Status)

  datatype AppointmentFilters = AppointmentFilters(search: string, status: StatusFilter, day: string)

  predicate AppointmentMatches(a: Appointment, f: AppointmentFilters) {
    && (SearchHit(a.patientName, f.search) || SearchHit(a.doctorName, f.search)
        || SearchHit(a.appointmentType, f.search))
    && (f.status == AllStatuses || a.status == f.status.status)
    && (f.day == "" || a.day == f.day)
  }

  /** With every filter blank, every doctor and every appointment is kept. */
  lemma BlankFiltersKeepAll(ds: seq<Doctor>, rows: seq<Appointment>)
    ensures Filter(ds, (d: Doctor) => DoctorMatches(d, DoctorFilters("", "", ""))) == ds
    ensures Filter(rows, (a: Appointment) => AppointmentMatches(a, AppointmentFilters("", AllStatuses, ""))) == rows
  {
    forall i | 0 <= i < |ds| ensures DoctorMatches(ds[i], DoctorFilters("", "", "")) {
      EmptyIncluded(ToLower(ds[i].name));
    }
    FilterKeepsAll(ds, (d: Doctor) => DoctorMatches(d, DoctorFilters("", "", "")));
    forall i | 0 <= i < |rows| ensures AppointmentMatches(rows[i], AppointmentFilters("", AllStatuses, "")) {
      EmptyIncluded(ToLower(rows[i].patientName));
    }
    FilterKeepsAll(rows, (a: Appointment) => AppointmentMatches(a, AppointmentFilters("", AllStatuses, "")));
  }

  // ---------------------------------------------------------------------
  // Sorting

  datatype Order = Asc | Desc

  datatype DoctorField = ByName | BySpecialty | ByExperience | ByPatients | ByRating

  datatype AppointmentField = ById | ByPatient | ByDoctor | ByDate | ByType

  datatype SortState<F> = SortState(field: F, order: Order)

  function Flip(o: Order): Order { if o == Asc then Desc else Asc }

  /** A click on a column header: the current column flips its order, a new
      column starts at `initial`. */
  function ClickSort<F(==)>(st: SortState<F>, clicked: F, initial: Order): (r: SortState<F>)
    ensures r.field == clicked
    ensures st.field == clicked ==> r.order != st.order
    ensures st.field != clicked ==> r.order == initial
  {
    if st.field == clicked then st.(order := Flip(st.order)) else SortState(clicked, initial)
  }

  /** Doctor columns start ascending, from name ascending. */
  const InitialDoctorSort := SortState(ByName, Asc)

  function DoctorSortClick(st: SortState<DoctorField>, clicked: DoctorField): SortState<DoctorField>
  {
    ClickSort(st, clicked, Asc)
  }

  /** Appointment columns start descending, from date descending. */
  const InitialAppointmentSort := SortState(ByDate, Desc)

  function AppointmentSortClick(st: SortState<AppointmentField>, clicked: AppointmentField): SortState<AppointmentField>
  {
    ClickSort(st, clicked, Desc)
  }

  /** Clicking the same header twice restores the sort. */
  lemma ClickTwiceRestores<F>(st: SortState<F>, initial: Order)
    ensures ClickSort(ClickSort(st, st.field, initial), st.field, initial) == st
  {
  }

  /** The comparison of a real-valued column: only its sign matters to sort. */
  function CompareReal(x: real, y: real): int
  {
    if x < y then -1 else if x > y then 1 else 0
  }

  /** The column comparators; `localeCompare` is the string collation. */
  function DoctorCompare(field: DoctorField, localeCompare: (string, string) -> int): (Doctor, Doctor) -> int
  {
    match field
    case ByName => (a: Doctor, b: Doctor) => localeCompare(a.name, b.name)
    case BySpecialty => (a: Doctor, b: Doctor) =>
      localeCompare(if a.specialty.Some? then a.specialty.value else "",
                    if b.specialty.Some? then b.specialty.value else "")
    case ByExperience => (a: Doctor, b: Doctor) => a.experienceYears - b.experienceYears
    case ByPatients => (a: Doctor, b: Doctor) => a.totalPatients - b.totalPatients
    case ByRating => (a: Doctor, b: Doctor) => CompareReal(a.avgRating, b.avgRating)
  }

  function AppointmentCompare(field: AppointmentField, localeCompare: (string, string) -> int)
    : (Appointment, Appointment) -> int
  {
    match field
    case ById => (a: Appointment, b: Appointment) => a.id - b.id
    case ByPatient => (a: Appointment, b: Appointment) => localeCompare(a.patientName, b.patientName)
    case ByDoctor => (a: Appointment, b: Appointment) => localeCompare(a.doctorName, b.doctorName)
    case ByDate => (a: Appointment, b: Appointment) => a.time - b.time
    case ByType => (a: Appointment, b: Appointment) => localeCompare(a.appointmentType, b.appointmentType)
  }

  /** `order === "asc" ? comparison : -comparison`. */
  function Directed<T>(cmp: (T, T) -> int, order: Order): (T, T) -> int
  {
    if order == Asc then cmp else Negated(cmp)
  }

  /** Comparing by a key with a consistent comparator is consistent. */
  lemma KeyedConsistent<T(!new), K(!new)>(cmp: (T, T) -> int, key: T -> K, keyCmp: (K, K) -> int)
    requires Consistent(keyCmp)
    requires forall a, b :: cmp(a, b) == keyCmp(key(a), key(b))
    ensures Consistent(cmp)
  {
    forall a, b, c | cmp(a, b) <= 0 && cmp(b, c) <= 0 ensures cmp(a, c) <= 0 {
      assert keyCmp(key(a), key(b)) <= 0 && keyCmp(key(b), key(c)) <= 0;
    }
  }

  lemma IntDifferenceConsistent<T(!new)>(cmp: (T, T) -> int, key: T -> int)
    requires forall a, b :: cmp(a, b) == key(a) - key(b)
    ensures Consistent(cmp)
  {
  }

  lemma DoctorCompareConsistent(field: DoctorField, localeCompare: (string, string) -> int)
    requires Consistent(localeCompare)
    ensures Consistent(DoctorCompare(field, localeCompare))
  {
    var cmp := DoctorCompare(field, localeCompare);
    match field
    case ByName =>
      KeyedConsistent(cmp, (d: Doctor) => d.name, localeCompare);
    case BySpecialty =>
      KeyedConsistent(cmp, (d: Doctor) => if d.specialty.Some? then d.specialty.value else "", localeCompare);
    case ByExperience =>
      IntDifferenceConsistent(cmp, (d: Doctor) => d.experienceYears);
    case ByPatients =>
      IntDifferenceConsistent(cmp, (d: Doctor) => d.totalPatients);
    case ByRating =>
      KeyedConsistent(cmp, (d: Doctor) => d.avgRating, CompareReal);
  }

  lemma AppointmentCompareConsistent(field: AppointmentField, localeCompare: (string, string) -> int)
    requires Consistent(localeCompare)
    ensures Consistent(AppointmentCompare(field, localeCompare))
  {
    var cmp := AppointmentCompare(field, localeCompare);
    match field
    case ById =>
      IntDifferenceConsistent(cmp, (a: Appointment) => a.id);
    case ByPatient =>
      KeyedConsistent(cmp, (a: Appointment) => a.patientName, localeCompare);
    case ByDoctor =>
      KeyedConsistent(cmp, (a: Appointment) => a.doctorName, localeCompare);
    case ByDate =>
      IntDifferenceConsistent(cmp, (a: Appointment) => a.time);
    case ByType =>
      KeyedConsistent(cmp, (a: Appointment) => a.appointmentType, localeCompare);
  }

  /** The `filteredDoctors` memo: filter, then sort by the selected column. */
  function FilteredDoctors(ds: seq<Doctor>, f: DoctorFilters, st: SortState<DoctorField>,
                           localeCompare: (string, string) -> int): seq<Doctor>
  {
    Sort(Filter(ds, (d: Doctor) => DoctorMatches(d, f)), Directed(DoctorCompare(st.field, localeCompare), st.order))
  }

  /** The `filteredAppointments` memo. */
  function FilteredAppointments(rows: seq<Appointment>, f: AppointmentFilters, st: SortState<AppointmentField>,
                                localeCompare: (string, string) -> int): seq<Appointment>
  {
    Sort(Filter(rows, (a: Appointment) => AppointmentMatches(a, f)),
         Directed(AppointmentCompare(st.field, localeCompare), st.order))
  }

  /** The doctor view holds exactly the doctors that match every filter, each
      as often as in the table, ordered by the column ascending or,
      for `Desc`, with the comparison negated. */
  lemma FilteredDoctorsSpec(ds: seq<Doctor>, f: DoctorFilters, st: SortState<DoctorField>,
                            localeCompare: (string, string) -> int)
    requires Consistent(localeCompare)
    ensures var r := FilteredDoctors(ds, f, st, localeCompare);
      var cmp := DoctorCompare(st.field, localeCompare);
      && (forall d :: d in r <==> d in ds && DoctorMatches(d, f))
      && (forall d :: multiset(r)[d] == if DoctorMatches(d, f) then multiset(ds)[d] else 0)
      && (st.order == Asc ==> forall i, j :: 0 <= i < j < |r| ==> cmp(r[i], r[j]) <= 0)
      && (st.order == Desc ==> forall i, j :: 0 <= i < j < |r| ==> cmp(r[j], r[i]) <= 0)
  {
    var kept := Filter(ds, (d: Doctor) => DoctorMatches(d, f));
    var cmp := DoctorCompare(st.field, localeCompare);
    DoctorCompareConsistent(st.field, localeCompare);
    if st.order == Asc {
      SortCorrect(kept, cmp);
    } else {
      NegatedSortReversed(kept, cmp);
    }
    FilteredPermutation(ds, (d: Doctor) => DoctorMatches(d, f), FilteredDoctors(ds, f, st, localeCompare));
  }

  /** The same for the appointment view. */
  lemma FilteredAppointmentsSpec(rows: seq<Appointment>, f: AppointmentFilters, st: SortState<AppointmentField>,
                                 localeCompare: (string, string) -> int)
    requires Consistent(localeCompare)
    ensures var r := FilteredAppointments(rows, f, st, localeCompare);
      var cmp := AppointmentCompare(st.field, localeCompare);
      && (forall a :: a in r <==> a in rows && AppointmentMatches(a, f))
      && (forall a :: multiset(r)[a] == if AppointmentMatches(a, f) then multiset(rows)[a] else 0)
      && (st.order == Asc ==> forall i, j :: 0 <= i < j < |r| ==> cmp(r[i], r[j]) <= 0)
      && (st.order == Desc ==> forall i, j :: 0 <= i < j < |r| ==> cmp(r[j], r[i]) <= 0)
  {
    var kept := Filter(rows, (a: Appointment) => AppointmentMatches(a, f));
    var cmp := AppointmentCompare(st.field, localeCompare);
    AppointmentCompareConsistent(st.field, localeCompare);
    if st.order == Asc {
      SortCorrect(kept, cmp);
    } else {
      NegatedSortReversed(kept, cmp);
    }
    FilteredPermutation(rows, (a: Appointment) => AppointmentMatches(a, f), FilteredAppointments(rows, f, st, localeCompare));
  }

  // ---------------------------------------------------------------------
  // Select options

  /** `Array.from(new Set(names))`: first occurrences, in order. */
  function Distinct(names: seq<string>): seq<string>
  {
    if names == [] then []
    else
      var d := Distinct(names[..|names| - 1]);
      if names[|names| - 1] in d then d else d + [names[|names| - 1]]
  }

  lemma {:induction false} DistinctSpec(names: seq<string>)
    ensures forall x :: x in Distinct(names) <==> x in names
    ensures forall i, j :: 0 <= i < j < |Distinct(names)| ==> Distinct(names)[i] != Distinct(names)[j]
  {
    if names != [] {
      DistinctSpec(names[..|names| - 1]);
      assert names == names[..|names| - 1] + [names[|names| - 1]];
    }
  }

  /** `doctors.map(field).filter(Boolean)`: the names present, `undefined`
      and "" dropped. */
  function FieldNames(ds: seq<Doctor>, field: Doctor -> Option<string>): seq<string>
  {
    if ds == [] then []
    else
      var s := field(ds[|ds| - 1]);
      FieldNames(ds[..|ds| - 1], field) + (if s.Some? && s.value != "" then [s.value] else [])
  }

  /** The options of a select built from a doctor field. */
  function SelectOptions(ds: seq<Doctor>, field: Doctor -> Option<string>): seq<string>
  {
    Distinct(FieldNames(ds, field))
  }

  /** The specialty select and the location select. */
  function SpecialtyOptions(ds: seq<Doctor>): seq<string>
  {
    SelectOptions(ds, (d: Doctor) => d.specialty)
  }

  function LocationOptions(ds: seq<Doctor>): seq<string>
  {
    SelectOptions(ds, (d: Doctor) => d.city)
  }

  /** A select offers each non-empty name the table holds in that field
      exactly once. */
  lemma SelectOptionsSpec(ds: seq<Doctor>, field: Doctor -> Option<string>)
    ensures forall x :: x in SelectOptions(ds, field) <==> exists d :: d in ds && field(d) == Some(x) && x != ""
    ensures forall i, j :: 0 <= i < j < |SelectOptions(ds, field)| ==> SelectOptions(ds, field)[i] != SelectOptions(ds, field)[j]
  {
    DistinctSpec(FieldNames(ds, field));
    FieldNamesSpec(ds, field);
  }

  lemma {:induction false} FieldNamesSpec(ds: seq<Doctor>, field: Doctor -> Option<string>)
    ensures forall x :: x in FieldNames(ds, field) <==> exists d :: d in ds && field(d) == Some(x) && x != ""
  {
    if ds != [] {
      FieldNamesSpec(ds[..|ds| - 1], field);
      assert ds == ds[..|ds| - 1] + [ds[|ds| - 1]];
      forall x | exists d :: d in ds && field(d) == Some(x) && x != ""
        ensures x in FieldNames(ds, field)
      {
        var d :| d in ds && field(d) == Some(x) && x != "";
        if d != ds[|ds| - 1] {
          assert d in ds[..|ds| - 1];
        }
      }
    }
  }

  /** The specialty options are the specialty names of the table, each once;
      the location options the cities. */
  lemma SpecialtyAndLocationOptions(ds: seq<Doctor>)
    ensures forall x :: x in SpecialtyOptions(ds) <==> exists d :: d in ds && d.specialty == Some(x) && x != ""
    ensures forall x :: x in LocationOptions(ds) <==> exists d :: d in ds && d.city == Some(x) && x != ""
    ensures forall i, j :: 0 <= i < j < |SpecialtyOptions(ds)| ==> SpecialtyOptions(ds)[i] != SpecialtyOptions(ds)[j]
    ensures forall i, j :: 0 <= i < j < |LocationOptions(ds)| ==> LocationOptions(ds)[i] != LocationOptions(ds)[j]
  {
    SelectOptionsSpec(ds, (d: Doctor) => d.specialty);
    SelectOptionsSpec(ds, (d: Doctor) => d.city);
  }

  // ---------------------------------------------------------------------
  // Pages

  const ItemsPerPage := 10

  /** `Math.ceil(n / 10)`. */
  function TotalPages(n: nat): (pages: nat)
    ensures pages * ItemsPerPage >= n
    ensures pages > 0 ==> (pages - 1) * ItemsPerPage < n
  {
    (n + ItemsPerPage - 1) / ItemsPerPage
  }

  /** `list.slice((page - 1) * 10, page * 10)`. */
  function PageItems<T>(s: seq<T>, page: int): seq<T>
  {
    Slice(s, (page - 1) * ItemsPerPage, page * ItemsPerPage)
  }

  /** Page `p` (from 1) shows elements `[(p-1)*10, p*10)` of the list,
      cut at its end, so never more than ten. */
  lemma PageWindow<T>(s: seq<T>, page: int)
    requires page >= 1
    ensures PageItems(s, page) == s[Min((page - 1) * ItemsPerPage, |s|)..Min(page * ItemsPerPage, |s|)]
    ensures |PageItems(s, page)| <= ItemsPerPage
  {
  }

  /** Pages 1..k laid end to end. */
  function PagesUpTo<T>(s: seq<T>, k: nat): seq<T>
  {
    if k == 0 then [] else PagesUpTo(s, k - 1) + PageItems(s, k)
  }

  lemma {:induction false} PagesUpToPrefix<T>(s: seq<T>, k: nat)
    ensures PagesUpTo(s, k) == s[..Min(k * ItemsPerPage, |s|)]
  {
    if k > 0 {
      PagesUpToPrefix(s, k - 1);
      PageWindow(s, k);
    }
  }

  /** The pages 1..totalPages, laid end to end, are the whole list. */
  lemma PagesCoverList<T>(s: seq<T>)
    ensures PagesUpTo(s, TotalPages(|s|)) == s
  {
    PagesUpToPrefix(s, TotalPages(|s|));
  }

  /** `Math.max(1, page - 1)` and `Math.min(totalPages, page + 1)`. */
  function PrevPage(page: int): int { Max(1, page - 1) }

  function NextPage(page: int, totalPages: int): int { Min(totalPages, page + 1) }

  /** From a page in range, Prev and Next stay in range, and each leaves the
      page unchanged exactly where its button is disabled. With no pages at
      all, Next (not disabled, since 1 != 0) moves to page 0. */
  lemma PageButtonsInRange(page: int, totalPages: int)
    ensures 1 <= page <= totalPages ==>
      1 <= PrevPage(page) <= totalPages && 1 <= NextPage(page, totalPages) <= totalPages
    ensures page >= 1 ==> (PrevPage(page) == page <==> page == 1)
    ensures page <= totalPages ==> (NextPage(page, totalPages) == page <==> page == totalPages)
    ensures totalPages == 0 && page >= 0 ==> NextPage(page, totalPages) == 0
  {
  }
}
