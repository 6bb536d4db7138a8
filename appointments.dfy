/** The appointments table and the route handlers of server.js that read and
    change it. Each handler body is one atomic method of the class Clinic;
    the doctors table (schedule and active status) is part of the same state. */
module Appointments {
  import opened Common
  import opened Clock
  import opened Calendar
  import opened WeeklySchedule
  import opened SlotGrid

  datatype Status = Scheduled | Completed | Canceled

  /** A row of the appointments table. */
  datatype Appointment = Appointment(
    id: nat,
    patient: nat,
    doctor: nat,
    date: Date,
    time: Minute,
    status: Status,
    previousDate: Option<Date>,
    previousTime: Option<Minute>,
    rescheduleCount: nat,
    cancellationReason: Option<string>)

  datatype DoctorStatus = Active | Inactive

  /** A row of the doctors table, as far as scheduling reads it. */
  datatype Doctor = Doctor(schedule: StoredSchedule, status: DoctorStatus)

  datatype StoreError =
    | DoctorNotFound
    | SlotTaken
    | AppointmentNotFound
    | HasScheduledAppointments
    | InvalidSchedule

  /** What a state-changing handler answers: done, or refused with no change. */
  datatype Response = Done | Refused(error: StoreError)

  /** The answers of the check-slot-availability handler; CheckFailed is the
      500 answer when the stored schedule cannot be read. */
  datatype SlotCheck = Free | AlreadyBooked | NoSuchDoctor | DayOff | OutsideHours | CheckFailed

  type Rows = map<nat, Appointment>

  /** A scheduled appointment holds the (doctor, date, time) slot. */
  predicate Holds(a: Appointment, doctor: nat, date: Date, time: Minute)
  {
    a.status == Scheduled && a.doctor == doctor && a.date == date && a.time == time
  }

  /** Some scheduled appointment other than `except` holds the (doctor, date,
      time) slot: the lookup the booking, rescheduling and slot-check
      handlers run before they write. */
  predicate TakenExcept(rows: Rows, except: Option<nat>, doctor: nat, date: Date, time: Minute)
  {
    exists k :: k in rows && Some(k) != except && Holds(rows[k], doctor, date, time)
  }

  /** The slot named by a time text is held by a scheduled appointment; a text
      that is not an "HH:MM" time matches no stored time. */
  predicate TimeTaken(rows: Rows, doctor: nat, date: Date, time: string)
  {
    ParseTime(time).Some? && TakenExcept(rows, None, doctor, date, ParseTime(time).value)
  }

  /** The central invariant: no two scheduled appointments share a
      (doctor, date, time) slot. */
  ghost predicate AtMostOneScheduled(rows: Rows)
  {
    forall i, j :: i in rows && j in rows && i != j && rows[i].status == Scheduled && rows[j].status == Scheduled ==>
      rows[i].doctor != rows[j].doctor || rows[i].date != rows[j].date || rows[i].time != rows[j].time
  }

  /** Completed and canceled rows are terminal: an operation leaves them as they were. */
  ghost predicate ClosedRowsFrozen(before: Rows, after: Rows)
  {
    forall k :: k in before && before[k].status != Scheduled ==> k in after && after[k] == before[k]
  }

  /** The row a booking inserts: scheduled, never rescheduled. */
  function NewAppointment(id: nat, patient: nat, doctor: nat, date: Date, time: Minute): (a: Appointment)
    ensures a.status == Scheduled && a.rescheduleCount == 0
  {
    Appointment(id, patient, doctor, date, time, Scheduled, None, None, 0, None)
  }

  /** The row a reschedule writes: the old date and time become the previous
      ones and the count goes up by one. */
  function Rescheduled(a: Appointment, newDate: Date, newTime: Minute): (b: Appointment)
    ensures b.date == newDate && b.time == newTime
    ensures b.previousDate == Some(a.date) && b.previousTime == Some(a.time)
    ensures b.rescheduleCount == a.rescheduleCount + 1
    ensures b.status == a.status && b.id == a.id && b.patient == a.patient && b.doctor == a.doctor
    ensures b.cancellationReason == a.cancellationReason
  {
    a.(date := newDate, time := newTime, previousDate := Some(a.date), previousTime := Some(a.time),
       rescheduleCount := a.rescheduleCount + 1)
  }

  /** Replacing one row keeps the invariant when the new row, if scheduled,
      takes a slot no other row holds. */
  lemma UpdateKeepsAtMostOne(rows: Rows, k: nat, a: Appointment)
    requires AtMostOneScheduled(rows)
    requires a.status == Scheduled ==> !TakenExcept(rows, Some(k), a.doctor, a.date, a.time)
    ensures AtMostOneScheduled(rows[k := a])
  {
    var r := rows[k := a];
    forall i, j | i in r && j in r && i != j && r[i].status == Scheduled && r[j].status == Scheduled
      ensures r[i].doctor != r[j].doctor || r[i].date != r[j].date || r[i].time != r[j].time
    {
      if i == k {
        assert !Holds(rows[j], a.doctor, a.date, a.time);
      } else if j == k {
        assert !Holds(rows[i], a.doctor, a.date, a.time);
      }
    }
  }

  /** The scheduled times of a doctor's date, as the TIME column texts the
      available-slots query returns. */
  function BookedTimes(rows: Rows, doctor: nat, date: Date): set<string>
  {
    set k | k in rows && rows[k].status == Scheduled && rows[k].doctor == doctor && rows[k].date == date
      :: ColumnText(rows[k].time)
  }

  /** A slot text counts as booked exactly when a scheduled appointment of the
      doctor on that date is at that time. */
  lemma BookedTimesMatch(rows: Rows, doctor: nat, date: Date, slot: string)
    ensures IsBooked(slot, BookedTimes(rows, doctor, date)) <==>
            exists k :: k in rows && Holds(rows[k], doctor, date, rows[k].time) && TimeText(rows[k].time) == slot
  {
    var booked := BookedTimes(rows, doctor, date);
    if IsBooked(slot, booked) {
      var b :| b in booked && Prefix(b, 5) == slot;
      var k :| k in rows && rows[k].status == Scheduled && rows[k].doctor == doctor && rows[k].date == date
               && b == ColumnText(rows[k].time);
      assert Holds(rows[k], doctor, date, rows[k].time) && TimeText(rows[k].time) == slot;
    }
    if exists k :: k in rows && Holds(rows[k], doctor, date, rows[k].time) && TimeText(rows[k].time) == slot {
      var k :| k in rows && Holds(rows[k], doctor, date, rows[k].time) && TimeText(rows[k].time) == slot;
      assert ColumnText(rows[k].time) in booked;
    }
  }

  /** The template a doctor row yields: a NULL column reads as {}. */
  function TemplateOf(d: Doctor): Schedule
    requires !d.schedule.Unparseable?
  {
    if d.schedule.Stored? then d.schedule.entries else []
  }

  /** The range test of check-slot-availability, made on the texts: the time
      is accepted unless it sorts before the start or after the end. */
  predicate WithinHours(time: string, h: DayHours)
  {
    !(LexLess(time, h.start) || LexLess(h.end, time))
  }

  /** On well-formed "HH:MM" texts the text test is start <= time <= end: the
      end of the working window is accepted. */
  lemma WithinHoursMeaning(time: string, h: DayHours, t: Minute, s: Minute, e: Minute)
    requires ParseTime(time) == Some(t) && ParseTime(h.start) == Some(s) && ParseTime(h.end) == Some(e)
    ensures WithinHours(time, h) <==> s <= t <= e
  {
    TimeTextParse(time, t);
    TimeTextParse(h.start, s);
    TimeTextParse(h.end, e);
    LexLessTimeText(t, s);
    LexLessTimeText(e, t);
  }

  /** The slot check accepts the end of the window, yet the grid never offers
      it: the two handlers disagree on that one time. */
  lemma EndCheckedButNeverOffered(h: DayHours, s: Minute, e: Minute)
    requires ParseTime(h.start) == Some(s) && ParseTime(h.end) == Some(e) && s <= e
    ensures WithinHours(h.end, h)
    ensures h.end !in DaySlots(h)
  {
    WithinHoursMeaning(h.end, h, e, s, e);
    var g := Grid(s, e);
    TextsOfAt(g);
    GridShape(s, e);
    var texts := TextsOf(g);
    forall i | 0 <= i < |texts| ensures texts[i] != h.end {
      ParseTimeText(g[i]);
    }
  }

  /** The appointments and doctors tables. */
  class Clinic {
    var doctors: map<nat, Doctor>
    var appointments: Rows
    /** The next AUTO_INCREMENT id. */
    var nextId: nat

    ghost predicate IdsFresh()
      reads this
    {
      forall k :: k in appointments ==> k < nextId && appointments[k].id == k
    }

    ghost predicate Valid()
      reads this
    {
      IdsFresh() && AtMostOneScheduled(appointments)
    }

    constructor (doctors: map<nat, Doctor>)
      ensures Valid()
      ensures this.doctors == doctors && appointments == map[] && nextId == 1
    {
      this.doctors := doctors;
      appointments := map[];
      nextId := 1;
    }

    /** GET /api/available-slots (server.js:185-259). */
    method AvailableSlots(doctorId: nat, date: Date) returns (r: Result<seq<string>, StoreError>)
      ensures doctorId !in doctors ==> r == Failure(DoctorNotFound)
      ensures doctorId in doctors && doctors[doctorId].schedule.Unparseable? ==> r == Failure(InvalidSchedule)
      ensures doctorId in doctors && !doctors[doctorId].schedule.Unparseable? ==>
                r.Success? && IsSubsequence(r.value, WorkingSlots(Lookup(TemplateOf(doctors[doctorId]), WeekdayKey(date))))
      ensures r.Success? ==> forall slot :: slot in r.value <==>
                slot in WorkingSlots(Lookup(TemplateOf(doctors[doctorId]), WeekdayKey(date))) &&
                !exists k :: k in appointments && Holds(appointments[k], doctorId, date, appointments[k].time)
                             && TimeText(appointments[k].time) == slot
    {
      if doctorId !in doctors {
        return Failure(DoctorNotFound);
      }
      var doctor := doctors[doctorId];
      if doctor.schedule.Unparseable? {
        return Failure(InvalidSchedule);
      }
      var template := TemplateOf(doctor);
      var hours := Lookup(template, WeekdayKey(date));
      if hours.None? || hours.value.start == "" || hours.value.end == "" {
        return Success([]);
      }
      var grid := GenerateSlots(hours.value);
      var booked := BookedTimes(appointments, doctorId, date);
      var free := Available(grid, booked);
      AvailableKeepsOrder(grid, booked);
      forall slot ensures IsBooked(slot, booked) <==>
        exists k :: k in appointments && Holds(appointments[k], doctorId, date, appointments[k].time)
                    && TimeText(appointments[k].time) == slot
      {
        BookedTimesMatch(appointments, doctorId, date, slot);
      }
      r := Success(free);
    }

    /** GET /api/check-slot-availability (server.js:1322-1368). */
    method CheckSlot(doctorId: nat, date: Date, time: string) returns (r: SlotCheck)
      ensures r == AlreadyBooked <==> TimeTaken(appointments, doctorId, date, time)
      ensures r == NoSuchDoctor <==> !TimeTaken(appointments, doctorId, date, time) && doctorId !in doctors
      ensures r == CheckFailed <==>
                !TimeTaken(appointments, doctorId, date, time) && doctorId in doctors &&
                !doctors[doctorId].schedule.Stored?
      ensures r == DayOff <==>
                !TimeTaken(appointments, doctorId, date, time) && doctorId in doctors &&
                doctors[doctorId].schedule.Stored? && HoursOn(doctors[doctorId].schedule.entries, date).None?
      ensures r == OutsideHours <==>
                !TimeTaken(appointments, doctorId, date, time) && doctorId in doctors &&
                doctors[doctorId].schedule.Stored? && HoursOn(doctors[doctorId].schedule.entries, date).Some? &&
                !WithinHours(time, HoursOn(doctors[doctorId].schedule.entries, date).value)
      ensures r == Free <==>
                !TimeTaken(appointments, doctorId, date, time) && doctorId in doctors &&
                doctors[doctorId].schedule.Stored? && HoursOn(doctors[doctorId].schedule.entries, date).Some? &&
                WithinHours(time, HoursOn(doctors[doctorId].schedule.entries, date).value)
    {
      var t := ParseTime(time);
      if t.Some? && TakenExcept(appointments, None, doctorId, date, t.value) {
        return AlreadyBooked;
      }
      if doctorId !in doctors {
        return NoSuchDoctor;
      }
      var stored := doctors[doctorId].schedule;
      if !stored.Stored? {
        // a missing schedule and unreadable schedule text both make the
        // handler fail, and it answers 500
        return CheckFailed;
      }
      var hours := HoursOn(stored.entries, date);
      if hours.None? {
        return DayOff;
      }
      if !WithinHours(time, hours.value) {
        return OutsideHours;
      }
      return Free;
    }

    /** POST /api/appointments as intended (server.js:1371-1425): the doctor
        must exist and the slot must be free, checked and inserted in one
        transaction. */
    method Book(patient: nat, doctorId: nat, date: Date, time: Minute) returns (r: Result<nat, StoreError>)
      requires Valid()
      modifies this
      ensures Valid()
      ensures doctors == old(doctors)
      ensures ClosedRowsFrozen(old(appointments), appointments)
      ensures doctorId !in doctors ==>
                r == Failure(DoctorNotFound) && appointments == old(appointments) && nextId == old(nextId)
      ensures doctorId in doctors && TakenExcept(old(appointments), None, doctorId, date, time) ==>
                r == Failure(SlotTaken) && appointments == old(appointments) && nextId == old(nextId)
      ensures doctorId in doctors && !TakenExcept(old(appointments), None, doctorId, date, time) ==>
                r == Success(old(nextId)) && nextId == old(nextId) + 1 &&
                appointments == old(appointments)[old(nextId) := NewAppointment(old(nextId), patient, doctorId, date, time)]
    {
      if doctorId !in doctors {
        return Failure(DoctorNotFound);
      }
      if TakenExcept(appointments, None, doctorId, date, time) {
        return Failure(SlotTaken);
      }
      var a := NewAppointment(nextId, patient, doctorId, date, time);
      assert !TakenExcept(appointments, Some(nextId), doctorId, date, time);
      UpdateKeepsAtMostOne(appointments, nextId, a);
      appointments := appointments[nextId := a];
      r := Success(nextId);
      nextId := nextId + 1;
    }

    /** POST /api/appointments as registered first (server.js:154-168): it
        inserts without looking at the doctor or the slot. Express dispatches
        to this handler, so it is the booking that actually runs. */
    method BookUnguarded(patient: nat, doctorId: nat, date: Date, time: Minute) returns (id: nat)
      requires IdsFresh()
      modifies this
      ensures IdsFresh()
      ensures doctors == old(doctors)
      ensures id == old(nextId) && nextId == old(nextId) + 1
      ensures appointments == old(appointments)[id := NewAppointment(id, patient, doctorId, date, time)]
    {
      id := nextId;
      appointments := appointments[id := NewAppointment(id, patient, doctorId, date, time)];
      nextId := nextId + 1;
    }

    /** The guard shared by reschedule and patient cancel: the appointment
        exists, belongs to the requesting patient and is still scheduled. */
    predicate PatientMayChange(appointmentId: nat, requester: nat)
      reads this
    {
      appointmentId in appointments && appointments[appointmentId].patient == requester &&
      appointments[appointmentId].status == Scheduled
    }

    /** PUT /api/appointments/:id/reschedule as intended (server.js:1598-1654,
        the same as 627-683). */
    method Reschedule(appointmentId: nat, requester: nat, newDate: Date, newTime: Minute) returns (r: Response)
      requires Valid()
      modifies this
      ensures Valid()
      ensures doctors == old(doctors) && nextId == old(nextId)
      ensures ClosedRowsFrozen(old(appointments), appointments)
      ensures !old(PatientMayChange(appointmentId, requester)) ==>
                r == Refused(AppointmentNotFound) && appointments == old(appointments)
      ensures old(PatientMayChange(appointmentId, requester)) &&
              TakenExcept(old(appointments), Some(appointmentId), old(appointments)[appointmentId].doctor, newDate, newTime) ==>
                r == Refused(SlotTaken) && appointments == old(appointments)
      ensures old(PatientMayChange(appointmentId, requester)) &&
              !TakenExcept(old(appointments), Some(appointmentId), old(appointments)[appointmentId].doctor, newDate, newTime) ==>
                r == Done &&
                appointments == old(appointments)[appointmentId := Rescheduled(old(appointments)[appointmentId], newDate, newTime)]
    {
      if !PatientMayChange(appointmentId, requester) {
        return Refused(AppointmentNotFound);
      }
      var current := appointments[appointmentId];
      if TakenExcept(appointments, Some(appointmentId), current.doctor, newDate, newTime) {
        return Refused(SlotTaken);
      }
      var moved := Rescheduled(current, newDate, newTime);
      UpdateKeepsAtMostOne(appointments, appointmentId, moved);
      appointments := appointments[appointmentId := moved];
      r := Done;
    }

    /** PUT /api/appointments/:id/reschedule as registered first
        (server.js:377-416): only the owner is checked; the status and the
        target slot are not. Express dispatches to this handler. */
    method RescheduleUnguarded(appointmentId: nat, requester: nat, newDate: Date, newTime: Minute) returns (r: Response)
      modifies this
      ensures doctors == old(doctors) && nextId == old(nextId)
      ensures !(appointmentId in old(appointments) && old(appointments)[appointmentId].patient == requester) ==>
                r == Refused(AppointmentNotFound) && appointments == old(appointments)
      ensures appointmentId in old(appointments) && old(appointments)[appointmentId].patient == requester ==>
                r == Done &&
                appointments == old(appointments)[appointmentId := Rescheduled(old(appointments)[appointmentId], newDate, newTime)]
    {
      if !(appointmentId in appointments && appointments[appointmentId].patient == requester) {
        return Refused(AppointmentNotFound);
      }
      appointments := appointments[appointmentId := Rescheduled(appointments[appointmentId], newDate, newTime)];
      r := Done;
    }

    /** PUT /api/appointments/:id/cancel (server.js:419-448; the later copies
        at 686 and 1657 do the same). */
    method CancelByPatient(appointmentId: nat, requester: nat, reason: string) returns (r: Response)
      requires Valid()
      modifies this
      ensures Valid()
      ensures doctors == old(doctors) && nextId == old(nextId)
      ensures ClosedRowsFrozen(old(appointments), appointments)
      ensures !old(PatientMayChange(appointmentId, requester)) ==>
                r == Refused(AppointmentNotFound) && appointments == old(appointments)
      ensures old(PatientMayChange(appointmentId, requester)) ==>
                r == Done &&
                appointments == old(appointments)[appointmentId :=
                  old(appointments)[appointmentId].(status := Canceled, cancellationReason := Some(reason))]
    {
      if !PatientMayChange(appointmentId, requester) {
        return Refused(AppointmentNotFound);
      }
      var a := appointments[appointmentId].(status := Canceled, cancellationReason := Some(reason));
      UpdateKeepsAtMostOne(appointments, appointmentId, a);
      appointments := appointments[appointmentId := a];
      r := Done;
    }

    /** The guard of the doctor's handlers: the appointment exists, belongs to
        the requesting doctor and is still scheduled. */
    predicate DoctorMayClose(appointmentId: nat, doctorId: nat)
      reads this
    {
      appointmentId in appointments && appointments[appointmentId].doctor == doctorId &&
      appointments[appointmentId].status == Scheduled
    }

    /** The doctor closes one of their scheduled appointments: complete
        (server.js:1428-1446) or cancel (server.js:1449-1467), which stores no
        reason. */
    method CloseByDoctor(appointmentId: nat, doctorId: nat, outcome: Status) returns (r: Response)
      requires Valid()
      requires outcome != Scheduled
      modifies this
      ensures Valid()
      ensures doctors == old(doctors) && nextId == old(nextId)
      ensures ClosedRowsFrozen(old(appointments), appointments)
      ensures !old(DoctorMayClose(appointmentId, doctorId)) ==>
                r == Refused(AppointmentNotFound) && appointments == old(appointments)
      ensures old(DoctorMayClose(appointmentId, doctorId)) ==>
                r == Done &&
                appointments == old(appointments)[appointmentId := old(appointments)[appointmentId].(status := outcome)]
    {
      if !DoctorMayClose(appointmentId, doctorId) {
        return Refused(AppointmentNotFound);
      }
      var a := appointments[appointmentId].(status := outcome);
      UpdateKeepsAtMostOne(appointments, appointmentId, a);
      appointments := appointments[appointmentId := a];
      r := Done;
    }

    /** PUT /api/admin/appointments/:id/status (server.js:1998-2015): writes
        any status to any existing row. */
    method SetStatus(appointmentId: nat, status: Status) returns (r: Response)
      requires IdsFresh()
      modifies this
      ensures IdsFresh()
      ensures doctors == old(doctors) && nextId == old(nextId)
      ensures appointmentId !in old(appointments) ==>
                r == Refused(AppointmentNotFound) && appointments == old(appointments)
      ensures appointmentId in old(appointments) ==>
                r == Done &&
                appointments == old(appointments)[appointmentId := old(appointments)[appointmentId].(status := status)]
    {
      if appointmentId !in appointments {
        return Refused(AppointmentNotFound);
      }
      appointments := appointments[appointmentId := appointments[appointmentId].(status := status)];
      r := Done;
    }

    /** PUT /api/admin/doctors/:id/status (server.js:2055-2087): a doctor with
        scheduled appointments cannot be made inactive. */
    method SetDoctorStatus(doctorId: nat, status: DoctorStatus) returns (r: Response)
      modifies this
      ensures appointments == old(appointments) && nextId == old(nextId)
      ensures r == Refused(HasScheduledAppointments) <==>
                status == Inactive && exists k :: k in appointments && appointments[k].doctor == doctorId &&
                                                  appointments[k].status == Scheduled
      ensures r == Refused(DoctorNotFound) <==> r != Refused(HasScheduledAppointments) && doctorId !in old(doctors)
      ensures r != Refused(HasScheduledAppointments) && doctorId in old(doctors) ==> r == Done
      ensures r == Done ==> doctorId in old(doctors) && doctors == old(doctors)[doctorId := old(doctors)[doctorId].(status := status)]
      ensures r != Done ==> doctors == old(doctors)
      ensures r == Done && status == Inactive ==>
                forall k :: k in appointments && appointments[k].doctor == doctorId ==> appointments[k].status != Scheduled
    {
      if status == Inactive &&
         exists k :: k in appointments && appointments[k].doctor == doctorId && appointments[k].status == Scheduled {
        return Refused(HasScheduledAppointments);
      }
      if doctorId !in doctors {
        return Refused(DoctorNotFound);
      }
      doctors := doctors[doctorId := doctors[doctorId].(status := status)];
      r := Done;
    }
  }

  /** Two patients asking for the same free slot one after the other: the
      first gets it, the second is refused and the table holds one booking. */
  method BookSameSlotTwice(clinic: Clinic, patientA: nat, patientB: nat, doctorId: nat, date: Date, time: Minute)
    returns (first: Result<nat, StoreError>, second: Result<nat, StoreError>)
    requires clinic.Valid()
    requires doctorId in clinic.doctors && !TakenExcept(clinic.appointments, None, doctorId, date, time)
    modifies clinic
    ensures clinic.Valid()
    ensures first.Success? && second == Failure(SlotTaken)
  {
    first := clinic.Book(patientA, doctorId, date, time);
    assert Holds(clinic.appointments[first.value], doctorId, date, time);
    second := clinic.Book(patientB, doctorId, date, time);
  }

  /** Two patients asking the booking that actually runs for the same slot
      of a new clinic: both get a row, and two scheduled rows hold one slot. */
  method BookUnguardedTwice(doctors: map<nat, Doctor>, patientA: nat, patientB: nat, doctorId: nat, date: Date, time: Minute)
    returns (clinic: Clinic, first: nat, second: nat)
    ensures first != second && first in clinic.appointments && second in clinic.appointments
    ensures Holds(clinic.appointments[first], doctorId, date, time) && Holds(clinic.appointments[second], doctorId, date, time)
    ensures !AtMostOneScheduled(clinic.appointments)
  {
    clinic := new Clinic(doctors);
    first := clinic.BookUnguarded(patientA, doctorId, date, time);
    second := clinic.BookUnguarded(patientB, doctorId, date, time);
    assert clinic.appointments[first] == NewAppointment(first, patientA, doctorId, date, time);
  }

  /** The booking that actually runs can double-book: from a table with one
      scheduled appointment, inserting a second one at its slot breaks the
      invariant. */
  lemma UnguardedBookingDoubleBooks(date: Date, time: Minute)
    ensures var rows := map[1 := NewAppointment(1, 10, 7, date, time)];
            AtMostOneScheduled(rows) && !AtMostOneScheduled(rows[2 := NewAppointment(2, 11, 7, date, time)])
  {
    var rows := map[1 := NewAppointment(1, 10, 7, date, time)];
    var after := rows[2 := NewAppointment(2, 11, 7, date, time)];
    assert after[1].time == after[2].time && after[1].date == after[2].date && after[1].doctor == after[2].doctor;
  }

  /** The reschedule that actually runs can move an appointment onto a
      taken slot, and can move a completed or canceled appointment. */
  lemma UnguardedRescheduleBreaksInvariants(d1: Date, d2: Date, t1: Minute, t2: Minute)
    requires (d1, t1) != (d2, t2)
    ensures var rows := map[1 := NewAppointment(1, 10, 7, d1, t1), 2 := NewAppointment(2, 11, 7, d2, t2)];
            AtMostOneScheduled(rows) && !AtMostOneScheduled(rows[2 := Rescheduled(rows[2], d1, t1)])
    ensures var done := NewAppointment(1, 10, 7, d1, t1).(status := Completed);
            !ClosedRowsFrozen(map[1 := done], map[1 := Rescheduled(done, d2, t2)])
  {
    var rows := map[1 := NewAppointment(1, 10, 7, d1, t1), 2 := NewAppointment(2, 11, 7, d2, t2)];
    var after := rows[2 := Rescheduled(rows[2], d1, t1)];
    assert after[1].time == after[2].time && after[1].date == after[2].date;
    var done := NewAppointment(1, 10, 7, d1, t1).(status := Completed);
    var moved := map[1 := Rescheduled(done, d2, t2)];
    assert done.status != Scheduled && moved[1].previousDate != done.previousDate;
  }

  /** The admin status update can reopen a canceled appointment, even onto a
      slot that has since been booked again. */
  lemma AdminOverwriteReopens(date: Date, time: Minute)
    ensures var rows := map[1 := NewAppointment(1, 10, 7, date, time).(status := Canceled),
                            2 := NewAppointment(2, 11, 7, date, time)];
            AtMostOneScheduled(rows) &&
            !AtMostOneScheduled(rows[1 := rows[1].(status := Scheduled)]) &&
            !ClosedRowsFrozen(rows, rows[1 := rows[1].(status := Scheduled)])
  {
    var rows := map[1 := NewAppointment(1, 10, 7, date, time).(status := Canceled),
                     2 := NewAppointment(2, 11, 7, date, time)];
    var after := rows[1 := rows[1].(status := Scheduled)];
    assert after[1].time == after[2].time && after[1].date == after[2].date;
    assert after[1] != rows[1];
  }
}
