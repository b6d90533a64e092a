/**
 * Booking: the guard sequence of the appointment handler, each guard with
 * its own refusal, followed by the insertion of one Upcoming appointment.
 */
module AppointmentController {
  import opened Common
  import opened Collection
  import opened UserModel
  import opened DoctorModel
  import opened AppointmentModel
  import opened Database

  /** The weekday name of `date` is one of the doctor's days and `time` is
      one of the doctor's slot labels, both by exact string membership.
      `weekday` stands for JavaScript's conversion of a date string to an
      English weekday name; an absent or unparseable date gives a string a
      schedule does not list in practice. An absent `time` is in no list of
      strings, so it is never available. */
  predicate IsAvailable(a: Availability, weekday: string -> string, date: string, time: Option<string>)
    ensures time.None? ==> !IsAvailable(a, weekday, date, time)
    ensures |a.days| == 0 || |a.timeSlots| == 0 ==> !IsAvailable(a, weekday, date, time)
    ensures time.Some? && weekday(date) in a.days && time.value in a.timeSlots ==> IsAvailable(a, weekday, date, time)
  {
    time.Some? && weekday(date) in a.days && time.value in a.timeSlots
  }

  /** The reference names a stored user whose role is Patient. */
  predicate IsPatient(users: Table<User>, ref: Option<Id>)
  {
    var u := Lookup(users, ref);
    u.Some? && u.value.role == Patient
  }

  /** `createAppointment`. Only the caller's role is consulted, never the
      caller's id: a Patient may book for any patient. */
  method CreateAppointment(db: Store, caller: Claims, patientId: Option<Id>, doctorId: Option<Id>,
                           date: string, time: Option<string>, weekday: string -> string)
    returns (r: Outcome<Doc<Appointment>>)
    requires db.Valid()
    modifies db`appointments, db`nextId
    ensures db.Valid()
    ensures r.Failure? ==> db.appointments == old(db.appointments) && db.nextId == old(db.nextId)
    ensures caller.role != Patient ==> r == Failure(AccessDenied)
    ensures caller.role == Patient ==>
      if !IsPatient(db.users, patientId) then r == Failure(InvalidPatient)
      else match Lookup(db.doctors, doctorId)
        case None => r == Failure(InvalidDoctor)
        case Some(doc) =>
          if !IsAvailable(doc.availability, weekday, date, time) then r == Failure(DoctorUnavailable)
          else if HasConflict(old(db.appointments), doctorId.value, date, time.value) then r == Failure(SlotTaken)
          else if date == "" || time.value == "" then r == Failure(ValidationFailed)
          else r.Success?
    ensures r.Success? ==>
      && patientId.Some? && doctorId.Some? && time.Some?
      && r.code == 201
      && r.value == Doc(old(db.nextId), Appointment(patientId.value, doctorId.value, date, time.value, Upcoming, None))
      && db.appointments == old(db.appointments) + [r.value]
      && HasConflict(db.appointments, doctorId.value, date, time.value)
  {
    if caller.role != Patient {
      return Failure(AccessDenied);
    }

    var patient := Lookup(db.users, patientId);
    if patient.None? || patient.value.role != Patient {
      return Failure(InvalidPatient);
    }

    var doctor := Lookup(db.doctors, doctorId);
    if doctor.None? {
      return Failure(InvalidDoctor);
    }

    if !IsAvailable(doctor.value.availability, weekday, date, time) {
      return Failure(DoctorUnavailable);
    }

    var conflicting := Conflicting(db.appointments, doctorId.value, date, time.value);
    if conflicting.Some? {
      return Failure(SlotTaken);
    }

    var appointment := NewAppointment(patientId.value, doctorId.value, date, time.value, Some(Upcoming));
    if appointment.None? {
      return Failure(ValidationFailed);
    }
    var id := db.NewId();
    var saved := Doc(id, appointment.value);
    BookingKeepsSlotsExclusive(db.appointments, saved);
    KeyedInsert(old(db.appointments), id, appointment.value);
    db.appointments := db.appointments + [saved];
    assert Occupies(db.appointments[|db.appointments| - 1].data, doctorId.value, date, time.value);
    return Success(201, saved);
  }
}
