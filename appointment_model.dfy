/**
 * The Appointment schema and the slot-exclusivity rule built on it: a slot
 * is a (doctor, date, time) triple whose date and time are compared as
 * strings, and only an `Upcoming` appointment occupies its slot.
 */
module AppointmentModel {
  import opened Common
  import opened Collection

  datatype Status = Upcoming | Done | Canceled

  /** The status an appointment gets when it is saved without one. */
  const DefaultStatus: Status := Upcoming

  /** `date` and `time` are plain strings; `transferredTo` is an optional
      reference to another doctor. */
  datatype Appointment = Appointment(patient: Id, doctor: Id, date: string, time: string,
                                     status: Status, transferredTo: Option<Id>)

  /** The schema's `required` string fields (an empty string fails them). */
  predicate ValidAppointment(a: Appointment)
  {
    a.date != "" && a.time != ""
  }

  /** `new Appointment({...}).save()`: accepted when date and time are
      non-empty; a missing status becomes the default. */
  function NewAppointment(patient: Id, doctor: Id, date: string, time: string,
                          status: Option<Status>): (r: Option<Appointment>)
    ensures r.Some? <==> date != "" && time != ""
    ensures r.Some? ==> ValidAppointment(r.value)
    ensures r.Some? ==> r.value.patient == patient && r.value.doctor == doctor
                        && r.value.date == date && r.value.time == time
                        && r.value.transferredTo.None?
    ensures r.Some? && status.None? ==> r.value.status == DefaultStatus
    ensures r.Some? && status.Some? ==> r.value.status == status.value
  {
    if date == "" || time == "" then None
    else Some(Appointment(patient, doctor, date, time, status.OrElse(DefaultStatus), None))
  }

  /** The appointment holds the slot: it is for this doctor, date and time
      and its status is the blocking one. */
  predicate Occupies(a: Appointment, doctor: Id, date: string, time: string)
  {
    a.doctor == doctor && a.date == date && a.time == time && a.status == Upcoming
  }

  /** Some appointment in the collection holds the slot. */
  predicate HasConflict(t: Table<Appointment>, doctor: Id, date: string, time: string)
  {
    exists i | 0 <= i < |t| :: Occupies(t[i].data, doctor, date, time)
  }

  /** The conflict query of the booking handler: the first appointment
      holding the slot. */
  function Conflicting(t: Table<Appointment>, doctor: Id, date: string, time: string): (k: Option<nat>)
    ensures k.Some? <==> HasConflict(t, doctor, date, time)
    ensures k.Some? ==> k.value < |t| && Occupies(t[k.value].data, doctor, date, time)
  {
    First(t, (d: Doc<Appointment>) => Occupies(d.data, doctor, date, time))
  }

  /** Two appointments that are both Upcoming in the same slot. */
  predicate SameUpcomingSlot(a: Appointment, b: Appointment)
  {
    a.status == Upcoming && Occupies(b, a.doctor, a.date, a.time)
  }

  /** The exclusivity invariant: no two appointments are Upcoming in the
      same (doctor, date, time) slot. */
  ghost predicate SlotsExclusive(t: Table<Appointment>)
  {
    forall i, j | 0 <= i < j < |t| :: !SameUpcomingSlot(t[i].data, t[j].data)
  }

  /** Under the invariant a slot is held by at most one appointment. */
  lemma AtMostOneUpcoming(t: Table<Appointment>, doctor: Id, date: string, time: string, i: nat, j: nat)
    requires SlotsExclusive(t)
    requires i < |t| && j < |t|
    requires Occupies(t[i].data, doctor, date, time) && Occupies(t[j].data, doctor, date, time)
    ensures i == j
  {
    if i < j {
      assert SameUpcomingSlot(t[i].data, t[j].data);
    } else if j < i {
      assert SameUpcomingSlot(t[j].data, t[i].data);
    }
  }

  /** Appending an appointment whose slot is free keeps the invariant: the
      conflict check is what makes a booking safe. */
  lemma BookingKeepsSlotsExclusive(t: Table<Appointment>, d: Doc<Appointment>)
    requires SlotsExclusive(t)
    requires !HasConflict(t, d.data.doctor, d.data.date, d.data.time)
    ensures SlotsExclusive(t + [d])
  {
    var u := t + [d];
    forall i, j | 0 <= i < j < |u|
      ensures !SameUpcomingSlot(u[i].data, u[j].data)
    {
      if j == |t| {
        assert u[i] == t[i] && u[j] == d;
        assert !Occupies(t[i].data, d.data.doctor, d.data.date, d.data.time);
      } else {
        assert u[i] == t[i] && u[j] == t[j];
      }
    }
  }

  /** Appointments that are Done or Canceled never block: adding one
      changes no slot's availability. */
  lemma FinishedNeverBlocks(t: Table<Appointment>, d: Doc<Appointment>, doctor: Id, date: string, time: string)
    requires d.data.status != Upcoming
    ensures HasConflict(t + [d], doctor, date, time) == HasConflict(t, doctor, date, time)
  {
    var u := t + [d];
    if HasConflict(u, doctor, date, time) {
      var i :| 0 <= i < |u| && Occupies(u[i].data, doctor, date, time);
      assert i < |t| && u[i] == t[i];
    }
    if HasConflict(t, doctor, date, time) {
      var i :| 0 <= i < |t| && Occupies(t[i].data, doctor, date, time);
      assert u[i] == t[i];
    }
  }
}
