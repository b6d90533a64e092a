/**
 * The Doctor schema: a required reference to the doctor's user, lists of
 * specialities and qualifications, and a weekly availability.
 */
module DoctorModel {
  import opened Common

  /** Weekday names such as "Monday" and opaque slot labels such as
      "10:00-12:00"; both are matched by exact string membership. */
  datatype Availability = Availability(days: seq<string>, timeSlots: seq<string>)

  datatype Doctor = Doctor(user: Id, specialities: seq<string>, qualifications: seq<string>,
                           availability: Availability)

  /** `new Doctor({...})`: array fields the body leaves out are saved empty. */
  function NewDoctor(user: Id, specialities: Option<seq<string>>, qualifications: Option<seq<string>>,
                     availability: Option<Availability>): (r: Doctor)
    ensures r.user == user
    ensures specialities.None? ==> r.specialities == []
    ensures qualifications.None? ==> r.qualifications == []
    ensures availability.None? ==> r.availability.days == [] && r.availability.timeSlots == []
    ensures specialities.Some? ==> r.specialities == specialities.value
    ensures qualifications.Some? ==> r.qualifications == qualifications.value
    ensures availability.Some? ==> r.availability == availability.value
  {
    Doctor(user, specialities.OrElse([]), qualifications.OrElse([]),
           availability.OrElse(Availability([], [])))
  }
}
