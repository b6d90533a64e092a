/**
 * The database the controllers share: one collection per model, and the
 * ObjectId allocator that names new documents.
 */
module Database {
  import opened Common
  import opened Collection
  import opened UserModel
  import opened DoctorModel
  import opened HospitalModel
  import opened AppointmentModel
  import opened FeedbackModel

  /** Every document of the table satisfies its schema. */
  ghost predicate AllValid<T>(t: Table<T>, valid: T -> bool)
  {
    forall i | 0 <= i < |t| :: valid(t[i].data)
  }

  class Store {
    var users: Table<User>
    var doctors: Table<Doctor>
    var hospitals: Table<Hospital>
    var appointments: Table<Appointment>
    var feedback: Table<Feedback>

    /** The next `_id` to hand out; every stored id is below it. */
    var nextId: Id

    /** Every collection is keyed by distinct, already allocated ids; no
        slot has two Upcoming appointments; and every appointment and every
        feedback document satisfies its schema (no handler writes those two
        collections without validation). */
    ghost predicate Valid()
      reads this
    {
      && Keyed(users, nextId)
      && Keyed(doctors, nextId)
      && Keyed(hospitals, nextId)
      && Keyed(appointments, nextId)
      && Keyed(feedback, nextId)
      && SlotsExclusive(appointments)
      && AllValid(appointments, ValidAppointment)
      && AllValid(feedback, ValidFeedback)
    }

    constructor ()
      ensures Valid()
      ensures users == [] && doctors == [] && hospitals == [] && appointments == [] && feedback == []
    {
      users, doctors, hospitals, appointments, feedback := [], [], [], [], [];
      nextId := 0;
    }

    /** A fresh ObjectId, distinct from every id already stored. */
    method NewId() returns (id: Id)
      requires Valid()
      modifies this`nextId
      ensures Valid()
      ensures id == old(nextId) && nextId == id + 1
    {
      id := nextId;
      nextId := nextId + 1;
    }

    /** The write of `findByIdAndUpdate` on the user at position `k`: the
        document keeps its id and gets the fields `u`. */
    method ReplaceUser(k: nat, u: User)
      requires Valid() && k < |users|
      modifies this`users
      ensures Valid()
      ensures users == old(users)[k := Doc(old(users)[k].id, u)]
    {
      KeyedReplace(users, nextId, k, u);
      users := users[k := Doc(users[k].id, u)];
    }
  }
}
