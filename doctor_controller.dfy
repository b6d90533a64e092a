/**
 * The doctor handlers: an admin registers a doctor profile for a user whose
 * role is Doctor, and a profile is updated together with its user's
 * account fields.
 */
module DoctorController {
  import opened Common
  import opened Collection
  import opened UserModel
  import opened DoctorModel
  import opened Database
  import UserController

  /** The reference names a stored user whose role is Doctor. */
  predicate IsDoctorUser(users: Table<User>, ref: Option<Id>)
  {
    var u := Lookup(users, ref);
    u.Some? && u.value.role == Role.Doctor
  }

  /** `addDoctor`. The user checks come before the caller's role is looked
      at, so a non-admin learns whether a user exists and is a Doctor. */
  method AddDoctor(db: Store, caller: Claims, user: Option<Id>, specialities: Option<seq<string>>,
                   qualifications: Option<seq<string>>, availability: Option<Availability>)
    returns (r: Outcome<Doc<Doctor>>)
    requires db.Valid()
    modifies db`doctors, db`nextId
    ensures db.Valid()
    ensures r.Failure? ==> db.doctors == old(db.doctors) && db.nextId == old(db.nextId)
    ensures if Lookup(db.users, user).None? then r == Failure(UserNotFound)
            else if !IsDoctorUser(db.users, user) then r == Failure(NotADoctor)
            else if caller.role != Admin then r == Failure(AccessDenied)
            else r.Success?
    ensures r.Success? ==>
      && user.Some?
      && caller.role == Admin
      && IsDoctorUser(db.users, Some(r.value.data.user))
      && r.code == 201
      && r.value == Doc(old(db.nextId), NewDoctor(user.value, specialities, qualifications, availability))
      && db.doctors == old(db.doctors) + [r.value]
  {
    var existingUser := Lookup(db.users, user);
    if existingUser.None? {
      return Failure(UserNotFound);
    }

    if existingUser.value.role != Role.Doctor {
      return Failure(NotADoctor);
    }

    if caller.role != Admin {
      return Failure(AccessDenied);
    }

    var newDoctor := NewDoctor(user.value, specialities, qualifications, availability);
    var id := db.NewId();
    KeyedInsert(db.doctors, id, newDoctor);
    var saved := Doc(id, newDoctor);
    db.doctors := db.doctors + [saved];
    return Success(201, saved);
  }

  /** `updateDoctor`. A non-admin passes the access check by naming
      themself as `user` in the body; the doctor document itself may belong
      to anyone, and its own `user` reference is never changed. The fields
      of `userDetails` are written to that user without validation or an
      email check. */
  method UpdateDoctor(db: Store, caller: Claims, doctorId: Id, user: Option<Id>,
                      specialities: Option<seq<string>>, qualifications: Option<seq<string>>,
                      availability: Option<Availability>, userDetails: UserPatch)
    returns (r: Outcome<Doc<Doctor>>)
    requires db.Valid()
    modifies db`doctors, db`users
    ensures db.Valid()
    ensures r.Failure? ==> db.doctors == old(db.doctors) && db.users == old(db.users)
    ensures if caller.role != Admin && user != Some(caller.id) then r == Failure(AccessDenied)
            else if IndexOf(old(db.doctors), doctorId).None? then r == Failure(DoctorNotFound)
            else if Lookup(old(db.users), user).None? then r == Failure(UserNotFound)
            else if !IsDoctorUser(old(db.users), user) then r == Failure(NotADoctor)
            else r.Success?
    ensures r.Success? ==>
      && user.Some?
      && IndexOf(old(db.doctors), doctorId).Some?
      && IndexOf(old(db.users), user.value).Some?
      && var j := IndexOf(old(db.doctors), doctorId).value;
         var k := IndexOf(old(db.users), user.value).value;
         var before := old(db.doctors)[j].data;
         && r.code == 200
         && r.value.id == doctorId
         && r.value.data.user == before.user
         && r.value.data.specialities == specialities.OrElse(before.specialities)
         && r.value.data.qualifications == qualifications.OrElse(before.qualifications)
         && r.value.data.availability == availability.OrElse(before.availability)
         && db.doctors == old(db.doctors)[j := r.value]
         && db.users == old(db.users)[k := Doc(user.value, ApplyUserPatch(old(db.users)[k].data, userDetails))]
  {
    if caller.role != Admin {
      if user != Some(caller.id) {
        return Failure(AccessDenied);
      }
    }

    var j := IndexOf(db.doctors, doctorId);
    if j.None? {
      return Failure(DoctorNotFound);
    }

    var doctorUser := Lookup(db.users, user);
    if doctorUser.None? {
      return Failure(UserNotFound);
    }

    if doctorUser.value.role != Role.Doctor {
      return Failure(NotADoctor);
    }

    var doctor := db.doctors[j.value].data;
    doctor := doctor.(specialities := specialities.OrElse(doctor.specialities));
    doctor := doctor.(qualifications := qualifications.OrElse(doctor.qualifications));
    doctor := doctor.(availability := availability.OrElse(doctor.availability));

    // `user` is truthy here, and the user it names was just found, so the
    // update always finds its document
    var k := IndexOf(db.users, user.value).value;
    db.ReplaceUser(k, ApplyUserPatch(db.users[k].data, userDetails));

    KeyedReplace(db.doctors, db.nextId, j.value, doctor);
    var saved := Doc(doctorId, doctor);
    db.doctors := db.doctors[j.value := saved];
    return Success(200, saved);
  }

  /** The `userDetails` of `updateDoctor` are written without the email check
      that sign-up and `editUsers` make: two users with distinct emails can
      end up sharing one. */
  lemma UserDetailsCanDuplicateEmail()
    ensures var users := [Doc(0, User("Ann", "a@x", "h1", Role.Doctor, "1", "A")),
                          Doc(1, User("Bob", "b@x", "h2", Patient, "2", "B"))];
            var details := NoUserChanges.(email := Some("b@x"));
            && UserController.EmailsUnique(users)
            && !UserController.EmailsUnique(users[0 := Doc(0, ApplyUserPatch(users[0].data, details))])
  {
    var users := [Doc(0, User("Ann", "a@x", "h1", Role.Doctor, "1", "A")),
                  Doc(1, User("Bob", "b@x", "h2", Patient, "2", "B"))];
    var details := NoUserChanges.(email := Some("b@x"));
    var edited := users[0 := Doc(0, ApplyUserPatch(users[0].data, details))];
    assert edited[0].data.email == edited[1].data.email;
  }
}
