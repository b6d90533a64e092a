/**
 * The hospital handlers: an admin adds, updates and deletes hospitals.
 */
module HospitalController {
  import opened Common
  import opened Collection
  import opened UserModel
  import opened HospitalModel
  import opened Database

  /** `addHospital`. Departments are required by the handler although the
      schema makes them optional; an empty list counts as given. Fields are
      checked before the caller's role. */
  method AddHospital(db: Store, caller: Claims, name: Option<string>, address: Option<string>,
                     contactNumber: Option<string>, departments: Option<seq<string>>)
    returns (r: Outcome<Doc<Hospital>>)
    requires db.Valid()
    modifies db`hospitals, db`nextId
    ensures db.Valid()
    ensures r.Failure? ==> db.hospitals == old(db.hospitals) && db.nextId == old(db.nextId)
    ensures if !(Truthy(name) && Truthy(address) && Truthy(contactNumber) && departments.Some?)
            then r == Failure(MissingFields)
            else if caller.role != Admin then r == Failure(AccessDenied)
            else r.Success?
    ensures r.Success? ==>
      && caller.role == Admin
      && r.code == 201
      && r.value.id == old(db.nextId)
      && r.value.data == Hospital(name.value, address.value, contactNumber.value, departments.value)
      && ValidHospital(r.value.data)
      && db.hospitals == old(db.hospitals) + [r.value]
  {
    if !Truthy(name) || !Truthy(address) || !Truthy(contactNumber) || departments.None? {
      return Failure(MissingFields);
    }

    if caller.role != Admin {
      return Failure(AccessDenied);
    }

    // the required fields are non-empty, so the document is accepted
    var newHospital := NewHospital(name.value, address.value, contactNumber.value, departments).value;
    var id := db.NewId();
    KeyedInsert(db.hospitals, id, newHospital);
    var saved := Doc(id, newHospital);
    db.hospitals := db.hospitals + [saved];
    return Success(201, saved);
  }

  /** The `updates` object `updateHospital` builds. Supplying departments
      does not update them: it assigns the body's contact number instead,
      even an empty one, while an absent one adds nothing to the update. */
  function HospitalUpdates(name: Option<string>, address: Option<string>, contactNumber: Option<string>,
                           departments: Option<seq<string>>): HospitalPatch
  {
    var updates := NoHospitalChanges
      .(name := if Truthy(name) then name else None)
      .(address := if Truthy(address) then address else None)
      .(contactNumber := if Truthy(contactNumber) then contactNumber else None);
    if departments.Some? then updates.(contactNumber := contactNumber) else updates
  }

  /** What that update does to a hospital, field by field. */
  lemma HospitalUpdatesEffect(h: Hospital, name: Option<string>, address: Option<string>,
                              contactNumber: Option<string>, departments: Option<seq<string>>)
    ensures var v := ApplyHospitalPatch(h, HospitalUpdates(name, address, contactNumber, departments));
      && v.name == TruthyOr(name, h.name)
      && v.address == TruthyOr(address, h.address)
      && v.contactNumber == (if departments.Some? && contactNumber.Some? then contactNumber.value
                             else TruthyOr(contactNumber, h.contactNumber))
      && v.departments == h.departments
  {
  }

  /** Because the update runs without validators, a request carrying
      departments and an empty contact number leaves a hospital without the
      contact number its schema requires. */
  lemma DepartmentsClearContactNumber(h: Hospital, departments: seq<string>)
    requires ValidHospital(h)
    ensures !ValidHospital(ApplyHospitalPatch(h, HospitalUpdates(None, None, Some(""), Some(departments))))
  {
    assert ApplyHospitalPatch(h, HospitalUpdates(None, None, Some(""), Some(departments))).contactNumber == "";
  }

  /** `updateHospital`. */
  method UpdateHospital(db: Store, caller: Claims, id: Id, name: Option<string>, address: Option<string>,
                        contactNumber: Option<string>, departments: Option<seq<string>>)
    returns (r: Outcome<Doc<Hospital>>)
    requires db.Valid()
    modifies db`hospitals
    ensures db.Valid()
    ensures r.Failure? ==> db.hospitals == old(db.hospitals)
    ensures if caller.role != Admin then r == Failure(AccessDenied)
            else if IndexOf(old(db.hospitals), id).None? then r == Failure(HospitalNotFound)
            else r.Success?
    ensures r.Success? ==>
      && IndexOf(old(db.hospitals), id).Some?
      && var k := IndexOf(old(db.hospitals), id).value;
         && r.code == 200
         && r.value == Doc(id, ApplyHospitalPatch(old(db.hospitals)[k].data,
                                                  HospitalUpdates(name, address, contactNumber, departments)))
         && db.hospitals == old(db.hospitals)[k := r.value]
         && r.value.data.name == TruthyOr(name, old(db.hospitals)[k].data.name)
         && r.value.data.address == TruthyOr(address, old(db.hospitals)[k].data.address)
         && r.value.data.contactNumber
              == (if departments.Some? && contactNumber.Some? then contactNumber.value
                  else TruthyOr(contactNumber, old(db.hospitals)[k].data.contactNumber))
         && r.value.data.departments == old(db.hospitals)[k].data.departments
  {
    if caller.role != Admin {
      return Failure(AccessDenied);
    }

    var updates := HospitalUpdates(name, address, contactNumber, departments);

    var k := IndexOf(db.hospitals, id);
    if k.None? {
      return Failure(HospitalNotFound);
    }
    HospitalUpdatesEffect(db.hospitals[k.value].data, name, address, contactNumber, departments);
    var updated := Doc(id, ApplyHospitalPatch(db.hospitals[k.value].data, updates));
    KeyedReplace(db.hospitals, db.nextId, k.value, updated.data);
    db.hospitals := db.hospitals[k.value := updated];
    return Success(200, updated);
  }

  /** `deleteHospital`. Feedback that refers to the hospital is kept. */
  method DeleteHospital(db: Store, caller: Claims, id: Id) returns (r: Outcome<()>)
    requires db.Valid()
    modifies db`hospitals
    ensures db.Valid()
    ensures r.Failure? ==> db.hospitals == old(db.hospitals)
    ensures if caller.role != Admin then r == Failure(AccessDenied)
            else if IndexOf(old(db.hospitals), id).None? then r == Failure(HospitalNotFound)
            else r == Success(200, ())
    ensures r.Success? ==>
      && IndexOf(old(db.hospitals), id).Some?
      && db.hospitals == RemoveAt(old(db.hospitals), IndexOf(old(db.hospitals), id).value)
      && |db.hospitals| == |old(db.hospitals)| - 1
      && IndexOf(db.hospitals, id).None?
      && forall d :: d in db.hospitals <==> d in old(db.hospitals) && d.id != id
  {
    if caller.role != Admin {
      return Failure(AccessDenied);
    }

    var k := IndexOf(db.hospitals, id);
    if k.None? {
      return Failure(HospitalNotFound);
    }
    RemoveAtDropsOnlyThatId(db.hospitals, db.nextId, k.value);
    db.hospitals := RemoveAt(db.hospitals, k.value);
    return Success(200, ());
  }
}
