/**
 * The feedback handlers: a patient's rating of a doctor, a hospital or
 * both, and the lists of ratings a doctor or a hospital has received.
 */
module FeedbackController {
  import opened Common
  import opened Collection
  import opened FeedbackModel
  import opened Database

  /** `addFeedback`. The patient reference must name a stored user, of any
      role; a doctor or hospital reference, when given, must name a stored
      document. */
  method AddFeedback(db: Store, patient: Option<Id>, doctor: Option<Id>, hospital: Option<Id>,
                     rating: Option<int>, comment: Option<string>)
    returns (r: Outcome<Doc<Feedback>>)
    requires db.Valid()
    modifies db`feedback, db`nextId
    ensures db.Valid()
    ensures r.Failure? ==> db.feedback == old(db.feedback) && db.nextId == old(db.nextId)
    ensures if doctor.None? && hospital.None? then r == Failure(NoFeedbackTarget)
            else if Lookup(db.users, patient).None? then r == Failure(PatientNotFound)
            else if doctor.Some? && Lookup(db.doctors, doctor).None? then r == Failure(DoctorNotFound)
            else if hospital.Some? && Lookup(db.hospitals, hospital).None? then r == Failure(HospitalNotFound)
            else if !(rating.Some? && MinRating <= rating.value <= MaxRating) then r == Failure(ValidationFailed)
            else r.Success?
    ensures r.Success? ==>
      && patient.Some? && rating.Some?
      && r.code == 201
      && r.value == Doc(old(db.nextId), Feedback(patient.value, doctor, hospital, rating.value, comment))
      && (r.value.data.doctor.Some? || r.value.data.hospital.Some?)
      && (r.value.data.doctor.Some? ==> Lookup(db.doctors, r.value.data.doctor).Some?)
      && (r.value.data.hospital.Some? ==> Lookup(db.hospitals, r.value.data.hospital).Some?)
      && ValidFeedback(r.value.data)
      && db.feedback == old(db.feedback) + [r.value]
  {
    if doctor.None? && hospital.None? {
      return Failure(NoFeedbackTarget);
    }

    var patientExists := Lookup(db.users, patient);
    if patientExists.None? {
      return Failure(PatientNotFound);
    }

    if doctor.Some? {
      var doctorExists := Lookup(db.doctors, doctor);
      if doctorExists.None? {
        return Failure(DoctorNotFound);
      }
    }

    if hospital.Some? {
      var hospitalExists := Lookup(db.hospitals, hospital);
      if hospitalExists.None? {
        return Failure(HospitalNotFound);
      }
    }

    var newFeedback := NewFeedback(patient.value, doctor, hospital, rating, comment);
    if newFeedback.None? {
      return Failure(ValidationFailed);
    }
    var id := db.NewId();
    KeyedInsert(db.feedback, id, newFeedback.value);
    var saved := Doc(id, newFeedback.value);
    db.feedback := db.feedback + [saved];
    return Success(201, saved);
  }

  /** `Feedback.find({doctor: id})`. */
  function AboutDoctor(feedback: Table<Feedback>, id: Id): Table<Feedback>
  {
    Where(feedback, (f: Doc<Feedback>) => f.data.doctor == Some(id))
  }

  /** `Feedback.find({hospital: id})`. */
  function AboutHospital(feedback: Table<Feedback>, id: Id): Table<Feedback>
  {
    Where(feedback, (f: Doc<Feedback>) => f.data.hospital == Some(id))
  }

  /** `getFeedbackForDoctor`: 404 exactly when no doctor has the id;
      otherwise every stored feedback about that doctor and nothing else. */
  function FeedbackForDoctor(doctors: Table<DoctorModel.Doctor>, feedback: Table<Feedback>, doctorId: Id)
    : (r: Outcome<Table<Feedback>>)
    ensures r.Failure? <==> forall j | 0 <= j < |doctors| :: doctors[j].id != doctorId
    ensures r.Failure? ==> r.reason == DoctorNotFound
    ensures r.Success? ==>
      && r.code == 200
      && |r.value| <= |feedback|
      && (forall i | 0 <= i < |r.value| :: r.value[i] in feedback && r.value[i].data.doctor == Some(doctorId))
      && (forall i | 0 <= i < |feedback| && feedback[i].data.doctor == Some(doctorId) :: feedback[i] in r.value)
  {
    if IndexOf(doctors, doctorId).None? then Failure(DoctorNotFound)
    else Success(200, AboutDoctor(feedback, doctorId))
  }

  /** `getFeedbackForHospital`: the same for a hospital. */
  function FeedbackForHospital(hospitals: Table<HospitalModel.Hospital>, feedback: Table<Feedback>, hospitalId: Id)
    : (r: Outcome<Table<Feedback>>)
    ensures r.Failure? <==> forall j | 0 <= j < |hospitals| :: hospitals[j].id != hospitalId
    ensures r.Failure? ==> r.reason == HospitalNotFound
    ensures r.Success? ==>
      && r.code == 200
      && |r.value| <= |feedback|
      && (forall i | 0 <= i < |r.value| :: r.value[i] in feedback && r.value[i].data.hospital == Some(hospitalId))
      && (forall i | 0 <= i < |feedback| && feedback[i].data.hospital == Some(hospitalId) :: feedback[i] in r.value)
  {
    if IndexOf(hospitals, hospitalId).None? then Failure(HospitalNotFound)
    else Success(200, AboutHospital(feedback, hospitalId))
  }

  /** Feedback is listed in the order it was submitted: a new rating of a
      known doctor is added at the end of that doctor's list, and the other
      doctors' lists do not change. */
  lemma NewFeedbackListedLast(doctors: Table<DoctorModel.Doctor>, feedback: Table<Feedback>,
                              d: Doc<Feedback>, doctorId: Id)
    requires FeedbackForDoctor(doctors, feedback, doctorId).Success?
    ensures FeedbackForDoctor(doctors, feedback + [d], doctorId).value
         == FeedbackForDoctor(doctors, feedback, doctorId).value
            + (if d.data.doctor == Some(doctorId) then [d] else [])
  {
    WhereAppend(feedback, d, (f: Doc<Feedback>) => f.data.doctor == Some(doctorId));
  }

  /** The same for a hospital's list. */
  lemma NewFeedbackListedLastForHospital(hospitals: Table<HospitalModel.Hospital>, feedback: Table<Feedback>,
                                         d: Doc<Feedback>, hospitalId: Id)
    requires FeedbackForHospital(hospitals, feedback, hospitalId).Success?
    ensures FeedbackForHospital(hospitals, feedback + [d], hospitalId).value
         == FeedbackForHospital(hospitals, feedback, hospitalId).value
            + (if d.data.hospital == Some(hospitalId) then [d] else [])
  {
    WhereAppend(feedback, d, (f: Doc<Feedback>) => f.data.hospital == Some(hospitalId));
  }
}
