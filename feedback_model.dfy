/**
 * The Feedback schema: a required patient, an optional doctor and hospital,
 * a required rating between 1 and 5, and an optional comment.
 */
module FeedbackModel {
  import opened Common

  const MinRating: int := 1
  const MaxRating: int := 5

  /** `doctor` and `hospital` are each optional here; that at least one is
      given is a rule of the feedback handler, not of the schema. */
  datatype Feedback = Feedback(patient: Id, doctor: Option<Id>, hospital: Option<Id>,
                               rating: int, comment: Option<string>)

  predicate ValidFeedback(f: Feedback)
  {
    MinRating <= f.rating <= MaxRating
  }

  /** `new Feedback({...}).save()`: accepted exactly when the rating is given
      and within bounds; the other fields are stored as given. */
  function NewFeedback(patient: Id, doctor: Option<Id>, hospital: Option<Id>, rating: Option<int>,
                       comment: Option<string>): (r: Option<Feedback>)
    ensures r.Some? <==> rating.Some? && MinRating <= rating.value <= MaxRating
    ensures r.Some? ==> ValidFeedback(r.value)
    ensures r.Some? ==> r.value == Feedback(patient, doctor, hospital, rating.value, comment)
  {
    if rating.Some? && MinRating <= rating.value <= MaxRating
    then Some(Feedback(patient, doctor, hospital, rating.value, comment))
    else None
  }
}
