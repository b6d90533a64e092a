# Clinic booking backend: a verified model of its handlers

The system is an Express/Mongoose backend for a clinic. Users are Patients,
Doctors and Admins. Admins register hospitals and doctor profiles.
Patients book appointments against a doctor's weekly availability and rate
doctors and hospitals.

This project models the request handlers and the five Mongoose schemas
behind them:

- `createAppointment`
- the user handlers: `signUp`, `login`, `fetchAllUsers`, `editUsers`, `deleteUser`
- the doctor handlers: `addDoctor`, `updateDoctor`
- the hospital handlers: `addHospital`, `updateHospital`, `deleteHospital`
- the feedback handlers: `addFeedback`, `getFeedbackForDoctor`, `getFeedbackForHospital`

Every handler runs a fixed sequence of guards, and each guard has its own
refusal. After the guards it either changes nothing or makes one insert,
update or delete. The exception is `updateDoctor`, which writes two
documents: the user it names, then the doctor. Each handler's contract gives that whole sequence as an
if/else-if cascade.

## Structure

- `common.dfy` (`Common`): identifiers and optional body fields. `Truthy` is
  JavaScript truthiness for a body string. `Reason` has one variant per
  refusal message, and `Reason.Code()` gives its HTTP status. `Outcome` is a
  handler's reply.
- `collection.dfy` (`Collection`): a collection is a sequence of `Doc(id, data)`
  in natural order, which the model takes to be insertion order. The queries the handlers use are functions:
  - `First` is `findOne`;
  - `IndexOf` and `Lookup` are `findById`;
  - `Where` is `find`;
  - `RemoveAt` is `findByIdAndDelete`.
- `user_model.dfy`, `doctor_model.dfy`, `hospital_model.dfy`,
  `appointment_model.dfy`, `feedback_model.dfy`: one record per schema. Each
  has its enums and defaults, a validity predicate for its `required` and
  `min`/`max` constraints, and a constructor function for `new X({...}).save()`.
  The appointment model also holds the slot-exclusivity invariant and its
  lemmas.
- `database.dfy` (`Database`): the class `Store` holds one field per
  collection and the ObjectId allocator. Its `Valid()` invariant requires
  three things:
  - every collection is keyed by distinct ids;
  - no two `Upcoming` appointments share a (doctor, date, time) slot;
  - every appointment and every feedback document satisfies its schema.
- `appointment_controller.dfy`, `user_controller.dfy`, `doctor_controller.dfy`,
  `hospital_controller.dfy`, `feedback_controller.dfy`: one method per
  handler, each on `db: Store`.
  - Every writing handler `modifies` only the fields it writes.
  - `Valid()` is preserved throughout.
  - Every contract states the full guard cascade and the new contents of the
    collection.
  - The read-only handlers change nothing. The two feedback listings are
    functions.

The caller is a `Claims(id, role)` value: the identity the access token
carries. Body fields are `Option` values, where `None` means absent.
JavaScript `||` on an array, object or id is `Option.OrElse`.

Three things are parameters of the handlers:

- bcrypt's `hash` and `compare`;
- `weekday`, the conversion of a date string to an English weekday name.

## Behaviour worth noting

- Email uniqueness is not a schema constraint. `signUp` and `editUsers`
  check it. `updateDoctor` writes `userDetails` without any check, so the
  invariant holds only for the user handlers (see
  `DoctorController.UserDetailsCanDuplicateEmail`).
- A booking conflict is answered with status 400, the same status as the
  other validation failures. There is no separate conflict status.
- An appointment has no `day` field, and `date` is a plain string, so slots
  are compared by string equality.
- A doctor has no hospital reference. Nothing keeps `user.role == Doctor`
  true after `addDoctor`.
- `createAppointment` is the only appointment operation; no handler changes
  or deletes an appointment.

## Model

| member | source | states |
|---|---|---|
| Collection.First | controllers/appointment.controller.js:34-39 | `findOne` returns the first document in natural order that satisfies the filter, or none exactly when no document does |
| Collection.IndexOf | controllers/user.controller.js:114 | `findById` finds a position holding that id, and finds none exactly when no document has the id |
| Collection.Lookup | controllers/appointment.controller.js:14-21 | `findById` on an optional body reference finds a document exactly when the reference is given and some document has that id; the result is stored under that id |
| Collection.Where | controllers/feedback.controller.js:161 | `find` returns only matching documents of the collection, and every matching document is among them |
| Collection.WhereAppend | controllers/feedback.controller.js:161 | results come in natural order, taken as insertion order: a document added last is listed last, and earlier results are unchanged |
| Collection.RemoveAtDropsOnlyThatId | controllers/user.controller.js:134 | `findByIdAndDelete` removes exactly the documents with that id, keeps every other document, and keeps the ids distinct |
| UserModel.ParseRole | models/user.model.js:16-19 | the enum accepts a string exactly when it is the name of one of the three roles, and then yields that role |
| UserModel.ParseRoleName | models/user.model.js:16-19 | every role's stored name is accepted by the enum as that same role (round trip) |
| UserModel.NewUser | models/user.model.js:3-29 | a user is saved exactly when name, email, phone and address are non-empty and the role, if given, is in the enum; the password is not required; a missing role becomes Patient; the fields are stored as given |
| DoctorModel.NewDoctor | models/doctor.model.js:3-18 | a doctor keeps its user reference and the given lists and availability; absent lists and availability are saved empty |
| HospitalModel.NewHospital | models/hospital.model.js:3-19 | a hospital is saved exactly when name, address and contact number are non-empty; it stores them; absent departments become an empty list |
| FeedbackModel.NewFeedback | models/feedback.model.js:3-29 | feedback is saved exactly when a rating is given and lies between 1 and 5; patient, doctor, hospital and comment are stored as given |
| AppointmentModel.NewAppointment | models/appointment.model.js:3-31 | an appointment is saved exactly when date and time are non-empty; it stores patient, doctor, date and time as given, has no transfer, and a missing status becomes Upcoming |
| AppointmentModel.Conflicting | controllers/appointment.controller.js:34-39 | the conflict query finds an appointment exactly when one with the same doctor, the same date and time strings and status Upcoming exists, and what it finds is such an appointment |
| AppointmentModel.AtMostOneUpcoming | controllers/appointment.controller.js:34-54 | under the invariant, at most one appointment is Upcoming in any (doctor, date, time) slot |
| AppointmentModel.BookingKeepsSlotsExclusive | controllers/appointment.controller.js:34-54 | appending an appointment whose slot the conflict check found free preserves slot exclusivity |
| AppointmentModel.FinishedNeverBlocks | controllers/appointment.controller.js:38 | adding a Done or Canceled appointment changes no slot's conflict answer |
| Database.Store.NewId | controllers/appointment.controller.js:54 | a saved document gets an id above every id already stored, and the store stays valid |
| Database.Store.ReplaceUser | controllers/user.controller.js:114 | an update by id overwrites that one user's fields, keeps its id and leaves all other users unchanged |
| AppointmentController.IsAvailable | controllers/appointment.controller.js:26-27 | the doctor is available when the weekday of `date` is in `days` and `time` is given and in `timeSlots`, by exact string membership; an absent time, or an empty list of days or of time slots, is never available |
| AppointmentController.CreateAppointment | controllers/appointment.controller.js:5-54 | the refusals come in this order: a non-Patient caller gets 403; a patient reference that is absent or not a Patient gets 400; an unknown doctor gets 400; a weekday or time outside the doctor's availability, or an absent time, gets 400; an Upcoming appointment in the slot gets 400; an empty date or time is a schema failure (500). A refusal changes nothing. Otherwise exactly one Upcoming appointment with the given fields is appended (201). The caller's id is never compared with the patient, and slot exclusivity is preserved |
| UserController.EmailOwner | controllers/user.controller.js:14 | `findOne({email})` finds the first user with that email, and none exactly when no user has it |
| UserController.SignUp | controllers/user.controller.js:6-36 | any missing or empty field gives 400; an email that is already registered gives 409; a role outside the enum is a schema failure (500). A refusal changes nothing. Otherwise one user is appended (201) that stores the hash, not the password, and emails stay unique |
| UserController.Login | controllers/user.controller.js:38-66 | a missing email or password gives 400; an unknown email or a password mismatch gives 401; otherwise the reply carries the id and role of the first user with that email, whose stored hash matches. The store is never written |
| UserController.FetchAllUsers | controllers/user.controller.js:68-82 | an empty collection gives 404; otherwise every user is returned in order, without the password |
| UserController.ApplyBodyUpdates | controllers/user.controller.js:94-112 | the update object overwrites exactly the fields the body supplies as truthy: the password by its hash, the role by the enum value of that name. Every other field is kept |
| UserController.EditUsers | controllers/user.controller.js:84-124 | a caller who is neither the target nor an Admin gets 403; an email that another user owns gives 409 (one's own email is allowed); an invalid role is a schema failure (500); an unknown id gives 404. A refusal changes nothing. Otherwise only that user changes, and only in the supplied fields. This includes the role, whoever the caller is. Emails that were unique stay unique |
| UserController.EditKeepsEmailsUnique | controllers/user.controller.js:97-101 | overwriting a user whose new email is its old one, or is owned by no other user, keeps emails unique |
| UserController.EditUsersKeepsEmailsUnique | controllers/user.controller.js:97-117 | the state a successful edit leaves, given that its email check passed, keeps emails unique |
| UserController.RemoveKeepsEmailsUnique | controllers/user.controller.js:134 | deleting a user keeps emails unique |
| UserController.DeleteUser | controllers/user.controller.js:126-143 | a caller who is neither the target nor an Admin gets 403; an unknown id gives 404. Otherwise exactly that user is removed, and every other user is kept in its order |
| DoctorController.AddDoctor | controllers/doctor.controller.js:4-34 | the user lookup (404) and the Doctor-role test (400) come before the Admin test (403). A refusal changes nothing. Otherwise one doctor with the given fields and defaults is appended (201), and its user has role Doctor |
| DoctorController.UpdateDoctor | controllers/doctor.controller.js:36-81 | a non-Admin whose id is not the body's `user` gets 403 before any lookup; then an unknown doctor gives 404, an unknown user gives 404, and a user that is not a Doctor gives 400, each changing nothing. Otherwise specialities, qualifications and availability are replaced only where supplied, the doctor's own `user` reference is kept, and `userDetails` is applied to the body's user |
| DoctorController.UserDetailsCanDuplicateEmail | controllers/doctor.controller.js:66-71 | the unchecked `userDetails` update can give two users the same email |
| HospitalController.AddHospital | controllers/hospital.controller.js:3-28 | a missing name, address, contact number or departments gives 400 before the Admin test (403). A refusal changes nothing. Otherwise one valid hospital with the given fields is appended (201) |
| HospitalController.HospitalUpdatesEffect | controllers/hospital.controller.js:39-43 | name and address change only when supplied truthy. Departments never change. When departments are supplied, the body's contact number is written even if it is empty |
| HospitalController.DepartmentsClearContactNumber | controllers/hospital.controller.js:43-45 | a valid hospital updated with departments and an empty contact number loses its required contact number |
| HospitalController.UpdateHospital | controllers/hospital.controller.js:30-54 | a non-Admin gets 403 and an unknown id gets 404, each changing nothing. Otherwise only that hospital changes, field by field as above |
| HospitalController.DeleteHospital | controllers/hospital.controller.js:56-74 | a non-Admin gets 403 and an unknown id gets 404. Otherwise exactly that hospital is removed, every other hospital is kept in its order, and no document with its id remains |
| FeedbackController.AddFeedback | controllers/feedback.controller.js:109-150 | feedback that names neither a doctor nor a hospital gets 400 before any lookup. Then, in order: an unknown patient (of any role) gives 404; a given but unknown doctor gives 404; a given but unknown hospital gives 404; an absent or out-of-range rating is a schema failure (500). Otherwise one valid feedback with the given fields is appended (201), and what it names exists |
| FeedbackController.FeedbackForDoctor | controllers/feedback.controller.js:152-168 | 404 exactly when no doctor has the id; otherwise exactly the feedback about that doctor |
| FeedbackController.FeedbackForHospital | controllers/feedback.controller.js:170-186 | 404 exactly when no hospital has the id; otherwise exactly the feedback about that hospital |
| FeedbackController.NewFeedbackListedLast | controllers/feedback.controller.js:161 | a new rating of a doctor is listed after that doctor's earlier ones; other doctors' lists do not change |
| FeedbackController.NewFeedbackListedLastForHospital | controllers/feedback.controller.js:179 | the same for a hospital's list |

## Left out

- Token issuance and verification (JWT), the authentication middleware and
  `authorizeAdmin`: the caller is given as `Claims`.
- bcrypt: hashing and comparison are the parameters `hash` and `matches`.
- `refreshAccessToken` and `logout`: they work only on tokens and on a
  `refreshToken` field the User schema does not declare.
- The populated response views (`populate` of names): the handlers' replies
  carry the stored documents instead.
- The rate limiters on the feedback routes, the commented-out earlier
  version of the feedback controller, the routes, `server.js` and the
  database connection: these are wiring.
- Concurrency: the model runs requests one after another. The
  check-then-insert race of `createAppointment` is therefore not
  represented.
- The `weekday` parameter stands for the time-zone-dependent date parsing.
  An unparseable date is assumed to give a name no schedule lists.
- Body fields have their intended JSON types: strings, lists of strings,
  ids and an availability object. A number, array or object where a string
  is expected is not represented, including a query-operator object such as
  `{"$ne": null}` in `email`, which `findOne({email})` would read as a
  query. Mongoose's conversion of a number to a string is not represented
  either, nor is a non-array value in a list field.
- Malformed ids: a Mongoose cast error (500) is not modelled, and ids are
  numbers.
- Exceptions from the database: these would reach the generic 500 handler.
- AppointmentController.CreateAppointment: an absent `date` is modelled as
  the empty string, whose `weekday` stands for the name of an invalid date.
  An absent `time` is `None` and is refused as unavailable (400).
- Natural order: MongoDB does not guarantee that `find` and `findOne`
  return documents in insertion order. The model assumes they do. This
  fixes which user `login` and the email checks find first, the order of
  `fetchAllUsers` and of the feedback listings (`Collection.First`,
  `Collection.WhereAppend`, `FeedbackController.NewFeedbackListedLast`).
- DoctorController.UpdateDoctor: the 404 after the user update (lines
  68-70) cannot happen when requests run one after another, because the
  user was found just before. `userDetails` is typed, so an invalid role
  string in it is not represented.
- DoctorController.AddDoctor, DoctorController.UpdateDoctor: a partial
  `availability` object (only `days`, or only `timeSlots`) is not
  represented; availability is given whole or not at all.
- FeedbackController.AddFeedback: ratings are integers. A non-integer or
  non-numeric rating is not represented.
- HospitalController.UpdateHospital: update keys whose value is `undefined`
  are dropped, as Mongoose 6 and later do. Earlier versions are not
  modelled.
- Timestamps (`createdAt`, `updatedAt`) are not modelled.
