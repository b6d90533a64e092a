/**
 * The Hospital schema: name, address and contact number are required,
 * departments is an optional list.
 */
module HospitalModel {
  import opened Common

  datatype Hospital = Hospital(name: string, address: string, contactNumber: string,
                               departments: seq<string>)

  /** The schema's `required` fields. */
  predicate ValidHospital(h: Hospital)
  {
    h.name != "" && h.address != "" && h.contactNumber != ""
  }

  /** `new Hospital({...}).save()`: accepted when the required fields are
      non-empty; absent departments are saved as an empty list. */
  function NewHospital(name: string, address: string, contactNumber: string,
                       departments: Option<seq<string>>): (r: Option<Hospital>)
    ensures r.Some? <==> name != "" && address != "" && contactNumber != ""
    ensures r.Some? ==> ValidHospital(r.value)
    ensures r.Some? ==> r.value.name == name && r.value.address == address && r.value.contactNumber == contactNumber
    ensures r.Some? ==> r.value.departments == if departments.Some? then departments.value else []
  {
    if name == "" || address == "" || contactNumber == "" then None
    else Some(Hospital(name, address, contactNumber, departments.OrElse([])))
  }

  /** The fields the hospital update handler can put in its update object;
      `None` leaves a field alone. */
  datatype HospitalPatch = HospitalPatch(name: Option<string>, address: Option<string>,
                                         contactNumber: Option<string>)

  const NoHospitalChanges := HospitalPatch(None, None, None)

  function ApplyHospitalPatch(h: Hospital, p: HospitalPatch): Hospital
  {
    Hospital(p.name.OrElse(h.name), p.address.OrElse(h.address),
             p.contactNumber.OrElse(h.contactNumber), h.departments)
  }
}
