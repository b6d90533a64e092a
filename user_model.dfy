/**
 * The User schema: required fields, the role enum with its default, and the
 * shapes of a partial update and of the password-free view.
 */
module UserModel {
  import opened Common

  datatype Role = Doctor | Patient | Admin

  /** The role a user document gets when it is saved without one. */
  const DefaultRole: Role := Patient

  /** The enum value as it is stored and sent. */
  function RoleName(r: Role): string
  {
    match r
    case Doctor => "Doctor"
    case Patient => "Patient"
    case Admin => "Admin"
  }

  /** The enum validator: a string is a role exactly when it is one of the
      three names. */
  function ParseRole(s: string): (r: Option<Role>)
    ensures r.Some? ==> RoleName(r.value) == s
    ensures r.None? ==> forall x: Role :: RoleName(x) != s
  {
    if s == "Doctor" then Some(Doctor)
    else if s == "Patient" then Some(Patient)
    else if s == "Admin" then Some(Admin)
    else None
  }

  lemma ParseRoleName(r: Role)
    ensures ParseRole(RoleName(r)) == Some(r)
  {
  }

  /** The identity an access token carries: the `{id, role}` that login
      signs and that every authenticated handler reads as `req.user`. */
  datatype Claims = Claims(id: Id, role: Role)

  /** A stored user. `password` holds whatever was saved: sign-up and edit
      store a hash. */
  datatype User = User(name: string, email: string, password: string, role: Role,
                       phone: string, address: string)

  /** The schema's `required` fields. The password is not among them: its
      schema entry spells the key `requird`, so Mongoose ignores it. Email
      carries no uniqueness constraint at this level. */
  predicate ValidUser(u: User)
  {
    u.name != "" && u.email != "" && u.phone != "" && u.address != ""
  }

  /** `new User({...}).save()`: the document is accepted when the required
      fields are non-empty and the role, if given, is in the enum; a missing
      role becomes the default. */
  function NewUser(name: string, email: string, password: string, role: Option<string>,
                   phone: string, address: string): (r: Option<User>)
    ensures r.Some? <==> name != "" && email != "" && phone != "" && address != ""
                         && (role.None? || ParseRole(role.value).Some?)
    ensures r.Some? ==> ValidUser(r.value)
    ensures r.Some? ==> r.value.name == name && r.value.email == email && r.value.password == password
                        && r.value.phone == phone && r.value.address == address
    ensures r.Some? && role.None? ==> r.value.role == DefaultRole
    ensures r.Some? && role.Some? ==> RoleName(r.value.role) == role.value
  {
    if name == "" || email == "" || phone == "" || address == "" then None
    else if role.None? then Some(User(name, email, password, DefaultRole, phone, address))
    else match ParseRole(role.value)
      case None => None
      case Some(x) => Some(User(name, email, password, x, phone, address))
  }

  /** A user as `find({}, '-password')` returns it. */
  datatype PublicUser = PublicUser(name: string, email: string, role: Role, phone: string, address: string)

  function WithoutPassword(u: User): PublicUser
  {
    PublicUser(u.name, u.email, u.role, u.phone, u.address)
  }

  /** The fields of a `$set` update on a user; `None` leaves a field alone. */
  datatype UserPatch = UserPatch(name: Option<string>, email: Option<string>, password: Option<string>,
                                 role: Option<Role>, phone: Option<string>, address: Option<string>)

  const NoUserChanges := UserPatch(None, None, None, None, None, None)

  function ApplyUserPatch(u: User, p: UserPatch): User
  {
    User(p.name.OrElse(u.name), p.email.OrElse(u.email), p.password.OrElse(u.password),
         p.role.OrElse(u.role), p.phone.OrElse(u.phone), p.address.OrElse(u.address))
  }
}
