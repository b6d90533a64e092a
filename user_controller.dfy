/**
 * The user handlers: sign-up, login, listing, editing and deleting users.
 * Password hashing and comparison are bcrypt calls, taken here as the
 * parameters `hash` and `matches`; token signing is not modelled, and login
 * returns the claims it would sign.
 */
module UserController {
  import opened Common
  import opened Collection
  import opened UserModel
  import opened Database

  /** No two users share an email. The schema does not enforce this; the
      sign-up and edit handlers do. */
  ghost predicate EmailsUnique(users: Table<User>)
  {
    forall i, j | 0 <= i < j < |users| :: users[i].data.email != users[j].data.email
  }

  /** `User.findOne({email})`: the first user with this email. */
  function EmailOwner(users: Table<User>, email: string): (k: Option<nat>)
    ensures k.Some? ==> k.value < |users| && users[k.value].data.email == email
    ensures k.Some? ==> forall j | 0 <= j < k.value :: users[j].data.email != email
    ensures k.None? <==> forall j | 0 <= j < |users| :: users[j].data.email != email
  {
    First(users, (d: Doc<User>) => d.data.email == email)
  }

  /** The user that `findOne({email})` finds is not the user `id`. */
  predicate EmailOwnedByOther(users: Table<User>, email: string, id: Id)
  {
    var k := EmailOwner(users, email);
    k.Some? && users[k.value].id != id
  }

  /** Overwriting one user's fields keeps emails unique when the new email is
      the old one, or nobody has it, or the user who has it is this user. */
  lemma EditKeepsEmailsUnique(users: Table<User>, next: Id, k: nat, u: User)
    requires Keyed(users, next) && EmailsUnique(users) && k < |users|
    requires u.email == users[k].data.email || !EmailOwnedByOther(users, u.email, users[k].id)
    ensures EmailsUnique(users[k := Doc(users[k].id, u)])
  {
    if u.email != users[k].data.email {
      // the first owner would have to be user k, whose email differs
      assert EmailOwner(users, u.email).None?;
    }
    var t := users[k := Doc(users[k].id, u)];
    forall i, j | 0 <= i < j < |t|
      ensures t[i].data.email != t[j].data.email
    {
      if i == k {
        assert users[j].data.email != users[k].data.email;
      } else if j == k {
        assert users[i].data.email != users[k].data.email;
      }
    }
  }

  /** A successful `editUsers` keeps emails unique: the state it leaves
      (the user at the position of `id` overwritten, the email as requested)
      together with its email check, which let the request through. */
  lemma EditUsersKeepsEmailsUnique(users: Table<User>, next: Id, id: Id, email: Option<string>,
                                   edited: Table<User>)
    requires Keyed(users, next) && EmailsUnique(users)
    requires !(Truthy(email) && EmailOwnedByOther(users, email.value, id))
    requires IndexOf(users, id).Some?
    requires var k := IndexOf(users, id).value;
      && |edited| == |users|
      && edited == users[k := Doc(id, edited[k].data)]
      && edited[k].data.email == TruthyOr(email, users[k].data.email)
    ensures EmailsUnique(edited)
  {
    var k := IndexOf(users, id).value;
    EditKeepsEmailsUnique(users, next, k, edited[k].data);
  }

  /** Deleting a user keeps emails unique. */
  lemma RemoveKeepsEmailsUnique(users: Table<User>, k: nat)
    requires EmailsUnique(users) && k < |users|
    ensures EmailsUnique(RemoveAt(users, k))
  {
    var r := RemoveAt(users, k);
    assert forall i | 0 <= i < |r| :: r[i] == if i < k then users[i] else users[i + 1];
  }

  /** `signUp`. */
  method SignUp(db: Store, name: Option<string>, email: Option<string>, password: Option<string>,
                role: Option<string>, phone: Option<string>, address: Option<string>, hash: string -> string)
    returns (r: Outcome<Doc<User>>)
    requires db.Valid()
    modifies db`users, db`nextId
    ensures db.Valid()
    ensures EmailsUnique(old(db.users)) ==> EmailsUnique(db.users)
    ensures r.Failure? ==> db.users == old(db.users) && db.nextId == old(db.nextId)
    ensures if !(Truthy(name) && Truthy(email) && Truthy(password) && Truthy(role) && Truthy(phone) && Truthy(address))
            then r == Failure(MissingFields)
            else if EmailOwner(old(db.users), email.value).Some? then r == Failure(UserExists)
            else if ParseRole(role.value).None? then r == Failure(ValidationFailed)
            else r.Success?
    ensures r.Success? ==>
      && Truthy(name) && Truthy(email) && Truthy(password) && Truthy(role) && Truthy(phone) && Truthy(address)
      && r.code == 201
      && r.value.id == old(db.nextId)
      && r.value.data == User(name.value, email.value, hash(password.value), r.value.data.role, phone.value, address.value)
      && RoleName(r.value.data.role) == role.value
      && db.users == old(db.users) + [r.value]
  {
    if !Truthy(name) || !Truthy(email) || !Truthy(password) || !Truthy(role) || !Truthy(phone) || !Truthy(address) {
      return Failure(MissingFields);
    }

    var userExist := EmailOwner(db.users, email.value);
    if userExist.Some? {
      return Failure(UserExists);
    }

    var hashedPassword := hash(password.value);
    var newUser := NewUser(name.value, email.value, hashedPassword, role, phone.value, address.value);
    if newUser.None? {
      return Failure(ValidationFailed);
    }
    var id := db.NewId();
    var saved := Doc(id, newUser.value);
    db.users := db.users + [saved];
    return Success(201, saved);
  }

  /** `login`. Nothing is written: the refresh token is assigned to the
      loaded document, which is never saved. */
  method Login(db: Store, email: Option<string>, password: Option<string>, matches: (string, string) -> bool)
    returns (r: Outcome<Claims>)
    ensures if !Truthy(email) || !Truthy(password) then r == Failure(MissingCredentials)
            else match EmailOwner(db.users, email.value)
              case None => r == Failure(UnknownEmail)
              case Some(k) =>
                if matches(password.value, db.users[k].data.password)
                then r == Success(200, Claims(db.users[k].id, db.users[k].data.role))
                else r == Failure(WrongPassword)
  {
    if !Truthy(email) || !Truthy(password) {
      return Failure(MissingCredentials);
    }

    var userExist := EmailOwner(db.users, email.value);
    if userExist.None? {
      return Failure(UnknownEmail);
    }

    var user := db.users[userExist.value];
    if !matches(password.value, user.data.password) {
      return Failure(WrongPassword);
    }
    return Success(200, Claims(user.id, user.data.role));
  }

  /** `fetchAllUsers`: every user, in natural order, without the password. */
  method FetchAllUsers(db: Store) returns (r: Outcome<seq<Doc<PublicUser>>>)
    ensures if |db.users| == 0 then r == Failure(UserNotFound) else r.Success?
    ensures r.Success? ==>
      && r.code == 200
      && |r.value| == |db.users|
      && forall i | 0 <= i < |r.value| :: r.value[i] == Doc(db.users[i].id, WithoutPassword(db.users[i].data))
  {
    var users := db.users;
    if |users| == 0 {
      return Failure(UserNotFound);
    }
    var view := seq(|users|, i requires 0 <= i < |users| => Doc(users[i].id, WithoutPassword(users[i].data)));
    return Success(200, view);
  }

  /** The `updates` object `editUsers` builds: each field the body supplies
      truthy, the password hashed, and the role as the enum validator reads
      it (`None` for a name outside the enum, which the caller refuses). */
  function BodyUpdates(name: Option<string>, email: Option<string>, password: Option<string>,
                       role: Option<string>, phone: Option<string>, address: Option<string>,
                       hash: string -> string): UserPatch
  {
    UserPatch(
      if Truthy(name) then name else None,
      if Truthy(email) then email else None,
      if Truthy(password) then Some(hash(password.value)) else None,
      if Truthy(role) then ParseRole(role.value) else None,
      if Truthy(phone) then phone else None,
      if Truthy(address) then address else None)
  }

  /** `after` is `before` with every field the body supplies truthy
      overwritten: the password by its hash, the role by the enum value of
      that name. */
  predicate EditedAsRequested(before: User, after: User, name: Option<string>, email: Option<string>,
                              password: Option<string>, role: Option<string>, phone: Option<string>,
                              address: Option<string>, hash: string -> string)
  {
    && after.name == TruthyOr(name, before.name)
    && after.email == TruthyOr(email, before.email)
    && after.password == (if Truthy(password) then hash(password.value) else before.password)
    && (if Truthy(role) then RoleName(after.role) == role.value else after.role == before.role)
    && after.phone == TruthyOr(phone, before.phone)
    && after.address == TruthyOr(address, before.address)
  }

  lemma ApplyBodyUpdates(u: User, name: Option<string>, email: Option<string>, password: Option<string>,
                         role: Option<string>, phone: Option<string>, address: Option<string>,
                         hash: string -> string)
    requires Truthy(role) ==> ParseRole(role.value).Some?
    ensures EditedAsRequested(u, ApplyUserPatch(u, BodyUpdates(name, email, password, role, phone, address, hash)),
                              name, email, password, role, phone, address, hash)
  {
  }

  /** The write of `editUsers`, once its email check has let the request
      through: the user `id` gets the new fields, and emails stay unique. */
  method SaveEdit(db: Store, k: nat, id: Id, email: Option<string>, u: User)
    requires db.Valid() && IndexOf(db.users, id) == Some(k)
    requires !(Truthy(email) && EmailOwnedByOther(db.users, email.value, id))
    requires u.email == TruthyOr(email, db.users[k].data.email)
    modifies db`users
    ensures db.Valid()
    ensures db.users == old(db.users)[k := Doc(id, u)]
    ensures EmailsUnique(old(db.users)) ==> EmailsUnique(db.users)
  {
    ghost var users0, next0 := db.users, db.nextId;
    db.ReplaceUser(k, u);
    if EmailsUnique(users0) {
      EditUsersKeepsEmailsUnique(users0, next0, id, email, db.users);
    }
  }

  /** `editUsers`. Only fields the body supplies (truthy) are written, the role
      included, whoever the caller is. The enum validator runs when the
      update is executed: after the email check, before the lookup. */
  method EditUsers(db: Store, caller: Claims, id: Id, name: Option<string>, email: Option<string>,
                   password: Option<string>, role: Option<string>, phone: Option<string>,
                   address: Option<string>, hash: string -> string)
    returns (r: Outcome<Doc<User>>)
    requires db.Valid()
    modifies db`users
    ensures db.Valid()
    ensures EmailsUnique(old(db.users)) ==> EmailsUnique(db.users)
    ensures r.Failure? ==> db.users == old(db.users)
    ensures if caller.id != id && caller.role != Admin then r == Failure(AccessDenied)
            else if Truthy(email) && EmailOwnedByOther(old(db.users), email.value, id) then r == Failure(EmailTaken)
            else if Truthy(role) && ParseRole(role.value).None? then r == Failure(ValidationFailed)
            else if IndexOf(old(db.users), id).None? then r == Failure(UserNotFound)
            else r.Success?
    ensures r.Success? ==>
      && IndexOf(old(db.users), id).Some?
      && var k := IndexOf(old(db.users), id).value;
         var before := old(db.users)[k].data;
         && r.code == 200
         && r.value.id == id
         && db.users == old(db.users)[k := r.value]
         && EditedAsRequested(before, r.value.data, name, email, password, role, phone, address, hash)
  {
    if caller.id != id && caller.role != Admin {
      return Failure(AccessDenied);
    }

    if Truthy(email) && EmailOwnedByOther(db.users, email.value, id) {
      return Failure(EmailTaken);
    }
    var updates := BodyUpdates(name, email, password, role, phone, address, hash);

    // findByIdAndUpdate with runValidators: validation, then the lookup
    if Truthy(role) && updates.role.None? {
      return Failure(ValidationFailed);
    }
    var k := IndexOf(db.users, id);
    if k.None? {
      return Failure(UserNotFound);
    }
    var before := db.users[k.value].data;
    ApplyBodyUpdates(before, name, email, password, role, phone, address, hash);
    var updated := Doc(id, ApplyUserPatch(before, updates));
    SaveEdit(db, k.value, id, email, updated.data);
    return Success(200, updated);
  }

  /** `deleteUser`. Documents that refer to the user are left as they are. */
  method DeleteUser(db: Store, caller: Claims, id: Id) returns (r: Outcome<()>)
    requires db.Valid()
    modifies db`users
    ensures db.Valid()
    ensures EmailsUnique(old(db.users)) ==> EmailsUnique(db.users)
    ensures r.Failure? ==> db.users == old(db.users)
    ensures if caller.id != id && caller.role != Admin then r == Failure(AccessDenied)
            else if IndexOf(old(db.users), id).None? then r == Failure(UserNotFound)
            else r == Success(200, ())
    ensures r.Success? ==>
      && IndexOf(old(db.users), id).Some?
      && db.users == RemoveAt(old(db.users), IndexOf(old(db.users), id).value)
      && |db.users| == |old(db.users)| - 1
      && forall d :: d in db.users <==> d in old(db.users) && d.id != id
  {
    if caller.id != id && caller.role != Admin {
      return Failure(AccessDenied);
    }

    var k := IndexOf(db.users, id);
    if k.None? {
      return Failure(UserNotFound);
    }
    RemoveAtDropsOnlyThatId(db.users, db.nextId, k.value);
    if EmailsUnique(db.users) {
      RemoveKeepsEmailsUnique(db.users, k.value);
    }
    db.users := RemoveAt(db.users, k.value);
    return Success(200, ());
  }
}
