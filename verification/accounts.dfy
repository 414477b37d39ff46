/** The account stores and their route handlers: user login, registration and
    profile; admin login, registration and profile; and the admin views of the
    user list. Each store is a map from email to record. Password hashing,
    hash comparison and token signing are library calls, passed in as
    opaque functions. */
module Accounts {
  import opened Common

  type Id = string
  type Email = string

  /** bcrypt and JWT: `hash(plain)`, `matches(plain, stored)` and `sign(id)`. */
  datatype Crypto = Crypto(hash: string -> string, matches: (string, string) -> bool, sign: Id -> string)

  /** Comparing a password with its own hash succeeds. */
  ghost predicate HashSound(c: Crypto) {
    forall p :: c.matches(p, c.hash(p))
  }

  datatype Address = Address(street: string, city: string, state: string, postalCode: string, country: string)

  /** A user record; `password` holds the hash. An absent phone is "". */
  datatype User = User(id: Id, name: string, email: Email, password: string, address: Option<Address>, phone: string)

  datatype Admin = Admin(id: Id, name: string, email: Email, password: string, isAdmin: bool)

  type UserStore = map<Email, User>
  type AdminStore = map<Email, Admin>

  /** A user as the server shows it: every field but the password. */
  datatype PublicUser = PublicUser(id: Id, name: string, email: Email, address: Option<Address>, phone: string)

  function Public(u: User): PublicUser {
    PublicUser(u.id, u.name, u.email, u.address, u.phone)
  }

  /** The user login and profile-update response: the public fields and a token. */
  datatype UserSession = UserSession(user: PublicUser, token: string)

  /** The registration response: id, name, email and a token. */
  datatype Registration = Registration(id: Id, name: string, email: Email, token: string)

  /** The admin login and registration response, which reports `isAdmin`. */
  datatype AdminSession = AdminSession(id: Id, name: string, email: Email, isAdmin: bool, token: string)

  datatype AdminProfile = AdminProfile(id: Id, name: string, email: Email, isAdmin: bool)

  const InvalidCredentials := "Invalid email or password"
  const UserNotFound := "User not found"

  /** Every record is filed under its own email and ids are unique. */
  ghost predicate UserStoreInvariant(store: UserStore) {
    && (forall e :: e in store ==> store[e].email == e)
    && UserIdsUnique(store)
  }

  /** The same, and every stored admin has `isAdmin` set. */
  ghost predicate AdminStoreInvariant(store: AdminStore) {
    && (forall e :: e in store ==> store[e].email == e && store[e].isAdmin)
    && AdminIdsUnique(store)
  }

  ghost predicate UserIdsUnique(store: UserStore) {
    forall e1, e2 :: e1 in store && e2 in store && store[e1].id == store[e2].id ==> e1 == e2
  }

  ghost predicate AdminIdsUnique(store: AdminStore) {
    forall e1, e2 :: e1 in store && e2 in store && store[e1].id == store[e2].id ==> e1 == e2
  }

  /** `User.findById(id)`: the email under which the record with that id is filed. */
  function FindUser(store: UserStore, id: Id): (r: Option<Email>)
    requires UserIdsUnique(store)
    ensures r.Some? ==> r.value in store && store[r.value].id == id
    ensures r.None? <==> forall e :: e in store ==> store[e].id != id
  {
    if exists e :: e in store && store[e].id == id then
      var e :| e in store && store[e].id == id;
      Some(e)
    else None
  }

  function FindAdmin(store: AdminStore, id: Id): (r: Option<Email>)
    requires AdminIdsUnique(store)
    ensures r.Some? ==> r.value in store && store[r.value].id == id
    ensures r.None? <==> forall e :: e in store ==> store[e].id != id
  {
    if exists e :: e in store && store[e].id == id then
      var e :| e in store && store[e].id == id;
      Some(e)
    else None
  }

  // ---------------------------------------------------------------------------
  // Users.
  // ---------------------------------------------------------------------------

  /** `POST /api/users/login`: succeeds exactly when the email is registered
      and the password matches its hash; both failures give the same 401. */
  function LoginUser(store: UserStore, email: Email, password: string, c: Crypto): (r: Response<UserSession>)
    ensures r.Ok? <==> email in store && c.matches(password, store[email].password)
    ensures r.Ok? ==> r.status == 200 && r.body == UserSession(Public(store[email]), c.sign(store[email].id))
    ensures r.Error? ==> r == Error(401, InvalidCredentials)
  {
    if email in store && c.matches(password, store[email].password) then
      var u := store[email];
      Ok(200, UserSession(Public(u), c.sign(u.id)))
    else Error(401, InvalidCredentials)
  }

  /** `POST /api/users`: refuses a registered email; otherwise stores the new
      user with the hashed password. */
  function RegisterUser(store: UserStore, newId: Id, name: string, email: Email, password: string, c: Crypto)
    : (r: Reply<UserStore, Registration>)
    ensures email in store ==> r == Reply(store, Error(400, "User already exists"))
    ensures email !in store ==>
      && r.store == store[email := User(newId, name, email, c.hash(password), None, "")]
      && r.response == Ok(201, Registration(newId, name, email, c.sign(newId)))
  {
    if email in store then Reply(store, Error(400, "User already exists"))
    else
      var u := User(newId, name, email, c.hash(password), None, "");
      Reply(store[email := u], Ok(201, Registration(newId, name, email, c.sign(newId))))
  }

  /** Registration keeps emails and ids unique when the new id is fresh. */
  lemma RegisterKeepsInvariant(store: UserStore, newId: Id, name: string, email: Email, password: string, c: Crypto)
    requires UserStoreInvariant(store)
    requires forall e :: e in store ==> store[e].id != newId
    ensures UserStoreInvariant(RegisterUser(store, newId, name, email, password, c).store)
  {
  }

  /** A user who just registered can log in with the same email and password,
      and is then known by the registered id. */
  lemma RegisterThenLogin(store: UserStore, newId: Id, name: string, email: Email, password: string, c: Crypto)
    requires HashSound(c)
    requires email !in store
    ensures var s := RegisterUser(store, newId, name, email, password, c).store;
            var r := LoginUser(s, email, password, c);
            r.Ok? && r.body.user.id == newId && r.body.token == c.sign(newId)
  {
    assert c.matches(password, c.hash(password));
  }

  /** `GET /api/users/profile`: the caller's own record, without the password. */
  function GetProfile(store: UserStore, caller: Id): (r: Response<PublicUser>)
    requires UserIdsUnique(store)
    ensures r.Ok? <==> exists e :: e in store && store[e].id == caller
    ensures r.Ok? ==> r.status == 200 && exists e :: e in store && store[e].id == caller && r.body == Public(store[e])
    ensures r.Error? ==> r == Error(404, UserNotFound)
  {
    match FindUser(store, caller)
    case Some(e) => Ok(200, Public(store[e]))
    case None => Error(404, UserNotFound)
  }

  /** The body of `PUT /api/users/profile`. A falsy string is "", and an
      absent address is None; any address object is truthy. */
  datatype ProfileInput = ProfileInput(name: string, email: Email, address: Option<Address>, phone: string, password: string)

  /** `x || user.x` for every field; the password is replaced, and rehashed,
      only when a non-empty one is sent. */
  function MergeProfile(u: User, input: ProfileInput, c: Crypto): (r: User)
    ensures r.id == u.id
    ensures r.name == (if input.name != "" then input.name else u.name)
    ensures r.email == (if input.email != "" then input.email else u.email)
    ensures r.address == (if input.address.Some? then input.address else u.address)
    ensures r.phone == (if input.phone != "" then input.phone else u.phone)
    ensures r.password == (if input.password != "" then c.hash(input.password) else u.password)
  {
    u.(name := OrElse(input.name, u.name),
       email := OrElse(input.email, u.email),
       address := if input.address.Some? then input.address else u.address,
       phone := OrElse(input.phone, u.phone),
       password := if input.password != "" then c.hash(input.password) else u.password)
  }

  /** `PUT /api/users/profile`: merges the truthy fields into the caller's
      record. Moving to an email another user holds breaks the unique index
      on email, so the save fails with 500. */
  function UpdateProfile(store: UserStore, caller: Id, input: ProfileInput, c: Crypto): (r: Reply<UserStore, UserSession>)
    requires UserStoreInvariant(store)
    ensures (forall e :: e in store ==> store[e].id != caller) ==> r == Reply(store, Error(404, UserNotFound))
    ensures r.response.Ok? <==>
      exists e :: e in store && store[e].id == caller &&
        var email := MergeProfile(store[e], input, c).email;
        email == e || email !in store
    ensures r.response.Error? ==> r.store == store
    ensures r.response.Error? && (exists e :: e in store && store[e].id == caller) ==>
      r.response == Error(500, "E11000 duplicate key error: email")
    ensures r.response.Ok? ==>
      exists e :: e in store && store[e].id == caller &&
        var u' := MergeProfile(store[e], input, c);
        && r.store == (store - {e})[u'.email := u']
        && r.response == Ok(200, UserSession(Public(u'), c.sign(caller)))
  {
    match FindUser(store, caller)
    case None => Reply(store, Error(404, UserNotFound))
    case Some(e) =>
      var u' := MergeProfile(store[e], input, c);
      if u'.email != e && u'.email in store then
        Reply(store, Error(500, "E11000 duplicate key error: email"))
      else
        Reply((store - {e})[u'.email := u'], Ok(200, UserSession(Public(u'), c.sign(caller))))
  }

  /** A profile update keeps emails and ids unique. */
  lemma UpdateProfileKeepsInvariant(store: UserStore, caller: Id, input: ProfileInput, c: Crypto)
    requires UserStoreInvariant(store)
    ensures UserStoreInvariant(UpdateProfile(store, caller, input, c).store)
  {
    var r := UpdateProfile(store, caller, input, c);
    if r.response.Ok? {
      var e := FindUser(store, caller).value;
      var u' := MergeProfile(store[e], input, c);
      assert r.store == (store - {e})[u'.email := u'];
      forall e1, e2 | e1 in r.store && e2 in r.store && r.store[e1].id == r.store[e2].id
        ensures e1 == e2
      {
        if e1 != u'.email && e2 != u'.email {
          assert store[e1].id == store[e2].id;
        }
      }
    }
  }

  /** Every other user's record is untouched by a profile update. */
  lemma UpdateProfileTouchesOnlyCaller(store: UserStore, caller: Id, input: ProfileInput, c: Crypto, e: Email)
    requires UserStoreInvariant(store)
    requires e in store && store[e].id != caller
    ensures e in UpdateProfile(store, caller, input, c).store
    ensures UpdateProfile(store, caller, input, c).store[e] == store[e]
  {
  }

  /** After changing the password, the new one logs in and the old one no
      longer does (as long as the hash tells the two apart). */
  lemma PasswordChangeThenLogin(store: UserStore, caller: Id, input: ProfileInput, previous: string, c: Crypto)
    requires UserStoreInvariant(store) && HashSound(c)
    requires input.password != "" && !c.matches(previous, c.hash(input.password))
    ensures var r := UpdateProfile(store, caller, input, c);
            r.response.Ok? ==>
              var email := r.response.body.user.email;
              LoginUser(r.store, email, input.password, c).Ok? &&
              LoginUser(r.store, email, previous, c) == Error(401, InvalidCredentials)
  {
    var r := UpdateProfile(store, caller, input, c);
    if r.response.Ok? {
      var e := FindUser(store, caller).value;
      var u' := MergeProfile(store[e], input, c);
      assert r.store[u'.email] == u';
      assert c.matches(input.password, c.hash(input.password));
    }
  }

  /** An update that sends nothing truthy changes nothing but re-issues a token. */
  lemma EmptyUpdateKeepsRecord(store: UserStore, caller: Id, c: Crypto)
    requires UserStoreInvariant(store)
    requires exists e :: e in store && store[e].id == caller
    ensures UpdateProfile(store, caller, ProfileInput("", "", None, "", ""), c).store == store
  {
    var e := FindUser(store, caller).value;
    assert MergeProfile(store[e], ProfileInput("", "", None, "", ""), c) == store[e];
    assert (store - {e})[e := store[e]] == store;
  }

  // ---------------------------------------------------------------------------
  // Admins.
  // ---------------------------------------------------------------------------

  /** `POST /api/admins/login`: as for users, but the response reports `isAdmin`. */
  function LoginAdmin(store: AdminStore, email: Email, password: string, c: Crypto): (r: Response<AdminSession>)
    ensures r.Ok? <==> email in store && c.matches(password, store[email].password)
    ensures r.Ok? ==>
      var a := store[email];
      r == Ok(200, AdminSession(a.id, a.name, a.email, a.isAdmin, c.sign(a.id)))
    ensures r.Error? ==> r == Error(401, InvalidCredentials)
  {
    if email in store && c.matches(password, store[email].password) then
      var a := store[email];
      Ok(200, AdminSession(a.id, a.name, a.email, a.isAdmin, c.sign(a.id)))
    else Error(401, InvalidCredentials)
  }

  /** The admin schema's `required` validators on name, email and password. */
  predicate AdminValid(name: string, email: Email, password: string) {
    name != "" && email != "" && password != ""
  }

  /** `POST /api/admins`: refuses a registered email; otherwise creates the
      admin with `isAdmin` true. */
  function RegisterAdmin(store: AdminStore, newId: Id, name: string, email: Email, password: string, c: Crypto)
    : (r: Reply<AdminStore, AdminSession>)
    ensures email in store ==> r == Reply(store, Error(400, "Admin already exists"))
    ensures r.response.Error? ==> r.store == store
    ensures r.response.Ok? <==> email !in store && AdminValid(name, email, password)
    ensures r.response.Ok? ==>
      && r.store == store[email := Admin(newId, name, email, c.hash(password), true)]
      && r.response == Ok(201, AdminSession(newId, name, email, true, c.sign(newId)))
  {
    if email in store then Reply(store, Error(400, "Admin already exists"))
    else if !AdminValid(name, email, password) then Reply(store, Error(500, "Admin validation failed"))
    else
      var a := Admin(newId, name, email, c.hash(password), true);
      Reply(store[email := a], Ok(201, AdminSession(newId, name, email, true, c.sign(newId))))
  }

  /** Every admin that registration creates is an admin, and its login says so. */
  lemma RegisterAdminThenLogin(store: AdminStore, newId: Id, name: string, email: Email, password: string, c: Crypto)
    requires HashSound(c) && AdminStoreInvariant(store)
    requires forall e :: e in store ==> store[e].id != newId
    ensures var r := RegisterAdmin(store, newId, name, email, password, c);
            && AdminStoreInvariant(r.store)
            && (r.response.Ok? ==> LoginAdmin(r.store, email, password, c).Ok? && LoginAdmin(r.store, email, password, c).body.isAdmin)
  {
    assert c.matches(password, c.hash(password));
  }

  /** `GET /api/admins/profile`. */
  function GetAdminProfile(store: AdminStore, caller: Id): (r: Response<AdminProfile>)
    requires AdminIdsUnique(store)
    ensures r.Ok? <==> exists e :: e in store && store[e].id == caller
    ensures r.Ok? ==> r.status == 200 && r.body.id == caller
    ensures r.Ok? ==>
      exists e :: e in store && store[e].id == caller &&
        r.body == AdminProfile(caller, store[e].name, store[e].email, store[e].isAdmin)
    ensures r.Error? ==> r == Error(404, "Admin not found")
  {
    match FindAdmin(store, caller)
    case Some(e) =>
      var a := store[e];
      Ok(200, AdminProfile(a.id, a.name, a.email, a.isAdmin))
    case None => Error(404, "Admin not found")
  }

  /** A newly registered admin's profile shows the registered name and email,
      and reports an admin. */
  lemma RegisterAdminThenProfile(store: AdminStore, newId: Id, name: string, email: Email, password: string, c: Crypto)
    requires AdminStoreInvariant(store)
    requires forall e :: e in store ==> store[e].id != newId
    ensures var r := RegisterAdmin(store, newId, name, email, password, c);
            && AdminIdsUnique(r.store)
            && (r.response.Ok? ==> GetAdminProfile(r.store, newId) == Ok(200, AdminProfile(newId, name, email, true)))
  {
    var r := RegisterAdmin(store, newId, name, email, password, c);
    if r.response.Ok? {
      assert r.store[email].id == newId;
    }
  }

  /** `GET /api/admins/users`: every user, without passwords. */
  function ListUsers(store: UserStore): (r: set<PublicUser>)
    ensures forall e :: e in store ==> Public(store[e]) in r
    ensures forall p :: p in r ==> exists e :: e in store && Public(store[e]) == p
  {
    set e | e in store :: Public(store[e])
  }

  /** `GET /api/admins/users/:id`: one user, without the password. */
  function GetUser(store: UserStore, id: Id): (r: Response<PublicUser>)
    requires UserIdsUnique(store)
    ensures r.Ok? <==> exists e :: e in store && store[e].id == id
    ensures r.Ok? ==> r.status == 200 && r.body.id == id && r.body in ListUsers(store)
    ensures r.Error? ==> r == Error(404, UserNotFound)
  {
    match FindUser(store, id)
    case Some(e) => Ok(200, Public(store[e]))
    case None => Error(404, UserNotFound)
  }

  /** The user views agree with the stored record on every field they show. */
  lemma ViewsShowStoredFields(store: UserStore, id: Id)
    requires UserIdsUnique(store)
    ensures GetUser(store, id) == GetProfile(store, id)
  {
  }
}
