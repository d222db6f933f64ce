/**
  The account routes: register, login, me, refresh, update-profile and
  change-password. bcrypt is a pair of parameters — `hash` for the pre-save
  hook and `compare(candidate, stored)` for `comparePassword` — and token
  verification is the Guards module's `Verdict`. Signing the access and
  refresh tokens is left to the caller: a successful reply names the user
  they are issued for.
 */
module Accounts {
  import opened Common
  import Strings
  import opened Docs
  import opened Users
  import Guards

  datatype Reply =
    | Registered(message: string, user: PublicUser)
    | LoggedIn(message: string, user: PublicUser)
    | AccessToken(userId: Id)
    | Profile(user: PublicUser)
    | ProfileUpdated(message: string, user: PublicUser)
    | PasswordChanged(message: string)
    | Refused(status: int, error: string)

  const BadCredentials := "Invalid email or password."

  /** The body of `POST /api/auth/register`. */
  datatype Registration = Registration(name: Option<string>, email: Option<string>, phone: Option<string>, password: Option<string>)

  predicate Complete(f: Registration) {
    Filled(f.name) && Filled(f.email) && Filled(f.phone) && Filled(f.password)
  }

  /** What `User.create` receives from a complete registration (no role, no `isActive`). */
  function NewUserOf(f: Registration): NewUser
    requires Complete(f)
  {
    NewUser(f.name.value, f.email.value, f.phone.value, f.password.value, None, None)
  }

  /** Some stored user has the e-mail once both are normalised. */
  predicate EmailTaken(users: Collection<User>, email: string) {
    exists j :: 0 <= j < |users| && HasEmail(users[j].body, email)
  }

  /** `User.findOne({ email: email.toLowerCase() })`: lower-casing first makes no difference. */
  function FindLowered(users: Collection<User>, email: string): (r: Option<nat>)
    ensures r == FindByEmail(users, email)
    ensures r.None? <==> !EmailTaken(users, email)
  {
    NormalizeEmailOfLower(email);
    FirstWhereCongruent(users, users, u => HasEmail(u, Strings.Lower(email)), u => HasEmail(u, email));
    FindByEmail(users, Strings.Lower(email))
  }

  /**
    `POST /api/auth/register`: 400 for a missing field or a short password,
    409 when the lower-cased e-mail is taken, 500 for a schema validation
    error, 409 for a duplicate key on insert, else 201 with the new user.
   */
  function Register(users: Collection<User>, f: Registration, id: Id, now: int, hash: string -> string)
    : (r: (Collection<User>, Reply))
    ensures !Complete(f) ==> r == (users, Refused(400, "All fields are required."))
    ensures Complete(f) && Strings.JsLength(f.password.value) < 6 ==>
              r == (users, Refused(400, "Password must be at least 6 characters."))
    ensures Complete(f) && Strings.JsLength(f.password.value) >= 6 && EmailTaken(users, f.email.value) ==>
              r == (users, Refused(409, "Email already registered. Please log in."))
    ensures r.1.Registered? <==>
              && Complete(f) && !EmailTaken(users, f.email.value)
              && ValidFields(NewUserOf(f)) && !Has(users, id)
    ensures r.1.Registered? ==>
              var u := Create(NewUserOf(f), now, hash).value;
              && r.0 == users + [Doc(id, u)] && r.1.user == ToJson(Doc(id, u))
              && u.email == NormalizeEmail(f.email.value) && u.role == UserRole && u.isActive
              && u.ledger == [] && u.password == hash(f.password.value)
    ensures !r.1.Registered? ==> r.0 == users
  {
    if !Complete(f) then (users, Refused(400, "All fields are required."))
    else if Strings.JsLength(f.password.value) < 6 then (users, Refused(400, "Password must be at least 6 characters."))
    else
      var email := f.email.value;
      if FindLowered(users, email).Some? then
        (users, Refused(409, "Email already registered. Please log in."))
      else
        match Create(NewUserOf(f), now, hash)
        case None => (users, Refused(500, "Registration failed. Please try again."))
        case Some(u) =>
          if Has(users, id) || EmailTaken(users, email) then (users, Refused(409, "Email already registered."))
          else (Add(users, id, u), Registered("Account created successfully.", ToJson(Doc(id, u))))
  }

  /**
    The minimum counts UTF-16 code units: any password of three or more
    astral characters (emoji, say) is long enough, though shorter than six
    characters.
   */
  lemma AstralPasswordLongEnough(users: Collection<User>, f: Registration, id: Id, now: int, hash: string -> string)
    requires Complete(f) && |f.password.value| >= 3
    requires forall k :: 0 <= k < |f.password.value| ==> Strings.IsAstral(f.password.value[k])
    ensures Register(users, f, id, now, hash).1 != Refused(400, "Password must be at least 6 characters.")
  {
    Strings.AllAstral(f.password.value);
  }

  /** Registration keeps the unique index on `email`: the stored address is one no account has yet. */
  lemma RegisterKeepsEmailsUnique(users: Collection<User>, f: Registration, id: Id, now: int, hash: string -> string)
    requires UniqueEmails(users)
    ensures UniqueEmails(Register(users, f, id, now, hash).0)
  {
    var r := Register(users, f, id, now, hash);
    if r.1.Registered? {
      var u := Create(NewUserOf(f), now, hash).value;
      var added := users + [Doc(id, u)];
      assert r.0 == added;
      assert u.email == NormalizeEmail(f.email.value);
      assert !EmailTaken(users, f.email.value);
      forall i, j | 0 <= i < j < |added|
        ensures added[i].body.email != added[j].body.email
      {
        if j == |users| {
          assert !HasEmail(users[i].body, f.email.value);
        }
      }
    }
  }

  /**
    `POST /api/auth/login`: 400 without both fields; an unknown e-mail, a
    deactivated account and a wrong password get one and the same 401.
   */
  function Login(users: Collection<User>, email: Option<string>, password: Option<string>,
                 compare: (string, string) -> bool): (r: Reply)
    ensures !(Filled(email) && Filled(password)) ==> r == Refused(400, "Email and password are required.")
    ensures Filled(email) && Filled(password) ==> r.LoggedIn? || r == Refused(401, BadCredentials)
    ensures r.LoggedIn? <==>
              && Filled(email) && Filled(password)
              && var k := FindByEmail(users, email.value);
                 k.Some? && users[k.value].body.isActive && compare(password.value, users[k.value].body.password)
    ensures r.LoggedIn? ==> r == LoggedIn("Login successful.", ToJson(users[FindByEmail(users, email.value).value]))
  {
    if !Filled(email) || !Filled(password) then Refused(400, "Email and password are required.")
    else
      match FindLowered(users, email.value)
      case None => Refused(401, BadCredentials)
      case Some(k) =>
        if !users[k].body.isActive then Refused(401, BadCredentials)
        else if !compare(password.value, users[k].body.password) then Refused(401, BadCredentials)
        else LoggedIn("Login successful.", ToJson(users[k]))
  }

  /** A fresh registration can log in at once with the same e-mail and password (when bcrypt accepts its own hash). */
  lemma RegisterThenLogin(users: Collection<User>, f: Registration, id: Id, now: int,
                          hash: string -> string, compare: (string, string) -> bool)
    requires Register(users, f, id, now, hash).1.Registered?
    requires compare(f.password.value, hash(f.password.value))
    ensures var r := Register(users, f, id, now, hash);
            Login(r.0, f.email, f.password, compare) == LoggedIn("Login successful.", r.1.user)
  {
    var r := Register(users, f, id, now, hash);
    var u := Create(NewUserOf(f), now, hash).value;
    assert r.0 == users + [Doc(id, u)];
    FindAppended(users, Doc(id, u), f.email.value);
  }

  /** Registering the same e-mail twice: the second attempt is refused with 409. */
  lemma RegisterTwice(users: Collection<User>, f: Registration, g: Registration, id: Id, id2: Id, now: int, hash: string -> string)
    requires Register(users, f, id, now, hash).1.Registered?
    requires Complete(g) && Strings.JsLength(g.password.value) >= 6 && NormalizeEmail(g.email.value) == NormalizeEmail(f.email.value)
    ensures Register(Register(users, f, id, now, hash).0, g, id2, now, hash).1 == Refused(409, "Email already registered. Please log in.")
  {
    var users1 := Register(users, f, id, now, hash).0;
    assert HasEmail(users1[|users|].body, g.email.value);
  }

  /** Every failed login with both fields present is the same reply, whatever the reason. */
  lemma LoginFailuresAlike(users: Collection<User>, email: string, p1: string, p2: string, compare: (string, string) -> bool)
    requires email != "" && p1 != "" && p2 != ""
    requires !Login(users, Some(email), Some(p1), compare).LoggedIn?
    requires !Login(users, Some(email), Some(p2), compare).LoggedIn?
    ensures Login(users, Some(email), Some(p1), compare) == Login(users, Some(email), Some(p2), compare)
  {
  }

  /**
    `GET /api/auth/me` for the user `protect` admitted: the user is loaded
    again; one that has disappeared in between is 500.
   */
  function Me(users: Collection<User>, caller: Id): (r: Reply)
    ensures r.Profile? <==> Has(users, caller)
    ensures r.Profile? ==> r.user == ToJson(Doc(caller, Get(users, caller).value)) && r.user.id == caller
    ensures !r.Profile? ==> r == Refused(500, "Could not fetch user.")
  {
    match Get(users, caller)
    case None => Refused(500, "Could not fetch user.")
    case Some(u) => Profile(ToJson(Doc(caller, u)))
  }

  /**
    `POST /api/auth/refresh`: 400 without a token; a token that does not
    verify, or whose user is missing or deactivated, is 401; otherwise a
    new access token for that user.
   */
  function Refresh(users: Collection<User>, token: Option<string>, verify: string -> Guards.Verdict): (r: Reply)
    ensures !Filled(token) ==> r == Refused(400, "Refresh token required.")
    ensures r.AccessToken? <==>
              && Filled(token) && verify(token.value).Decoded?
              && Get(users, verify(token.value).id).Some? && Get(users, verify(token.value).id).value.isActive
    ensures r.AccessToken? ==> r.userId == verify(token.value).id
    ensures Filled(token) && !r.AccessToken? ==> r.Refused? && r.status == 401
  {
    if !Filled(token) then Refused(400, "Refresh token required.")
    else
      match verify(token.value)
      case Decoded(id) =>
        (match Get(users, id)
         case None => Refused(401, "Invalid refresh token.")
         case Some(u) => if !u.isActive then Refused(401, "Invalid refresh token.") else AccessToken(id))
      case _ => Refused(401, "Invalid or expired refresh token.")
  }

  /**
    Refresh checks the token against `JWT_REFRESH_SECRET`, `protect`
    against `JWT_SECRET`. Where the two checks decode the token alike (as
    they do for every token when the secrets are equal), refresh issues an
    access token for exactly the users `protect` would admit with that token
    as a bearer token, and for the same user.
   */
  lemma RefreshAgreesWithProtect(users: Collection<User>, token: string,
                                 verifyRefresh: string -> Guards.Verdict, verifyAccess: string -> Guards.Verdict)
    requires token != "" && ' ' !in token
    requires verifyRefresh(token) == verifyAccess(token)
    ensures var g := Guards.Protect(Some("Bearer " + token), verifyAccess, users);
            var r := Refresh(users, Some(token), verifyRefresh);
            && (r.AccessToken? <==> g.Admit?)
            && (r.AccessToken? ==> r.userId == g.user.id)
  {
    Guards.ExtractorsAgree(token);
  }

  // ---------------------------------------------------------------------------
  // Profile and password

  /**
    The profile edit `findByIdAndUpdate` applies: only `name` and `phone`,
    only when present in the body, trimmed by the schema's setters.
   */
  function EditProfile(u: User, body: map<string, string>): (r: User)
    ensures r.(name := u.name, phone := u.phone) == u
    ensures r.name == (if "name" in body then Strings.Trim(body["name"]) else u.name)
    ensures r.phone == (if "phone" in body then Strings.Trim(body["phone"]) else u.phone)
  {
    u.(name := if "name" in body then Strings.Trim(body["name"]) else u.name,
       phone := if "phone" in body then Strings.Trim(body["phone"]) else u.phone)
  }

  /** The update validators on the two editable paths: required, and at most 100 characters for the name. */
  predicate ProfileValid(u: User) {
    u.name != "" && Strings.JsLength(u.name) <= 100 && u.phone != ""
  }

  /**
    `PATCH /api/auth/update-profile` for the signed-in user `caller`. A
    validation error, or a user that has disappeared, is 500.
   */
  function UpdateProfile(users: Collection<User>, caller: Id, body: map<string, string>): (r: (Collection<User>, Reply))
    ensures r.1.ProfileUpdated? <==> Has(users, caller) && ProfileValid(EditProfile(Get(users, caller).value, body))
    ensures r.1.ProfileUpdated? ==>
              && Get(r.0, caller) == Some(EditProfile(Get(users, caller).value, body))
              && r.1.user == ToJson(Doc(caller, Get(r.0, caller).value))
    ensures !r.1.ProfileUpdated? ==> r == (users, Refused(500, "Profile update failed."))
    ensures forall other :: other != caller ==> Get(r.0, other) == Get(users, other)
  {
    match Get(users, caller)
    case None => (users, Refused(500, "Profile update failed."))
    case Some(u) =>
      var u1 := EditProfile(u, body);
      if !ProfileValid(u1) then (users, Refused(500, "Profile update failed."))
      else (Set(users, caller, u1), ProfileUpdated("Profile updated.", ToJson(Doc(caller, u1))))
  }

  /** After a successful profile update, `me` shows exactly the user the update answered with. */
  lemma MeAfterUpdate(users: Collection<User>, caller: Id, body: map<string, string>)
    requires UpdateProfile(users, caller, body).1.ProfileUpdated?
    ensures Me(UpdateProfile(users, caller, body).0, caller) == Profile(UpdateProfile(users, caller, body).1.user)
  {
  }

  /** Whatever the body holds (a `role`, a `password`, an `enrolledPackages`), a profile update changes none of them. */
  lemma ProfileCannotEscalate(users: Collection<User>, caller: Id, body: map<string, string>)
    requires Has(users, caller)
    ensures var before := Get(users, caller).value;
            var after := Get(UpdateProfile(users, caller, body).0, caller).value;
            && after.role == before.role && after.password == before.password
            && after.email == before.email && after.ledger == before.ledger && after.isActive == before.isActive
  {
  }

  /**
    `POST /api/auth/change-password`: 400 without both fields or for a new
    password under 6 characters, 400 when the current password does not
    match; otherwise the password is set and the pre-save hook hashes it.
   */
  function ChangePassword(users: Collection<User>, caller: Id, current: Option<string>, next: Option<string>,
                          compare: (string, string) -> bool, hash: string -> string): (r: (Collection<User>, Reply))
    ensures !(Filled(current) && Filled(next)) ==> r == (users, Refused(400, "Both fields required."))
    ensures Filled(current) && Filled(next) && Strings.JsLength(next.value) < 6 ==> r == (users, Refused(400, "New password too short."))
    ensures r.1.PasswordChanged? <==>
              && Filled(current) && Filled(next) && Strings.JsLength(next.value) >= 6 && Has(users, caller)
              && compare(current.value, Get(users, caller).value.password)
    ensures r.1.PasswordChanged? ==>
              var before := Get(users, caller).value;
              Get(r.0, caller) == Some(Save(before, before.(password := next.value), hash))
    ensures !r.1.PasswordChanged? ==> r.0 == users
    ensures forall other :: other != caller ==> Get(r.0, other) == Get(users, other)
  {
    if !Filled(current) || !Filled(next) then (users, Refused(400, "Both fields required."))
    else if Strings.JsLength(next.value) < 6 then (users, Refused(400, "New password too short."))
    else
      match Get(users, caller)
      case None => (users, Refused(500, "Password change failed."))
      case Some(u) =>
        if !compare(current.value, u.password) then (users, Refused(400, "Current password is incorrect."))
        else (Set(users, caller, Save(u, u.(password := next.value), hash)), PasswordChanged("Password changed successfully."))
  }

  /** A password change touches the password alone, and stores the hash of the new one. */
  lemma ChangePasswordOnlyPassword(users: Collection<User>, caller: Id, current: Option<string>, next: Option<string>,
                                   compare: (string, string) -> bool, hash: string -> string)
    requires ChangePassword(users, caller, current, next, compare, hash).1.PasswordChanged?
    requires next.value != Get(users, caller).value.password
    ensures var before := Get(users, caller).value;
            Get(ChangePassword(users, caller, current, next, compare, hash).0, caller)
              == Some(before.(password := hash(next.value)))
  {
  }

  /** After a change, the account logs in with the new password (when bcrypt accepts its own hash). */
  lemma ChangePasswordThenLogin(users: Collection<User>, caller: Id, current: string, next: string,
                                compare: (string, string) -> bool, hash: string -> string)
    requires DistinctIds(users) && UniqueEmails(users)
    requires ChangePassword(users, caller, Some(current), Some(next), compare, hash).1.PasswordChanged?
    requires var u := Get(users, caller).value;
             u.isActive && u.email != "" && NormalizeEmail(u.email) == u.email && next != u.password
    requires compare(next, hash(next))
    ensures var u := Get(users, caller).value;
            var users1 := ChangePassword(users, caller, Some(current), Some(next), compare, hash).0;
            Login(users1, Some(u.email), Some(next), compare).LoggedIn?
  {
    var u := Get(users, caller).value;
    var users1 := ChangePassword(users, caller, Some(current), Some(next), compare, hash).0;
    var k := IndexOf(users, caller).value;
    assert users1 == users[k := Doc(caller, u.(password := hash(next)))];
    assert HasEmail(users1[k].body, u.email);
    assert forall j :: 0 <= j < |users1| && j != k ==> !HasEmail(users1[j].body, u.email);
    assert FindByEmail(users1, u.email) == Some(k);
  }
}
