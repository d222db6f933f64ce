/**
  The admin seed run once the database connects. It looks the admin e-mail
  up; an existing account is promoted to admin if it is not one already,
  and otherwise a fresh admin account is created. Any failure (a
  validation error, a taken id) is logged and swallowed, so the users are
  left as they were. The e-mail and password come from the environment
  with built-in defaults.
 */
module AdminSeed {
  import opened Common
  import opened Docs
  import opened Users

  const DefaultEmail := "admin@skillbrzee.in"
  const DefaultPassword := "Admin@Skillbrzee123"

  /** The fields of the admin account the seed creates. */
  function AdminFields(email: string, password: string): NewUser {
    NewUser("Skillbrzee Admin", email, "9573472183", password, Some(AdminRole), Some(true))
  }

  /**
    The seed. `envEmail` and `envPassword` are `ADMIN_EMAIL` and
    `ADMIN_PASSWORD`; `id` and `now` are what a successful create would use.
   */
  function EnsureAdmin(users: Collection<User>, envEmail: Option<string>, envPassword: Option<string>,
                       id: Id, now: int, hash: string -> string): (r: Collection<User>)
    ensures var email := OrElse(envEmail, DefaultEmail);
            FindByEmail(users, email).Some? ==>
              var k := FindByEmail(users, email).value;
              && |r| == |users|
              && (forall j :: 0 <= j < |users| ==> r[j].id == users[j].id)
              && (users[k].body.role == AdminRole ==> r == users)
              && (DistinctIds(users) ==>
                    && r[k].body == users[k].body.(role := AdminRole)
                    && forall j :: 0 <= j < |users| && j != k ==> r[j] == users[j])
    ensures var email := OrElse(envEmail, DefaultEmail);
            var fields := AdminFields(email, OrElse(envPassword, DefaultPassword));
            FindByEmail(users, email).None? ==>
              if ValidFields(fields) && !Has(users, id) then
                && |r| == |users| + 1 && r[..|users|] == users && r[|users|].id == id
                && var u := r[|users|].body;
                   && u.role == AdminRole && u.isActive && u.ledger == []
                   && u.email == NormalizeEmail(email) && u.password == hash(OrElse(envPassword, DefaultPassword))
              else r == users
  {
    var email := OrElse(envEmail, DefaultEmail);
    match FindByEmail(users, email)
    case Some(k) =>
      var existing := users[k].body;
      if existing.role != AdminRole then
        var saved := Save(existing, existing.(role := AdminRole), hash);
        assert DistinctIds(users) ==> IndexOf(users, users[k].id) == Some(k) by {
          if DistinctIds(users) {
            IndexOfDistinct(users, k);
          }
        }
        Set(users, users[k].id, saved)
      else users
    case None =>
      match Create(AdminFields(email, OrElse(envPassword, DefaultPassword)), now, hash)
      case None => users
      case Some(u) => if Has(users, id) then users else Add(users, id, u)
  }

  /** After a seed that did not fail, the admin e-mail leads to an admin account. */
  predicate AdminPresent(users: Collection<User>, email: string) {
    FindByEmail(users, email).Some? && users[FindByEmail(users, email).value].body.role == AdminRole
  }

  /** With an account for the e-mail, or with valid fields and a free id, the seed leaves an admin behind it. */
  lemma SeedLeavesAdmin(users: Collection<User>, envEmail: Option<string>, envPassword: Option<string>,
                        id: Id, now: int, hash: string -> string)
    requires DistinctIds(users)
    requires var email := OrElse(envEmail, DefaultEmail);
             FindByEmail(users, email).Some?
             || (ValidFields(AdminFields(email, OrElse(envPassword, DefaultPassword))) && !Has(users, id))
    ensures AdminPresent(EnsureAdmin(users, envEmail, envPassword, id, now, hash), OrElse(envEmail, DefaultEmail))
  {
    var email := OrElse(envEmail, DefaultEmail);
    if FindByEmail(users, email).Some? {
      PromotedFound(users, envEmail, envPassword, id, now, hash);
    } else {
      CreatedFound(users, envEmail, envPassword, id, now, hash);
    }
  }

  lemma PromotedFound(users: Collection<User>, envEmail: Option<string>, envPassword: Option<string>,
                      id: Id, now: int, hash: string -> string)
    requires DistinctIds(users) && FindByEmail(users, OrElse(envEmail, DefaultEmail)).Some?
    ensures AdminPresent(EnsureAdmin(users, envEmail, envPassword, id, now, hash), OrElse(envEmail, DefaultEmail))
  {
    var email := OrElse(envEmail, DefaultEmail);
    var r := EnsureAdmin(users, envEmail, envPassword, id, now, hash);
    var k := FindByEmail(users, email).value;
    assert forall j :: 0 <= j < k ==> r[j] == users[j];
    assert HasEmail(r[k].body, email);
    var f := FindByEmail(r, email);
    assert f.Some? && f.value <= k;
  }

  lemma CreatedFound(users: Collection<User>, envEmail: Option<string>, envPassword: Option<string>,
                     id: Id, now: int, hash: string -> string)
    requires var email := OrElse(envEmail, DefaultEmail);
             && FindByEmail(users, email).None?
             && ValidFields(AdminFields(email, OrElse(envPassword, DefaultPassword))) && !Has(users, id)
    ensures AdminPresent(EnsureAdmin(users, envEmail, envPassword, id, now, hash), OrElse(envEmail, DefaultEmail))
  {
    var email := OrElse(envEmail, DefaultEmail);
    var r := EnsureAdmin(users, envEmail, envPassword, id, now, hash);
    assert r == users + [r[|users|]];
    NormalizeEmailIdempotent(email);
    FindAppended(users, r[|users|], email);
  }

  /** Once the admin is in place, any later seed, with any id and time, changes nothing. */
  lemma SeedWhenPresent(users: Collection<User>, envEmail: Option<string>, envPassword: Option<string>,
                        id: Id, now: int, hash: string -> string)
    requires AdminPresent(users, OrElse(envEmail, DefaultEmail))
    ensures EnsureAdmin(users, envEmail, envPassword, id, now, hash) == users
  {
  }

  /** Seeding twice is seeding once: the second run finds what the first left behind. */
  lemma SeedIdempotent(users: Collection<User>, envEmail: Option<string>, envPassword: Option<string>,
                       id: Id, now: int, hash: string -> string)
    requires DistinctIds(users)
    ensures var once := EnsureAdmin(users, envEmail, envPassword, id, now, hash);
            EnsureAdmin(once, envEmail, envPassword, id, now, hash) == once
  {
    var email := OrElse(envEmail, DefaultEmail);
    var fields := AdminFields(email, OrElse(envPassword, DefaultPassword));
    if FindByEmail(users, email).Some? || (ValidFields(fields) && !Has(users, id)) {
      SeedLeavesAdmin(users, envEmail, envPassword, id, now, hash);
    }
  }

  /** An existing admin keeps its password: a changed `ADMIN_PASSWORD` does not reach the stored hash. */
  lemma PasswordNotReset(users: Collection<User>, envEmail: Option<string>, envPassword: Option<string>,
                         id: Id, now: int, hash: string -> string)
    requires DistinctIds(users) && FindByEmail(users, OrElse(envEmail, DefaultEmail)).Some?
    ensures var k := FindByEmail(users, OrElse(envEmail, DefaultEmail)).value;
            EnsureAdmin(users, envEmail, envPassword, id, now, hash)[k].body.password == users[k].body.password
  {
  }
}
