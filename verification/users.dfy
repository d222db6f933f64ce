/**
  The User document: schema defaults and validation applied on create, the
  enrollment ledger embedded in it, the pre-save hook that rehashes the
  password only when it changed, `toJSON`, and the lookups by e-mail that
  the account routes and the admin seeding use.
 */
module Users {
  import opened Common
  import Strings
  import opened Docs

  datatype Role = UserRole | AdminRole

  /** One entry of `enrolledPackages`; amounts are in paise, `enrolledAt` is a clock reading. */
  datatype Enrollment = Enrollment(packageId: int, packageName: string, amount: int, enrolledAt: int)

  /** A stored user; `password` holds the bcrypt hash, `version` is Mongoose's `__v`. */
  datatype User = User(
    name: string,
    email: string,
    phone: string,
    password: string,
    role: Role,
    isActive: bool,
    ledger: seq<Enrollment>,
    createdAt: int,
    version: nat)

  // ---------------------------------------------------------------------------
  // The enrollment ledger

  /** Some entry of the ledger is for package `packageId` (`ledger.some(ep => Number(ep.packageId) === id)`). */
  predicate Enrolled(ledger: seq<Enrollment>, packageId: int) {
    exists k :: 0 <= k < |ledger| && ledger[k].packageId == packageId
  }

  /** The central ledger invariant: no two entries for the same package. */
  predicate DistinctPackages(ledger: seq<Enrollment>) {
    forall i, j :: 0 <= i < j < |ledger| ==> ledger[i].packageId != ledger[j].packageId
  }

  /** Every user's ledger is free of duplicates. */
  predicate LedgersDistinct(users: Collection<User>) {
    forall j :: 0 <= j < |users| ==> DistinctPackages(users[j].body.ledger)
  }

  /** How many ledger entries are for `packageId`. */
  function EntriesFor(ledger: seq<Enrollment>, packageId: int): nat
    decreases |ledger|
  {
    if |ledger| == 0 then 0
    else (if ledger[0].packageId == packageId then 1 else 0) + EntriesFor(ledger[1..], packageId)
  }

  /** In a duplicate-free ledger every package has one entry if enrolled and none otherwise. */
  lemma {:induction false} EntriesForDistinct(ledger: seq<Enrollment>, packageId: int)
    requires DistinctPackages(ledger)
    ensures EntriesFor(ledger, packageId) == (if Enrolled(ledger, packageId) then 1 else 0)
    decreases |ledger|
  {
    if |ledger| > 0 {
      EntriesForDistinct(ledger[1..], packageId);
      if ledger[0].packageId == packageId {
        assert !Enrolled(ledger[1..], packageId) by {
          forall k | 0 <= k < |ledger[1..]| ensures ledger[1..][k].packageId != packageId {
            assert ledger[1..][k] == ledger[k + 1];
          }
        }
      } else {
        assert Enrolled(ledger, packageId) ==> Enrolled(ledger[1..], packageId) by {
          if Enrolled(ledger, packageId) {
            var k :| 0 <= k < |ledger| && ledger[k].packageId == packageId;
            assert ledger[1..][k - 1] == ledger[k];
          }
        }
        assert Enrolled(ledger[1..], packageId) ==> Enrolled(ledger, packageId) by {
          if Enrolled(ledger[1..], packageId) {
            var k :| 0 <= k < |ledger[1..]| && ledger[1..][k].packageId == packageId;
            assert ledger[k + 1] == ledger[1..][k];
          }
        }
      }
    }
  }

  /** Appending an entry for a package that is not yet in the ledger keeps it duplicate-free. */
  lemma AppendKeepsDistinct(ledger: seq<Enrollment>, e: Enrollment)
    requires DistinctPackages(ledger) && !Enrolled(ledger, e.packageId)
    ensures DistinctPackages(ledger + [e])
  {
  }

  // ---------------------------------------------------------------------------
  // Creation, saving and serialisation

  /** The schema's setters on `email`: `lowercase` and `trim`. */
  function NormalizeEmail(e: string): string {
    Strings.Lower(Strings.Trim(e))
  }

  /** Normalising twice is normalising once, so a stored e-mail is found by its own value. */
  lemma NormalizeEmailIdempotent(e: string)
    ensures NormalizeEmail(NormalizeEmail(e)) == NormalizeEmail(e)
  {
    var t := Strings.Trim(e);
    var l := Strings.Lower(t);
    if l != "" {
      Strings.LowerCharSpace(t[0]);
      Strings.LowerCharSpace(t[|t| - 1]);
    }
    Strings.TrimFixed(l);
    Strings.LowerIdempotent(t);
  }

  /** Lower-casing a query before the setters run changes nothing (`findOne({ email: email.toLowerCase() })`). */
  lemma NormalizeEmailOfLower(e: string)
    ensures NormalizeEmail(Strings.Lower(e)) == NormalizeEmail(e)
  {
    Strings.TrimLower(e);
    Strings.LowerIdempotent(Strings.Trim(e));
  }

  /** The fields a `User.create` call supplies; absent `role`/`isActive` take the schema defaults. */
  datatype NewUser = NewUser(
    name: string, email: string, phone: string, password: string,
    role: Option<Role>, isActive: Option<bool>)

  /**
    `User.create(fields)`: trims name and phone, normalises the e-mail, fills
    the defaults (role `user`, active, empty ledger) and hashes the password in
    the pre-save hook. `None` is a validation error: a required field empty
    after trimming, a name over 100 UTF-16 code units, or a password under 6.
   */
  function Create(f: NewUser, now: int, hash: string -> string): (r: Option<User>)
    ensures r.Some? ==> r.value.ledger == [] && r.value.email == NormalizeEmail(f.email)
    ensures r.Some? ==> r.value.role == (if f.role.Some? then f.role.value else UserRole)
    ensures r.Some? ==> r.value.isActive == (if f.isActive.Some? then f.isActive.value else true)
    ensures r.Some? ==> r.value.password == hash(f.password) && r.value.version == 0
    ensures r.Some? <==> ValidFields(f)
  {
    if !ValidFields(f) then None
    else Some(User(
      Strings.Trim(f.name), NormalizeEmail(f.email), Strings.Trim(f.phone), hash(f.password),
      if f.role.Some? then f.role.value else UserRole,
      if f.isActive.Some? then f.isActive.value else true,
      [], now, 0))
  }

  /** The schema's validators on the fields of a new user. */
  predicate ValidFields(f: NewUser) {
    var name := Strings.Trim(f.name);
    && name != "" && Strings.JsLength(name) <= 100
    && NormalizeEmail(f.email) != ""
    && Strings.Trim(f.phone) != ""
    && Strings.JsLength(f.password) >= 6
  }

  /**
    `doc.save()` of a loaded user: the pre-save hook hashes the password only
    when it was modified, so an unchanged hash is never hashed again.
   */
  function Save(stored: User, edited: User, hash: string -> string): (r: User)
    ensures r.(password := edited.password) == edited
    ensures r.password == stored.password || r.password == hash(edited.password)
    ensures edited.password == stored.password ==> r.password == stored.password
    ensures edited.password != stored.password ==> r.password == hash(edited.password)
  {
    if edited.password == stored.password then edited
    else edited.(password := hash(edited.password))
  }

  /** Saving a document whose other fields changed leaves its password hash as it was. */
  lemma SaveKeepsHash(stored: User, edited: User, hash: string -> string)
    requires edited.password == stored.password
    ensures Save(stored, edited, hash).password == stored.password
  {
  }

  /** What `toJSON` returns: every field but `password` and `__v`. */
  datatype PublicUser = PublicUser(
    id: Id, name: string, email: string, phone: string, role: Role,
    isActive: bool, ledger: seq<Enrollment>, createdAt: int)

  function ToJson(d: Doc<User>): PublicUser {
    var u := d.body;
    PublicUser(d.id, u.name, u.email, u.phone, u.role, u.isActive, u.ledger, u.createdAt)
  }

  /** Puts back the two fields `toJSON` removes. */
  function Restore(p: PublicUser, password: string, version: nat): Doc<User> {
    Doc(p.id, User(p.name, p.email, p.phone, password, p.role, p.isActive, p.ledger, p.createdAt, version))
  }

  /** `toJSON` removes exactly `password` and `__v`: putting them back gives the document again. */
  lemma ToJsonRoundTrip(d: Doc<User>)
    ensures Restore(ToJson(d), d.body.password, d.body.version) == d
  {
  }

  /** Two documents with the same JSON differ at most in password and `__v`. */
  lemma ToJsonInjective(a: Doc<User>, b: Doc<User>)
    requires ToJson(a) == ToJson(b)
    ensures a == b.(body := b.body.(password := a.body.password, version := a.body.version))
  {
    ToJsonRoundTrip(a);
    ToJsonRoundTrip(b);
  }

  // ---------------------------------------------------------------------------
  // Lookups

  /** A user's e-mail matches a query value once the schema's setters have run on the query. */
  predicate HasEmail(u: User, query: string) {
    u.email == NormalizeEmail(query)
  }

  /** `User.findOne({ email })` */
  function FindByEmail(users: Collection<User>, query: string): (r: Option<nat>)
    ensures r.Some? ==> r.value < |users| && HasEmail(users[r.value].body, query)
    ensures r.Some? ==> forall j :: 0 <= j < r.value ==> !HasEmail(users[j].body, query)
    ensures r.None? <==> forall j :: 0 <= j < |users| ==> !HasEmail(users[j].body, query)
  {
    FirstWhere(users, u => HasEmail(u, query))
  }

  /** A document appended with an e-mail no earlier document has is the one `findOne` finds. */
  lemma FindAppended(users: Collection<User>, d: Doc<User>, email: string)
    requires FindByEmail(users, email).None? && HasEmail(d.body, email)
    ensures FindByEmail(users + [d], email) == Some(|users|)
  {
    var c := users + [d];
    assert forall j :: 0 <= j < |users| ==> c[j] == users[j];
    assert forall j :: 0 <= j < |users| ==> !HasEmail(c[j].body, email);
    assert HasEmail(c[|users|].body, email);
    var k := FindByEmail(c, email);
    assert k.Some?;
    assert k.value >= |users|;
  }

  /** The unique index on `email`. */
  predicate UniqueEmails(users: Collection<User>) {
    forall i, j :: 0 <= i < j < |users| ==> users[i].body.email != users[j].body.email
  }
}
