# skillset backend — a Dafny model

This project models the Express/Mongoose backend of the Skillbrzee course site, with its
purchase flow at the centre. A signed-in user asks for a payment order for one of the six
catalog packages. The server answers with a mock order only in development and only while
the Razorpay keys are not configured. Otherwise Razorpay supplies the order. The user then either
confirms a mock payment (dev-confirm) or sends Razorpay's HMAC signature (verify). The
server then marks the Payment paid and appends an entry to the user's `enrolledPackages`
ledger. It never appends a second entry for the same package.

Around that flow the model covers:
- the package catalog;
- the User and Payment schemas;
- the account routes: register, login, me, refresh, update-profile and change-password;
- the guards `protect`, `adminOnly`, `optionalAuth` and the older `authMiddleware`;
- courses and resources;
- the JSON-file record store behind the file library, and the file library itself;
- the admin dashboard;
- the admin seed;
- the server's CORS origin rule and its "database unavailable" gate.

The model is functional. A MongoDB collection is a sequence of `Doc(id, body)` in natural
order. `findOne` and `findById` return the first match. An id that a create would use is a
parameter, and a taken id fails like the unique `_id` index. A JSON store table is a
sequence of string-keyed records. Every route handler is a pure function from the
collections and the request fields to the new collections and the reply. Request fields
are `Option<string>`: `Filled` is JavaScript truthiness and `OrElse` is `x || default`.

These parts of the outside world become parameters:
- bcrypt's `hash` and `compare`;
- `jwt.verify`, as a three-way `Verdict`: expired, invalid, or decoded to a user id. Refresh gets the check under `JWT_REFRESH_SECRET`, and the guards get the check under `JWT_SECRET`;
- the HMAC-SHA256 function;
- Razorpay's order creation, as an optional order id;
- the clock;
- the random file names of multer.

Where the code and the design disagree, the model follows the code and proves the
consequence as a lemma:
- **Credit goes to the caller.** verify and dev-confirm credit the signed-in caller, not
  the payment's owner (`Payments.CreditsCallerNotOwner`).
- **A bad signature overrides paid.** A bad signature turns any referenced payment to
  `failed`, even one already paid (`Payments.BadSignatureOverridesPaid`).
- **The ledger keeps the catalog price.** A ledger entry records the package's catalog
  price at credit time, not the amount stored on the payment
  (`Payments.LedgerAmountIsCatalogPrice`).
- **Resource routes store `enrolled`.** The resource routes pass `enrolled` as the
  default visibility, which overrides the schema default `public`
  (`Resources.RouteDefaultVisibility`).
- **The file filter is unanchored.** It accepts any extension that contains a listed
  type name (`Files.AcceptsAnyExtensionStartingWithType`).
- **Revenue counts every payment.** The admin revenue figure sums payments of every
  status (`Admin.RevenueIgnoresStatus`, `Admin.OrderCountsAsRevenue`).
- **Stale fragment.** `backend/routes/resources.js` holds an unfinished copy of the list
  route at lines 37-39. The model follows the complete handler at lines 41-54.

Files:
- Helpers: `common.dfy`, `seqs.dfy`, `strings.dfy`, `sorting.dfy`, `docs.dfy`.
- The modelled code: `catalog.dfy`, `users.dfy`, `payments.dfy`, `guards.dfy`,
  `accounts.dfy`, `courses.dfy`, `resources.dfy`, `json_store.dfy`, `files.dfy`,
  `admin.dfy`, `admin_seed.dfy`, `server.dfy`.

## Model

| member | source | states |
|---|---|---|
| Catalog.CatalogShape | backend/config/packages.js:5-12 | the catalog holds six packages with ids 1 to 6 in order, every price a positive whole number of rupees in paise, and only GOLD (id 4) featured |
| Catalog.FindIn | backend/routes/packages.js:12 | `find` by `id === Number(x)` returns a package of the list with that id, the first one, and nothing exactly when no package has that id |
| Catalog.FindAnswers | backend/routes/packages.js:12 | the lookup answers the whole numbers 1 to 6 with their own package and every other value (NaN, fractions, other numbers) with nothing |
| Catalog.ToDisplay | backend/config/packages.js:21-30 | the display form keeps id, name, description and featured, and its `rawPrice` is the price divided by 100 |
| Catalog.DisplayRoundTrip | backend/config/packages.js:21-30 | the display form loses nothing: the package can be recovered from it |
| Catalog.ListPackages | backend/routes/packages.js:6-8 | the listing has one display entry per package, in catalog order; the `k`-th entry is the display form of the `k`-th package and recovers it |
| Catalog.GetPackage | backend/routes/packages.js:11-15 | a package is found exactly when the numeric parameter names a catalog id, and the answer is that package's display form, whose raw price round-trips; otherwise 404 |
| Strings.JsLength | backend/routes/auth.js:16 | JavaScript's `length` counts UTF-16 code units: between one and two per character |
| Strings.JsLengthAppend | backend/routes/auth.js:121 | the code-unit length of a concatenation is the sum of the lengths |
| Strings.JsLengthCountsAstral | backend/models/User.js:12-15 | the code-unit length equals the character count exactly when no character lies outside the Basic Multilingual Plane |
| Strings.AllAstral | backend/models/User.js:15 | a string of astral characters only, emoji say, is twice as long in code units as in characters |
| Users.EntriesForDistinct | backend/routes/payments.js:28-37 | in a ledger without duplicates each package has one entry when enrolled and none otherwise |
| Users.AppendKeepsDistinct | backend/routes/payments.js:28-35 | appending an entry for a package not yet held keeps the ledger free of duplicates |
| Users.NormalizeEmailIdempotent | backend/models/User.js:13 | the `lowercase`/`trim` setters applied twice give what they give once, so a stored address finds itself |
| Users.NormalizeEmailOfLower | backend/routes/auth.js:20 | lower-casing the query before the setters run makes no difference to a lookup |
| Users.Create | backend/models/User.js:11-28 | a user is created exactly when the validators pass, with lengths counted in UTF-16 code units; it gets an empty ledger, the normalised e-mail, role `user` and `isActive` true unless given, and the hash of the password |
| Users.Save | backend/models/User.js:23-28 | the pre-save hook re-hashes the password only when it was modified; every other field is saved as edited |
| Users.SaveKeepsHash | backend/models/User.js:24 | saving a document whose password was not modified keeps the stored hash |
| Users.ToJsonRoundTrip | backend/models/User.js:36-41 | `toJSON` removes exactly `password` and `__v`: putting them back restores the document |
| Users.ToJsonInjective | backend/models/User.js:36-41 | two documents with the same JSON differ at most in password and `__v` |
| Users.FindByEmail | backend/routes/auth.js:54 | `findOne({ email })` returns the first user whose stored address equals the normalised query (no earlier user matches), and nothing exactly when none does |
| Users.FindAppended | backend/routes/auth.js:20-25 | a document appended with an address nobody else has is the one a later lookup of that address finds |
| Payments.NewPayment | backend/models/Payment.js:3-14 | a new payment is pending in INR for the catalog price and package, owned by the caller, with `isDev` only when asked and no gateway fields |
| Payments.KeysUnconfiguredIgnoresCase | backend/routes/payments.js:15-16 | the placeholder test of the keys ignores letter case |
| Payments.KeysUnconfiguredAcrossKeys | backend/routes/payments.js:15-16 | the placeholder test runs over the two keys joined, so a marker split across them counts |
| Payments.SetStatus | backend/routes/payments.js:38 | `findByIdAndUpdate(id, { status })` changes the status of that payment alone, keeps ids distinct, and does nothing for an unknown id |
| Payments.MarkFailed | backend/routes/payments.js:127-133 | the mismatch branch sets that payment to `failed` with the gateway payment id and leaves every other payment as it was |
| Payments.EnrollUser | backend/routes/payments.js:26-46 | enrollment fails exactly for an unknown user; otherwise the user holds the package afterwards, the ledger grows by the catalog entry only if it was not held, other users are untouched, the payment is paid, and the store invariant is kept |
| Payments.EnrollUserIdempotent | backend/routes/payments.js:26-38 | a second enrollment for the same user, package and payment, at any time, changes nothing |
| Payments.CreateOrder | backend/routes/payments.js:49-116 | 400 for an unknown package and 409 for one already held; a mock order exactly outside production with placeholder keys, a gateway order exactly with real keys and a gateway answer; a successful order appends one pending payment for the catalog price; users are never changed and the invariant is kept |
| Payments.Verify | backend/routes/payments.js:119-151 | only a valid HMAC confirms; a bad one marks the payment failed and answers 400; a valid one for an unknown payment is 404; a confirmation records the gateway fields, marks the payment paid, stores the caller as `enrollUser` credits them and answers with that stored user; no other user or payment changes and the invariant is kept |
| Payments.DevConfirm | backend/routes/payments.js:154-167 | refused with 403 in production and 404 for an unknown payment; a confirmation marks it paid, stores the caller as `enrollUser` credits them and answers with that stored user; nothing else changes and the invariant is kept |
| Payments.MyPayments | backend/routes/payments.js:170-179 | the caller's own payments, newest first, capped at 20: the 20 most recent when there are more, all of them (as a multiset) otherwise |
| Payments.Credited | backend/routes/payments.js:26-37 | the credited user holds the package, the ledger only grows, by at most one entry at the end, and nothing but the ledger changes |
| Payments.PaymentsOf | backend/routes/payments.js:172 | `find({ userId })` keeps every payment of the owner, with its multiplicity, and no other |
| Payments.History | backend/routes/payments.js:172-173 | the owner's payments sorted by `createdAt` descending, the same payments as a multiset |
| Payments.HistoryPrefix | backend/routes/payments.js:172-174 | the first `n` of the history belong to the owner, are newest first, and no payment left out is newer than one kept |
| Payments.MyPaymentsAfterAppend | backend/routes/payments.js:170-179 | a newly stored payment of the owner joins their payments and, below the cap, appears in my-payments |
| Payments.MyPaymentsAfterOrder | backend/routes/payments.js:49-116 | the payment create-order stores is found under its id, joins the caller's payments and, below the cap, appears in my-payments |
| Payments.CreditsCallerNotOwner | backend/routes/payments.js:139-145 | a verify by someone other than the payment's owner leaves the owner's account untouched |
| Payments.BadSignatureOverridesPaid | backend/routes/payments.js:127-133 | a bad signature turns a paid payment into a failed one |
| Payments.GoodSignatureAfterFailure | backend/routes/payments.js:135-148 | a later valid signature brings a failed payment back to paid and confirms |
| Payments.LedgerAmountIsCatalogPrice | backend/routes/payments.js:26-46 | the new ledger entry carries the catalog price of the package, whatever amount the payment holds |
| Payments.VerifyIdempotent | backend/routes/payments.js:119-151 | replaying the same verify request later changes nothing further and gives the same answer |
| Payments.DevConfirmIdempotent | backend/routes/payments.js:154-167 | replaying dev-confirm later changes nothing further and gives the same answer |
| Payments.NoSecondPurchase | backend/routes/payments.js:57-59 | after a confirmation, an order for the same package is refused with 409 and creates nothing |
| Payments.RunKeepsValid | backend/routes/payments.js:26-167 | no sequence of create-order, verify and dev-confirm requests breaks unique ids or puts two entries for one package into a ledger |
| Payments.RunAtMostOneEntry | backend/routes/payments.js:26-46 | after any sequence of requests every user holds at most one entry per package |
| Payments.MockPurchase | backend/routes/payments.js:61-80 | with placeholder keys a GOLD order is a pending mock payment of 549900 paise, and dev-confirm makes it paid and gives the buyer exactly one GOLD entry |
| Payments.GatewayPurchase | backend/routes/payments.js:83-151 | a gateway order followed by a verify carrying the gateway's correct signature leaves the payment paid with its order id and the buyer with exactly one entry for the package |
| Guards.SplitToken | backend/middleware/auth.js:11 | `split(' ')[1]` is the text right after `Bearer `, up to the next space, and holds no space |
| Guards.SliceToken | backend/utils/auth.js:5-6 | `slice(7)` gives a token exactly for a `Bearer ` header, and the header is the prefix followed by it |
| Guards.ExtractorsAgree | backend/utils/auth.js:5-6 | the two token extractors agree exactly when the text after `Bearer ` holds no space |
| Guards.ExtractorsDiffer | backend/middleware/auth.js:11 | when a space follows the token, `split` drops the tail that `slice` keeps |
| Guards.Protect | backend/middleware/auth.js:5-25 | it admits exactly when a `Bearer ` token decodes to the id of a stored active user, and then sets that stored user; every refusal is 401, with separate messages for no token, an expired token and an invalid one |
| Guards.AdminOnly | backend/middleware/auth.js:28-33 | it admits exactly a user whose role is admin; everyone else gets 403 |
| Guards.ProtectAdmin | backend/routes/admin.js:9 | the admin routes admit exactly the users `protect` admits who are admins; a refusal by `protect` is passed on unchanged |
| Guards.AdminGuardAdmitsActiveAdmins | backend/routes/admin.js:9 | whoever passes the admin guards is an active admin, stored under the id of the token |
| Guards.OptionalAuth | backend/middleware/auth.js:36-46 | it sets a user exactly for a verified `Bearer` token whose id is stored, whatever the account's state, and never refuses |
| Guards.OptionalAuthAdmitsInactive | backend/middleware/auth.js:13-16 | a deactivated user is set by `optionalAuth` but refused by `protect` |
| Guards.ProtectImpliesOptional | backend/middleware/auth.js:36-46 | whenever `protect` admits, `optionalAuth` sets the same user |
| Guards.AuthMiddleware | backend/utils/auth.js:4-14 | it authorises exactly a non-empty sliced token that verifies, with the decoded id; a missing or empty token and a failed verification get their own two messages |
| Guards.BareBearer | backend/utils/auth.js:5-7 | for the header `Bearer ` alone, `authMiddleware` reports no token, while `protect` passes its prefix check and verifies the empty token |
| Guards.GuardsAgreeOnPlainTokens | backend/utils/auth.js:4-14 | for a token without spaces, both guards verify the same token, and whoever `protect` admits `authMiddleware` authorises with the same id |
| Accounts.FindLowered | backend/routes/auth.js:20 | looking up the lower-cased address finds the same user as looking up the address itself |
| Accounts.Register | backend/routes/auth.js:10-44 | 400 for a missing field or a password under 6 UTF-16 code units; 409 for a taken address; otherwise a user is added exactly when the schema accepts it and the id is free, with the normalised address, role `user`, active, an empty ledger and the hashed password; a failure changes nothing |
| Accounts.AstralPasswordLongEnough | backend/routes/auth.js:16 | any password of three or more astral characters passes the 6-unit minimum, though it is shorter than six characters |
| Accounts.RegisterKeepsEmailsUnique | backend/models/User.js:13 | registration keeps stored e-mail addresses unique |
| Accounts.Login | backend/routes/auth.js:47-77 | 400 without both fields; a login succeeds exactly for the user the address finds when the account is active and the password matches, and answers with that user's JSON; every other failure is one 401 |
| Accounts.RegisterThenLogin | backend/routes/auth.js:10-77 | a fresh registration can log in at once with the same address and password |
| Accounts.RegisterTwice | backend/routes/auth.js:20-23 | a second registration of the same address (in any case or spacing) is refused with 409 |
| Accounts.LoginFailuresAlike | backend/routes/auth.js:54-62 | every failed login with both fields present gets the same reply, whatever the reason |
| Accounts.Me | backend/routes/auth.js:80-87 | the profile is the caller's stored user without password and `__v`, and 500 when the caller has disappeared |
| Accounts.Refresh | backend/routes/auth.js:90-101 | 400 without a token; a new access token exactly when the token verifies to a stored active user, issued for that user; otherwise 401 |
| Accounts.RefreshAgreesWithProtect | backend/routes/auth.js:90-101 | refresh checks `JWT_REFRESH_SECRET` and `protect` checks `JWT_SECRET`; for a token both checks decode alike (every token, when the two secrets are equal), refresh issues a token exactly when `protect` admits it from a bearer header, and for the same user |
| Accounts.EditProfile | backend/routes/auth.js:106-108 | only name and phone change, each to its trimmed value when given |
| Accounts.UpdateProfile | backend/routes/auth.js:104-114 | the update succeeds exactly when the caller exists and the edited profile passes the validators, and answers with the stored result; a failure is 500 and changes nothing; other users are untouched |
| Accounts.MeAfterUpdate | backend/routes/auth.js:80-114 | after a successful profile update, `me` shows exactly the user the update answered with |
| Accounts.ProfileCannotEscalate | backend/routes/auth.js:106-109 | whatever the body holds, a profile update changes neither role, password, ledger nor active state |
| Accounts.ChangePassword | backend/routes/auth.js:117-133 | 400 for a missing field or a new password under 6 UTF-16 code units; the change succeeds exactly when the current password matches, and then stores the hash of the new one; a failure changes nothing and other users are untouched |
| Accounts.ChangePasswordOnlyPassword | backend/routes/auth.js:123-128 | a password change touches the password alone and stores the hash of the new one |
| Accounts.ChangePasswordThenLogin | backend/routes/auth.js:117-133 | after a change, the account logs in with the new password |
| Courses.Create | backend/models/Course.js:3-10 | a course is created exactly when name and tag are filled, with the given fields and the schema defaults for the rest |
| Courses.SeedCourse | backend/routes/courses.js:13-27 | each fallback course is what the schema makes of its seed body |
| Courses.SeedBody | backend/routes/courses.js:13-27 | the seed body of course `i` carries its table name and tag, order `i` and no `isActive` |
| Courses.SeedCourses | backend/routes/courses.js:13-27 | there are twelve fallback courses, in table order, each active with its own order |
| Courses.ActiveCourses | backend/routes/courses.js:9 | the query keeps exactly the active courses |
| Courses.SeedDocs | backend/routes/courses.js:27 | `insertMany` stores the twelve fallback courses under the given ids |
| Courses.List | backend/routes/courses.js:7-34 | the listing holds only active courses sorted by order then creation time; with an active course it lists exactly those, each with its multiplicity; with none it seeds the twelve fallback courses and lists them; a failure is 500 and changes nothing |
| Courses.ListWithActiveIgnoresIds | backend/routes/courses.js:9-12 | with an active course in the collection the listing does not depend on the ids reserved for seeding |
| Courses.ReseedOnce | backend/routes/courses.js:11-27 | after the fallback courses are seeded, a second listing seeds nothing more |
| Courses.CreateCourse | backend/routes/courses.js:37-44 | a course is added exactly when name and tag are filled and the id is free; otherwise 500 and nothing changes |
| Courses.Patch | backend/routes/courses.js:49 | present body fields overwrite, absent ones keep the stored value, and `createdAt` never changes |
| Courses.EmptyPatch | backend/routes/courses.js:49 | a body with no fields leaves a course as it is |
| Courses.UpdateCourse | backend/routes/courses.js:47-54 | an unknown id answers with no course and changes nothing; otherwise the course becomes its patch and is returned; other courses are untouched |
| Courses.UpdateSkipsValidation | backend/routes/courses.js:49 | an update can store an empty name that creation refuses |
| Courses.DeleteCourse | backend/routes/courses.js:57-64 | delete only clears `isActive`, touches nothing else, and answers success even for an unknown id |
| Courses.DeleteIsUpdate | backend/routes/courses.js:59 | a delete is an update of `isActive` to false |
| Courses.DeletedNotListed | backend/routes/courses.js:57-64 | a deleted course no longer appears in the listing |
| Resources.TypeListsDisjoint | backend/routes/resources.js:28-34 | no extension belongs to two of the type classes |
| Resources.GetFileType | backend/routes/resources.js:28-34 | the type is pdf, doc or img exactly when the lower-cased extension is in that class |
| Resources.GetFileTypeOfDotted | backend/routes/resources.js:29 | the type does not depend on the letter case of the extension |
| Resources.AcceptsUploadNarrower | backend/routes/resources.js:17 | every name the resource filter accepts, the file library's filter accepts too |
| Resources.ClassifiedTypesAllowed | backend/routes/resources.js:17-34 | every file with a pdf, doc or img type passes the resource filter |
| Resources.ParseVisibility | backend/models/Resource.js:7 | the enum takes `public` (also when absent) and `enrolled`, and refuses everything else |
| Resources.Create | backend/models/Resource.js:3-15 | a resource is created exactly when the trimmed title and the category are non-empty and the visibility is in the enum, with the given location and the schema defaults |
| Resources.RouteFields | backend/routes/resources.js:72-82 | the routes pass visibility `enrolled` and category `General` by default, and the type computed from the name |
| Resources.RouteDefaultVisibility | backend/routes/resources.js:76 | a form without a visibility stores `enrolled`, never the schema's `public` |
| Resources.Store | backend/routes/resources.js:72-84 | a resource is added exactly when the schema accepts it and the id is free; otherwise the collection stays as it was |
| Resources.UploadFields | backend/routes/resources.js:62-80 | an uploaded file's stored path and original name override the form's and its size is recorded; without a file the form's URL and name are used with size 0; the type comes from the name, or from the URL when the name is empty |
| Resources.RouteVisibility | backend/routes/resources.js:76 | a route stores `public` only when the form asks for it, `enrolled` otherwise |
| Resources.UploadResource | backend/routes/resources.js:57-89 | a file the filter refuses is a server error; a missing title or location is 400; an upload adds one resource with the stored path and size, or with the form URL and size 0, typed by its file name or else its URL; a failure changes nothing |
| Resources.AddUrl | backend/routes/resources.js:92-111 | 400 without title and URL; otherwise one resource with that URL is added, or 500 and nothing changes |
| Resources.AddUrlIsUploadWithoutFile | backend/routes/resources.js:57-111 | add-url creates the resource an upload without a file would, except for the name taken from the URL's last segment, and fails exactly when the upload does |
| Resources.List | backend/routes/resources.js:41-54 | the list holds exactly the active resources, public ones only when nobody is signed in, in the category when one is asked for, each with its multiplicity, newest first |
| Resources.DownloadResource | backend/routes/resources.js:115-129 | a missing or deleted resource is 404; an `enrolled` one without a signed-in user is 401; otherwise the download goes through, raises its counter by one and returns its URL and name; other resources are untouched |
| Resources.DeleteResource | backend/routes/resources.js:132-139 | delete only clears `isActive`, touches nothing else, and answers success even for an unknown id |
| Resources.DeleteHides | backend/routes/resources.js:115-139 | a deleted resource cannot be downloaded, and deleting twice is deleting once |
| Resources.DeletedNotListed | backend/routes/resources.js:41-54 | a deleted resource drops out of every listing |
| JsonStore.IndexOfId | backend/utils/db.js:26-28 | the first record whose id matches as a string, and nothing exactly when none does |
| JsonStore.FindById | backend/utils/db.js:26-28 | `findById` returns the first record whose id matches, and nothing exactly when none does |
| JsonStore.FindMany | backend/utils/db.js:34-36 | `findMany` keeps exactly the records the predicate accepts |
| JsonStore.MaxId | backend/utils/db.js:41 | the largest numeric id is at least every record's id and is the id of one of them |
| JsonStore.NextId | backend/utils/db.js:41 | the next id exceeds every stored id; it is 1 for an empty table and one more than the largest otherwise |
| JsonStore.Insert | backend/utils/db.js:38-46 | `insert` appends the record with the next id, keeps a truthy `createdAt` or stamps the clock, and keeps every other field |
| JsonStore.InsertKeepsIdsUnique | backend/utils/db.js:38-46 | an insert into a table of unique numeric ids keeps them unique |
| JsonStore.InsertThenFind | backend/utils/db.js:26-46 | after an insert, looking up the new id finds exactly the inserted record |
| JsonStore.Merge | backend/utils/db.js:52 | `{ ...record, ...updates }` takes the update's value for keys it sets, drops keys it sets to undefined, and keeps the rest |
| JsonStore.UpdateById | backend/utils/db.js:48-55 | nothing is updated exactly when no record has the id; otherwise only the first record with the id changes, to the merge with a fresh `updatedAt` |
| JsonStore.UpdateThenFind | backend/utils/db.js:26-55 | an update that does not touch `id` can be read back under the same id |
| JsonStore.RemoveById | backend/utils/db.js:57-63 | `removeById` drops exactly the records with the id, keeps the others in order, and reports whether there was one |
| JsonStore.RemoveThenFind | backend/utils/db.js:26-63 | after a removal the id is not found, and removing it again reports nothing removed |
| JsonStore.RemoveKeepsOrder | backend/utils/db.js:57-63 | removing from a concatenation removes from each part separately |
| Files.AcceptsUploadOfDotted | backend/routes/files.js:26-28 | for `stem.ext` the filter tests the lower-cased extension alone |
| Files.AcceptsUploadIgnoresCase | backend/routes/files.js:26-28 | the filter ignores the letter case of the extension |
| Files.AcceptsAnyExtensionStartingWithType | backend/routes/files.js:26-28 | the unanchored pattern accepts any extension that starts with a listed type name |
| Files.RefusesNoExtension | backend/routes/files.js:26-28 | a name without an extension is refused |
| Files.PublicFiles | backend/routes/files.js:36-39 | the public listing holds exactly the public records |
| Files.EnrolledFiles | backend/routes/files.js:45-53 | a user sees exactly the public records, plus the `enrolled` ones when the ledger is not empty, each with its multiplicity |
| Files.AllFiles | backend/routes/files.js:58-60 | the admin listing is every record, in reverse order |
| Files.PublicFilesNewestFirst | backend/routes/files.js:36-39 | a newly added public record heads the public listing, and any other record leaves it as it was |
| Files.EnrolledFilesNewestFirst | backend/routes/files.js:45-53 | a newly added record visible to the user heads the enrolled listing, and any other record leaves it as it was |
| Files.EnrolledFilesWithoutEnrollment | backend/routes/files.js:45-53 | without an enrollment a user sees exactly the public listing, in the same order |
| Files.EnrolledFilesBounds | backend/routes/files.js:45-53 | every public file is listed for everyone, no other visibility ever is, and an enrolled user sees every `enrolled` file |
| Files.NameFromUrl | backend/routes/files.js:114 | an empty URL or one ending in `/` gives the title; otherwise the name is the URL's last path segment: a slash-free suffix preceded by `/` or by nothing |
| Files.FileRecord | backend/routes/files.js:85-95 | the stored record takes the defaults `General`, `public` and an empty description for absent fields, and starts with 0 downloads |
| Files.Store | backend/routes/files.js:85-97 | a stored file is appended with the given location, size and the form's title |
| Files.UploadFile | backend/routes/files.js:65-98 | an accepted file over the size limit is a server error; a missing title is 400; an accepted file is stored under its stored name, otherwise a form URL is stored with the name derived from it, otherwise 400; only a created record changes the table |
| Files.AddUrl | backend/routes/files.js:103-121 | a record is added exactly when title and URL are filled, with the URL, its derived name and size 0; otherwise 400 and nothing changes |
| Files.RefusedFileIgnored | backend/routes/files.js:22-28 | uploading a file the filter refuses is the same request without the file |
| Files.UploadUrlIsAddUrl | backend/routes/files.js:65-121 | a URL-only upload stores the same record as add-url |
| Files.PlusOne | backend/routes/files.js:136 | `(downloads || 0) + 1` adds one to a number and gives 1 for an absent or falsy counter |
| Files.Download | backend/routes/files.js:127-138 | an unknown id is 404; an `enrolled` file without any Authorization header is 401; otherwise only that record's counter changes, to the incremented value it answers with |
| Files.DownloadCounts | backend/routes/files.js:127-138 | a numeric download counter of a public file goes up by exactly one |
| Files.Delete | backend/routes/files.js:143-155 | an unknown id is 404 and changes nothing; otherwise every record with the id is removed, the table shrinks, and the rest is kept |
| Files.RemoveShrinks | backend/routes/files.js:153 | removing an id that some record has makes the table shorter |
| Files.MetadataUpdate | backend/routes/files.js:162 | the update always names the four metadata keys |
| Files.Update | backend/routes/files.js:160-165 | an unknown id is 404; otherwise the record's four metadata keys become the request's, an absent one erased, and every other key except `updatedAt` is kept |
| Admin.ComputeStats | backend/routes/admin.js:12-35 | the counts are bounded by the collection sizes, the transaction count is the number of payments, and empty collections give zeros |
| Admin.StatsOfNewUser | backend/routes/admin.js:15-18 | a new user adds to the user count only with role `user`, and to the enrolled count only with a non-empty ledger |
| Admin.StatsOfNewResource | backend/routes/admin.js:16-22 | a new resource adds one to the file count only while active, adds its downloads to the total, and changes no other figure |
| Admin.StatsAfterDownload | backend/routes/admin.js:22 | a download adds exactly one to the download total and changes no other figure |
| Admin.StatsOfNewPayment | backend/routes/admin.js:17-21 | any new payment, whatever its status, adds its amount to the revenue and one to the transactions, and changes no other figure |
| Admin.RevenueIgnoresStatus | backend/routes/admin.js:17-21 | changing a payment's status leaves every figure as it was |
| Admin.OrderCountsAsRevenue | backend/routes/admin.js:17-30 | an order adds its price to the revenue and one to the transactions the moment it is created, though nothing is paid yet |
| Admin.DeleteResourceStats | backend/routes/admin.js:16-29 | soft-deleting an active resource takes one off the file count and leaves its downloads in the total |
| Admin.MatchingUsers | backend/routes/admin.js:41-51 | exactly the users with role `user` whose name, e-mail or phone contains the search, ignoring case, newest first |
| Admin.ListUsers | backend/routes/admin.js:38-57 | a negative skip is 500; otherwise the `k`-th listed user is the (skip + k)-th matching user without password, a full page holds as many users as the absolute value of `limit`, the last page holds the rest, a page past the end is empty, the page is newest first, and the total counts all matches |
| Admin.PageSorted | backend/routes/admin.js:50 | a page (`skip`/`limit`) of a sorted list is itself sorted |
| Admin.ListUsersTotalIgnoresPaging | backend/routes/admin.js:49-53 | paging never changes the reported total |
| Admin.AdminsNeverListed | backend/routes/admin.js:41 | admins are never listed, whatever the search |
| Admin.UserDetails | backend/routes/admin.js:60-69 | an unknown user is 404; otherwise the user's JSON and every payment of that user, with its multiplicity and no other, newest first |
| Admin.UserDetailsExtendsMyPayments | backend/routes/admin.js:64 | the user's own my-payments list is the first 20 entries of the admin's detail list |
| Admin.Toggle | backend/routes/admin.js:72-82 | an unknown user is 404; otherwise only that user's `isActive` flips, and the message names the new state |
| Admin.ToggleTwice | backend/routes/admin.js:72-82 | toggling twice restores the collection |
| Admin.ToggleKeepsStats | backend/routes/admin.js:12-82 | a toggle changes no dashboard figure |
| Admin.MatchingPayments | backend/routes/admin.js:88-92 | exactly the payments with the given status, or all of them without one, newest first |
| Admin.ListPayments | backend/routes/admin.js:85-98 | a negative skip is 500; otherwise the `k`-th listed payment is the (skip + k)-th matching one, a full page holds as many payments as the absolute value of `limit`, the last page holds the rest, a page past the end is empty, the page is newest first, and the total counts all matches (all payments without a status) |
| Admin.FilterByName | backend/routes/admin.js:89 | filtering by a status's own name keeps exactly the payments in that status |
| Admin.StatusFiltersPartition | backend/routes/admin.js:85-98 | the totals of the four status filters add up to the unfiltered total |
| Admin.ListResources | backend/routes/admin.js:101-108 | exactly the active resources, each with its multiplicity, newest first |
| Admin.AdminSeesSignedInList | backend/routes/admin.js:101-108 | the admin resource list is exactly what a signed-in user sees without a category |
| AdminSeed.EnsureAdmin | backend/utils/seedAdmin.js:4-35 | an existing account for the admin address is promoted if it is not already an admin, with nothing else changed; otherwise an active admin with the configured or default address and the hashed password is appended; a failure leaves the users as they were |
| AdminSeed.SeedLeavesAdmin | backend/utils/seedAdmin.js:9-29 | with an account for the address, or with valid fields and a free id, the seed leaves the address leading to an admin |
| AdminSeed.SeedWhenPresent | backend/utils/seedAdmin.js:17-18 | once the admin is in place, a later seed changes nothing |
| AdminSeed.SeedIdempotent | backend/utils/seedAdmin.js:4-35 | seeding twice is seeding once |
| AdminSeed.PasswordNotReset | backend/utils/seedAdmin.js:13-16 | promoting an existing account keeps its password; the configured password does not reach it |
| Server.AllowList | backend/server.js:15-32 | the allow-list is the listed origins plus a non-empty `FRONTEND_URL`, and never holds the empty string |
| Server.ProductionOnlyNarrows | backend/server.js:34-41 | production only takes origins away, and only local development addresses |
| Server.ListedAllowedEverywhere | backend/server.js:15-37 | a listed origin is allowed in every environment |
| Server.NetlifySitesAllowed | backend/server.js:38 | any Netlify site name without a dot is allowed |
| Server.NestedSubdomainNotHosted | backend/server.js:38 | a dotted name under the same suffix does not match |
| Server.LocalPortsAllowedInDevelopment | backend/server.js:39 | outside production every port on `localhost` is allowed, in any letter case |
| Server.UnlistedLocalPortRefusedInProduction | backend/server.js:34-41 | in production a local port missing from the list is refused, and it is allowed outside production |
| Server.DbGate | backend/server.js:59-65 | a request passes exactly when the database is ready, or it is the health check, or its path begins with `/packages`; otherwise 503 |
| Server.PackagesServedWithoutDatabase | backend/server.js:61 | the package catalog is served without a database |
| Server.OtherRoutesNeedDatabase | backend/server.js:59-65 | course, auth and admin routes answer 503 while the database is down |

## Left out

- Network and disk I/O are not modelled: the HTTP server, the JSON files behind the record store, the upload directories and the deletion of uploaded files. Only the data they carry is.
- Sending e-mail is not part of this model. The welcome and enrollment e-mails are fire-and-forget and do not change any state.
- Signing JWTs is not part of this model, because `utils/jwt` is not part of this model. This covers `signToken` and the tokens that register, login and refresh issue. A reply names the user they are issued for.
- multer's storage is reduced to an `Upload` value: the original name, a stored name chosen outside, and a size. The 50 MB limit is a constant.
- Mongoose's `populate`, `select`, `__v` bumps and `updatedAt` timestamps on the Mongo models are left out. A malformed ObjectId (CastError) is left out too, since ids are abstract.
- Admin.MatchingUsers: the search is a regular expression in the source, and is modelled as a literal substring, so metacharacters in a search are not modelled.
- Admin.ComputeStats: the dashboard's conversion of revenue to rupees (`/ 100`) and `formatPrice`'s locale formatting are left out, because they involve floating point and locale data.
- Database errors are left out: "Toggle failed.", "Could not fetch stats." and the other catch-all 500 answers that only a failing database reaches. A taken id still models the unique-index failure.
- JsonStore.Insert: ids of the JSON store are whole numbers. A string id that `Number` parses differently, JSON arrays and floating point values are not modelled.
- Courses.List: the ordered `insertMany`'s partial insert on a duplicate key is modelled as all-or-nothing.
- Request bodies holding JSON `null` are not modelled: a field is either absent or a string.
- helmet, the rate limiter, the health route's body, static files, the 404 fallback and the error handler's message text are left out. The error handler appears only as the `ServerError` reply.
- `config/database.js` (connecting, retrying) and `utils/seedCourses.js` are not part of this model. The server's DB gate takes the connection state as a boolean.
- Payments.CreateOrder: the Razorpay call is an optional order id, and a gateway error is the `None` case. The amount and receipt sent to Razorpay are not modelled.
- Users.NormalizeEmail: the `lowercase` setter folds ASCII letters only. JavaScript's `toLowerCase` also folds other alphabets ("É", "Σ"), so two addresses that differ only in non-ASCII case are distinct here but the same in the source.
- Users.Create: the stored e-mail is normalised with the ASCII-only folding of Users.NormalizeEmail. The length checks count UTF-16 code units, as the source does.
- Users.FindByEmail: a lookup matches with the ASCII-only folding, so it misses a user whose address differs from the query only in non-ASCII case.
- Accounts.Register: the 409 check for a taken address uses the ASCII-only folding, so it does not catch a clash in non-ASCII case.
- Accounts.Login: finds the account with the ASCII-only folding, so a login whose address differs only in non-ASCII case fails here and succeeds in the source.
- Admin.ListUsers: `page` and `limit` are taken as numbers that are already parsed. In the source they are query strings that the arithmetic coerces: `?limit=abc` becomes `NaN` and an empty `?page=` becomes 0. Neither coercion is modelled. The same holds for Admin.ListPayments.
