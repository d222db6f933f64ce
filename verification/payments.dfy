/**
  The purchase and enrollment state machine: Payment records, the
  create-order, verify and dev-confirm handlers, and the `enrollUser` helper
  they share. A Payment moves between pending, paid and failed; the only
  writer of a user's enrollment ledger is `EnrollUser`.

  The Razorpay client is reduced to its outcome (`gatewayOrder`: the id of the
  order it created, or `None` when the call failed) and the HMAC-SHA256
  signature to an uninterpreted function `hmac(secret, message)`.
 */
module Payments {
  import opened Common
  import Strings
  import opened Docs
  import Catalog
  import opened Users
  import Seqs
  import Sorting

  datatype Status = Pending | Paid | Failed | Refunded

  /** A stored Payment; `amount` is in paise, the three gateway fields are absent until written. */
  datatype Payment = Payment(
    userId: Id,
    packageId: int,
    packageName: string,
    amount: int,
    currency: string,
    status: Status,
    orderId: Option<string>,
    gatewayPaymentId: Option<string>,
    signature: Option<string>,
    isDev: bool,
    createdAt: int)

  /**
    `Payment.create` for package `pkg`, owned by `owner`: the four required
    fields come from the package, `currency`, `status` and `isDev` take the
    schema defaults unless given.
   */
  function NewPayment(owner: Id, pkg: Catalog.Package, orderId: Option<string>, isDev: Option<bool>, now: int): (p: Payment)
    ensures p.status == Pending && p.currency == "INR"
    ensures p.isDev <==> isDev == Some(true)
    ensures p.amount == pkg.price && p.packageId == pkg.id && p.userId == owner
    ensures p.gatewayPaymentId.None? && p.signature.None?
  {
    Payment(owner, pkg.id, pkg.name, pkg.price, "INR", Pending, orderId, None, None,
            if isDev.Some? then isDev.value else false, now)
  }

  /** A Mongoose update with an `undefined` value leaves the stored field alone. */
  function Overwrite(stored: Option<string>, update: Option<string>): Option<string> {
    if update.Some? then update else stored
  }

  /** The environment the handlers read: `NODE_ENV` and the two Razorpay keys. */
  datatype Env = Env(production: bool, keyId: Option<string>, keySecret: Option<string>)

  /** The alternatives of the placeholder pattern, lower-cased (the pattern is case-insensitive). */
  const PlaceholderMarkers: seq<string> := ["your_razorpay", "your_key", "xxxx", "change_this"]

  /** `getRazorpay` throws: a key is missing or empty, or the two keys together contain a placeholder marker. */
  predicate KeysUnconfigured(env: Env) {
    var keyId := OrElse(env.keyId, "");
    var keySecret := OrElse(env.keySecret, "");
    keyId == "" || keySecret == "" || Strings.ContainsAny(Strings.Lower(keyId + keySecret), PlaceholderMarkers)
  }

  /** The placeholder test ignores letter case in both keys. */
  lemma KeysUnconfiguredIgnoresCase(production: bool, keyId: string, keySecret: string)
    ensures KeysUnconfigured(Env(production, Some(keyId), Some(keySecret)))
        <==> KeysUnconfigured(Env(production, Some(Strings.Lower(keyId)), Some(Strings.Lower(keySecret))))
  {
    Strings.LowerAppend(keyId, keySecret);
    Strings.LowerAppend(Strings.Lower(keyId), Strings.Lower(keySecret));
    Strings.LowerIdempotent(keyId);
    Strings.LowerIdempotent(keySecret);
  }

  /**
    The test runs on the concatenation of the two keys, so a marker that
    straddles them counts: a live-looking key ending in "xx" followed by a
    secret starting with "xx" is taken for a placeholder.
   */
  lemma KeysUnconfiguredAcrossKeys()
    ensures KeysUnconfigured(Env(true, Some("rzp_live_Kxx"), Some("xxS")))
  {
    var joined := Strings.Lower("rzp_live_Kxx" + "xxS");
    assert Strings.OccursAt(joined, "xxxx", 10);
    assert Strings.Contains(joined, PlaceholderMarkers[2]);
  }

  /** The collections the payment handlers touch. */
  datatype Store = Store(payments: Collection<Payment>, users: Collection<User>)

  /** The state invariant: unique `_id`s in both collections and no duplicate package in any ledger. */
  predicate Valid(s: Store) {
    DistinctIds(s.payments) && DistinctIds(s.users) && LedgersDistinct(s.users)
  }

  // ---------------------------------------------------------------------------
  // enrollUser

  /** `Payment.findByIdAndUpdate(id, { status })` */
  function SetStatus(c: Collection<Payment>, id: Id, status: Status): (r: Collection<Payment>)
    ensures Get(r, id) == (if Has(c, id) then Some(Get(c, id).value.(status := status)) else None)
    ensures forall other :: other != id ==> Get(r, other) == Get(c, other)
    ensures DistinctIds(c) ==> DistinctIds(r)
  {
    match Get(c, id)
    case None => c
    case Some(p) => DistinctIdsPreserved(c, id, p.(status := status)); Set(c, id, p.(status := status))
  }

  /** The mismatch branch of verify: status `failed` and the gateway payment id recorded. */
  function MarkFailed(c: Collection<Payment>, id: Id, gatewayPaymentId: Option<string>): (r: Collection<Payment>)
    ensures Get(r, id) == (if Has(c, id)
                           then Some(Get(c, id).value.(status := Failed,
                                       gatewayPaymentId := Overwrite(Get(c, id).value.gatewayPaymentId, gatewayPaymentId)))
                           else None)
    ensures forall other :: other != id ==> Get(r, other) == Get(c, other)
    ensures DistinctIds(c) ==> DistinctIds(r)
  {
    match Get(c, id)
    case None => c
    case Some(p) =>
      var q := p.(status := Failed, gatewayPaymentId := Overwrite(p.gatewayPaymentId, gatewayPaymentId));
      DistinctIdsPreserved(c, id, q);
      Set(c, id, q)
  }

  /** The entry `enrollUser` appends for `pkg`: name and amount come from the catalog. */
  function EntryFor(pkg: Catalog.Package, now: int): Enrollment {
    Enrollment(pkg.id, pkg.name, pkg.price, now)
  }

  /** The user `enrollUser` saves: the catalog entry for `pkg` appended, unless the ledger already holds the package. */
  function Credited(u: User, pkg: Catalog.Package, now: int): (v: User)
    ensures Enrolled(v.ledger, pkg.id)
    ensures v.(ledger := u.ledger) == u
    ensures |u.ledger| <= |v.ledger| <= |u.ledger| + 1 && v.ledger[..|u.ledger|] == u.ledger
  {
    if Enrolled(u.ledger, pkg.id) then u
    else
      var v := u.(ledger := u.ledger + [EntryFor(pkg, now)]);
      assert v.ledger[|u.ledger|].packageId == pkg.id;
      v
  }

  /**
    `enrollUser(userId, pkg, paymentId)`: appends an entry for `pkg` to the
    user's ledger unless one is already there, then marks the payment paid
    either way. `None` is the TypeError thrown when the user is missing.
   */
  function EnrollUser(s: Store, userId: Id, pkg: Catalog.Package, paymentId: Id, now: int): (r: Option<(Store, User)>)
    ensures r.None? <==> !Has(s.users, userId)
    ensures r.Some? ==> Get(r.value.0.users, userId) == Some(r.value.1)
    ensures r.Some? ==> r.value.1 == Credited(Get(s.users, userId).value, pkg, now)
    ensures r.Some? ==> Enrolled(r.value.1.ledger, pkg.id)
    ensures r.Some? ==> var before := Get(s.users, userId).value;
      && r.value.1 == before.(ledger := r.value.1.ledger)
      && (Enrolled(before.ledger, pkg.id) ==> r.value.1 == before && r.value.0.users == s.users)
      && (!Enrolled(before.ledger, pkg.id) ==> r.value.1.ledger == before.ledger + [EntryFor(pkg, now)])
    ensures r.Some? ==> forall other :: other != userId ==> Get(r.value.0.users, other) == Get(s.users, other)
    ensures r.Some? ==> r.value.0.payments == SetStatus(s.payments, paymentId, Paid)
    ensures r.Some? && Valid(s) ==> Valid(r.value.0)
  {
    match Get(s.users, userId)
    case None => None
    case Some(u) =>
      if Enrolled(u.ledger, pkg.id) then
        Some((s.(payments := SetStatus(s.payments, paymentId, Paid)), u))
      else
        var v := u.(ledger := u.ledger + [EntryFor(pkg, now)]);
        assert Enrolled(v.ledger, pkg.id) by {
          assert v.ledger[|u.ledger|].packageId == pkg.id;
        }
        var users := Set(s.users, userId, v);
        assert Valid(s) ==> LedgersDistinct(users) by {
          if Valid(s) {
            var k := IndexOf(s.users, userId).value;
            assert DistinctPackages(s.users[k].body.ledger);
            AppendKeepsDistinct(u.ledger, EntryFor(pkg, now));
          }
        }
        DistinctIdsPreserved(s.users, userId, v);
        Some((Store(SetStatus(s.payments, paymentId, Paid), users), v))
  }

  /** A second `enrollUser` for the same user, package and payment changes nothing. */
  lemma EnrollUserIdempotent(s: Store, userId: Id, pkg: Catalog.Package, paymentId: Id, now: int, later: int)
    requires EnrollUser(s, userId, pkg, paymentId, now).Some?
    ensures var (s1, u1) := EnrollUser(s, userId, pkg, paymentId, now).value;
            EnrollUser(s1, userId, pkg, paymentId, later) == Some((s1, u1))
  {
    var (s1, u1) := EnrollUser(s, userId, pkg, paymentId, now).value;
    var (s2, u2) := EnrollUser(s1, userId, pkg, paymentId, later).value;
    assert u2 == u1 && s2.users == s1.users;
    if Has(s.payments, paymentId) {
      var p := Get(s.payments, paymentId).value;
      SetSet(s.payments, paymentId, p.(status := Paid), p.(status := Paid));
    }
    assert s2.payments == s1.payments;
  }

  // ---------------------------------------------------------------------------
  // POST /api/payments/create-order

  datatype Prefill = Prefill(name: string, email: string, contact: string)

  /** The JSON answer of create-order; `mock` is the constructor. */
  datatype OrderReply =
    | MockOrder(paymentId: Id, packageName: string, amount: int)
    | GatewayOrder(orderId: string, paymentId: Id, packageName: string, amount: int,
                   currency: string, keyId: Option<string>, prefill: Prefill)
    | OrderRefused(status: int, error: string)

  function Mock(r: OrderReply): bool
    requires !r.OrderRefused?
  {
    r.MockOrder?
  }

  const OrderFailed := "Could not create payment order."

  /** The package exists, the caller exists and is not yet enrolled in it. */
  predicate Admissible(s: Store, caller: Id, packageId: Numeric) {
    && Catalog.Find(packageId).Some?
    && Has(s.users, caller)
    && !Enrolled(Get(s.users, caller).value.ledger, Catalog.Find(packageId).value.id)
  }

  /**
    create-order for the caller `caller` (the user `protect` loaded). The new
    Payment gets the id `paymentId`; `gatewayOrder` is what the gateway's
    order creation returned.
   */
  function CreateOrder(s: Store, env: Env, caller: Id, packageId: Numeric, paymentId: Id,
                       gatewayOrder: Option<string>, now: int): (r: (Store, OrderReply))
    ensures r.0.users == s.users
    ensures r.1.OrderRefused? ==> r.0 == s
    ensures Catalog.Find(packageId).None? ==> r.1 == OrderRefused(400, "Invalid package.")
    ensures (Catalog.Find(packageId).Some? && Has(s.users, caller)
             && Enrolled(Get(s.users, caller).value.ledger, Catalog.Find(packageId).value.id))
            ==> r.1 == OrderRefused(409, "Already enrolled in this package.")
    ensures r.1.MockOrder? <==>
            Admissible(s, caller, packageId) && !env.production && KeysUnconfigured(env) && !Has(s.payments, paymentId)
    ensures r.1.GatewayOrder? <==>
            Admissible(s, caller, packageId) && !KeysUnconfigured(env) && gatewayOrder.Some? && !Has(s.payments, paymentId)
    ensures !r.1.OrderRefused? ==>
            var pkg := Catalog.Find(packageId).value;
            && |r.0.payments| == |s.payments| + 1 && r.0.payments[..|s.payments|] == s.payments
            && r.0.payments[|s.payments|].id == paymentId == r.1.paymentId
            && var p := r.0.payments[|s.payments|].body;
            && p.status == Pending && p.userId == caller && p.packageId == pkg.id
            && p.amount == pkg.price == r.1.amount && r.1.packageName == pkg.name
            && (p.isDev <==> Mock(r.1))
            && (r.1.MockOrder? ==> p.orderId.None?)
            && (r.1.GatewayOrder? ==> p.orderId == gatewayOrder == Some(r.1.orderId) && r.1.currency == "INR")
    ensures Valid(s) ==> Valid(r.0)
  {
    match Catalog.Find(packageId)
    case None => (s, OrderRefused(400, "Invalid package."))
    case Some(pkg) =>
      match Get(s.users, caller)
      case None => (s, OrderRefused(500, OrderFailed))
      case Some(u) =>
        if Enrolled(u.ledger, pkg.id) then (s, OrderRefused(409, "Already enrolled in this package."))
        else if !env.production && KeysUnconfigured(env) then
          if Has(s.payments, paymentId) then (s, OrderRefused(500, OrderFailed))
          else
            var p := NewPayment(caller, pkg, None, Some(true), now);
            DistinctIdsPreserved(s.payments, paymentId, p);
            (s.(payments := Add(s.payments, paymentId, p)), MockOrder(paymentId, pkg.name, pkg.price))
        else if KeysUnconfigured(env) then (s, OrderRefused(500, OrderFailed))
        else match gatewayOrder
          case None => (s, OrderRefused(500, OrderFailed))
          case Some(orderId) =>
            if Has(s.payments, paymentId) then (s, OrderRefused(500, OrderFailed))
            else
              var p := NewPayment(caller, pkg, Some(orderId), None, now);
              DistinctIdsPreserved(s.payments, paymentId, p);
              (s.(payments := Add(s.payments, paymentId, p)),
               GatewayOrder(orderId, paymentId, pkg.name, pkg.price, "INR", env.keyId,
                            Prefill(u.name, u.email, u.phone)))
  }

  // ---------------------------------------------------------------------------
  // POST /api/payments/verify and /dev-confirm

  /** The JSON answer of verify and dev-confirm. */
  datatype Reply =
    | Confirmed(message: string, user: PublicUser)
    | Refused(status: int, error: string)

  const VerifyFailed := "Verification failed."
  const SignatureMismatch := "Payment verification failed. Signature mismatch."

  /** The signature equals the HMAC of `order_id|payment_id` under the key secret. */
  predicate SignatureValid(hmac: (string, string) -> string, secret: string,
                           orderId: Option<string>, gatewayPaymentId: Option<string>, signature: Option<string>) {
    signature == Some(hmac(secret, JsString(orderId) + "|" + JsString(gatewayPaymentId)))
  }

  /** The three gateway fields verify writes onto the payment before crediting. */
  function RecordGateway(p: Payment, orderId: Option<string>, gatewayPaymentId: Option<string>, signature: Option<string>): Payment {
    p.(orderId := Overwrite(p.orderId, orderId),
       gatewayPaymentId := Overwrite(p.gatewayPaymentId, gatewayPaymentId),
       signature := Overwrite(p.signature, signature))
  }

  /** Credits the caller with `pkg` and answers with `message` and the caller's JSON. */
  function Credit(s: Store, failed: Store, caller: Id, pkg: Option<Catalog.Package>, paymentId: Id,
                  now: int, message: string, error: string): (Store, Reply)
  {
    match pkg
    case None => (failed, Refused(500, error))
    case Some(pkg) =>
      match EnrollUser(s, caller, pkg, paymentId, now)
      case None => (failed, Refused(500, error))
      case Some((s1, u)) => (s1, Confirmed(message, ToJson(Doc(caller, u))))
  }

  /**
    verify: checks the signature, then records the gateway fields on the
    payment and credits the CALLER with the package the payment names.
   */
  function Verify(s: Store, env: Env, caller: Id, hmac: (string, string) -> string,
                  orderId: Option<string>, gatewayPaymentId: Option<string>, signature: Option<string>,
                  paymentId: Id, now: int): (r: (Store, Reply))
    ensures r.1.Confirmed? ==>
            env.keySecret.Some? && SignatureValid(hmac, env.keySecret.value, orderId, gatewayPaymentId, signature)
    ensures env.keySecret.Some? && !SignatureValid(hmac, env.keySecret.value, orderId, gatewayPaymentId, signature) ==>
            r == (s.(payments := MarkFailed(s.payments, paymentId, gatewayPaymentId)), Refused(400, SignatureMismatch))
    ensures (env.keySecret.Some? && SignatureValid(hmac, env.keySecret.value, orderId, gatewayPaymentId, signature)
             && !Has(s.payments, paymentId)) ==> r == (s, Refused(404, "Payment record not found."))
    ensures r.1.Refused? ==> r.0.users == s.users
    ensures r.1.Confirmed? ==>
            var p := Get(s.payments, paymentId).value;
            && Has(s.payments, paymentId)
            && Get(r.0.payments, paymentId) == Some(RecordGateway(p, orderId, gatewayPaymentId, signature).(status := Paid))
            && Catalog.Find(Whole(p.packageId)).Some?
            && Get(r.0.users, caller).Some? && Enrolled(Get(r.0.users, caller).value.ledger, p.packageId)
            && r.1.user.id == caller
    ensures r.1.Confirmed? ==>
            var pkg := Catalog.Find(Whole(Get(s.payments, paymentId).value.packageId)).value;
            && Has(s.users, caller)
            && Get(r.0.users, caller) == Some(Credited(Get(s.users, caller).value, pkg, now))
            && r.1.user == ToJson(Doc(caller, Get(r.0.users, caller).value))
    ensures forall other :: other != caller ==> Get(r.0.users, other) == Get(s.users, other)
    ensures forall other :: other != paymentId ==> Get(r.0.payments, other) == Get(s.payments, other)
    ensures Valid(s) ==> Valid(r.0)
  {
    match env.keySecret
    case None => (s, Refused(500, VerifyFailed))
    case Some(secret) =>
      if !SignatureValid(hmac, secret, orderId, gatewayPaymentId, signature) then
        (s.(payments := MarkFailed(s.payments, paymentId, gatewayPaymentId)), Refused(400, SignatureMismatch))
      else match Get(s.payments, paymentId)
        case None => (s, Refused(404, "Payment record not found."))
        case Some(p) =>
          var q := RecordGateway(p, orderId, gatewayPaymentId, signature);
          DistinctIdsPreserved(s.payments, paymentId, q);
          var s1 := s.(payments := Set(s.payments, paymentId, q));
          Credit(s1, s1, caller, Catalog.Find(Whole(p.packageId)), paymentId, now,
                 "Payment verified & enrollment complete.", VerifyFailed)
  }

  /**
    dev-confirm: outside production, credits the caller with the package of
    any existing payment, without a signature and whatever the payment's
    `isDev` flag says.
   */
  function DevConfirm(s: Store, env: Env, caller: Id, paymentId: Id, now: int): (r: (Store, Reply))
    ensures env.production ==> r == (s, Refused(403, "Not available in production."))
    ensures !env.production && !Has(s.payments, paymentId) ==> r == (s, Refused(404, "Payment not found."))
    ensures r.1.Refused? ==> r.0 == s
    ensures r.1.Confirmed? ==>
            var p := Get(s.payments, paymentId).value;
            && !env.production && Has(s.payments, paymentId)
            && Get(r.0.payments, paymentId) == Some(p.(status := Paid))
            && Get(r.0.users, caller).Some? && Enrolled(Get(r.0.users, caller).value.ledger, p.packageId)
            && Catalog.Find(Whole(p.packageId)).Some?
    ensures r.1.Confirmed? ==>
            var pkg := Catalog.Find(Whole(Get(s.payments, paymentId).value.packageId)).value;
            && Has(s.users, caller)
            && Get(r.0.users, caller) == Some(Credited(Get(s.users, caller).value, pkg, now))
            && r.1.user == ToJson(Doc(caller, Get(r.0.users, caller).value))
    ensures forall other :: other != caller ==> Get(r.0.users, other) == Get(s.users, other)
    ensures forall other :: other != paymentId ==> Get(r.0.payments, other) == Get(s.payments, other)
    ensures Valid(s) ==> Valid(r.0)
  {
    if env.production then (s, Refused(403, "Not available in production."))
    else match Get(s.payments, paymentId)
      case None => (s, Refused(404, "Payment not found."))
      case Some(p) =>
        Credit(s, s, caller, Catalog.Find(Whole(p.packageId)), paymentId, now,
               "Dev payment confirmed.", "Dev confirmation failed.")
  }

  // ---------------------------------------------------------------------------
  // GET /api/payments/my-payments

  /** Newest first; ties keep natural order. */
  function NewestFirst(p: Payment): Sorting.Key {
    Sorting.Key(-p.createdAt, 0)
  }

  /** The filter `{ userId }` as a function value, so that every list of a user's payments uses the same one. */
  function OwnedBy(owner: Id): Payment -> bool {
    (p: Payment) => p.userId == owner
  }

  /** `Payment.find({ userId: owner })` in natural order: every copy of every payment the user owns, and nothing else. */
  function PaymentsOf(payments: Collection<Payment>, owner: Id): (r: seq<Payment>)
    ensures forall x :: multiset(r)[x] == if x.userId == owner then multiset(Bodies(payments))[x] else 0
  {
    Seqs.FilterMultiset(Bodies(payments), OwnedBy(owner));
    Seqs.Filter(Bodies(payments), OwnedBy(owner))
  }

  /** `Payment.find({ userId: owner }).sort({ createdAt: -1 })`: all of the user's payments, newest first. */
  function History(payments: Collection<Payment>, owner: Id): (r: seq<Payment>)
    ensures multiset(r) == multiset(PaymentsOf(payments, owner))
    ensures |r| == |PaymentsOf(payments, owner)|
    ensures Sorting.SortedBy(r, NewestFirst)
  {
    Sorting.SortBy(PaymentsOf(payments, owner), NewestFirst)
  }

  /** Every element of a user's history is one of the user's stored payments, and the history runs newest first. */
  lemma HistoryElements(payments: Collection<Payment>, owner: Id)
    ensures var h := History(payments, owner);
            && (forall k :: 0 <= k < |h| ==> h[k].userId == owner && h[k] in Bodies(payments))
            && (forall i, j :: 0 <= i < j < |h| ==> h[i].createdAt >= h[j].createdAt)
  {
    var h := History(payments, owner);
    var mine := PaymentsOf(payments, owner);
    forall k | 0 <= k < |h| ensures h[k].userId == owner && h[k] in Bodies(payments) {
      assert h[k] in multiset(h);
      assert multiset(mine)[h[k]] > 0;
      assert multiset(Bodies(payments))[h[k]] > 0;
    }
    forall i, j | 0 <= i < j < |h| ensures h[i].createdAt >= h[j].createdAt {
      assert Sorting.KeyLe(NewestFirst(h[i]), NewestFirst(h[j]));
    }
  }

  /** In a sorted sequence, every element left out of a prefix sorts no earlier than the prefix's elements. */
  lemma PrefixComesFirst<T>(s: seq<T>, n: nat, key: T -> Sorting.Key)
    requires Sorting.SortedBy(s, key) && n <= |s|
    ensures multiset(s[..n]) <= multiset(s)
    ensures forall k, q :: 0 <= k < n && q in multiset(s) - multiset(s[..n]) ==> Sorting.KeyLe(key(s[k]), key(q))
  {
    assert s == s[..n] + s[n..];
    assert multiset(s) == multiset(s[..n]) + multiset(s[n..]);
    forall k, q | 0 <= k < n && q in multiset(s) - multiset(s[..n])
      ensures Sorting.KeyLe(key(s[k]), key(q))
    {
      assert q in multiset(s[n..]);
      var j :| 0 <= j < |s[n..]| && s[n..][j] == q;
      assert s[n + j] == q;
    }
  }

  /** A prefix of a user's history holds the most recent of the user's payments, newest first. */
  lemma HistoryPrefix(payments: Collection<Payment>, owner: Id, n: nat)
    requires n <= |History(payments, owner)|
    ensures var r := History(payments, owner)[..n];
            && multiset(r) <= multiset(PaymentsOf(payments, owner))
            && (forall k, q :: 0 <= k < n && q in multiset(PaymentsOf(payments, owner)) - multiset(r) ==>
                  q.createdAt <= r[k].createdAt)
            && (forall k :: 0 <= k < n ==> r[k].userId == owner)
            && (forall i, j :: 0 <= i < j < n ==> r[i].createdAt >= r[j].createdAt)
  {
    var h := History(payments, owner);
    var r := h[..n];
    PrefixComesFirst(h, n, NewestFirst);
    HistoryElements(payments, owner);
    forall k, q | 0 <= k < n && q in multiset(PaymentsOf(payments, owner)) - multiset(r)
      ensures q.createdAt <= r[k].createdAt
    {
      assert Sorting.KeyLe(NewestFirst(h[k]), NewestFirst(q));
    }
  }

  /** The page size of my-payments. */
  const MyPaymentsLimit := 20

  /**
    my-payments: the caller's 20 most recent payments, newest first; all of
    them when there are at most 20.
   */
  function MyPayments(s: Store, caller: Id): (r: seq<Payment>)
    ensures |r| == if |PaymentsOf(s.payments, caller)| <= MyPaymentsLimit then |PaymentsOf(s.payments, caller)| else MyPaymentsLimit
    ensures multiset(r) <= multiset(PaymentsOf(s.payments, caller))
    ensures |PaymentsOf(s.payments, caller)| <= MyPaymentsLimit ==> multiset(r) == multiset(PaymentsOf(s.payments, caller))
    ensures forall k, q :: 0 <= k < |r| && q in multiset(PaymentsOf(s.payments, caller)) - multiset(r) ==>
              q.createdAt <= r[k].createdAt
    ensures forall k :: 0 <= k < |r| ==> r[k].userId == caller
    ensures forall i, j :: 0 <= i < j < |r| ==> r[i].createdAt >= r[j].createdAt
  {
    var h := History(s.payments, caller);
    var n := if |h| <= MyPaymentsLimit then |h| else MyPaymentsLimit;
    HistoryPrefix(s.payments, caller, n);
    assert n == |h| ==> h[..n] == h;
    h[..n]
  }

  /** Appending the new order's document adds its payment to the owner's payments and leaves other users' alone. */
  lemma PaymentsOfAppend(payments: Collection<Payment>, d: Doc<Payment>, owner: Id)
    ensures multiset(PaymentsOf(payments + [d], owner))
            == multiset(PaymentsOf(payments, owner)) + (if d.body.userId == owner then multiset{d.body} else multiset{})
  {
    assert Bodies(payments + [d]) == Bodies(payments) + [d.body];
    Seqs.FilterAppend(Bodies(payments), [d.body], OwnedBy(owner));
  }

  /** A payment appended for `owner` joins the owner's payments, and my-payments shows it while the owner has fewer than 20. */
  lemma MyPaymentsAfterAppend(s: Store, d: Doc<Payment>, owner: Id)
    requires d.body.userId == owner
    ensures multiset(PaymentsOf(s.payments + [d], owner)) == multiset(PaymentsOf(s.payments, owner)) + multiset{d.body}
    ensures |PaymentsOf(s.payments, owner)| < MyPaymentsLimit ==> d.body in MyPayments(s.(payments := s.payments + [d]), owner)
  {
    PaymentsOfAppend(s.payments, d, owner);
    var before := PaymentsOf(s.payments, owner);
    var after := PaymentsOf(s.payments + [d], owner);
    if |before| < MyPaymentsLimit {
      assert |after| == |before| + 1 by {
        assert |multiset(after)| == |multiset(before)| + 1;
      }
      var m := MyPayments(s.(payments := s.payments + [d]), owner);
      assert d.body in multiset(m);
    }
  }

  /** After a create-order, the caller's payments are the earlier ones plus the new order, which my-payments shows while there are fewer than 20. */
  lemma MyPaymentsAfterOrder(s: Store, env: Env, caller: Id, packageId: Numeric, paymentId: Id,
                             gatewayOrder: Option<string>, now: int)
    requires !CreateOrder(s, env, caller, packageId, paymentId, gatewayOrder, now).1.OrderRefused?
    ensures var s1 := CreateOrder(s, env, caller, packageId, paymentId, gatewayOrder, now).0;
            var p := s1.payments[|s.payments|].body;
            && Get(s1.payments, paymentId) == Some(p)
            && multiset(PaymentsOf(s1.payments, caller)) == multiset(PaymentsOf(s.payments, caller)) + multiset{p}
            && (|PaymentsOf(s.payments, caller)| < MyPaymentsLimit ==> p in MyPayments(s1, caller))
  {
    var s1 := CreateOrder(s, env, caller, packageId, paymentId, gatewayOrder, now).0;
    var n := |s.payments|;
    var d := s1.payments[n];
    assert s1.payments == s.payments + [d] by {
      assert s1.payments[..n] == s.payments;
    }
    assert s1 == s.(payments := s.payments + [d]);
    MyPaymentsAfterAppend(s, d, caller);
  }

  // ---------------------------------------------------------------------------
  // Properties of the state machine

  /** Enrollment credits the caller: the payment's owner, if someone else, is untouched. */
  lemma CreditsCallerNotOwner(s: Store, env: Env, caller: Id, hmac: (string, string) -> string,
                              orderId: Option<string>, gatewayPaymentId: Option<string>, signature: Option<string>,
                              paymentId: Id, now: int)
    requires Has(s.payments, paymentId) && Get(s.payments, paymentId).value.userId != caller
    ensures var owner := Get(s.payments, paymentId).value.userId;
            && Get(Verify(s, env, caller, hmac, orderId, gatewayPaymentId, signature, paymentId, now).0.users, owner)
               == Get(s.users, owner)
            && Get(DevConfirm(s, env, caller, paymentId, now).0.users, owner) == Get(s.users, owner)
  {
  }

  /** A failed signature turns ANY referenced payment into `failed`, a paid one included. */
  lemma BadSignatureOverridesPaid(s: Store, env: Env, caller: Id, hmac: (string, string) -> string,
                                  orderId: Option<string>, gatewayPaymentId: Option<string>, signature: Option<string>,
                                  paymentId: Id, now: int)
    requires env.keySecret.Some? && !SignatureValid(hmac, env.keySecret.value, orderId, gatewayPaymentId, signature)
    requires Has(s.payments, paymentId) && Get(s.payments, paymentId).value.status == Paid
    ensures var r := Verify(s, env, caller, hmac, orderId, gatewayPaymentId, signature, paymentId, now);
            && Get(r.0.payments, paymentId).value.status == Failed
            && r.0.users == s.users && r.1 == Refused(400, SignatureMismatch)
  {
  }

  /** A later good signature brings a failed payment back to `paid`. */
  lemma GoodSignatureAfterFailure(s: Store, env: Env, caller: Id, hmac: (string, string) -> string,
                                  orderId: Option<string>, gatewayPaymentId: Option<string>, signature: Option<string>,
                                  paymentId: Id, now: int)
    requires env.keySecret.Some? && SignatureValid(hmac, env.keySecret.value, orderId, gatewayPaymentId, signature)
    requires Has(s.payments, paymentId) && Get(s.payments, paymentId).value.status == Failed
    requires Catalog.Find(Whole(Get(s.payments, paymentId).value.packageId)).Some?
    requires Has(s.users, caller)
    ensures var r := Verify(s, env, caller, hmac, orderId, gatewayPaymentId, signature, paymentId, now);
            r.1.Confirmed? && Get(r.0.payments, paymentId).value.status == Paid
  {
  }

  /**
    The ledger records the catalog price of the payment's package at credit
    time, not the amount stored on the payment.
   */
  lemma LedgerAmountIsCatalogPrice(s: Store, env: Env, caller: Id, paymentId: Id, now: int)
    requires !env.production && Has(s.payments, paymentId) && Has(s.users, caller)
    requires var p := Get(s.payments, paymentId).value;
             Catalog.Find(Whole(p.packageId)).Some? && !Enrolled(Get(s.users, caller).value.ledger, p.packageId)
    ensures var p := Get(s.payments, paymentId).value;
            var before := Get(s.users, caller).value.ledger;
            var after := Get(DevConfirm(s, env, caller, paymentId, now).0.users, caller).value.ledger;
            && |after| == |before| + 1
            && after[|before|].amount == Catalog.Find(Whole(p.packageId)).value.price
  {
  }

  /** verify is idempotent: replaying the same request (at any later time) changes nothing more and answers the same. */
  lemma VerifyIdempotent(s: Store, env: Env, caller: Id, hmac: (string, string) -> string,
                         orderId: Option<string>, gatewayPaymentId: Option<string>, signature: Option<string>,
                         paymentId: Id, now: int, later: int)
    ensures var r := Verify(s, env, caller, hmac, orderId, gatewayPaymentId, signature, paymentId, now);
            Verify(r.0, env, caller, hmac, orderId, gatewayPaymentId, signature, paymentId, later) == r
  {
    var r := Verify(s, env, caller, hmac, orderId, gatewayPaymentId, signature, paymentId, now);
    var r2 := Verify(r.0, env, caller, hmac, orderId, gatewayPaymentId, signature, paymentId, later);
    match env.keySecret
    case None =>
    case Some(secret) =>
      if !SignatureValid(hmac, secret, orderId, gatewayPaymentId, signature) {
        if Has(s.payments, paymentId) {
          var p := Get(s.payments, paymentId).value;
          var f := p.(status := Failed, gatewayPaymentId := Overwrite(p.gatewayPaymentId, gatewayPaymentId));
          SetSet(s.payments, paymentId, f, f.(gatewayPaymentId := Overwrite(f.gatewayPaymentId, gatewayPaymentId)));
        }
      } else if Has(s.payments, paymentId) {
        var p := Get(s.payments, paymentId).value;
        var q := RecordGateway(p, orderId, gatewayPaymentId, signature);
        var s1 := s.(payments := Set(s.payments, paymentId, q));
        var pkg := Catalog.Find(Whole(p.packageId));
        if pkg.Some? && Has(s.users, caller) {
          var (s2, u) := EnrollUser(s1, caller, pkg.value, paymentId, now).value;
          var q2 := Get(s2.payments, paymentId).value;
          assert q2 == q.(status := Paid);
          assert RecordGateway(q2, orderId, gatewayPaymentId, signature) == q2;
          var s3 := s2.(payments := Set(s2.payments, paymentId, q2));
          SetSame(s2.payments, paymentId);
          assert s3 == s2;
          EnrollUserIdempotent(s1, caller, pkg.value, paymentId, now, later);
        } else {
          SetSame(s1.payments, paymentId);
        }
      }
  }

  /** dev-confirm is idempotent in the same sense. */
  lemma DevConfirmIdempotent(s: Store, env: Env, caller: Id, paymentId: Id, now: int, later: int)
    ensures var r := DevConfirm(s, env, caller, paymentId, now);
            DevConfirm(r.0, env, caller, paymentId, later) == r
  {
    if !env.production && Has(s.payments, paymentId) {
      var p := Get(s.payments, paymentId).value;
      var pkg := Catalog.Find(Whole(p.packageId));
      if pkg.Some? && Has(s.users, caller) {
        EnrollUserIdempotent(s, caller, pkg.value, paymentId, now, later);
      }
    }
  }

  /** Once credited, a second create-order for the same package is refused with 409 and creates nothing. */
  lemma NoSecondPurchase(s: Store, env: Env, caller: Id, paymentId: Id, now: int,
                         env2: Env, freshId: Id, gatewayOrder: Option<string>, later: int)
    requires DevConfirm(s, env, caller, paymentId, now).1.Confirmed?
    ensures var s1 := DevConfirm(s, env, caller, paymentId, now).0;
            var pid := Get(s.payments, paymentId).value.packageId;
            CreateOrder(s1, env2, caller, Whole(pid), freshId, gatewayOrder, later)
              == (s1, OrderRefused(409, "Already enrolled in this package."))
  {
    var p := Get(s.payments, paymentId).value;
    Catalog.FindAnswers(Whole(p.packageId));
    var pkg := Catalog.Find(Whole(p.packageId)).value;
    assert pkg.id == p.packageId;
  }

  // ---------------------------------------------------------------------------
  // Runs of requests

  datatype Request =
    | CreateOrderRequest(caller: Id, packageId: Numeric, paymentId: Id, gatewayOrder: Option<string>)
    | VerifyRequest(caller: Id, orderId: Option<string>, gatewayPaymentId: Option<string>,
                    signature: Option<string>, paymentId: Id)
    | DevConfirmRequest(caller: Id, paymentId: Id)

  /** The store after one request. */
  function Step(s: Store, env: Env, hmac: (string, string) -> string, req: Request, now: int): Store {
    match req
    case CreateOrderRequest(caller, packageId, paymentId, gatewayOrder) =>
      CreateOrder(s, env, caller, packageId, paymentId, gatewayOrder, now).0
    case VerifyRequest(caller, orderId, gatewayPaymentId, signature, paymentId) =>
      Verify(s, env, caller, hmac, orderId, gatewayPaymentId, signature, paymentId, now).0
    case DevConfirmRequest(caller, paymentId) =>
      DevConfirm(s, env, caller, paymentId, now).0
  }

  /** The store after a sequence of requests, the k-th at time `start + k`. */
  function Run(s: Store, env: Env, hmac: (string, string) -> string, reqs: seq<Request>, start: int): Store
    decreases |reqs|
  {
    if |reqs| == 0 then s
    else Run(Step(s, env, hmac, reqs[0], start), env, hmac, reqs[1..], start + 1)
  }

  /** No sequence of requests can put two entries for one package into a ledger. */
  lemma {:induction false} RunKeepsValid(s: Store, env: Env, hmac: (string, string) -> string,
                                         reqs: seq<Request>, start: int)
    requires Valid(s)
    ensures Valid(Run(s, env, hmac, reqs, start))
    decreases |reqs|
  {
    if |reqs| > 0 {
      RunKeepsValid(Step(s, env, hmac, reqs[0], start), env, hmac, reqs[1..], start + 1);
    }
  }

  /** In a valid store every user holds at most one entry per package, whatever happens next. */
  lemma RunAtMostOneEntry(s: Store, env: Env, hmac: (string, string) -> string,
                          reqs: seq<Request>, start: int, userId: Id, packageId: int)
    requires Valid(s)
    ensures var s1 := Run(s, env, hmac, reqs, start);
            Has(s1.users, userId) ==> EntriesFor(Get(s1.users, userId).value.ledger, packageId) <= 1
  {
    RunKeepsValid(s, env, hmac, reqs, start);
    var s1 := Run(s, env, hmac, reqs, start);
    if Has(s1.users, userId) {
      var k := IndexOf(s1.users, userId).value;
      EntriesForDistinct(s1.users[k].body.ledger, packageId);
    }
  }

  // ---------------------------------------------------------------------------
  // Purchases from start to finish

  /**
    The development purchase: with placeholder keys, create-order for GOLD
    (id 4) opens a pending mock payment of 549900 paise, and dev-confirm
    turns it paid and gives the buyer exactly one GOLD entry.
   */
  lemma MockPurchase(u: User, buyer: Id, paymentId: Id, t0: int, t1: int)
    requires u.ledger == []
    ensures var s0 := Store([], [Doc(buyer, u)]);
            var env := Env(false, None, None);
            var (s1, order) := CreateOrder(s0, env, buyer, Whole(4), paymentId, None, t0);
            && order == MockOrder(paymentId, "GOLD PACKAGE", 549900)
            && Get(s1.payments, paymentId).value.status == Pending
            && Get(s1.payments, paymentId).value.isDev
            && var (s2, reply) := DevConfirm(s1, env, buyer, paymentId, t1);
            && reply.Confirmed?
            && Get(s2.payments, paymentId).value.status == Paid
            && Get(s2.users, buyer).value.ledger == [Enrollment(4, "GOLD PACKAGE", 549900, t1)]
  {
    Catalog.FindAnswers(Whole(4));
  }

  /**
    The gateway purchase: a successful create-order followed by a verify
    carrying the gateway's correct signature leaves the payment paid and the
    buyer with exactly one entry for the package.
   */
  lemma GatewayPurchase(s: Store, env: Env, buyer: Id, packageId: Numeric, paymentId: Id, orderId: string,
                        hmac: (string, string) -> string, gatewayPaymentId: string, t0: int, t1: int)
    requires Valid(s) && env.keySecret.Some?
    requires CreateOrder(s, env, buyer, packageId, paymentId, Some(orderId), t0).1.GatewayOrder?
    ensures var s1 := CreateOrder(s, env, buyer, packageId, paymentId, Some(orderId), t0).0;
            var sig := Some(hmac(env.keySecret.value, orderId + "|" + gatewayPaymentId));
            var (s2, reply) := Verify(s1, env, buyer, hmac, Some(orderId), Some(gatewayPaymentId), sig, paymentId, t1);
            && reply.Confirmed?
            && Get(s2.payments, paymentId).value.status == Paid
            && Get(s2.payments, paymentId).value.orderId == Some(orderId)
            && EntriesFor(Get(s2.users, buyer).value.ledger, Catalog.Find(packageId).value.id) == 1
  {
    var (s1, order) := CreateOrder(s, env, buyer, packageId, paymentId, Some(orderId), t0);
    var pkg := Catalog.Find(packageId).value;
    Catalog.FindAnswers(packageId);
    assert Get(s1.payments, paymentId).value.packageId == pkg.id;
    Catalog.FindAnswers(Whole(pkg.id));
    var sig := Some(hmac(env.keySecret.value, orderId + "|" + gatewayPaymentId));
    var (s2, reply) := Verify(s1, env, buyer, hmac, Some(orderId), Some(gatewayPaymentId), sig, paymentId, t1);
    assert Valid(s2);
    var k := IndexOf(s2.users, buyer).value;
    EntriesForDistinct(s2.users[k].body.ledger, pkg.id);
  }
}
