/**
  The admin routes, all mounted behind `protect` and `adminOnly` (the
  Guards module's `ProtectAdmin`): the stats aggregation as folds over the
  three collections, the user and payment lists with their filters and
  paging, a user's detail page, the active toggle and the resource list.
  Money stays in paise: the division of the revenue by 100 for display is
  not modelled.
 */
module Admin {
  import opened Common
  import Strings
  import Seqs
  import Sorting
  import opened Docs
  import opened Users
  import Payments
  import Resources
  import Catalog

  // ---------------------------------------------------------------------------
  // GET /api/admin/stats

  datatype Stats = Stats(
    totalUsers: nat,
    totalFiles: nat,
    enrolledCount: nat,
    revenue: int,
    totalDownloads: int,
    totalTransactions: nat)

  predicate IsPlainUser(u: User) { u.role == UserRole }
  predicate HasEnrollment(u: User) { |u.ledger| > 0 }
  predicate IsActiveResource(r: Resources.Resource) { r.isActive }
  function Amount(p: Payments.Payment): int { p.amount }
  function Downloads(r: Resources.Resource): int { r.downloads }

  /**
    The stats: users with role `user`; active resources; users of any role
    with at least one enrollment; the sum of every payment's amount and
    the number of payments, whatever their status; and the downloads of
    all resources, deleted ones included. Empty aggregates give 0.
   */
  function ComputeStats(users: Collection<User>, payments: Collection<Payments.Payment>,
                        resources: Collection<Resources.Resource>): (r: Stats)
    ensures r.totalUsers <= |users| && r.enrolledCount <= |users| && r.totalFiles <= |resources|
    ensures r.totalTransactions == |payments|
    ensures |payments| == 0 ==> r.revenue == 0
    ensures |resources| == 0 ==> r.totalDownloads == 0
    ensures |users| == 0 ==> r.totalUsers == 0 && r.enrolledCount == 0
  {
    Stats(
      Seqs.Count(Bodies(users), IsPlainUser),
      Seqs.Count(Bodies(resources), IsActiveResource),
      Seqs.Count(Bodies(users), HasEnrollment),
      Seqs.SumOf(Bodies(payments), Amount),
      Seqs.SumOf(Bodies(resources), Downloads),
      |payments|)
  }

  /** A new user adds to `totalUsers` only with role `user`, and to `enrolledCount` only with a non-empty ledger. */
  lemma StatsOfNewUser(users: Collection<User>, d: Doc<User>, payments: Collection<Payments.Payment>,
                       resources: Collection<Resources.Resource>)
    ensures var before := ComputeStats(users, payments, resources);
            var after := ComputeStats(users + [d], payments, resources);
            && after.totalUsers == before.totalUsers + (if d.body.role == UserRole then 1 else 0)
            && after.enrolledCount == before.enrolledCount + (if |d.body.ledger| > 0 then 1 else 0)
            && after.(totalUsers := before.totalUsers, enrolledCount := before.enrolledCount) == before
  {
    assert Bodies(users + [d]) == Bodies(users) + [d.body];
    Seqs.CountAppend(Bodies(users), [d.body], IsPlainUser);
    Seqs.CountAppend(Bodies(users), [d.body], HasEnrollment);
  }

  /** A new resource adds to `totalFiles` only while active, and always adds its downloads to the total. */
  lemma StatsOfNewResource(users: Collection<User>, payments: Collection<Payments.Payment>,
                           resources: Collection<Resources.Resource>, d: Doc<Resources.Resource>)
    ensures var before := ComputeStats(users, payments, resources);
            var after := ComputeStats(users, payments, resources + [d]);
            && after.totalFiles == before.totalFiles + (if d.body.isActive then 1 else 0)
            && after.totalDownloads == before.totalDownloads + d.body.downloads
            && after.(totalFiles := before.totalFiles, totalDownloads := before.totalDownloads) == before
  {
    assert Bodies(resources + [d]) == Bodies(resources) + [d.body];
    Seqs.CountAppend(Bodies(resources), [d.body], IsActiveResource);
    Seqs.SumOfAppend(Bodies(resources), [d.body], Downloads);
  }

  /** A download adds exactly one to `totalDownloads` and changes no other figure. */
  lemma StatsAfterDownload(users: Collection<User>, payments: Collection<Payments.Payment>,
                           resources: Collection<Resources.Resource>, id: Id, signedIn: bool)
    requires Resources.DownloadResource(resources, id, signedIn).1.Download?
    ensures var before := ComputeStats(users, payments, resources);
            var after := ComputeStats(users, payments, Resources.DownloadResource(resources, id, signedIn).0);
            after == before.(totalDownloads := before.totalDownloads + 1)
  {
    var res := Get(resources, id).value;
    var k := IndexOf(resources, id).value;
    var res1 := res.(downloads := res.downloads + 1);
    SetAt(resources, id, res1);
    assert Resources.DownloadResource(resources, id, signedIn).0 == Set(resources, id, res1);
    Seqs.CountUpdate(Bodies(resources), k, res1, IsActiveResource);
    Seqs.SumOfUpdate(Bodies(resources), k, res1, Downloads);
  }

  /** Any appended payment, whatever its status, adds its amount to the revenue and one transaction. */
  lemma StatsOfNewPayment(users: Collection<User>, payments: Collection<Payments.Payment>,
                          resources: Collection<Resources.Resource>, d: Doc<Payments.Payment>)
    ensures var before := ComputeStats(users, payments, resources);
            var after := ComputeStats(users, payments + [d], resources);
            && after.revenue == before.revenue + d.body.amount
            && after.totalTransactions == before.totalTransactions + 1
            && after.(revenue := before.revenue, totalTransactions := before.totalTransactions) == before
  {
    assert Bodies(payments + [d]) == Bodies(payments) + [d.body];
    Seqs.SumOfAppend(Bodies(payments), [d.body], Amount);
  }

  /** Revenue ignores status: marking a payment paid, failed or anything else leaves every figure as it was. */
  lemma RevenueIgnoresStatus(users: Collection<User>, payments: Collection<Payments.Payment>,
                             resources: Collection<Resources.Resource>, id: Id, status: Payments.Status)
    ensures ComputeStats(users, Payments.SetStatus(payments, id, status), resources) == ComputeStats(users, payments, resources)
  {
    if Has(payments, id) {
      var p := Get(payments, id).value;
      SetAt(payments, id, p.(status := status));
      Seqs.SumOfUpdate(Bodies(payments), IndexOf(payments, id).value, p.(status := status), Amount);
    }
  }

  /** Every order counts as revenue the moment it is created, though nothing is paid yet. */
  lemma OrderCountsAsRevenue(s: Payments.Store, env: Payments.Env, caller: Id, packageId: Numeric, paymentId: Id,
                             gatewayOrder: Option<string>, now: int, resources: Collection<Resources.Resource>)
    requires !Payments.CreateOrder(s, env, caller, packageId, paymentId, gatewayOrder, now).1.OrderRefused?
    ensures var s1 := Payments.CreateOrder(s, env, caller, packageId, paymentId, gatewayOrder, now).0;
            var before := ComputeStats(s.users, s.payments, resources);
            var after := ComputeStats(s1.users, s1.payments, resources);
            && after.revenue == before.revenue + Catalog.Find(packageId).value.price
            && after.totalTransactions == before.totalTransactions + 1
            && after.totalUsers == before.totalUsers && after.enrolledCount == before.enrolledCount
  {
    var s1 := Payments.CreateOrder(s, env, caller, packageId, paymentId, gatewayOrder, now).0;
    var n := |s.payments|;
    assert s1.payments == s.payments + [s1.payments[n]] by {
      assert s1.payments[..n] == s.payments;
    }
    assert Bodies(s1.payments) == Bodies(s.payments) + [s1.payments[n].body];
    Seqs.SumOfAppend(Bodies(s.payments), [s1.payments[n].body], Amount);
  }

  /** Soft-deleting an active resource takes one file off `totalFiles` and leaves its downloads in the total. */
  lemma DeleteResourceStats(users: Collection<User>, payments: Collection<Payments.Payment>,
                            resources: Collection<Resources.Resource>, id: Id)
    requires Has(resources, id) && Get(resources, id).value.isActive
    ensures var before := ComputeStats(users, payments, resources);
            var after := ComputeStats(users, payments, Resources.DeleteResource(resources, id).0);
            after == before.(totalFiles := before.totalFiles - 1)
  {
    var res := Get(resources, id).value;
    var k := IndexOf(resources, id).value;
    SetAt(resources, id, res.(isActive := false));
    assert Resources.DeleteResource(resources, id).0 == Set(resources, id, res.(isActive := false));
    Seqs.CountUpdate(Bodies(resources), k, res.(isActive := false), IsActiveResource);
    Seqs.SumOfUpdate(Bodies(resources), k, res.(isActive := false), Downloads);
  }

  // ---------------------------------------------------------------------------
  // Lists

  /** `?page=&limit=` as numbers; absent ones take the defaults 1 and 50. */
  datatype Paging = Paging(page: Option<int>, limit: Option<int>)

  function PageOf(q: Paging): int { if q.page.Some? then q.page.value else 1 }
  function LimitOf(q: Paging): int { if q.limit.Some? then q.limit.value else 50 }

  /** The page size MongoDB applies: a negative limit is taken by its absolute value, 0 means no limit. */
  function LimitSize(q: Paging): nat {
    if LimitOf(q) < 0 then -LimitOf(q) else LimitOf(q)
  }

  /** `(page - 1) * limit`; MongoDB refuses a negative skip. */
  function Skip(q: Paging): int {
    (PageOf(q) - 1) * LimitOf(q)
  }

  datatype Reply =
    | UserList(users: seq<PublicUser>, total: nat, page: int)
    | UserDetail(user: PublicUser, payments: seq<Payments.Payment>)
    | Toggled(message: string, user: PublicUser)
    | PaymentList(payments: seq<Payments.Payment>, total: nat, page: int)
    | ResourceList(resources: seq<Resources.Resource>)
    | Refused(status: int, error: string)

  /**
    The `$regex` search with option `i`, for a search text without regular
    expression metacharacters: a case-insensitive substring test.
   */
  predicate MatchesText(field: string, search: string) {
    Strings.Contains(Strings.Lower(field), Strings.Lower(search))
  }

  /** The user list filter: role `user`, and name, e-mail or phone matching a given search. */
  predicate Listed(u: User, search: Option<string>) {
    && u.role == UserRole
    && (Filled(search) ==> MatchesText(u.name, search.value) || MatchesText(u.email, search.value)
                           || MatchesText(u.phone, search.value))
  }

  function UserFilter(search: Option<string>): Doc<User> -> bool {
    (d: Doc<User>) => Listed(d.body, search)
  }

  function UserNewestFirst(d: Doc<User>): Sorting.Key {
    Sorting.Key(-d.body.createdAt, 0)
  }

  /** The matching user documents, newest first. */
  function MatchingUsers(users: Collection<User>, search: Option<string>): (r: Collection<User>)
    ensures forall d :: d in r <==> d in users && Listed(d.body, search)
    ensures Sorting.SortedBy(r, UserNewestFirst)
    ensures |r| == Seqs.Count(users, UserFilter(search))
  {
    var kept := Seqs.Filter(users, UserFilter(search));
    var sorted := Sorting.SortBy(kept, UserNewestFirst);
    forall d ensures d in sorted <==> d in kept {
      Sorting.SortMembers(kept, UserNewestFirst, d);
    }
    sorted
  }

  /**
    `GET /api/admin/users?search=&page=&limit=`: one page of the matching
    users, newest first, without passwords, with the count of all matches.
   */
  function ListUsers(users: Collection<User>, search: Option<string>, q: Paging): (r: Reply)
    ensures if Skip(q) < 0 then r == Refused(500, "Could not fetch users.") else r.UserList?
    ensures r.UserList? ==>
              && r.total == Seqs.Count(users, UserFilter(search))
              && r.page == PageOf(q) && |r.users| <= r.total
              && (forall i, j :: 0 <= i < j < |r.users| ==> r.users[i].createdAt >= r.users[j].createdAt)
    ensures r.UserList? ==>
              forall k :: 0 <= k < |r.users| ==>
                Skip(q) + k < |MatchingUsers(users, search)| && r.users[k] == ToJson(MatchingUsers(users, search)[Skip(q) + k])
    ensures r.UserList? && LimitSize(q) > 0 && Skip(q) + LimitSize(q) <= r.total ==> |r.users| == LimitSize(q)
    ensures r.UserList? && Skip(q) <= r.total && (LimitSize(q) == 0 || r.total - Skip(q) <= LimitSize(q)) ==>
              |r.users| == r.total - Skip(q)
    ensures r.UserList? && Skip(q) >= r.total ==> r.users == []
  {
    if Skip(q) < 0 then Refused(500, "Could not fetch users.")
    else
      var all := MatchingUsers(users, search);
      var page := Seqs.Page(all, Skip(q), LimitOf(q));
      PageSorted(all, Skip(q), LimitOf(q), UserNewestFirst);
      UserList(seq(|page|, k requires 0 <= k < |page| => ToJson(page[k])), |all|, PageOf(q))
  }

  /** A page (`skip`/`limit`) of a sorted list is sorted. */
  lemma PageSorted<T>(s: seq<T>, skip: nat, limit: int, key: T -> Sorting.Key)
    requires Sorting.SortedBy(s, key)
    ensures Sorting.SortedBy(Seqs.Page(s, skip, limit), key)
  {
    var r := Seqs.Page(s, skip, limit);
    forall i, j | 0 <= i < j < |r|
      ensures Sorting.KeyLe(key(r[i]), key(r[j]))
    {
      assert r[i] == s[skip + i] && r[j] == s[skip + j];
    }
  }

  /** Paging never changes the reported total. */
  lemma ListUsersTotalIgnoresPaging(users: Collection<User>, search: Option<string>, q1: Paging, q2: Paging)
    requires Skip(q1) >= 0 && Skip(q2) >= 0
    ensures ListUsers(users, search, q1).total == ListUsers(users, search, q2).total
  {
  }

  /** Admins are never listed, whatever the search. */
  lemma AdminsNeverListed(users: Collection<User>, search: Option<string>, q: Paging, d: Doc<User>)
    requires d in users && d.body.role == AdminRole && Skip(q) >= 0
    ensures ToJson(d) !in ListUsers(users, search, q).users
  {
  }

  function PaymentNewestFirst(p: Payments.Payment): Sorting.Key {
    Sorting.Key(-p.createdAt, 0)
  }

  /** `GET /api/admin/users/:id`: 404 for an unknown user, else the user and all their payments, newest first. */
  function UserDetails(users: Collection<User>, payments: Collection<Payments.Payment>, id: Id): (r: Reply)
    ensures if Has(users, id) then r.UserDetail? else r == Refused(404, "User not found.")
    ensures r.UserDetail? ==>
              && r.user == ToJson(Doc(id, Get(users, id).value))
              && (forall p :: multiset(r.payments)[p] == if p.userId == id then multiset(Bodies(payments))[p] else 0)
              && (forall i, j :: 0 <= i < j < |r.payments| ==> r.payments[i].createdAt >= r.payments[j].createdAt)
  {
    match Get(users, id)
    case None => Refused(404, "User not found.")
    case Some(u) =>
      var h := Payments.History(payments, id);
      Payments.HistoryPrefix(payments, id, |h|);
      assert h[..|h|] == h;
      UserDetail(ToJson(Doc(id, u)), h)
  }

  /**
    The detail page and the user's own my-payments list the same payments
    in the same order: my-payments is the first 20 of the detail page's.
   */
  lemma UserDetailsExtendsMyPayments(users: Collection<User>, payments: Collection<Payments.Payment>, id: Id)
    requires Has(users, id)
    ensures var all := UserDetails(users, payments, id).payments;
            var mine := Payments.MyPayments(Payments.Store(payments, users), id);
            && |mine| == (if |all| <= Payments.MyPaymentsLimit then |all| else Payments.MyPaymentsLimit)
            && mine == all[..|mine|]
  {
  }

  /**
    `PATCH /api/admin/users/:id/toggle`: 404 for an unknown user; otherwise
    `isActive` flips and nothing else changes (the password is not
    modified, so the pre-save hook leaves the hash alone).
   */
  function Toggle(users: Collection<User>, id: Id, hash: string -> string): (r: (Collection<User>, Reply))
    ensures !Has(users, id) ==> r == (users, Refused(404, "User not found."))
    ensures Has(users, id) ==>
              var before := Get(users, id).value;
              && Get(r.0, id) == Some(before.(isActive := !before.isActive))
              && r.1 == Toggled(if before.isActive then "User deactivated." else "User activated.",
                                ToJson(Doc(id, before.(isActive := !before.isActive))))
    ensures forall other :: other != id ==> Get(r.0, other) == Get(users, other)
  {
    match Get(users, id)
    case None => (users, Refused(404, "User not found."))
    case Some(u) =>
      var u1 := Save(u, u.(isActive := !u.isActive), hash);
      (Set(users, id, u1), Toggled(if u1.isActive then "User activated." else "User deactivated.", ToJson(Doc(id, u1))))
  }

  /** Toggling twice restores the collection. */
  lemma ToggleTwice(users: Collection<User>, id: Id, hash: string -> string)
    ensures Toggle(Toggle(users, id, hash).0, id, hash).0 == users
  {
    if Has(users, id) {
      var u := Get(users, id).value;
      SetSet(users, id, u.(isActive := !u.isActive), u);
      SetSame(users, id);
    }
  }

  /** A toggle changes no stats figure: role and ledger stay as they were. */
  lemma ToggleKeepsStats(users: Collection<User>, id: Id, hash: string -> string,
                         payments: Collection<Payments.Payment>, resources: Collection<Resources.Resource>)
    ensures ComputeStats(Toggle(users, id, hash).0, payments, resources) == ComputeStats(users, payments, resources)
  {
    if Has(users, id) {
      var u := Get(users, id).value;
      var k := IndexOf(users, id).value;
      SetAt(users, id, u.(isActive := !u.isActive));
      Seqs.CountUpdate(Bodies(users), k, u.(isActive := !u.isActive), IsPlainUser);
      Seqs.CountUpdate(Bodies(users), k, u.(isActive := !u.isActive), HasEnrollment);
    }
  }

  /** The status names the query string uses. */
  function StatusName(s: Payments.Status): string {
    match s
    case Pending => "pending"
    case Paid => "paid"
    case Failed => "failed"
    case Refunded => "refunded"
  }

  /** The payment list filter: by status only when one is given (an unknown name matches nothing). */
  predicate PaymentListed(p: Payments.Payment, status: Option<string>) {
    Filled(status) ==> StatusName(p.status) == status.value
  }

  function PaymentFilter(status: Option<string>): Payments.Payment -> bool {
    (p: Payments.Payment) => PaymentListed(p, status)
  }

  /** The matching payments, newest first. */
  function MatchingPayments(payments: Collection<Payments.Payment>, status: Option<string>): (r: seq<Payments.Payment>)
    ensures forall p :: p in r <==> p in Bodies(payments) && PaymentListed(p, status)
    ensures Sorting.SortedBy(r, PaymentNewestFirst)
    ensures |r| == Seqs.Count(Bodies(payments), PaymentFilter(status))
    ensures !Filled(status) ==> |r| == |payments|
  {
    var kept := Seqs.Filter(Bodies(payments), PaymentFilter(status));
    var sorted := Sorting.SortBy(kept, PaymentNewestFirst);
    forall p ensures p in sorted <==> p in kept {
      Sorting.SortMembers(kept, PaymentNewestFirst, p);
    }
    assert !Filled(status) ==> kept == Bodies(payments) by {
      if !Filled(status) {
        Seqs.FilterKeepsAll(Bodies(payments), PaymentFilter(status));
      }
    }
    sorted
  }

  /** `GET /api/admin/payments?status=&page=&limit=`: one page of the matching payments, newest first. */
  function ListPayments(payments: Collection<Payments.Payment>, status: Option<string>, q: Paging): (r: Reply)
    ensures if Skip(q) < 0 then r == Refused(500, "Could not fetch payments.") else r.PaymentList?
    ensures r.PaymentList? ==>
              && r.total == Seqs.Count(Bodies(payments), PaymentFilter(status))
              && r.page == PageOf(q) && |r.payments| <= r.total
              && (forall i, j :: 0 <= i < j < |r.payments| ==> r.payments[i].createdAt >= r.payments[j].createdAt)
    ensures r.PaymentList? && !Filled(status) ==> r.total == |payments|
    ensures r.PaymentList? ==>
              forall k :: 0 <= k < |r.payments| ==>
                Skip(q) + k < |MatchingPayments(payments, status)| && r.payments[k] == MatchingPayments(payments, status)[Skip(q) + k]
    ensures r.PaymentList? && LimitSize(q) > 0 && Skip(q) + LimitSize(q) <= r.total ==> |r.payments| == LimitSize(q)
    ensures r.PaymentList? && Skip(q) <= r.total && (LimitSize(q) == 0 || r.total - Skip(q) <= LimitSize(q)) ==>
              |r.payments| == r.total - Skip(q)
    ensures r.PaymentList? && Skip(q) >= r.total ==> r.payments == []
  {
    if Skip(q) < 0 then Refused(500, "Could not fetch payments.")
    else
      var all := MatchingPayments(payments, status);
      var page := Seqs.Page(all, Skip(q), LimitOf(q));
      PageSorted(all, Skip(q), LimitOf(q), PaymentNewestFirst);
      PaymentList(page, |all|, PageOf(q))
  }

  /** Filtering by a status's own name keeps exactly the payments in that status. */
  lemma FilterByName(p: Payments.Payment, st: Payments.Status)
    ensures PaymentFilter(Some(StatusName(st)))(p) <==> p.status == st
  {
  }

  /** The four status filters split the payments: their totals add up to the unfiltered total. */
  lemma StatusFiltersPartition(payments: Collection<Payments.Payment>, q: Paging)
    requires Skip(q) >= 0
    ensures ListPayments(payments, Some("pending"), q).total + ListPayments(payments, Some("paid"), q).total
          + ListPayments(payments, Some("failed"), q).total + ListPayments(payments, Some("refunded"), q).total
          == ListPayments(payments, None, q).total
  {
    StatusNames();
    var pb := Bodies(payments);
    PartitionCount(pb);
    ListedTotal(payments, Payments.Pending, q);
    ListedTotal(payments, Payments.Paid, q);
    ListedTotal(payments, Payments.Failed, q);
    ListedTotal(payments, Payments.Refunded, q);
    assert ListPayments(payments, None, q).total == |payments| == |pb|;
  }

  lemma StatusNames()
    ensures StatusName(Payments.Pending) == "pending" && StatusName(Payments.Paid) == "paid"
    ensures StatusName(Payments.Failed) == "failed" && StatusName(Payments.Refunded) == "refunded"
  {
  }

  lemma ListedTotal(payments: Collection<Payments.Payment>, st: Payments.Status, q: Paging)
    requires Skip(q) >= 0
    ensures ListPayments(payments, Some(StatusName(st)), q).total == Seqs.Count(Bodies(payments), PaymentFilter(Some(StatusName(st))))
  {
  }

  lemma {:induction false} PartitionCount(s: seq<Payments.Payment>)
    ensures Seqs.Count(s, PaymentFilter(Some(StatusName(Payments.Pending))))
          + Seqs.Count(s, PaymentFilter(Some(StatusName(Payments.Paid))))
          + Seqs.Count(s, PaymentFilter(Some(StatusName(Payments.Failed))))
          + Seqs.Count(s, PaymentFilter(Some(StatusName(Payments.Refunded)))) == |s|
    decreases |s|
  {
    if |s| > 0 {
      PartitionCount(s[1..]);
      FilterByName(s[0], Payments.Pending);
      FilterByName(s[0], Payments.Paid);
      FilterByName(s[0], Payments.Failed);
      FilterByName(s[0], Payments.Refunded);
    }
  }

  /** `GET /api/admin/resources`: the active resources, newest first. */
  function ListResources(resources: Collection<Resources.Resource>): (r: seq<Resources.Resource>)
    ensures forall x :: x in r <==> x in Bodies(resources) && x.isActive
    ensures forall x :: multiset(r)[x] == if x.isActive then multiset(Bodies(resources))[x] else 0
    ensures Sorting.SortedBy(r, Resources.NewestFirst)
  {
    var kept := Seqs.Filter(Bodies(resources), IsActiveResource);
    var sorted := Sorting.SortBy(kept, Resources.NewestFirst);
    forall x ensures x in sorted <==> x in kept {
      Sorting.SortMembers(kept, Resources.NewestFirst, x);
    }
    Seqs.FilterMultiset(Bodies(resources), IsActiveResource);
    sorted
  }

  /** The admin resource list is exactly what a signed-in user sees without a category. */
  lemma AdminSeesSignedInList(resources: Collection<Resources.Resource>)
    ensures ListResources(resources) == Resources.List(resources, true, None)
  {
    Seqs.FilterCongruent(Bodies(resources), IsActiveResource, Resources.ShownBy(true, None));
  }
}
