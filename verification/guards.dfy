/**
  The request guards. `protect` takes the token from the second
  space-separated field of a `Bearer` header, verifies it and loads an
  active user; `adminOnly` lets admins through; `optionalAuth` never
  blocks. `authMiddleware`, the older helper, slices the header after
  `Bearer ` instead and accepts the verified payload without loading a
  user. JSON Web Token verification is a parameter: it either decodes a
  user id or fails, as expired or otherwise.
 */
module Guards {
  import opened Common
  import Strings
  import opened Docs
  import opened Users

  /** The outcome of `jwt.verify`. */
  datatype Verdict = Expired | Invalid | Decoded(id: Id)

  /** A guard either hands the request on with `req.user` set or answers it. */
  datatype Guard = Admit(user: Doc<User>) | Deny(status: int, error: string)

  const NoToken := "No token provided. Please log in."
  const SessionExpired := "Session expired. Please log in again."
  const InvalidToken := "Invalid token."
  const UserUnavailable := "User not found or account deactivated."
  const AdminsOnly := "Access denied. Admins only."

  // ---------------------------------------------------------------------------
  // Token extraction

  /** `header.startsWith('Bearer ')` */
  predicate Bearer(header: string) {
    |header| >= 7 && header[..7] == "Bearer "
  }

  /** `header.split(' ')[1]` for a `Bearer` header: what follows the prefix, up to the next space. */
  function SplitToken(header: string): (t: string)
    requires Bearer(header)
    ensures ' ' !in t
    ensures |t| <= |header| - 7 && header[7..7 + |t|] == t
    ensures 7 + |t| < |header| ==> header[7 + |t|] == ' '
  {
    var rest := header[7..];
    assert header == "Bearer" + [' '] + rest;
    Strings.SecondFieldOf("Bearer", rest, ' ');
    Strings.SplitFirst(rest, ' ');
    Strings.SecondField(header, ' ').value
  }

  /** `(header || '').startsWith('Bearer ') ? header.slice(7) : null` */
  function SliceToken(header: Option<string>): (t: Option<string>)
    ensures t.Some? <==> header.Some? && Bearer(header.value)
    ensures t.Some? ==> header.value == "Bearer " + t.value
  {
    if header.Some? && Bearer(header.value) then
      assert header.value == header.value[..7] + header.value[7..];
      Some(header.value[7..])
    else None
  }

  /** The two extractors agree exactly when the part after `Bearer ` holds no space. */
  lemma ExtractorsAgree(rest: string)
    ensures Bearer("Bearer " + rest)
    ensures SliceToken(Some("Bearer " + rest)) == Some(rest)
    ensures SplitToken("Bearer " + rest) == rest <==> ' ' !in rest
  {
    var h := "Bearer " + rest;
    assert h[..7] == "Bearer " && h[7..] == rest;
    var t := SplitToken(h);
    if ' ' !in rest {
      assert |t| <= |rest| && rest[..|t|] == t;
      assert rest[..|rest|] == rest;
    }
  }

  /** With a space after the token, `split` drops the tail that `slice` keeps. */
  lemma ExtractorsDiffer(token: string, tail: string)
    requires ' ' !in token
    ensures SplitToken("Bearer " + token + " " + tail) == token
    ensures SliceToken(Some("Bearer " + token + " " + tail)) == Some(token + " " + tail)
  {
    var h := "Bearer " + token + " " + tail;
    assert h[..7] == "Bearer ";
    assert h[7..] == token + " " + tail;
    var t := SplitToken(h);
    assert h[7..7 + |token|] == token && h[7 + |token|] == ' ';
  }

  // ---------------------------------------------------------------------------
  // protect, adminOnly, optionalAuth

  /**
    `protect`: a header that is missing or not `Bearer ` is refused first;
    then the token is verified and the user it names must exist and be
    active. Every refusal is 401; an expired token has its own message.
   */
  function Protect(header: Option<string>, verify: string -> Verdict, users: Collection<User>): (r: Guard)
    ensures r.Deny? ==> r.status == 401
    ensures !(Filled(header) && Bearer(header.value)) ==> r == Deny(401, NoToken)
    ensures r.Admit? <==>
              && Filled(header) && Bearer(header.value)
              && verify(SplitToken(header.value)).Decoded?
              && var id := verify(SplitToken(header.value)).id;
                 Get(users, id).Some? && Get(users, id).value.isActive
    ensures r.Admit? ==> r.user == Doc(verify(SplitToken(header.value)).id, r.user.body)
                         && Get(users, r.user.id) == Some(r.user.body) && r.user.body.isActive
    ensures Filled(header) && Bearer(header.value) && verify(SplitToken(header.value)) == Expired ==>
              r == Deny(401, SessionExpired)
    ensures Filled(header) && Bearer(header.value) && verify(SplitToken(header.value)) == Invalid ==>
              r == Deny(401, InvalidToken)
  {
    if !Filled(header) || !Bearer(header.value) then Deny(401, NoToken)
    else
      match verify(SplitToken(header.value))
      case Expired => Deny(401, SessionExpired)
      case Invalid => Deny(401, InvalidToken)
      case Decoded(id) =>
        match Get(users, id)
        case None => Deny(401, UserUnavailable)
        case Some(u) => if !u.isActive then Deny(401, UserUnavailable) else Admit(Doc(id, u))
  }

  /** `adminOnly`: `req.user?.role === 'admin'` or 403. */
  function AdminOnly(user: Option<Doc<User>>): (r: Guard)
    ensures r.Admit? <==> user.Some? && user.value.body.role == AdminRole
    ensures r.Admit? ==> r.user == user.value
    ensures r.Deny? ==> r == Deny(403, AdminsOnly)
  {
    if user.Some? && user.value.body.role == AdminRole then Admit(user.value) else Deny(403, AdminsOnly)
  }

  /** `protect` followed by `adminOnly`, as every admin route is mounted. */
  function ProtectAdmin(header: Option<string>, verify: string -> Verdict, users: Collection<User>): (r: Guard)
    ensures r.Admit? <==> Protect(header, verify, users).Admit? && Protect(header, verify, users).user.body.role == AdminRole
    ensures r.Deny? && Protect(header, verify, users).Admit? ==> r == Deny(403, AdminsOnly)
    ensures r.Deny? && !Protect(header, verify, users).Admit? ==> r == Protect(header, verify, users)
  {
    match Protect(header, verify, users)
    case Deny(status, error) => Deny(status, error)
    case Admit(u) => AdminOnly(Some(u))
  }

  /** Only an active admin stored under the token's id gets through the admin guards. */
  lemma AdminGuardAdmitsActiveAdmins(header: Option<string>, verify: string -> Verdict, users: Collection<User>)
    ensures var r := ProtectAdmin(header, verify, users);
            r.Admit? ==> && Get(users, r.user.id) == Some(r.user.body)
                         && r.user.body.isActive && r.user.body.role == AdminRole
  {
  }

  /**
    `optionalAuth`: never refuses. `req.user` is whatever `findById` returns
    for a verified `Bearer` token (possibly nothing), and unset otherwise.
   */
  function OptionalAuth(header: Option<string>, verify: string -> Verdict, users: Collection<User>): (r: Option<Doc<User>>)
    ensures r.Some? <==> && Filled(header) && Bearer(header.value)
                         && verify(SplitToken(header.value)).Decoded?
                         && Get(users, verify(SplitToken(header.value)).id).Some?
    ensures r.Some? ==> Get(users, r.value.id) == Some(r.value.body)
  {
    if !Filled(header) || !Bearer(header.value) then None
    else
      match verify(SplitToken(header.value))
      case Decoded(id) =>
        (match Get(users, id)
         case None => None
         case Some(u) => Some(Doc(id, u)))
      case _ => None
  }

  /** `optionalAuth` does not check `isActive`: a deactivated user whom `protect` refuses is still set. */
  lemma OptionalAuthAdmitsInactive(header: Option<string>, verify: string -> Verdict, users: Collection<User>)
    requires Filled(header) && Bearer(header.value) && verify(SplitToken(header.value)).Decoded?
    requires var id := verify(SplitToken(header.value)).id;
             Get(users, id).Some? && !Get(users, id).value.isActive
    ensures OptionalAuth(header, verify, users).Some?
    ensures Protect(header, verify, users) == Deny(401, UserUnavailable)
  {
  }

  /** Whenever `protect` admits, `optionalAuth` sets the same user. */
  lemma ProtectImpliesOptional(header: Option<string>, verify: string -> Verdict, users: Collection<User>)
    ensures Protect(header, verify, users).Admit? ==>
              OptionalAuth(header, verify, users) == Some(Protect(header, verify, users).user)
  {
  }

  // ---------------------------------------------------------------------------
  // authMiddleware (utils/auth.js)

  /** What `authMiddleware` decides: the decoded payload (a user id here) or a 401 message. */
  datatype Check = Authorized(id: Id) | Unauthorized(error: string)

  /**
    `authMiddleware`: a missing header counts as empty; no `Bearer ` prefix
    or an empty token is "No token provided"; a failed verification,
    expired or not, is one message. No user is loaded.
   */
  function AuthMiddleware(header: Option<string>, verify: string -> Verdict): (r: Check)
    ensures SliceToken(header).None? || SliceToken(header) == Some("") ==> r == Unauthorized("No token provided")
    ensures r.Authorized? <==> && SliceToken(header).Some? && SliceToken(header).value != ""
                               && verify(SliceToken(header).value).Decoded?
    ensures r.Authorized? ==> r.id == verify(SliceToken(header).value).id
    ensures r.Unauthorized? ==> r.error in {"No token provided", "Invalid or expired token"}
  {
    var token := SliceToken(header);
    if token.None? || token.value == "" then Unauthorized("No token provided")
    else
      match verify(token.value)
      case Decoded(id) => Authorized(id)
      case _ => Unauthorized("Invalid or expired token")
  }

  /**
    The header `Bearer ` with nothing after it: `authMiddleware` reports no
    token, while `protect` passes its prefix check and verifies the empty token.
   */
  lemma BareBearer(verify: string -> Verdict, users: Collection<User>)
    ensures AuthMiddleware(Some("Bearer "), verify) == Unauthorized("No token provided")
    ensures SplitToken("Bearer ") == ""
    ensures Protect(Some("Bearer "), verify, users) != Deny(401, NoToken)
  {
    ExtractorsAgree("");
  }

  /** For a header whose token holds no space, both guards verify the same token and agree on it being valid. */
  lemma GuardsAgreeOnPlainTokens(token: string, verify: string -> Verdict, users: Collection<User>)
    requires token != "" && ' ' !in token
    ensures var h := Some("Bearer " + token);
            AuthMiddleware(h, verify).Authorized? <==> verify(token).Decoded?
    ensures var h := Some("Bearer " + token);
            Protect(h, verify, users).Admit? ==> AuthMiddleware(h, verify) == Authorized(Protect(h, verify, users).user.id)
  {
    ExtractorsAgree(token);
  }
}
