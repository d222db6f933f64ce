/**
  Two request-level rules of the server: which browser origins the CORS
  layer accepts, and the gate that answers 503 for database-backed API
  routes while MongoDB is not connected. The regular expressions of the
  origin check are written out as string predicates.
 */
module Server {
  import opened Common
  import Strings

  // ---------------------------------------------------------------------------
  // CORS

  /** The fixed entries of the allow-list; `FRONTEND_URL` joins them when set and non-empty. */
  const ListedOrigins: seq<string> := [
    "https://skillset-1.onrender.com",
    "https://skillset-g4oh.onrender.com",
    "http://localhost:3000",
    "http://localhost:5000",
    "http://localhost:5002",
    "http://localhost:5500",
    "http://localhost:8080",
    "http://localhost:5173",
    "http://127.0.0.1:3000",
    "http://127.0.0.1:5000",
    "http://127.0.0.1:5002",
    "http://127.0.0.1:5500",
    "http://127.0.0.1:8080",
    "http://127.0.0.1:5173",
    "null"
  ]

  /** `[FRONTEND_URL, ...].filter(Boolean)` */
  function AllowList(frontendUrl: Option<string>): (r: seq<string>)
    ensures forall o :: o in r <==> o in ListedOrigins || (Filled(frontendUrl) && o == frontendUrl.value)
    ensures "" !in r
  {
    if Filled(frontendUrl) then [frontendUrl.value] + ListedOrigins else ListedOrigins
  }

  predicate StartsWith(s: string, prefix: string) {
    |prefix| <= |s| && s[..|prefix|] == prefix
  }

  predicate EndsWith(s: string, suffix: string) {
    |suffix| <= |s| && s[|s| - |suffix|..] == suffix
  }

  /**
    `/^https:\/\/[^.]+<suffix>$/`: `https://`, then one or more characters
    none of which is a dot, then the suffix, and nothing after it.
   */
  predicate HostedUnder(origin: string, suffix: string) {
    && StartsWith(origin, "https://") && EndsWith(origin, suffix)
    && |origin| > 8 + |suffix|
    && '.' !in origin[8..|origin| - |suffix|]
  }

  predicate AllDigits(s: string) {
    forall k :: 0 <= k < |s| ==> '0' <= s[k] <= '9'
  }

  /** `(:\d+)?$`: nothing, or a colon and one or more digits. */
  predicate OptionalPort(s: string) {
    s == "" || (|s| >= 2 && s[0] == ':' && AllDigits(s[1..]))
  }

  /** `(localhost|127\.0\.0\.1)(:\d+)?$`; both host names are nine characters long. */
  predicate LocalHostPort(s: string) {
    && |s| >= 9
    && (s[..9] == "localhost" || s[..9] == "127.0.0.1")
    && OptionalPort(s[9..])
  }

  /** `/^https?:\/\/(localhost|127\.0\.0\.1)(:\d+)?$/i`, the flag applied by lower-casing first. */
  predicate LocalDevOrigin(origin: string) {
    var o := Strings.Lower(origin);
    || (StartsWith(o, "http://") && LocalHostPort(o[7..]))
    || (StartsWith(o, "https://") && LocalHostPort(o[8..]))
  }

  /**
    The origin callback: no `Origin` header (or an empty one) is allowed,
    then the allow-list, then any single-label Netlify or Render site, and
    outside production any local address with an optional port.
   */
  predicate CorsAllowed(origin: Option<string>, frontendUrl: Option<string>, production: bool) {
    || !Filled(origin)
    || origin.value in AllowList(frontendUrl)
    || HostedUnder(origin.value, ".netlify.app")
    || HostedUnder(origin.value, ".onrender.com")
    || (!production && LocalDevOrigin(origin.value))
  }

  /** Production only ever takes origins away. */
  lemma ProductionOnlyNarrows(origin: Option<string>, frontendUrl: Option<string>)
    ensures CorsAllowed(origin, frontendUrl, true) ==> CorsAllowed(origin, frontendUrl, false)
    ensures CorsAllowed(origin, frontendUrl, false) && !CorsAllowed(origin, frontendUrl, true) ==>
              Filled(origin) && LocalDevOrigin(origin.value)
  {
  }

  /** The listed local addresses stay allowed in production, because the allow-list does not depend on it. */
  lemma ListedAllowedEverywhere(o: string, frontendUrl: Option<string>, production: bool)
    requires o in ListedOrigins
    ensures CorsAllowed(Some(o), frontendUrl, production)
  {
  }

  /** Any Netlify site name without a dot is allowed, whatever the environment. */
  lemma NetlifySitesAllowed(site: string, frontendUrl: Option<string>, production: bool)
    requires site != "" && '.' !in site
    ensures CorsAllowed(Some("https://" + site + ".netlify.app"), frontendUrl, production)
  {
    var o := "https://" + site + ".netlify.app";
    assert o[..8] == "https://";
    assert o[|o| - 12..] == ".netlify.app";
    assert o[8..|o| - 12] == site;
  }

  /** A dotted name under the same suffix does not match the single-label pattern. */
  lemma NestedSubdomainNotHosted(a: string, b: string)
    requires a != "" && b != ""
    ensures !HostedUnder("https://" + a + "." + b + ".netlify.app", ".netlify.app")
  {
    var o := "https://" + a + "." + b + ".netlify.app";
    assert |o| > 8 + 12 + |a|;
    assert o[8..|o| - 12][|a|] == '.';
  }

  /** Lower-casing leaves digits alone. */
  lemma LowerDigits(d: string)
    requires AllDigits(d)
    ensures Strings.Lower(d) == d
  {
    Strings.LowerFixed(d);
  }

  /** The scheme-and-host prefix of a local origin, in either case, lower-cases to the same text. */
  lemma LowerLocalPrefix()
    ensures Strings.Lower("http://localhost:") == "http://localhost:"
    ensures Strings.Lower("HTTP://LOCALHOST:") == "http://localhost:"
  {
    Strings.LowerFixed("http://");
    Strings.LowerFixed("localhost:");
    Strings.LowerAppend("http://", "localhost:");
    assert "http://" + "localhost:" == "http://localhost:";
    var upper := "HTTP://LOCALHOST:";
    assert forall k :: 0 <= k < |upper| ==> Strings.LowerChar(upper[k]) == "http://localhost:"[k];
  }

  /** `http://localhost:` followed by digits, already in lower case, has the shape of the local pattern. */
  lemma LocalShape(d: string)
    requires d != "" && AllDigits(d)
    ensures var o := "http://localhost:" + d;
            StartsWith(o, "http://") && LocalHostPort(o[7..])
  {
    var port := ":" + d;
    assert port[1..] == d;
    var hostPort := "localhost" + port;
    assert hostPort[..9] == "localhost" && hostPort[9..] == port;
    var o := "http://" + hostPort;
    assert o == "http://localhost:" + d;
    assert o[..7] == "http://" && o[7..] == hostPort;
  }

  /** `http://localhost:` followed by digits matches the local pattern in either case. */
  lemma LocalWithPort(d: string)
    requires d != "" && AllDigits(d)
    ensures LocalDevOrigin("http://localhost:" + d)
    ensures LocalDevOrigin("HTTP://LOCALHOST:" + d)
  {
    LowerDigits(d);
    LowerLocalPrefix();
    Strings.LowerAppend("http://localhost:", d);
    Strings.LowerAppend("HTTP://LOCALHOST:", d);
    LocalShape(d);
  }

  /** Outside production every port on `localhost` is allowed, written in any case. */
  lemma LocalPortsAllowedInDevelopment(port: nat, frontendUrl: Option<string>)
    ensures CorsAllowed(Some("http://localhost:" + Strings.Decimal(port)), frontendUrl, false)
    ensures CorsAllowed(Some("HTTP://LOCALHOST:" + Strings.Decimal(port)), frontendUrl, false)
  {
    LocalWithPort(Strings.Decimal(port));
  }

  /** In production a local port missing from the list is refused (unless it is the configured frontend). */
  lemma UnlistedLocalPortRefusedInProduction()
    ensures !CorsAllowed(Some("http://localhost:3001"), None, true)
    ensures CorsAllowed(Some("http://localhost:3001"), None, false)
  {
    var o := "http://localhost:3001";
    assert o == "http://localhost:" + "3001";
    LocalWithPort("3001");
    assert !StartsWith(o, "https://") by {
      assert o[..8] != "https://" by { assert o[4] != "https://"[4]; }
    }
  }

  // ---------------------------------------------------------------------------
  // Database gate

  /** What the `/api` gate does with a request. */
  datatype Gate = Next | Unavailable(status: int, error: string)

  const DbUnavailable := "Database unavailable. Please start MongoDB or check MONGO_URI."

  /**
    The gate in front of every `/api` route: `path` is the part after
    `/api`; the health check and everything starting with `/packages` pass
    always, anything else only while the connection is ready.
   */
  function DbGate(path: string, ready: bool): (r: Gate)
    ensures r.Next? <==> ready || path == "/health" || StartsWith(path, "/packages")
    ensures r.Unavailable? ==> r == Unavailable(503, DbUnavailable)
  {
    if path == "/health" || StartsWith(path, "/packages") then Next
    else if !ready then Unavailable(503, DbUnavailable)
    else Next
  }

  /** The package catalogue is served without a database, under every path that merely begins with `/packages`. */
  lemma PackagesServedWithoutDatabase(rest: string)
    ensures DbGate("/packages" + rest, false) == Next
  {
    assert ("/packages" + rest)[..9] == "/packages";
  }

  /** Course, auth, payment and admin routes answer 503 while the database is down. */
  lemma OtherRoutesNeedDatabase(rest: string)
    ensures DbGate("/courses" + rest, false) == Unavailable(503, DbUnavailable)
    ensures DbGate("/auth" + rest, false) == Unavailable(503, DbUnavailable)
    ensures DbGate("/admin" + rest, false) == Unavailable(503, DbUnavailable)
  {
    assert ("/courses" + rest)[1] == 'c';
    assert ("/auth" + rest)[1] == 'a';
    assert ("/admin" + rest)[1] == 'a';
    if |rest| >= 4 {
      assert ("/auth" + rest)[2] == 'u';
    }
  }
}
