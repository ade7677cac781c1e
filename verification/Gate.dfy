/** The enforcement gate: which requests reach the backend, and with which identity headers. */
module Gate {
  import opened Text
  import opened Timestamp
  import opened SessionStore
  import opened Abac
  import Protocol
  import Logins

  /** Header names to values; net/http keeps the names in canonical form. */
  type Headers = map<string, seq<string>>

  datatype Request = Request(cookie: Option<string>, path: string, sourceIP: string, verb: string, headers: Headers)

  /** Configuration and library: routes, policies, JSON decoding, the evaluator's context, letter case. */
  datatype Config = Config(
    routes: map<string, string>,
    policies: seq<Policy>,
    attributes: string -> map<string, Value>,
    context: (map<string, Value>, Request, Time) -> Context,
    lower: string -> string,
    canonical: string -> string)

  // ---- routes ----

  predicate Matching(routes: map<string, string>, path: string, prefix: string) { prefix in routes && prefix <= path }

  ghost predicate Longest(routes: map<string, string>, path: string, prefix: string) {
    Matching(routes, path, prefix) && forall q :: Matching(routes, path, q) ==> |q| <= |prefix|
  }

  lemma {:induction false} LongestIsOne(routes: map<string, string>, path: string, p: string, q: string)
    requires Longest(routes, path, p) && Longest(routes, path, q)
    ensures p == q
  {
    assert p == path[..|p|] && q == path[..|q|];
  }

  ghost predicate RouteIs(routes: map<string, string>, path: string, r: Option<string>) {
    && (r.None? ==> forall q :: !Matching(routes, path, q))
    && (r.Some? ==> exists p :: Longest(routes, path, p) && routes[p] == r.value)
  }

  ghost function Route(routes: map<string, string>, path: string): Option<string> {
    if exists p :: Longest(routes, path, p) then
      var p :| Longest(routes, path, p);
      Some(routes[p])
    else None
  }

  /** There is one longest prefix at most, so the order in which the routes are walked does not matter. */
  lemma {:induction false} RouteChosen(routes: map<string, string>, path: string, r: Option<string>)
    requires RouteIs(routes, path, r)
    ensures r == Route(routes, path)
  {
    if r.Some? {
      var p :| Longest(routes, path, p) && routes[p] == r.value;
      forall q | Longest(routes, path, q) ensures q == p { LongestIsOne(routes, path, p, q); }
    }
  }

  /** Walks the routes in any order. */
  method MapRoute(routes: map<string, string>, path: string) returns (r: Option<string>)
    ensures RouteIs(routes, path, r)
  {
    var best, bestLen := "", -1;
    var todo := routes.Keys;
    ghost var bestPrefix := "";
    while todo != {}
      invariant todo <= routes.Keys
      invariant forall q :: Matching(routes, path, q) && q !in todo ==> |q| <= bestLen
      invariant bestLen >= 0 ==>
                Matching(routes, path, bestPrefix) && |bestPrefix| == bestLen && routes[bestPrefix] == best
      invariant bestLen >= -1
      decreases todo
    {
      var prefix :| prefix in todo;
      todo := todo - {prefix};
      if prefix <= path && |prefix| > bestLen {
        best, bestLen := routes[prefix], |prefix|;
        bestPrefix := prefix;
      }
    }
    if bestLen < 0 {
      return None;
    }
    assert Longest(routes, path, bestPrefix);
    return Some(best);
  }

  // ---- headers ----

  const RESERVED := "x-b2bfp-"

  predicate Reserved(c: Config, name: string) { RESERVED <= c.lower(name) }

  ghost predicate CanonicalNames(c: Config, h: Headers) { forall k :: k in h ==> c.canonical(k) == k }

  function Stripped(c: Config, h: Headers): Headers { map k | k in h && !Reserved(c, k) :: h[k] }

  /** Deletes while walking, in any order. */
  method StripReserved(c: Config, h: Headers) returns (r: Headers)
    requires CanonicalNames(c, h)
    ensures r == Stripped(c, h)
  {
    r := h;
    var todo := h.Keys;
    while todo != {}
      invariant todo <= h.Keys && todo <= r.Keys
      invariant forall k :: k in r <==> k in h && (k in todo || !Reserved(c, k))
      invariant forall k :: k in r ==> r[k] == h[k]
      decreases todo
    {
      var k :| k in todo;
      todo := todo - {k};
      if RESERVED <= c.lower(k) {
        r := r - {c.canonical(k)};
      }
    }
  }

  const TENANT := "X-B2bfp-Tenant-Id"
  const USER := "X-B2bfp-User-Id"
  const SUBJECT := "X-B2bfp-Subject"
  const METHOD := "X-B2bfp-Auth-Method"
  const DEPARTMENT := "X-B2bfp-Department"

  function Identity(c: Config, s: SessionRow): Headers {
    var h: Headers := map[TENANT := [s.tenant], USER := [s.user], SUBJECT := [s.subject], METHOD := [s.authMethod]];
    var attrs := c.attributes(s.attributes);
    if "Department" in attrs && attrs["Department"].VStr? then h[DEPARTMENT := [attrs["Department"].s]] else h
  }

  method SetIdentity(c: Config, headers: Headers, s: SessionRow) returns (h: Headers)
    ensures h == headers + Identity(c, s)
  {
    h := headers[TENANT := [s.tenant]];
    h := h[USER := [s.user]];
    h := h[SUBJECT := [s.subject]];
    h := h[METHOD := [s.authMethod]];
    var attrs := c.attributes(s.attributes);
    if "Department" in attrs && attrs["Department"].VStr? {
      h := h[DEPARTMENT := [attrs["Department"].s]];
    }
  }

  // ---- the gate ----

  datatype Verdict = Forward(headers: Headers) | Unauthenticated | NoRoute | Denied

  ghost predicate Granted(c: Config, s: SessionRow, r: Request, now: Time, resource: string) {
    Grants(c.policies, resource, c.context(c.attributes(s.attributes), r, now))
  }

  /** Looks up the session, maps the path, evaluates the policies, replaces the identity headers. */
  method Enforce(store: Store, c: Config, r: Request, now: Time) returns (v: Verdict)
    requires CanonicalNames(c, r.headers) && Accepted(c.policies)
    modifies store
    ensures v == Judged(c, old(store.db.sessions), r, now)
    ensures store.db.used == old(store.db.used) && store.db.saml == old(store.db.saml)
            && store.db.oidc == old(store.db.oidc)
    ensures r.cookie.Some? ==> store.db.sessions == AfterFetch(old(store.db.sessions), r.cookie.value, now)
  {
    if r.cookie.None? { return Unauthenticated; }
    var s := store.GetSession(r.cookie.value, now);
    if s.None? { return Unauthenticated; }
    var resource := MapRoute(c.routes, r.path);
    RouteChosen(c.routes, r.path, resource);
    if resource.None? { return NoRoute; }
    var d := Evaluate(c.policies, resource.value, c.context(c.attributes(s.value.attributes), r, now));
    if !d.allow { return Denied; }
    var h := StripReserved(c, r.headers);
    h := SetIdentity(c, h, s.value);
    return Forward(h);
  }

  ghost function Judged(c: Config, sessions: map<string, SessionRow>, r: Request, now: Time): Verdict {
    if r.cookie.None? || Fetched(sessions, r.cookie.value, now).None? then Unauthenticated
    else
      var s := Fetched(sessions, r.cookie.value, now).value;
      var resource := Route(c.routes, r.path);
      if resource.None? then NoRoute
      else if !Granted(c, s, r, now, resource.value) then Denied
      else Forward(Stripped(c, r.headers) + Identity(c, s))
  }

  /** The letter case functions know the gate's own header names. */
  ghost predicate KnowsNames(c: Config) {
    Reserved(c, TENANT) && Reserved(c, USER) && Reserved(c, SUBJECT) && Reserved(c, METHOD) && Reserved(c, DEPARTMENT)
  }

  /** The headers forwarded for a session: its tenant, user, subject, method and, if it is text, department; no
      other reserved header, and all headers of the request that are not reserved. */
  ghost predicate CarriesIdentity(c: Config, given: Headers, out: Headers, s: SessionRow) {
    var department := c.attributes(s.attributes);
    && "X-B2bfp-Tenant-Id" in out && out["X-B2bfp-Tenant-Id"] == [s.tenant]
    && "X-B2bfp-User-Id" in out && out["X-B2bfp-User-Id"] == [s.user]
    && "X-B2bfp-Subject" in out && out["X-B2bfp-Subject"] == [s.subject]
    && "X-B2bfp-Auth-Method" in out && out["X-B2bfp-Auth-Method"] == [s.authMethod]
    && ("X-B2bfp-Department" in out <==> "Department" in department && department["Department"].VStr?)
    && ("X-B2bfp-Department" in out ==> out["X-B2bfp-Department"] == [department["Department"].s])
    && (forall k :: k in out && "x-b2bfp-" <= c.lower(k) ==>
        k in {"X-B2bfp-Tenant-Id", "X-B2bfp-User-Id", "X-B2bfp-Subject", "X-B2bfp-Auth-Method", "X-B2bfp-Department"})
    && (forall k :: !("x-b2bfp-" <= c.lower(k)) ==> (k in out <==> k in given) && (k in given ==> out[k] == given[k]))
  }

  lemma {:induction false} NamesApart()
    ensures TENANT != USER && TENANT != SUBJECT && TENANT != METHOD && TENANT != DEPARTMENT
    ensures USER != SUBJECT && USER != METHOD && USER != DEPARTMENT
    ensures SUBJECT != METHOD && SUBJECT != DEPARTMENT && METHOD != DEPARTMENT
  {
    assert |TENANT| == 17 && |USER| == 15 && |SUBJECT| == 15 && |METHOD| == 19 && |DEPARTMENT| == 18;
    assert USER[8] == 'U' && SUBJECT[8] == 'S';
  }

  lemma {:induction false} ReservedExactly(c: Config, h: Headers, s: SessionRow)
    requires KnowsNames(c)
    ensures CarriesIdentity(c, h, Stripped(c, h) + Identity(c, s), s)
  {
    NamesApart();
    var id := Identity(c, s);
    assert forall k :: k in id ==> Reserved(c, k);
    assert forall k :: k in id ==> k in {TENANT, USER, SUBJECT, METHOD, DEPARTMENT};
  }

  lemma {:induction false} OneIdentity(c: Config, given: Headers, out: Headers, out': Headers, s: SessionRow)
    requires CarriesIdentity(c, given, out, s) && CarriesIdentity(c, given, out', s)
    ensures out == out'
  {
    forall k ensures k in out <==> k in out'
             ensures k in out ==> out[k] == out'[k]
    {
      if "x-b2bfp-" <= c.lower(k) && (k in out || k in out') {
        assert k in {"X-B2bfp-Tenant-Id", "X-B2bfp-User-Id", "X-B2bfp-Subject", "X-B2bfp-Auth-Method",
                     "X-B2bfp-Department"};
      }
    }
  }

  /** Session `m` and route `prefix` explain why request `r` was let through with headers `out`. */
  ghost predicate Explains(c: Config, now: Time, r: Request, out: Headers, m: Protocol.Made, prefix: string) {
    && r.cookie == Some(m.id) && now <= m.row.expires == m.row.created + 8 * HOUR
    && Longest(c.routes, r.path, prefix) && Granted(c, m.row, r, now, c.routes[prefix])
    && CarriesIdentity(c, r.headers, out, m.row)
  }

  lemma {:induction false} RouteHasPrefix(routes: map<string, string>, path: string) returns (prefix: string)
    requires Route(routes, path).Some?
    ensures Longest(routes, path, prefix) && routes[prefix] == Route(routes, path).value
  {
    prefix :| Longest(routes, path, prefix) && routes[prefix] == Route(routes, path).value;
  }

  lemma {:induction false} ForwardExplained(c: Config, sessions: map<string, SessionRow>, r: Request, now: Time,
                                            m: Protocol.Made) returns (prefix: string)
    requires KnowsNames(c) && Judged(c, sessions, r, now).Forward?
    requires r.cookie == Some(m.id) && Fetched(sessions, m.id, now) == Some(m.row)
             && m.row.expires == m.row.created + 8 * HOUR
    ensures Explains(c, now, r, Judged(c, sessions, r, now).headers, m, prefix)
  {
    prefix := RouteHasPrefix(c.routes, r.path);
    ReservedExactly(c, r.headers, m.row);
  }

  lemma {:induction false} ExplainedForward(c: Config, sessions: map<string, SessionRow>, r: Request, now: Time,
                                            out: Headers, m: Protocol.Made, prefix: string)
    requires KnowsNames(c) && Explains(c, now, r, out, m, prefix) && Fetched(sessions, m.id, now) == Some(m.row)
    ensures Judged(c, sessions, r, now) == Forward(out)
  {
    RouteChosen(c.routes, r.path, Some(c.routes[prefix]));
    ReservedExactly(c, r.headers, m.row);
    OneIdentity(c, r.headers, out, Stripped(c, r.headers) + Identity(c, m.row), m.row);
  }

  /** In every run of logins a request is forwarded with certain headers exactly when it carries the cookie of a
      session that a completed login made and that has not expired, the policies grant that session the resource of
      the longest matching route, and the headers are the request's own with the reserved ones replaced by those of
      the session. */
  lemma {:induction false} ForwardedMeans(c: Config, init: Protocol.State, actions: seq<Protocol.Action>,
                                          s: Protocol.State, r: Request, out: Headers)
    requires Protocol.Initial(init) && s == Protocol.Run(init, actions) && KnowsNames(c)
    ensures Judged(c, s.db.sessions, r, s.clock) == Forward(out) <==>
            exists m, prefix :: m in s.made && Explains(c, s.clock, r, out, m, prefix)
  {
    if Judged(c, s.db.sessions, r, s.clock) == Forward(out) {
      var row := Fetched(s.db.sessions, r.cookie.value, s.clock).value;
      Logins.SessionsExactly(init, actions, r.cookie.value, row);
      var i :| 0 <= i < |s.made| && s.made[i].id == r.cookie.value && s.made[i].row == row;
      Protocol.RunFits(init, actions);
      assert Protocol.MadeFits(s.made[i]);
      var prefix := ForwardExplained(c, s.db.sessions, r, s.clock, s.made[i]);
      assert s.made[i] in s.made;
    }
    forall m, prefix | m in s.made && Explains(c, s.clock, r, out, m, prefix)
      ensures Judged(c, s.db.sessions, r, s.clock) == Forward(out)
    {
      Logins.SessionsExactly(init, actions, m.id, m.row);
      ExplainedForward(c, s.db.sessions, r, s.clock, out, m, prefix);
    }
  }

  /** The session a request comes with was made by a completed login and has not expired. */
  ghost predicate LoggedIn(s: Protocol.State, r: Request, row: SessionRow) {
    && s.clock <= row.expires
    && exists i :: 0 <= i < |s.made| && r.cookie == Some(s.made[i].id) && s.made[i].row == row
  }

  ghost function SessionOf(sessions: map<string, SessionRow>, r: Request, now: Time): Option<SessionRow> {
    if r.cookie.None? then None else Fetched(sessions, r.cookie.value, now)
  }

  lemma {:induction false} LoggedInExactly(init: Protocol.State, actions: seq<Protocol.Action>, s: Protocol.State,
                                           r: Request, row: SessionRow)
    requires Protocol.Initial(init) && s == Protocol.Run(init, actions)
    ensures LoggedIn(s, r, row) <==> SessionOf(s.db.sessions, r, s.clock) == Some(row)
  {
    if r.cookie.Some? { Logins.SessionsExactly(init, actions, r.cookie.value, row); }
  }

  lemma {:induction false} LongerToLongest(routes: map<string, string>, path: string, q: string)
    returns (p: string)
    requires Matching(routes, path, q)
    ensures Longest(routes, path, p)
    decreases |path| - |q|
  {
    p := q;
    if longer :| Matching(routes, path, longer) && |longer| > |q| { p := LongerToLongest(routes, path, longer); }
  }

  lemma {:induction false} RoutedExactly(routes: map<string, string>, path: string, prefix: string)
    ensures Route(routes, path).None? <==> forall q :: !Matching(routes, path, q)
    ensures Longest(routes, path, prefix) ==> Route(routes, path) == Some(routes[prefix])
  {
    if Longest(routes, path, prefix) { RouteChosen(routes, path, Some(routes[prefix])); }
    if Route(routes, path).Some? { var p := RouteHasPrefix(routes, path); }
    if q :| Matching(routes, path, q) { var p := LongerToLongest(routes, path, q); }
  }

  ghost predicate DeniedTo(c: Config, row: SessionRow, r: Request, now: Time, prefix: string) {
    Longest(c.routes, r.path, prefix) && !Granted(c, row, r, now, c.routes[prefix])
  }

  lemma {:induction false} JudgedBy(c: Config, sessions: map<string, SessionRow>, r: Request, now: Time)
    ensures
      var v, row, resource := Judged(c, sessions, r, now), SessionOf(sessions, r, now), Route(c.routes, r.path);
      && (v == Unauthenticated <==> row.None?)
      && (v == NoRoute <==> row.Some? && resource.None?)
      && (v == Denied <==> row.Some? && resource.Some? && !Granted(c, row.value, r, now, resource.value))
  {
  }

  lemma {:induction false} DeniedExactly(c: Config, row: SessionRow, r: Request, now: Time)
    ensures (exists prefix :: DeniedTo(c, row, r, now, prefix)) <==>
            Route(c.routes, r.path).Some? && !Granted(c, row, r, now, Route(c.routes, r.path).value)
  {
    forall prefix | Longest(c.routes, r.path, prefix) ensures Route(c.routes, r.path) == Some(c.routes[prefix]) {
      RoutedExactly(c.routes, r.path, prefix);
    }
    if Route(c.routes, r.path).Some? {
      var p := RouteHasPrefix(c.routes, r.path);
      assert DeniedTo(c, row, r, now, p) <==> !Granted(c, row, r, now, Route(c.routes, r.path).value);
    }
  }

  /** And why a request is refused: it comes without a session, its path has no route, or its session is not granted
      the resource of the longest matching one. */
  lemma {:induction false} RefusedMeans(c: Config, init: Protocol.State, actions: seq<Protocol.Action>,
                                        s: Protocol.State, r: Request)
    requires Protocol.Initial(init) && s == Protocol.Run(init, actions)
    ensures
      var v := Judged(c, s.db.sessions, r, s.clock);
      && (v == Unauthenticated <==> forall row :: !LoggedIn(s, r, row))
      && (v == NoRoute <==> (exists row :: LoggedIn(s, r, row)) && forall q :: !Matching(c.routes, r.path, q))
      && (v == Denied <==> exists row, prefix :: LoggedIn(s, r, row) && DeniedTo(c, row, r, s.clock, prefix))
  {
    JudgedBy(c, s.db.sessions, r, s.clock);
    RoutedExactly(c.routes, r.path, "");
    forall row ensures LoggedIn(s, r, row) <==> SessionOf(s.db.sessions, r, s.clock) == Some(row) {
      LoggedInExactly(init, actions, s, r, row);
    }
    forall row ensures (exists prefix :: DeniedTo(c, row, r, s.clock, prefix)) <==>
                       Route(c.routes, r.path).Some?
                       && !Granted(c, row, r, s.clock, Route(c.routes, r.path).value)
    {
      DeniedExactly(c, row, r, s.clock);
    }
  }
}
