/** Every run of login, callback and ACS handlers, interleaved statement by statement. */
module Protocol {
  import opened Text
  import opened Timestamp
  import opened SessionStore

  // ---- handlers ----

  /** What ParseAndVerifyResponse returned, and when. */
  datatype Claims = Claims(id: string, inResponseTo: string, notOnOrAfter: Time, subject: string, verified: Time)

  const SKEW: nat := 2 * MINUTE

  datatype Kind = Saml | Oidc

  /** A consumed login request. */
  datatype Ticket = Ticket(kind: Kind, key: string, tenant: string, nonce: string, taken: Time)

  /** How far a handler has come. Each step up to the next phase is one statement; a Take is one step. */
  datatype Handler =
    | Verified(tenant: string, claims: Claims)
    | Timed(tenant: string, claims: Claims, now: Time)
    | Purged(tenant: string, claims: Claims)
    | Marked(tenant: string, claims: Claims)
    | Answered(tenant: string, subject: string, ticket: Option<Ticket>)
    | Arrived(tenant: string, state: string)
    | Consumed(tenant: string, ticket: Option<Ticket>)
    | Checked(tenant: string, subject: string, ticket: Option<Ticket>, tokenNonce: string)
    | Over

  /** The request a handler has consumed and not yet turned into a session. */
  function TicketOf(h: Handler): Option<Ticket> {
    if h.Answered? || h.Consumed? || h.Checked? then h.ticket else None
  }

  // ---- history ----

  /** A handler passed the replay check. */
  datatype Pass = Pass(key: (string, string), recorded: Time, verified: Time, at: Time)

  datatype Issue = Issue(tenant: string, nonce: string, at: Time)

  /** A session was created. IdP-initiated logins have no ticket. */
  datatype Made = Made(id: string, row: SessionRow, ticket: Option<Ticket>, tokenNonce: string)

  datatype State = State(
    clock: Time,
    db: Tables,
    handlers: map<nat, Handler>,
    passes: seq<Pass>,
    issued: map<(Kind, string), Issue>,
    made: seq<Made>)

  // ---- steps ----

  datatype Action =
    | Tick(ns: nat)
    | LoginSaml(tenant: string, id: string, relayState: string)
    | LoginOidc(tenant: string, id: string, nonce: string, verifier: string, relayState: string)
    | StartAcs(h: nat, tenant: string, claims: Claims)
    | ReadClock(h: nat)
    | Purge(h: nat)
    | Mark(h: nat)
    | TakeSaml(h: nat)
    | StartCallback(h: nat, tenant: string, state: string)
    | TakeOidc(h: nat)
    | CheckToken(h: nat, tokenNonce: string, subject: string)
    | Finish(h: nat, session: string, user: string, attributes: string)
    | Fetch(session: string)

  function At(s: State, h: nat): Handler { if h in s.handlers then s.handlers[h] else Over }

  function Move(s: State, h: nat, next: Handler): State { s.(handlers := s.handlers[h := next]) }

  /** Login handlers draw a fresh identifier and record it for ten minutes. */
  function DoLoginSaml(s: State, tenant: string, id: string, relayState: string): State {
    if id == "" || (Saml, id) in s.issued || id in s.db.saml then s
    else s.(db := s.db.(saml := AfterPutSaml(s.db.saml, id, SamlRow(tenant, relayState, s.clock + REQUEST_TTL))),
            issued := s.issued[(Saml, id) := Issue(tenant, "", s.clock)])
  }

  function DoLoginOidc(s: State, tenant: string, id: string, nonce: string, verifier: string,
                       relayState: string): State {
    if id == "" || nonce == "" || (Oidc, id) in s.issued || id in s.db.oidc then s
    else
      var row := OidcRow(tenant, nonce, verifier, relayState, s.clock + REQUEST_TTL);
      s.(db := s.db.(oidc := AfterPutOidc(s.db.oidc, id, row)),
         issued := s.issued[(Oidc, id) := Issue(tenant, nonce, s.clock)])
  }

  function DoPurge(s: State, h: nat, x: Handler): State
    requires x.Timed?
  {
    Move(s.(db := s.db.(used := PurgeUsed(s.db.used, x.now))), h, Purged(x.tenant, x.claims))
  }

  function DoMark(s: State, h: nat, x: Handler): State
    requires x.Purged?
  {
    var key := (x.tenant, x.claims.id);
    var used := InsertUsed(s.db.used, key, x.claims.notOnOrAfter);
    if used.None? then Move(s, h, Over)
    else Move(s.(db := s.db.(used := used.value),
                 passes := s.passes + [Pass(key, x.claims.notOnOrAfter, x.claims.verified, s.clock)]),
              h, Marked(x.tenant, x.claims))
  }

  /** An answer to a request needs the request to be pending; an unsolicited one goes on without. */
  function DoTakeSaml(s: State, h: nat, x: Handler): State
    requires x.Marked?
  {
    var id := x.claims.inResponseTo;
    var live := LiveSaml(s.db.saml, id, x.tenant, s.clock);
    var s' := s.(db := s.db.(saml := AfterTakeSaml(s.db.saml, id, x.tenant)));
    var ticket := if live.Some? then Some(Ticket(Saml, id, x.tenant, "", s.clock)) else None;
    if id != "" && live.None? then Move(s', h, Over) else Move(s', h, Answered(x.tenant, x.claims.subject, ticket))
  }

  function DoTakeOidc(s: State, h: nat, x: Handler): State
    requires x.Arrived?
  {
    var live := LiveOidc(s.db.oidc, x.state, s.clock);
    var s' := s.(db := s.db.(oidc := AfterTakeOidc(s.db.oidc, x.state)));
    if live.None? || live.value.tenant != x.tenant then Move(s', h, Over)
    else Move(s', h, Consumed(x.tenant, Some(Ticket(Oidc, x.state, x.tenant, live.value.nonce, s.clock))))
  }

  /** VerifyIDToken compares the nonce when one was sent. */
  function DoCheckToken(s: State, h: nat, x: Handler, tokenNonce: string, subject: string): State
    requires x.Consumed?
  {
    if x.ticket.None? || subject == "" || (x.ticket.value.nonce != "" && tokenNonce != x.ticket.value.nonce)
    then Move(s, h, Over)
    else Move(s, h, Checked(x.tenant, subject, x.ticket, tokenNonce))
  }

  function DoFinish(s: State, h: nat, x: Handler, session: string, user: string, attributes: string): State
    requires x.Answered? || x.Checked?
  {
    if session in s.db.sessions then Move(s, h, Over)
    else
      var protocol := if x.Checked? then "oidc" else "saml";
      var row := SessionRow(x.tenant, user, x.subject, attributes, protocol, s.clock, s.clock + SESSION_TTL);
      Move(s.(db := s.db.(sessions := AfterCreate(s.db.sessions, session, row)),
              made := s.made + [Made(session, row, x.ticket, if x.Checked? then x.tokenNonce else "")]), h, Over)
  }

  /** An assertion is accepted up to the skew after its expiry, and needs an ID. */
  predicate Accepts(s: State, c: Claims) { c.id != "" && c.verified == s.clock <= c.notOnOrAfter + SKEW }

  /** An action that does not fit the state does nothing. */
  function Do(s: State, a: Action): State {
    match a
    case Tick(ns) => s.(clock := s.clock + ns)
    case LoginSaml(t, id, r) => DoLoginSaml(s, t, id, r)
    case LoginOidc(t, id, n, v, r) => DoLoginOidc(s, t, id, n, v, r)
    case StartAcs(h, t, c) => if h in s.handlers || !Accepts(s, c) then s else Move(s, h, Verified(t, c))
    case ReadClock(h) => var x := At(s, h); if x.Verified? then Move(s, h, Timed(x.tenant, x.claims, s.clock)) else s
    case Purge(h) => var x := At(s, h); if x.Timed? then DoPurge(s, h, x) else s
    case Mark(h) => var x := At(s, h); if x.Purged? then DoMark(s, h, x) else s
    case TakeSaml(h) => var x := At(s, h); if x.Marked? then DoTakeSaml(s, h, x) else s
    case StartCallback(h, t, st) => if h in s.handlers || st == "" then s else Move(s, h, Arrived(t, st))
    case TakeOidc(h) => var x := At(s, h); if x.Arrived? then DoTakeOidc(s, h, x) else s
    case CheckToken(h, n, sub) => var x := At(s, h); if x.Consumed? then DoCheckToken(s, h, x, n, sub) else s
    case Finish(h, id, u, att) =>
      var x := At(s, h);
      if x.Answered? || x.Checked? then DoFinish(s, h, x, id, u, att) else s
    case Fetch(id) => s.(db := s.db.(sessions := AfterFetch(s.db.sessions, id, s.clock)))
  }

  function Run(s: State, actions: seq<Action>): State {
    if actions == [] then s else Do(Run(s, actions[..|actions| - 1]), actions[|actions| - 1])
  }

  predicate Initial(s: State) {
    s.db == Tables(map[], map[], map[], map[]) && s.handlers == map[] && s.passes == [] && s.issued == map[]
        && s.made == []
  }

  // ---- replay ----

  lemma {:induction false} InRangeEarlier(a: Time, b: Time)
    requires a <= b && InRange(b)
    ensures InRange(a)
  {
    if Second(a) / 86400 < Second(b) / 86400 { DatesAscend(Second(a) / 86400, Second(b) / 86400); }
  }

  /** No handler's captured time is ahead of the clock. */
  ghost predicate TimesPast(clock: Time, handlers: map<nat, Handler>) {
    forall h :: h in handlers && handlers[h].Timed? ==> handlers[h].now <= clock
  }

  ghost predicate Dated(clock: Time, p: Pass) { InRange(clock) && InRange(p.recorded) }

  /** As long as the clock's second is before the recorded one, the row is there. */
  ghost predicate RowsStay(clock: Time, used: map<(string, string), string>, passes: seq<Pass>) {
    forall i :: 0 <= i < |passes| && Dated(clock, passes[i]) && Second(clock) < Second(passes[i].recorded) ==>
      passes[i].key in used && used[passes[i].key] == Format(passes[i].recorded)
  }

  /** A second pass for a key is no earlier than the second in which the first one's record ran out. */
  ghost predicate PassesApart(clock: Time, passes: seq<Pass>) {
    forall i, j :: 0 <= i < j < |passes| && passes[i].key == passes[j].key && Dated(clock, passes[i]) ==>
      Second(passes[i].recorded) <= Second(passes[j].at)
  }

  ghost predicate ReplaySafe(s: State) {
    TimesPast(s.clock, s.handlers) && RowsStay(s.clock, s.db.used, s.passes) && PassesApart(s.clock, s.passes)
  }

  lemma {:induction false} TickReplay(s: State, ns: nat)
    requires ReplaySafe(s)
    ensures ReplaySafe(Do(s, Tick(ns)))
  {
    if InRange(s.clock + ns) { InRangeEarlier(s.clock, s.clock + ns); }
    assert Second(s.clock) <= Second(s.clock + ns);
    assert forall i :: 0 <= i < |s.passes| && Dated(s.clock + ns, s.passes[i]) ==> Dated(s.clock, s.passes[i]);
  }

  lemma {:induction false} PurgeReplay(s: State, h: nat, x: Handler)
    requires ReplaySafe(s) && At(s, h) == x && x.Timed?
    ensures ReplaySafe(DoPurge(s, h, x))
  {
    var used := PurgeUsed(s.db.used, x.now);
    assert x.now <= s.clock;
    forall i | 0 <= i < |s.passes| && Dated(s.clock, s.passes[i]) && Second(s.clock) < Second(s.passes[i].recorded)
      ensures s.passes[i].key in used && used[s.passes[i].key] == Format(s.passes[i].recorded)
    {
      var recorded := s.passes[i].recorded;
      assert Second(x.now) <= Second(s.clock);
      InRangeEarlier(x.now, s.clock);
      if Less(Format(recorded), Format(x.now)) { TextBefore(recorded, x.now); }
    }
  }

  lemma {:induction false} MarkReplay(s: State, h: nat, x: Handler)
    requires ReplaySafe(s) && x.Purged?
    ensures ReplaySafe(DoMark(s, h, x))
  {
    var s' := DoMark(s, h, x);
    if (x.tenant, x.claims.id) !in s.db.used {
      var n := |s.passes|;
      assert s'.passes[n].at == s.clock && forall i :: 0 <= i < n ==> s'.passes[i] == s.passes[i];
      assert forall i :: 0 <= i < n && Dated(s.clock, s.passes[i]) && s.passes[i].key == (x.tenant, x.claims.id) ==>
        Second(s.passes[i].recorded) <= Second(s.clock);
    }
  }

  lemma {:induction false} StepReplay(s: State, a: Action)
    requires ReplaySafe(s)
    ensures ReplaySafe(Do(s, a))
  {
    match a
    case Tick(ns) => TickReplay(s, ns);
    case Purge(h) => if At(s, h).Timed? { PurgeReplay(s, h, At(s, h)); }
    case Mark(h) => if At(s, h).Purged? { MarkReplay(s, h, At(s, h)); }
    case _ =>
  }

  lemma {:induction false} RunReplay(s: State, actions: seq<Action>)
    requires Initial(s)
    ensures ReplaySafe(Run(s, actions))
  {
    if actions != [] {
      RunReplay(s, actions[..|actions| - 1]);
      StepReplay(Run(s, actions[..|actions| - 1]), actions[|actions| - 1]);
    }
  }

  /** In every interleaving, of the handlers for one tenant and assertion ID that reach the replay check in a
      clock second before a recorded expiry, at most one passes. */
  lemma {:induction false} AtMostOnePasses(s: State, actions: seq<Action>, i: nat, j: nat)
    requires Initial(s)
    requires
      var t := Run(s, actions);
      && i < j < |t.passes| && t.passes[i].key == t.passes[j].key
      && InRange(t.clock) && InRange(t.passes[i].recorded)
    ensures !(Second(Run(s, actions).passes[j].at) < Second(Run(s, actions).passes[i].recorded))
  {
    RunReplay(s, actions);
  }

  // ---- acceptance and retention ----

  function ClaimsOf(h: Handler): Option<Claims> {
    if h.Verified? || h.Timed? || h.Purged? || h.Marked? then Some(h.claims) else None
  }

  ghost predicate ClaimsTimely(clock: Time, c: Claims) { c.verified <= clock && c.verified <= c.notOnOrAfter + SKEW }

  ghost predicate PassTimely(clock: Time, p: Pass) { p.verified <= p.at <= clock && p.verified <= p.recorded + SKEW }

  /** Whatever is being handled, and whatever passed, was verified before it expired, up to the skew. */
  ghost predicate Timely(s: State) {
    && (forall h :: h in s.handlers && ClaimsOf(s.handlers[h]).Some? ==>
        ClaimsTimely(s.clock, ClaimsOf(s.handlers[h]).value))
    && (forall i :: 0 <= i < |s.passes| ==> PassTimely(s.clock, s.passes[i]))
  }

  lemma {:induction false} MoveTimely(s: State, s': State, h: nat)
    requires Timely(s) && s'.clock == s.clock && s'.passes == s.passes && s'.handlers == s.handlers[h := At(s', h)]
    requires ClaimsOf(At(s', h)).Some? ==> ClaimsTimely(s.clock, ClaimsOf(At(s', h)).value)
    ensures Timely(s')
  {
  }

  lemma {:induction false} MarkTimely(s: State, h: nat, x: Handler)
    requires Timely(s) && At(s, h) == x && x.Purged?
    ensures Timely(DoMark(s, h, x))
  {
    var s' := DoMark(s, h, x);
    assert h in s.handlers && ClaimsOf(s.handlers[h]) == Some(x.claims);
    if |s'.passes| > |s.passes| {
      var n := |s.passes|;
      assert PassTimely(s.clock, s'.passes[n]) && forall i :: 0 <= i < n ==> s'.passes[i] == s.passes[i];
    }
  }

  lemma {:induction false} TickTimely(s: State, ns: nat)
    requires Timely(s)
    ensures Timely(Do(s, Tick(ns)))
  {
  }

  lemma {:induction false} AcsTimely(s: State, h: nat, x: Handler)
    requires Timely(s) && At(s, h) == x
    ensures x.Verified? ==> Timely(Do(s, ReadClock(h)))
    ensures x.Timed? ==> Timely(Do(s, Purge(h)))
    ensures x.Marked? ==> Timely(Do(s, TakeSaml(h)))
  {
    if x.Verified? { MoveTimely(s, Do(s, ReadClock(h)), h); }
    if x.Timed? { MoveTimely(s, DoPurge(s, h, x), h); }
    if x.Marked? { MoveTimely(s, DoTakeSaml(s, h, x), h); }
  }

  lemma {:induction false} OtherTimely(s: State, a: Action)
    requires Timely(s) && (a.TakeOidc? || a.CheckToken? || a.Finish? || a.StartAcs? || a.StartCallback?)
    ensures Timely(Do(s, a))
  {
    var x := At(s, a.h);
    match a
    case StartAcs(h, t, c) => if h !in s.handlers && Accepts(s, c) { MoveTimely(s, Move(s, h, Verified(t, c)), h); }
    case StartCallback(h, t, st) => if h !in s.handlers && st != "" { MoveTimely(s, Move(s, h, Arrived(t, st)), h); }
    case TakeOidc(h) => if x.Arrived? { MoveTimely(s, DoTakeOidc(s, h, x), h); }
    case CheckToken(h, n, sub) => if x.Consumed? { MoveTimely(s, DoCheckToken(s, h, x, n, sub), h); }
    case Finish(h, id, u, att) => if x.Answered? || x.Checked? { MoveTimely(s, DoFinish(s, h, x, id, u, att), h); }
  }

  lemma {:induction false} StepTimely(s: State, a: Action)
    requires Timely(s)
    ensures Timely(Do(s, a))
  {
    match a
    case Tick(ns) => TickTimely(s, ns);
    case LoginSaml(_, _, _) =>
    case LoginOidc(_, _, _, _, _) =>
    case Fetch(_) =>
    case Mark(h) => if At(s, h).Purged? { MarkTimely(s, h, At(s, h)); }
    case ReadClock(h) => AcsTimely(s, h, At(s, h));
    case Purge(h) => AcsTimely(s, h, At(s, h));
    case TakeSaml(h) => AcsTimely(s, h, At(s, h));
    case _ => OtherTimely(s, a);
  }

  lemma {:induction false} RunTimely(s: State, actions: seq<Action>)
    requires Initial(s)
    ensures Timely(Run(s, actions))
  {
    if actions != [] {
      RunTimely(s, actions[..|actions| - 1]);
      StepTimely(Run(s, actions[..|actions| - 1]), actions[|actions| - 1]);
    }
  }

  /** Any replay of an accepted assertion is verified no later than its NotOnOrAfter plus the skew and passes
      no earlier than the second of its NotOnOrAfter: acceptance outlasts retention by the skew. */
  lemma {:induction false} ReplayWindow(s: State, actions: seq<Action>, i: nat, j: nat)
    requires Initial(s)
    requires
      var t := Run(s, actions);
      && i < j < |t.passes| && t.passes[i].key == t.passes[j].key && t.passes[i].recorded == t.passes[j].recorded
      && InRange(t.clock) && InRange(t.passes[i].recorded)
    ensures
      var again := Run(s, actions).passes[j];
      Second(again.recorded) <= Second(again.at) && again.verified <= again.recorded + SKEW
          && again.verified <= again.at
  {
    RunReplay(s, actions);
    RunTimely(s, actions);
    assert PassTimely(Run(s, actions).clock, Run(s, actions).passes[j]);
  }

  lemma {:induction false} RunMore(s: State, actions: seq<Action>, a: Action)
    ensures Run(s, actions + [a]) == Do(Run(s, actions), a)
  {
    var all := actions + [a];
    assert all[..|all| - 1] == actions && all[|all| - 1] == a;
  }

  /** The steps of one handler up to the replay check. */
  function Handling(h: nat, tenant: string, c: Claims): seq<Action> {
    [StartAcs(h, tenant, c)] + [ReadClock(h)] + [Purge(h)] + [Mark(h)]
  }

  lemma {:induction false} UpToClock(t: State, h: nat, tenant: string, c: Claims)
    requires h !in t.handlers && Accepts(t, c)
    ensures Do(Do(t, StartAcs(h, tenant, c)), ReadClock(h)) == Move(t, h, Timed(tenant, c, t.clock))
  {
  }

  lemma {:induction false} ThroughPurge(t: State, h: nat, tenant: string, c: Claims, u: State)
    requires u == Move(t, h, Timed(tenant, c, t.clock))
    ensures Do(u, Purge(h)) == Move(t.(db := t.db.(used := PurgeUsed(t.db.used, t.clock))), h, Purged(tenant, c))
  {
  }

  lemma {:induction false} ThroughMark(t: State, h: nat, tenant: string, c: Claims, v: State)
    requires v == Move(t.(db := t.db.(used := PurgeUsed(t.db.used, t.clock))), h, Purged(tenant, c))
    ensures
      var t' := Do(v, Mark(h));
      && t'.clock == t.clock && (forall g :: g in t'.handlers ==> g in t.handlers || g == h)
      && t'.db == t.db.(used := AfterMark(t.db.used, (tenant, c.id), c.notOnOrAfter, t.clock)) && t'.made == t.made
      && At(t', h) == (if UsedBefore(t.db.used, (tenant, c.id), t.clock) then Over else Marked(tenant, c))
      && t'.passes == if UsedBefore(t.db.used, (tenant, c.id), t.clock) then t.passes
                      else t.passes + [Pass((tenant, c.id), c.notOnOrAfter, c.verified, t.clock)]
  {
    assert At(v, h) == Purged(tenant, c);
    assert Do(v, Mark(h)) == DoMark(v, h, Purged(tenant, c));
  }

  lemma {:induction false} HandlingEnds(s: State, before: seq<Action>, h: nat, tenant: string, c: Claims)
    requires h !in Run(s, before).handlers && Accepts(Run(s, before), c)
    ensures
      var t, t' := Run(s, before), Run(s, before + Handling(h, tenant, c));
      && t'.clock == t.clock && (forall g :: g in t'.handlers ==> g in t.handlers || g == h)
      && t'.db == t.db.(used := AfterMark(t.db.used, (tenant, c.id), c.notOnOrAfter, t.clock)) && t'.made == t.made
      && At(t', h) == (if UsedBefore(t.db.used, (tenant, c.id), t.clock) then Over else Marked(tenant, c))
      && t'.passes == if UsedBefore(t.db.used, (tenant, c.id), t.clock) then t.passes
                      else t.passes + [Pass((tenant, c.id), c.notOnOrAfter, c.verified, t.clock)]
  {
    var s1 := before + [StartAcs(h, tenant, c)];
    var s2 := s1 + [ReadClock(h)];
    var s3 := s2 + [Purge(h)];
    assert before + Handling(h, tenant, c) == s3 + [Mark(h)];
    RunMore(s, before, StartAcs(h, tenant, c));
    RunMore(s, s1, ReadClock(h));
    RunMore(s, s2, Purge(h));
    RunMore(s, s3, Mark(h));
    UpToClock(Run(s, before), h, tenant, c);
    ThroughPurge(Run(s, before), h, tenant, c, Run(s, s2));
    ThroughMark(Run(s, before), h, tenant, c, Run(s, s3));
  }

  lemma {:induction false} HandlingRuns(s: State, before: seq<Action>, h: nat, tenant: string, c: Claims)
    requires h !in Run(s, before).handlers && Accepts(Run(s, before), c)
    ensures
      var t, t' := Run(s, before), Run(s, before + Handling(h, tenant, c));
      && t'.clock == t.clock && (forall g :: g in t'.handlers ==> g in t.handlers || g == h)
      && t'.db.used == AfterMark(t.db.used, (tenant, c.id), c.notOnOrAfter, t.clock)
      && t'.passes == if UsedBefore(t.db.used, (tenant, c.id), t.clock) then t.passes
                      else t.passes + [Pass((tenant, c.id), c.notOnOrAfter, c.verified, t.clock)]
  {
    HandlingEnds(s, before, h, tenant, c);
  }

  /** With a record of the assertion, and the clock in another second than the recorded one, a handling of it
      passes exactly when the record has run out, however long after that it is still accepted. */
  lemma {:induction false} ReplayPasses(s: State, before: seq<Action>, h: nat, tenant: string, c: Claims,
                                        recorded: Time)
    requires h !in Run(s, before).handlers && Accepts(Run(s, before), c)
    requires
      var t := Run(s, before);
      && (tenant, c.id) in t.db.used && t.db.used[(tenant, c.id)] == Format(recorded)
      && InRange(recorded) && InRange(t.clock) && Second(recorded) != Second(t.clock)
    ensures
      var t, t' := Run(s, before), Run(s, before + Handling(h, tenant, c));
      t'.passes == if recorded < t.clock then t.passes + [Pass((tenant, c.id), c.notOnOrAfter, c.verified, t.clock)]
                   else t.passes
  {
    var t := Run(s, before);
    HandlingRuns(s, before, h, tenant, c);
    PurgedByTime(t.db.used, (tenant, c.id), recorded, t.clock);
  }

  /** So every assertion can be used a second time inside the skew: handled at once and again at any time after
      its NotOnOrAfter at which it is still accepted, it passes twice. */
  lemma {:induction false} PassesInSkew(tenant: string, c: Claims, later: nat) returns (s: State, actions: seq<Action>)
    requires c.id != "" && c.verified == 0 && c.notOnOrAfter < later <= c.notOnOrAfter + SKEW
    requires InRange(c.notOnOrAfter) && InRange(later) && Second(c.notOnOrAfter) != Second(later)
    ensures Initial(s)
    ensures Run(s, actions).passes == [Pass((tenant, c.id), c.notOnOrAfter, 0, 0),
                                       Pass((tenant, c.id), c.notOnOrAfter, later, later)]
  {
    s := State(0, Tables(map[], map[], map[], map[]), map[], [], map[], []);
    var none: seq<Action> := [];
    assert Run(s, none) == s;
    HandlingRuns(s, none, 0, tenant, c);
    var first := none + Handling(0, tenant, c);
    FirstRecord((tenant, c.id), c.notOnOrAfter);
    var waited := first + [Tick(later)];
    RunMore(s, first, Tick(later));
    var again := c.(verified := later);
    ReplayPasses(s, waited, 1, tenant, again, c.notOnOrAfter);
    actions := waited + Handling(1, tenant, again);
  }

  lemma {:induction false} FirstRecord(key: (string, string), recorded: Time)
    ensures !UsedBefore(map[], key, 0) && AfterMark(map[], key, recorded, 0) == map[key := Format(recorded)]
  {
    var none: map<(string, string), string> := map[];
    assert PurgeUsed(none, 0) == none;
  }

  /** The bound cannot be improved: there is a run in which the same assertion passes twice in the second in
      which its record runs out, even before it runs out. */
  lemma {:induction false} PassedTwice() returns (s: State, actions: seq<Action>)
    ensures Initial(s)
    ensures
      var passes := Run(s, actions).passes;
      && |passes| == 2 && passes[0].key == passes[1].key && passes[0].recorded == passes[1].recorded
      && Second(passes[1].at) == Second(passes[0].recorded) && passes[1].at < passes[0].recorded
  {
    s := State(0, Tables(map[], map[], map[], map[]), map[], [], map[], []);
    var c := Claims("a", "", SECOND / 2, "u", 0);
    var none: seq<Action> := [];
    assert Run(s, none) == s;
    HandlingRuns(s, none, 0, "t", c);
    var first := none + Handling(0, "t", c);
    HandlingRuns(s, first, 1, "t", c);
    actions := first + Handling(1, "t", c);
    RecordGone(("t", "a"));
  }

  lemma {:induction false} RecordGone(key: (string, string))
    ensures !UsedBefore(map[], key, 0) && !UsedBefore(AfterMark(map[], key, SECOND / 2, 0), key, 0)
  {
    TextDisagrees();
    var none: map<(string, string), string> := map[];
    assert PurgeUsed(none, 0) == none;
  }

  /** The store's own method is these steps run without interruption. */
  lemma {:induction false} MarkUninterrupted(s: State, h: nat)
    requires At(s, h).Verified?
    ensures
      var x, t := At(s, h), Do(Do(Do(s, ReadClock(h)), Purge(h)), Mark(h));
      var key := (x.tenant, x.claims.id);
      && t.db == s.db.(used := AfterMark(s.db.used, key, x.claims.notOnOrAfter, s.clock))
      && (At(t, h) == Over <==> UsedBefore(s.db.used, key, s.clock))
  {
  }

  // ---- tickets ----

  /** The pending row of a request: its tenant, nonce and expiry. */
  function RowAt(db: Tables, kind: Kind, key: string): Option<(string, string, Time)> {
    if kind == Saml then (if key in db.saml then Some((db.saml[key].tenant, "", db.saml[key].expires)) else None)
    else if key in db.oidc then Some((db.oidc[key].tenant, db.oidc[key].nonce, db.oidc[key].expires)) else None
  }

  /** The ticket is for a request issued to its tenant with its nonce, and was taken within ten minutes. */
  ghost predicate Good(t: Ticket, issued: map<(Kind, string), Issue>) {
    && (t.kind, t.key) in issued
    && var i := issued[(t.kind, t.key)];
       i.tenant == t.tenant && i.nonce == t.nonce && t.taken <= i.at + REQUEST_TTL
  }

  ghost predicate SameRequest(t: Ticket, u: Ticket) { t.kind == u.kind && t.key == u.key }

  ghost predicate Fresh(t: Ticket, db: Tables) { RowAt(db, t.kind, t.key).None? }

  ghost predicate RowsIssued(db: Tables, issued: map<(Kind, string), Issue>) {
    forall kind, key :: RowAt(db, kind, key).Some? ==>
      (kind, key) in issued &&
      RowAt(db, kind, key).value ==
          (issued[(kind, key)].tenant, issued[(kind, key)].nonce, issued[(kind, key)].at + REQUEST_TTL)
  }

  ghost predicate HeldGood(handlers: map<nat, Handler>, db: Tables, issued: map<(Kind, string), Issue>) {
    forall h :: h in handlers && TicketOf(handlers[h]).Some? ==>
      Good(TicketOf(handlers[h]).value, issued) && Fresh(TicketOf(handlers[h]).value, db)
  }

  ghost predicate HeldOnce(handlers: map<nat, Handler>) {
    forall h, g ::
      h in handlers && g in handlers && h != g && TicketOf(handlers[h]).Some? && TicketOf(handlers[g]).Some? ==>
      !SameRequest(TicketOf(handlers[h]).value, TicketOf(handlers[g]).value)
  }

  ghost predicate MadeGood(made: seq<Made>, db: Tables, issued: map<(Kind, string), Issue>) {
    forall i :: 0 <= i < |made| && made[i].ticket.Some? ==>
        Good(made[i].ticket.value, issued) && Fresh(made[i].ticket.value, db)
  }

  ghost predicate MadeNotHeld(made: seq<Made>, handlers: map<nat, Handler>) {
    forall i, h :: 0 <= i < |made| && made[i].ticket.Some? && h in handlers && TicketOf(handlers[h]).Some? ==>
      !SameRequest(made[i].ticket.value, TicketOf(handlers[h]).value)
  }

  ghost predicate MadeOnce(made: seq<Made>) {
    forall i, j :: 0 <= i < j < |made| && made[i].ticket.Some? && made[j].ticket.Some? ==>
      !SameRequest(made[i].ticket.value, made[j].ticket.value)
  }

  /** Each request is pending, or held by one handler, or turned into one session, or gone. */
  ghost predicate OneUse(s: State) {
    && RowsIssued(s.db, s.issued) && HeldGood(s.handlers, s.db, s.issued) && HeldOnce(s.handlers)
    && MadeGood(s.made, s.db, s.issued) && MadeNotHeld(s.made, s.handlers) && MadeOnce(s.made)
  }

  /** A handler step that neither takes nor spends a ticket. */
  lemma {:induction false} MoveOneUse(s: State, s': State, h: nat)
    requires OneUse(s) && s'.issued == s.issued && s'.made == s.made
    requires forall kind, key :: RowAt(s'.db, kind, key) == RowAt(s.db, kind, key)
    requires s'.handlers == s.handlers
             || (s'.handlers == s.handlers[h := At(s', h)]
                 && (TicketOf(At(s', h)).None? || TicketOf(At(s', h)) == TicketOf(At(s, h))))
    ensures OneUse(s')
  {
    assert forall g :: g in s'.handlers && TicketOf(s'.handlers[g]).Some? ==>
        g in s.handlers && TicketOf(s'.handlers[g]) == TicketOf(s.handlers[g]);
  }

  lemma {:induction false} IssueOneUse(s: State, kind: Kind, id: string, issue: Issue, s': State)
    requires OneUse(s) && (kind, id) !in s.issued && s'.issued == s.issued[(kind, id) := issue]
    requires s'.handlers == s.handlers && s'.made == s.made
    requires RowAt(s'.db, kind, id) == Some((issue.tenant, issue.nonce, issue.at + REQUEST_TTL))
    requires forall k, key :: k != kind || key != id ==> RowAt(s'.db, k, key) == RowAt(s.db, k, key)
    ensures OneUse(s')
  {
  }

  /** Taking a request: its row goes, and a handler without a ticket gets one or none. */
  lemma {:induction false} TakeOneUse(s: State, h: nat, kind: Kind, key: string, s': State)
    requires OneUse(s) && s'.issued == s.issued && s'.made == s.made && s'.handlers == s.handlers[h := At(s', h)]
    requires TicketOf(At(s, h)).None? && h in s'.handlers
    requires
      forall k, id ::
        RowAt(s'.db, k, id) == RowAt(s.db, k, id) || (k == kind && id == key && RowAt(s'.db, k, id).None?)
    requires
      var t := TicketOf(At(s', h));
      t.None? || (&& t.value.kind == kind && t.value.key == key && RowAt(s'.db, kind, key).None?
                  && RowAt(s.db, kind, key).Some?
                  && var row := RowAt(s.db, kind, key).value;
                  row.0 == t.value.tenant && row.1 == t.value.nonce && t.value.taken <= row.2)
    ensures OneUse(s')
  {
    var t := TicketOf(At(s', h));
    assert forall g :: g in s'.handlers && g != h ==> g in s.handlers && s'.handlers[g] == s.handlers[g];
    if t.Some? {
      assert Good(t.value, s.issued) && Fresh(t.value, s'.db);
      assert forall g :: g in s.handlers && TicketOf(s.handlers[g]).Some? ==>
          !SameRequest(TicketOf(s.handlers[g]).value, t.value);
      assert forall i :: 0 <= i < |s.made| && s.made[i].ticket.Some? ==> !SameRequest(s.made[i].ticket.value, t.value);
    }
    assert forall u: Ticket :: Fresh(u, s.db) ==> Fresh(u, s'.db);
  }

  ghost predicate Spendable(s: State, t: Ticket) {
    && Good(t, s.issued) && Fresh(t, s.db)
    && (forall g :: g in s.handlers && TicketOf(s.handlers[g]).Some? ==> !SameRequest(TicketOf(s.handlers[g]).value, t))
    && (forall i :: 0 <= i < |s.made| && s.made[i].ticket.Some? ==> !SameRequest(s.made[i].ticket.value, t))
  }

  lemma {:induction false} SpendOneUse(s: State, m: Made, s': State)
    requires OneUse(s) && (m.ticket.Some? ==> Spendable(s, m.ticket.value))
    requires s'.made == s.made + [m] && s'.handlers == s.handlers && s'.issued == s.issued
    requires forall kind, key :: RowAt(s'.db, kind, key) == RowAt(s.db, kind, key)
    ensures OneUse(s')
  {
    var n := |s.made|;
    assert s'.made[n] == m && forall i :: 0 <= i < n ==> s'.made[i] == s.made[i];
  }

  lemma {:induction false} FinishOneUse(s: State, h: nat, x: Handler, session: string, user: string, attributes: string)
    requires OneUse(s) && At(s, h) == x && (x.Answered? || x.Checked?)
    ensures OneUse(DoFinish(s, h, x, session, user, attributes))
  {
    var s' := DoFinish(s, h, x, session, user, attributes);
    var over := Move(s, h, Over);
    MoveOneUse(s, over, h);
    if session !in s.db.sessions {
      assert h in s.handlers && s.handlers[h] == x && TicketOf(x) == x.ticket;
      SpendOneUse(over, s'.made[|s.made|], s');
    }
  }

  lemma {:induction false} TakeSamlOneUse(s: State, h: nat, x: Handler)
    requires OneUse(s) && At(s, h) == x && x.Marked?
    ensures OneUse(DoTakeSaml(s, h, x))
  {
    TakeOneUse(s, h, Saml, x.claims.inResponseTo, DoTakeSaml(s, h, x));
  }

  lemma {:induction false} TakeOidcOneUse(s: State, h: nat, x: Handler)
    requires OneUse(s) && At(s, h) == x && x.Arrived?
    ensures OneUse(DoTakeOidc(s, h, x))
  {
    TakeOneUse(s, h, Oidc, x.state, DoTakeOidc(s, h, x));
  }

  lemma {:induction false} StartOneUse(s: State, h: nat, x: Handler)
    requires OneUse(s) && h !in s.handlers && TicketOf(x).None?
    ensures OneUse(Move(s, h, x))
  {
    MoveOneUse(s, Move(s, h, x), h);
  }

  lemma {:induction false} MarkOneUse(s: State, h: nat, x: Handler)
    requires OneUse(s) && At(s, h) == x
    ensures x.Verified? ==> OneUse(Do(s, ReadClock(h)))
    ensures x.Timed? ==> OneUse(DoPurge(s, h, x))
    ensures x.Purged? ==> OneUse(DoMark(s, h, x))
  {
    if x.Verified? { MoveOneUse(s, Do(s, ReadClock(h)), h); }
    if x.Timed? { MoveOneUse(s, DoPurge(s, h, x), h); }
    if x.Purged? { MoveOneUse(s, DoMark(s, h, x), h); }
  }

  lemma {:induction false} CheckOneUse(s: State, h: nat, x: Handler, tokenNonce: string, subject: string)
    requires OneUse(s) && At(s, h) == x && x.Consumed?
    ensures OneUse(DoCheckToken(s, h, x, tokenNonce, subject))
  {
    MoveOneUse(s, DoCheckToken(s, h, x, tokenNonce, subject), h);
  }

  lemma {:induction false} StepOneUse(s: State, a: Action)
    requires OneUse(s)
    ensures OneUse(Do(s, a))
  {
    match a
    case LoginSaml(t, id, _) =>
      if id != "" && (Saml, id) !in s.issued && id !in s.db.saml {
        IssueOneUse(s, Saml, id, Issue(t, "", s.clock), Do(s, a));
      }
    case LoginOidc(t, id, n, _, _) =>
      if id != "" && n != "" && (Oidc, id) !in s.issued && id !in s.db.oidc {
        IssueOneUse(s, Oidc, id, Issue(t, n, s.clock), Do(s, a));
      }
    case TakeSaml(h) => if At(s, h).Marked? { TakeSamlOneUse(s, h, At(s, h)); }
    case TakeOidc(h) => if At(s, h).Arrived? { TakeOidcOneUse(s, h, At(s, h)); }
    case Finish(h, id, u, att) => if At(s, h).Answered? || At(s, h).Checked? {
      FinishOneUse(s, h, At(s, h), id, u, att);
    }
    case StartAcs(h, t, c) => if h !in s.handlers && Accepts(s, c) { StartOneUse(s, h, Verified(t, c)); }
    case StartCallback(h, t, st) => if h !in s.handlers && st != "" { StartOneUse(s, h, Arrived(t, st)); }
    case CheckToken(h, n, sub) => if At(s, h).Consumed? { CheckOneUse(s, h, At(s, h), n, sub); }
    case Tick(_) => MoveOneUse(s, Do(s, a), 0);
    case Fetch(_) => MoveOneUse(s, Do(s, a), 0);
    case _ => MarkOneUse(s, a.h, At(s, a.h));
  }

  lemma {:induction false} RunOneUse(s: State, actions: seq<Action>)
    requires Initial(s)
    ensures OneUse(Run(s, actions))
  {
    if actions != [] {
      RunOneUse(s, actions[..|actions| - 1]);
      StepOneUse(Run(s, actions[..|actions| - 1]), actions[|actions| - 1]);
    }
  }

  // ---- what a session stands for ----

  ghost predicate HandlerFits(h: Handler) {
    && (h.Answered? && h.ticket.Some? ==> h.ticket.value.kind == Saml && h.ticket.value.tenant == h.tenant)
    && (h.Consumed? || h.Checked? ==>
        h.ticket.Some? && h.ticket.value.kind == Oidc && h.ticket.value.tenant == h.tenant
        && h.ticket.value.nonce != "")
    && (h.Checked? ==> h.tokenNonce == h.ticket.value.nonce)
  }

  /** A session belongs to the tenant whose request it answers, lives eight hours, and if it came from an
      OIDC login the token carried that login's nonce. */
  ghost predicate MadeFits(m: Made) {
    && m.row.expires == m.row.created + SESSION_TTL
    && (m.ticket.Some? ==> m.row.tenant == m.ticket.value.tenant)
    && (m.row.authMethod == "oidc" ==> m.ticket.Some? && m.ticket.value.kind == Oidc)
    && (m.ticket.Some? && m.ticket.value.kind == Oidc ==> m.tokenNonce == m.ticket.value.nonce && m.tokenNonce != "")
  }

  ghost predicate NoncesSet(oidc: map<string, OidcRow>) { forall k :: k in oidc ==> oidc[k].nonce != "" }

  ghost predicate AllFit(handlers: map<nat, Handler>) { forall h :: h in handlers ==> HandlerFits(handlers[h]) }

  ghost predicate AllMadeFit(made: seq<Made>) { forall i :: 0 <= i < |made| ==> MadeFits(made[i]) }

  ghost predicate WasMade(made: seq<Made>, id: string, row: SessionRow) {
    exists i :: 0 <= i < |made| && made[i].id == id && made[i].row == row
  }

  ghost predicate SessionsMade(sessions: map<string, SessionRow>, made: seq<Made>) {
    forall id :: id in sessions ==> WasMade(made, id, sessions[id])
  }

  ghost predicate Fits(s: State) {
    NoncesSet(s.db.oidc) && AllFit(s.handlers) && AllMadeFit(s.made) && SessionsMade(s.db.sessions, s.made)
  }

  /** A handler moves on; rows may go. */
  lemma {:induction false} MoveFits(s: State, s': State, h: nat)
    requires Fits(s) && s'.made == s.made && s'.db.sessions == s.db.sessions
    requires forall k :: k in s'.db.oidc ==> k in s.db.oidc && s'.db.oidc[k] == s.db.oidc[k]
    requires s'.handlers == s.handlers[h := At(s', h)] && HandlerFits(At(s', h))
    ensures Fits(s')
  {
  }

  lemma {:induction false} AddMadeFits(s: State, m: Made, s': State)
    requires Fits(s) && MadeFits(m) && s'.handlers == s.handlers && s'.db.oidc == s.db.oidc
    requires s'.made == s.made + [m] && s'.db.sessions == s.db.sessions[m.id := m.row]
    ensures Fits(s')
  {
    var n := |s.made|;
    assert s'.made[n] == m && forall i :: 0 <= i < n ==> s'.made[i] == s.made[i];
    assert WasMade(s'.made, m.id, m.row);
    forall id | id in s.db.sessions ensures WasMade(s'.made, id, s.db.sessions[id]) {
      assert WasMade(s.made, id, s.db.sessions[id]);
      var i :| 0 <= i < n && s.made[i].id == id && s.made[i].row == s.db.sessions[id];
      assert s'.made[i] == s.made[i];
    }
  }

  lemma {:induction false} FinishFits(s: State, h: nat, x: Handler, session: string, user: string, attributes: string)
    requires Fits(s) && At(s, h) == x && (x.Answered? || x.Checked?)
    ensures Fits(DoFinish(s, h, x, session, user, attributes))
  {
    assert h in s.handlers && HandlerFits(s.handlers[h]);
    MoveFits(s, Move(s, h, Over), h);
    if session !in s.db.sessions {
      var s' := DoFinish(s, h, x, session, user, attributes);
      assert MadeFits(s'.made[|s.made|]);
      AddMadeFits(Move(s, h, Over), s'.made[|s.made|], s');
    }
  }

  lemma {:induction false} TakeSamlFits(s: State, h: nat, x: Handler)
    requires Fits(s) && At(s, h) == x && x.Marked?
    ensures Fits(DoTakeSaml(s, h, x))
  {
    MoveFits(s, DoTakeSaml(s, h, x), h);
  }

  lemma {:induction false} TakeOidcFits(s: State, h: nat, x: Handler)
    requires Fits(s) && At(s, h) == x && x.Arrived?
    ensures Fits(DoTakeOidc(s, h, x))
  {
    MoveFits(s, DoTakeOidc(s, h, x), h);
  }

  lemma {:induction false} CheckTokenFits(s: State, h: nat, x: Handler, tokenNonce: string, subject: string)
    requires Fits(s) && At(s, h) == x && x.Consumed?
    ensures Fits(DoCheckToken(s, h, x, tokenNonce, subject))
  {
    assert h in s.handlers && HandlerFits(s.handlers[h]);
    MoveFits(s, DoCheckToken(s, h, x, tokenNonce, subject), h);
  }

  lemma {:induction false} StartFits(s: State, a: Action)
    requires Fits(s) && (a.StartAcs? || a.StartCallback?)
    ensures Fits(Do(s, a))
  {
    match a
    case StartAcs(h, t, c) => if h !in s.handlers && Accepts(s, c) { MoveFits(s, Move(s, h, Verified(t, c)), h); }
    case StartCallback(h, t, st) => if h !in s.handlers && st != "" { MoveFits(s, Move(s, h, Arrived(t, st)), h); }
  }

  lemma {:induction false} AcsFits(s: State, h: nat, x: Handler)
    requires Fits(s) && At(s, h) == x
    ensures x.Verified? ==> Fits(Do(s, ReadClock(h)))
    ensures x.Timed? ==> Fits(Do(s, Purge(h)))
    ensures x.Purged? ==> Fits(Do(s, Mark(h)))
  {
    if x.Verified? { MoveFits(s, Move(s, h, Timed(x.tenant, x.claims, s.clock)), h); }
    if x.Timed? { MoveFits(s, DoPurge(s, h, x), h); }
    if x.Purged? { MoveFits(s, DoMark(s, h, x), h); }
  }

  lemma {:induction false} StepFits(s: State, a: Action)
    requires Fits(s)
    ensures Fits(Do(s, a))
  {
    match a
    case Tick(_) =>
    case LoginSaml(_, _, _) =>
    case LoginOidc(_, _, _, _, _) =>
    case Fetch(_) =>
    case TakeSaml(h) => if At(s, h).Marked? { TakeSamlFits(s, h, At(s, h)); }
    case TakeOidc(h) => if At(s, h).Arrived? { TakeOidcFits(s, h, At(s, h)); }
    case CheckToken(h, n, sub) => if At(s, h).Consumed? { CheckTokenFits(s, h, At(s, h), n, sub); }
    case Finish(h, id, u, att) =>
      if At(s, h).Answered? || At(s, h).Checked? { FinishFits(s, h, At(s, h), id, u, att); }
    case StartAcs(_, _, _) => StartFits(s, a);
    case StartCallback(_, _, _) => StartFits(s, a);
    case _ => AcsFits(s, a.h, At(s, a.h));
  }

  lemma {:induction false} RunFits(s: State, actions: seq<Action>)
    requires Initial(s)
    ensures Fits(Run(s, actions))
  {
    if actions != [] {
      RunFits(s, actions[..|actions| - 1]);
      StepFits(Run(s, actions[..|actions| - 1]), actions[|actions| - 1]);
    }
  }

  /** In every run each AuthnRequest ID and each OIDC state leads to at most one session. */
  lemma {:induction false} OneSessionPerRequest(s: State, actions: seq<Action>, i: nat, j: nat)
    requires Initial(s)
    requires
      var made := Run(s, actions).made;
      i < |made| && j < |made| && made[i].ticket.Some? && made[j].ticket.Some?
          && SameRequest(made[i].ticket.value, made[j].ticket.value)
    ensures i == j
  {
    RunOneUse(s, actions);
  }

  /** In every run a session that answers a request is for the tenant the request was issued to, the request
      was taken within ten minutes of issue, and an OIDC session's token carried the nonce issued with it. */
  lemma {:induction false} SessionsAnswerRequests(s: State, actions: seq<Action>, i: nat)
    requires Initial(s) && i < |Run(s, actions).made|
    ensures
      var end := Run(s, actions);
      var m := end.made[i];
      && (m.row.authMethod == "oidc" ==> m.ticket.Some?)
      && (m.ticket.Some? ==>
           && (m.ticket.value.kind, m.ticket.value.key) in end.issued
           && var issue := end.issued[(m.ticket.value.kind, m.ticket.value.key)];
              && issue.tenant == m.row.tenant && m.ticket.value.taken <= issue.at + REQUEST_TTL
              && (m.ticket.value.kind == Oidc ==> m.tokenNonce == issue.nonce != ""))
  {
    RunOneUse(s, actions);
    RunFits(s, actions);
    var m := Run(s, actions).made[i];
    assert MadeFits(m);
    if m.ticket.Some? { assert Good(m.ticket.value, Run(s, actions).issued); }
  }

  /** Outside the recorded second itself, the purge deletes a record exactly when it has run out. */
  lemma {:induction false} PurgedByTime(used: map<(string, string), string>, key: (string, string), recorded: Time,
                                        now: Time)
    requires key in used && used[key] == Format(recorded) && InRange(recorded) && InRange(now)
             && Second(recorded) != Second(now)
    ensures key in PurgeUsed(used, now) <==> now < recorded
  {
    if Second(recorded) < Second(now) { SecondsAscend(recorded, now); } else { SecondsAscend(now, recorded); }
  }
}
