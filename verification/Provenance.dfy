/** Whose session is made: every session row traced back to the actions of the run. */
module Provenance {
  import opened Text
  import opened Timestamp
  import opened SessionStore
  import opened Protocol

  // ---- what the actions so far say about a handler ----

  /** The action at `k` started handler `h`. */
  ghost predicate Began(s: State, actions: seq<Action>, k: nat, h: nat, a: Action) {
    k < |actions| && actions[k] == a && h !in Run(s, actions[..k]).handlers && h in Run(s, actions[..k + 1]).handlers
  }

  /** The assertion passed the replay check. */
  ghost predicate PassedCheck(passes: seq<Pass>, tenant: string, c: Claims) {
    exists j :: 0 <= j < |passes| && passes[j].key == (tenant, c.id) && passes[j].recorded == c.notOnOrAfter
                && passes[j].verified == c.verified
  }

  /** Handler `h` was started with these claims of a tenant. */
  ghost predicate AcsBegan(s: State, actions: seq<Action>, h: nat, tenant: string, c: Claims) {
    exists k :: Began(s, actions, k, h, StartAcs(h, tenant, c))
  }

  ghost predicate CallbackBegan(s: State, actions: seq<Action>, h: nat, tenant: string, state: string) {
    exists k :: Began(s, actions, k, h, StartCallback(h, tenant, state))
  }

  /** An answer to a request has consumed that request. */
  predicate TicketOfClaims(ticket: Option<Ticket>, c: Claims) {
    && (ticket.Some? ==> ticket.value.kind == Saml && ticket.value.key == c.inResponseTo)
    && (c.inResponseTo != "" ==> ticket.Some?)
  }

  predicate TicketOfState(ticket: Option<Ticket>, state: string) {
    ticket.Some? && ticket.value.kind == Oidc && ticket.value.key == state
  }

  /** Handler `h` was started with the claims, they passed the replay check, and their request was consumed. */
  ghost predicate Acs(s: State, actions: seq<Action>, h: nat, tenant: string, c: Claims, ticket: Option<Ticket>) {
    && AcsBegan(s, actions, h, tenant, c) && PassedCheck(Run(s, actions).passes, tenant, c)
    && TicketOfClaims(ticket, c)
  }

  /** Handler `h` was given a token with this nonce and subject when it had consumed its request. */
  ghost predicate TokenChecked(s: State, actions: seq<Action>, h: nat, tokenNonce: string, subject: string) {
    exists l :: 0 <= l < |actions| && actions[l] == CheckToken(h, tokenNonce, subject)
                && At(Run(s, actions[..l]), h).Consumed?
  }

  ghost predicate Story(s: State, actions: seq<Action>, h: nat, x: Handler) {
    match x
    case Verified(t, c) => AcsBegan(s, actions, h, t, c)
    case Timed(t, c, _) => AcsBegan(s, actions, h, t, c)
    case Purged(t, c) => AcsBegan(s, actions, h, t, c)
    case Marked(t, c) => AcsBegan(s, actions, h, t, c) && PassedCheck(Run(s, actions).passes, t, c)
    case Answered(t, subject, ticket) => exists c: Claims :: c.subject == subject && Acs(s, actions, h, t, c, ticket)
    case Arrived(t, state) => CallbackBegan(s, actions, h, t, state)
    case Consumed(t, ticket) => exists state :: CallbackBegan(s, actions, h, t, state) && TicketOfState(ticket, state)
    case Checked(t, subject, ticket, nonce) =>
      && (exists state :: CallbackBegan(s, actions, h, t, state) && TicketOfState(ticket, state))
      && TokenChecked(s, actions, h, nonce, subject)
    case Over => true
  }

  ghost predicate StoriesHold(s: State, actions: seq<Action>) {
    forall h :: h in Run(s, actions).handlers ==> Story(s, actions, h, Run(s, actions).handlers[h])
  }

  // ---- more actions change nothing about the past ----

  lemma {:induction false} StartsAlike(actions: seq<Action>, a: Action, k: nat)
    requires k <= |actions|
    ensures (actions + [a])[..k] == actions[..k]
  {
  }

  lemma {:induction false} BeganStays(s: State, actions: seq<Action>, a: Action, k: nat, h: nat, start: Action)
    requires Began(s, actions, k, h, start)
    ensures Began(s, actions + [a], k, h, start)
  {
    StartsAlike(actions, a, k);
    StartsAlike(actions, a, k + 1);
  }

  lemma {:induction false} AcsStays(s: State, actions: seq<Action>, a: Action, h: nat, tenant: string, c: Claims)
    requires AcsBegan(s, actions, h, tenant, c)
    ensures AcsBegan(s, actions + [a], h, tenant, c)
  {
    var k :| Began(s, actions, k, h, StartAcs(h, tenant, c));
    BeganStays(s, actions, a, k, h, StartAcs(h, tenant, c));
  }

  lemma {:induction false} CallbackStays(s: State, actions: seq<Action>, a: Action, h: nat, tenant: string,
                                         state: string)
    requires CallbackBegan(s, actions, h, tenant, state)
    ensures CallbackBegan(s, actions + [a], h, tenant, state)
  {
    var k :| Began(s, actions, k, h, StartCallback(h, tenant, state));
    BeganStays(s, actions, a, k, h, StartCallback(h, tenant, state));
  }

  lemma {:induction false} PassStays(s: State, actions: seq<Action>, a: Action, tenant: string, c: Claims)
    requires PassedCheck(Run(s, actions).passes, tenant, c)
    ensures PassedCheck(Run(s, actions + [a]).passes, tenant, c)
  {
    RunMore(s, actions, a);
    PassesGrow(Run(s, actions), a);
  }

  lemma {:induction false} PassesGrow(t: State, a: Action)
    ensures |t.passes| <= |Do(t, a).passes|
    ensures forall j :: 0 <= j < |t.passes| ==> Do(t, a).passes[j] == t.passes[j]
  {
  }

  lemma {:induction false} TokenStays(s: State, actions: seq<Action>, a: Action, h: nat, nonce: string,
                                      subject: string)
    requires TokenChecked(s, actions, h, nonce, subject)
    ensures TokenChecked(s, actions + [a], h, nonce, subject)
  {
    var l :| 0 <= l < |actions| && actions[l] == CheckToken(h, nonce, subject)
             && At(Run(s, actions[..l]), h).Consumed?;
    StartsAlike(actions, a, l);
    assert (actions + [a])[l] == actions[l];
  }

  lemma {:induction false} StoryStays(s: State, actions: seq<Action>, a: Action, h: nat, x: Handler)
    requires Story(s, actions, h, x)
    ensures Story(s, actions + [a], h, x)
  {
    match x
    case Verified(t, c) => AcsStays(s, actions, a, h, t, c);
    case Timed(t, c, _) => AcsStays(s, actions, a, h, t, c);
    case Purged(t, c) => AcsStays(s, actions, a, h, t, c);
    case Marked(t, c) => AcsStays(s, actions, a, h, t, c); PassStays(s, actions, a, t, c);
    case Answered(t, subject, ticket) =>
      var c: Claims :| c.subject == subject && Acs(s, actions, h, t, c, ticket);
      AcsStays(s, actions, a, h, t, c);
      PassStays(s, actions, a, t, c);
      assert Acs(s, actions + [a], h, t, c, ticket);
    case Arrived(t, state) => CallbackStays(s, actions, a, h, t, state);
    case Consumed(t, ticket) =>
      var state :| CallbackBegan(s, actions, h, t, state) && TicketOfState(ticket, state);
      CallbackStays(s, actions, a, h, t, state);
    case Checked(t, subject, ticket, nonce) =>
      var state :| CallbackBegan(s, actions, h, t, state) && TicketOfState(ticket, state);
      CallbackStays(s, actions, a, h, t, state);
      TokenStays(s, actions, a, h, nonce, subject);
    case Over =>
  }

  // ---- one more action ----

  lemma {:induction false} BeganNow(s: State, actions: seq<Action>, a: Action, h: nat)
    requires h !in Run(s, actions).handlers && h in Do(Run(s, actions), a).handlers
    ensures Began(s, actions + [a], |actions|, h, a)
  {
    RunMore(s, actions, a);
    var all := actions + [a];
    assert all[..|actions|] == actions && all[..|actions| + 1] == all;
  }

  lemma {:induction false} MarkStory(s: State, actions: seq<Action>, h: nat)
    requires At(Run(s, actions), h).Purged? && Story(s, actions, h, At(Run(s, actions), h))
    ensures Story(s, actions + [Mark(h)], h, At(Do(Run(s, actions), Mark(h)), h))
  {
    var t, a := Run(s, actions), Mark(h);
    var x, t' := At(t, h), Do(t, Mark(h));
    RunMore(s, actions, a);
    AcsStays(s, actions, a, h, x.tenant, x.claims);
    if At(t', h).Marked? {
      assert t'.passes[|t.passes|] == Pass((x.tenant, x.claims.id), x.claims.notOnOrAfter, x.claims.verified, t.clock);
    }
  }

  lemma {:induction false} TakeSamlStory(s: State, actions: seq<Action>, h: nat)
    requires At(Run(s, actions), h).Marked? && Story(s, actions, h, At(Run(s, actions), h))
    ensures Story(s, actions + [TakeSaml(h)], h, At(Do(Run(s, actions), TakeSaml(h)), h))
  {
    var x, y := At(Run(s, actions), h), At(Do(Run(s, actions), TakeSaml(h)), h);
    StoryStays(s, actions, TakeSaml(h), h, x);
    if y.Answered? { assert Acs(s, actions + [TakeSaml(h)], h, y.tenant, x.claims, y.ticket); }
  }

  lemma {:induction false} TakeOidcStory(s: State, actions: seq<Action>, h: nat)
    requires At(Run(s, actions), h).Arrived? && Story(s, actions, h, At(Run(s, actions), h))
    ensures Story(s, actions + [TakeOidc(h)], h, At(Do(Run(s, actions), TakeOidc(h)), h))
  {
    var x, y := At(Run(s, actions), h), At(Do(Run(s, actions), TakeOidc(h)), h);
    StoryStays(s, actions, TakeOidc(h), h, x);
    if y.Consumed? { assert TicketOfState(y.ticket, x.state); }
  }

  lemma {:induction false} TokenNow(s: State, actions: seq<Action>, h: nat, nonce: string, subject: string)
    requires At(Run(s, actions), h).Consumed?
    ensures TokenChecked(s, actions + [CheckToken(h, nonce, subject)], h, nonce, subject)
  {
    var all := actions + [CheckToken(h, nonce, subject)];
    assert all[|actions|] == CheckToken(h, nonce, subject) && all[..|actions|] == actions;
  }

  lemma {:induction false} CheckStory(s: State, actions: seq<Action>, h: nat, nonce: string, subject: string)
    requires At(Run(s, actions), h).Consumed? && Story(s, actions, h, At(Run(s, actions), h))
    ensures Story(s, actions + [CheckToken(h, nonce, subject)], h,
                  At(Do(Run(s, actions), CheckToken(h, nonce, subject)), h))
  {
    var x := At(Run(s, actions), h);
    StoryStays(s, actions, CheckToken(h, nonce, subject), h, x);
    TokenNow(s, actions, h, nonce, subject);
    CheckedOrOver(Run(s, actions), h, nonce, subject);
  }

  lemma {:induction false} CheckedOrOver(t: State, h: nat, nonce: string, subject: string)
    requires At(t, h).Consumed?
    ensures
      var x, y := At(t, h), At(Do(t, CheckToken(h, nonce, subject)), h);
      y == Over || y == Checked(x.tenant, subject, x.ticket, nonce)
  {
  }

  lemma {:induction false} StartStory(s: State, actions: seq<Action>, a: Action)
    requires (a.StartAcs? || a.StartCallback?) && a.h !in Run(s, actions).handlers
    ensures a.h in Do(Run(s, actions), a).handlers ==>
            Story(s, actions + [a], a.h, Do(Run(s, actions), a).handlers[a.h])
  {
    if a.h in Do(Run(s, actions), a).handlers { BeganNow(s, actions, a, a.h); }
  }

  lemma {:induction false} ClockStory(s: State, actions: seq<Action>, h: nat)
    requires Story(s, actions, h, At(Run(s, actions), h))
    ensures Story(s, actions + [ReadClock(h)], h, At(Do(Run(s, actions), ReadClock(h)), h))
    ensures Story(s, actions + [Purge(h)], h, At(Do(Run(s, actions), Purge(h)), h))
  {
    StoryStays(s, actions, ReadClock(h), h, At(Run(s, actions), h));
    StoryStays(s, actions, Purge(h), h, At(Run(s, actions), h));
  }

  /** The handler an action is about, when it is under way. */
  lemma {:induction false} ActorStory(s: State, actions: seq<Action>, a: Action)
    requires !a.Tick? && !a.LoginSaml? && !a.LoginOidc? && !a.Fetch?
    requires a.h in Run(s, actions).handlers && Story(s, actions, a.h, Run(s, actions).handlers[a.h])
    ensures Story(s, actions + [a], a.h, At(Do(Run(s, actions), a), a.h))
  {
    var x := At(Run(s, actions), a.h);
    StoryStays(s, actions, a, a.h, x);
    match a
    case ReadClock(h) => ClockStory(s, actions, h);
    case Purge(h) => ClockStory(s, actions, h);
    case Mark(h) => if x.Purged? { MarkStory(s, actions, h); }
    case TakeSaml(h) => if x.Marked? { TakeSamlStory(s, actions, h); }
    case TakeOidc(h) => if x.Arrived? { TakeOidcStory(s, actions, h); }
    case CheckToken(h, n, sub) => if x.Consumed? { CheckStory(s, actions, h, n, sub); }
    case _ =>
  }

  lemma {:induction false} NewcomersStart(t: State, a: Action)
    requires !a.Tick? && !a.LoginSaml? && !a.LoginOidc? && !a.Fetch?
    requires a.h !in t.handlers && a.h in Do(t, a).handlers
    ensures a.StartAcs? || a.StartCallback?
  {
  }

  lemma {:induction false} OthersStay(t: State, a: Action, h: nat)
    requires a.Tick? || a.LoginSaml? || a.LoginOidc? || a.Fetch? || a.h != h
    ensures h in Do(t, a).handlers <==> h in t.handlers
    ensures h in t.handlers ==> Do(t, a).handlers[h] == t.handlers[h]
  {
  }

  lemma {:induction false} StepStories(s: State, actions: seq<Action>, a: Action)
    requires StoriesHold(s, actions)
    ensures StoriesHold(s, actions + [a])
  {
    RunMore(s, actions, a);
    var t, t' := Run(s, actions), Run(s, actions + [a]);
    forall h | h in t'.handlers ensures Story(s, actions + [a], h, t'.handlers[h]) {
      if a.Tick? || a.LoginSaml? || a.LoginOidc? || a.Fetch? || a.h != h {
        OthersStay(t, a, h);
        StoryStays(s, actions, a, h, t.handlers[h]);
      } else if h in t.handlers {
        ActorStory(s, actions, a);
      } else {
        NewcomersStart(t, a);
        StartStory(s, actions, a);
      }
    }
  }

  lemma {:induction false} RunStories(s: State, actions: seq<Action>)
    requires Initial(s)
    ensures StoriesHold(s, actions)
  {
    if actions != [] {
      var n := |actions| - 1;
      RunStories(s, actions[..n]);
      StepStories(s, actions[..n], actions[n]);
      assert actions == actions[..n] + [actions[n]];
    }
  }

  // ---- sessions ----

  /** The action at `n` finished handler `h`, and made the session at `i`, then and with these particulars. */
  ghost predicate MadeAt(s: State, actions: seq<Action>, i: nat, m: Made, n: nat, h: nat) {
    && n < |actions| && actions[n] == Finish(h, m.id, m.row.user, m.row.attributes)
    && |Run(s, actions[..n]).made| == i && |Run(s, actions[..n + 1]).made| == i + 1
    && m.row.created == Run(s, actions[..n]).clock && m.row.expires == m.row.created + 8 * HOUR
  }

  /** The session is for the tenant and the subject that the handler's assertion was verified for. */
  ghost predicate FromAcs(s: State, before: seq<Action>, h: nat, m: Made) {
    && m.row.authMethod == "saml"
    && exists c: Claims :: c.subject == m.row.subject && Acs(s, before, h, m.row.tenant, c, m.ticket)
  }

  /** The session is for the tenant of the callback and the subject of the token that was checked. */
  ghost predicate FromCallback(s: State, before: seq<Action>, h: nat, m: Made) {
    && m.row.authMethod == "oidc"
    && (exists state :: CallbackBegan(s, before, h, m.row.tenant, state) && TicketOfState(m.ticket, state))
    && TokenChecked(s, before, h, m.tokenNonce, m.row.subject)
  }

  ghost predicate Traced(s: State, actions: seq<Action>, i: nat, m: Made) {
    exists n: nat, h: nat :: MadeAt(s, actions, i, m, n, h)
                   && (FromAcs(s, actions[..n], h, m) || FromCallback(s, actions[..n], h, m))
  }

  lemma {:induction false} TraceStays(s: State, actions: seq<Action>, a: Action, i: nat, m: Made)
    requires Traced(s, actions, i, m)
    ensures Traced(s, actions + [a], i, m)
  {
    var n: nat, h: nat :| MadeAt(s, actions, i, m, n, h)
                && (FromAcs(s, actions[..n], h, m) || FromCallback(s, actions[..n], h, m));
    StartsAlike(actions, a, n);
    MadeAtStays(s, actions, a, i, m, n, h);
    TracedBy(s, actions + [a], i, m, actions[..n], h);
  }

  lemma {:induction false} MadeAtStays(s: State, actions: seq<Action>, a: Action, i: nat, m: Made, n: nat, h: nat)
    requires MadeAt(s, actions, i, m, n, h)
    ensures MadeAt(s, actions + [a], i, m, n, h)
  {
    StartsAlike(actions, a, n);
    StartsAlike(actions, a, n + 1);
    assert (actions + [a])[n] == actions[n];
  }

  lemma {:induction false} OnlyFinishMakes(t: State, a: Action, t': State)
    requires t' == Do(t, a) && |t'.made| > |t.made|
    ensures a.Finish? && a.h in t.handlers && |t'.made| == |t.made| + 1
    ensures
      var x, m := t.handlers[a.h], t'.made[|t.made|];
      && m.id == a.session && m.row.user == a.user && m.row.attributes == a.attributes
      && m.row.created == t.clock && m.row.expires == t.clock + 8 * HOUR
      && (x == Answered(m.row.tenant, m.row.subject, m.ticket) || x == Checked(m.row.tenant, m.row.subject, m.ticket,
                                                                               m.tokenNonce))
      && m.row.authMethod == if x.Answered? then "saml" else "oidc"
  {
  }

  lemma {:induction false} HandlerTraced(s: State, actions: seq<Action>, h: nat, x: Handler, m: Made)
    requires Story(s, actions, h, x)
    requires x == Answered(m.row.tenant, m.row.subject, m.ticket)
             || x == Checked(m.row.tenant, m.row.subject, m.ticket, m.tokenNonce)
    requires m.row.authMethod == if x.Answered? then "saml" else "oidc"
    ensures FromAcs(s, actions, h, m) || FromCallback(s, actions, h, m)
  {
  }

  lemma {:induction false} FinishAt(s: State, actions: seq<Action>, a: Action, all: seq<Action>, m: Made)
    requires all == actions + [a] && |Run(s, all).made| > |Run(s, actions).made|
             && m == Run(s, all).made[|Run(s, actions).made|]
    ensures a.Finish? && a.h in Run(s, actions).handlers
            && |Run(s, all).made| == |Run(s, actions).made| + 1
            && MadeAt(s, all, |Run(s, actions).made|, m, |actions|, a.h)
    ensures
      var x := Run(s, actions).handlers[a.h];
      && (x == Answered(m.row.tenant, m.row.subject, m.ticket)
          || x == Checked(m.row.tenant, m.row.subject, m.ticket, m.tokenNonce))
      && m.row.authMethod == if x.Answered? then "saml" else "oidc"
  {
    var t, t', n := Run(s, actions), Run(s, all), |actions|;
    RunMore(s, actions, a);
    OnlyFinishMakes(t, a, t');
    assert all[..n] == actions && all[..n + 1] == all && all[n] == a;
  }

  lemma {:induction false} NewTraced(s: State, actions: seq<Action>, a: Action, all: seq<Action>, i: nat, m: Made)
    requires StoriesHold(s, actions) && all == actions + [a]
    requires |Run(s, actions).made| <= i < |Run(s, all).made| && m == Run(s, all).made[i]
    ensures Traced(s, all, i, m)
  {
    FinishAt(s, actions, a, all, Run(s, all).made[|Run(s, actions).made|]);
    assert i == |Run(s, actions).made|;
    HandlerTraced(s, actions, a.h, Run(s, actions).handlers[a.h], m);
    TracedBy(s, all, i, m, actions, a.h);
  }

  lemma {:induction false} TracedBy(s: State, all: seq<Action>, i: nat, m: Made, before: seq<Action>, h: nat)
    requires |before| <= |all| && before == all[..|before|] && MadeAt(s, all, i, m, |before|, h)
    requires FromAcs(s, before, h, m) || FromCallback(s, before, h, m)
    ensures Traced(s, all, i, m)
  {
  }

  lemma {:induction false} OldTraced(s: State, actions: seq<Action>, a: Action, all: seq<Action>, i: nat, m: Made)
    requires Traced(s, actions, i, m) && all == actions + [a]
    ensures Traced(s, all, i, m)
  {
    TraceStays(s, actions, a, i, m);
  }

  lemma {:induction false} MadeGrows(t: State, a: Action)
    ensures |t.made| <= |Do(t, a).made| && forall i :: 0 <= i < |t.made| ==> Do(t, a).made[i] == t.made[i]
  {
  }

  lemma {:induction false} MadeStays(s: State, actions: seq<Action>, a: Action, i: nat)
    requires i < |Run(s, actions).made|
    ensures i < |Run(s, actions + [a]).made| && Run(s, actions + [a]).made[i] == Run(s, actions).made[i]
  {
    RunMore(s, actions, a);
    MadeGrows(Run(s, actions), a);
  }

  /** In every run each session was made by one Finish, with the user and attributes given to it, at the clock
      it ran at and for eight hours. It is for the tenant its handler was started for, and for the subject of
      the assertion that handler was started with, whose request it consumed and which passed the replay
      check, or of the token that was checked. */
  lemma {:induction false} SessionsTraced(s: State, actions: seq<Action>, i: nat)
    requires Initial(s) && i < |Run(s, actions).made|
    ensures Traced(s, actions, i, Run(s, actions).made[i])
  {
    if actions != [] {
      var n := |actions| - 1;
      assert actions == actions[..n] + [actions[n]];
      RunStories(s, actions[..n]);
      var m := Run(s, actions).made[i];
      if i < |Run(s, actions[..n]).made| {
        SessionsTraced(s, actions[..n], i);
        MadeStays(s, actions[..n], actions[n], i);
        OldTraced(s, actions[..n], actions[n], actions, i, m);
      } else {
        NewTraced(s, actions[..n], actions[n], actions, i, m);
      }
    }
  }
}
