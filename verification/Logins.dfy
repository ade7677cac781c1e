/** What a whole login comes to: which requests are pending, and when a session is made of an answer to one. */
module Logins {
  import opened Text
  import opened Timestamp
  import opened SessionStore
  import opened Protocol
  import opened Provenance

  // ---- which requests are pending ----

  /** The action consumes a request that was issued before. */
  ghost predicate Takes(t: State, a: Action, kind: Kind, key: string) {
    && (kind, key) in t.issued
    && if kind == Saml
       then a.TakeSaml? && At(t, a.h).Marked? && At(t, a.h).claims.inResponseTo == key
            && At(t, a.h).tenant == t.issued[(kind, key)].tenant
       else a.TakeOidc? && At(t, a.h).Arrived? && At(t, a.h).state == key
  }

  ghost predicate Taken(s: State, actions: seq<Action>, kind: Kind, key: string) {
    exists k :: 0 <= k < |actions| && Takes(Run(s, actions[..k]), actions[k], kind, key)
  }

  lemma {:induction false} TakenMore(s: State, actions: seq<Action>, a: Action, kind: Kind, key: string)
    ensures Taken(s, actions + [a], kind, key) <==>
            Taken(s, actions, kind, key) || Takes(Run(s, actions), a, kind, key)
  {
    var all, n := actions + [a], |actions|;
    assert all[..n] == actions && all[n] == a;
    forall k | 0 <= k < n
      ensures Takes(Run(s, all[..k]), all[k], kind, key) <==> Takes(Run(s, actions[..k]), actions[k], kind, key)
    {
      StartsAlike(actions, a, k);
    }
    if Takes(Run(s, actions), a, kind, key) { assert Takes(Run(s, all[..n]), all[n], kind, key); }
    if Taken(s, actions, kind, key) {
      var k :| 0 <= k < |actions| && Takes(Run(s, actions[..k]), actions[k], kind, key);
      assert Takes(Run(s, all[..k]), all[k], kind, key);
    }
  }

  /** The row a request has as long as it is pending. */
  ghost function PendingRow(issued: map<(Kind, string), Issue>, kind: Kind, key: string,
                            gone: bool): Option<(string, string, Time)> {
    if (kind, key) !in issued || gone then None
    else
      var i := issued[(kind, key)];
      Some((i.tenant, i.nonce, i.at + 10 * MINUTE))
  }

  /** What holds of a request before or after a step. */
  ghost predicate RowIs(t: State, kind: Kind, key: string, gone: bool) {
    && RowAt(t.db, kind, key) == PendingRow(t.issued, kind, key, gone)
    && ((kind, key) !in t.issued ==> !gone)
  }

  lemma {:induction false} IssuePending(t: State, a: Action, kind: Kind, key: string, gone: bool)
    requires RowIs(t, kind, key, gone) && (a.LoginSaml? || a.LoginOidc?)
    ensures RowIs(Do(t, a), kind, key, gone)
  {
  }

  lemma {:induction false} TakeSamlPending(t: State, a: Action, kind: Kind, key: string, gone: bool)
    requires OneUse(t) && RowIs(t, kind, key, gone) && a.TakeSaml?
    ensures RowIs(Do(t, a), kind, key, gone || Takes(t, a, kind, key))
  {
    var x := At(t, a.h);
    assert RowAt(t.db, kind, key).Some? ==> (kind, key) in t.issued;
    if x.Marked? {
      assert Do(t, a).db == t.db.(saml := AfterTakeSaml(t.db.saml, x.claims.inResponseTo, x.tenant));
      assert Do(t, a).issued == t.issued;
    }
  }

  lemma {:induction false} TakeOidcPending(t: State, a: Action, kind: Kind, key: string, gone: bool)
    requires OneUse(t) && RowIs(t, kind, key, gone) && a.TakeOidc?
    ensures RowIs(Do(t, a), kind, key, gone || Takes(t, a, kind, key))
  {
    var x := At(t, a.h);
    assert RowAt(t.db, kind, key).Some? ==> (kind, key) in t.issued;
    if x.Arrived? {
      assert Do(t, a).db == t.db.(oidc := AfterTakeOidc(t.db.oidc, x.state));
      assert Do(t, a).issued == t.issued;
    }
  }

  lemma {:induction false} OthersPending(t: State, a: Action)
    requires !a.LoginSaml? && !a.LoginOidc? && !a.TakeSaml? && !a.TakeOidc?
    ensures Do(t, a).issued == t.issued && Do(t, a).db.saml == t.db.saml && Do(t, a).db.oidc == t.db.oidc
  {
  }

  lemma {:induction false} StepPending(t: State, a: Action, kind: Kind, key: string, gone: bool)
    requires OneUse(t) && RowIs(t, kind, key, gone)
    ensures RowIs(Do(t, a), kind, key, gone || Takes(t, a, kind, key))
  {
    if a.LoginSaml? || a.LoginOidc? { IssuePending(t, a, kind, key, gone); }
    else if a.TakeSaml? { TakeSamlPending(t, a, kind, key, gone); }
    else if a.TakeOidc? { TakeOidcPending(t, a, kind, key, gone); }
    else { OthersPending(t, a); }
  }

  lemma {:induction false} Pending(s: State, actions: seq<Action>, kind: Kind, key: string)
    requires Initial(s)
    ensures RowIs(Run(s, actions), kind, key, Taken(s, actions, kind, key))
  {
    if actions != [] {
      var n := |actions| - 1;
      Pending(s, actions[..n], kind, key);
      RunOneUse(s, actions[..n]);
      StepPending(Run(s, actions[..n]), actions[n], kind, key, Taken(s, actions[..n], kind, key));
      TakenMore(s, actions[..n], actions[n], kind, key);
      assert actions == actions[..n] + [actions[n]];
    }
  }

  /** A request is issued by a login of the tenant, at the clock it ran at. */
  ghost predicate IssuedBy(s: State, actions: seq<Action>, kind: Kind, key: string, i: Issue) {
    exists k :: 0 <= k < |actions| && (kind, key) !in Run(s, actions[..k]).issued && i.at == Run(s, actions[..k]).clock
                && match actions[k]
                   case LoginSaml(tenant, id, _) => kind == Saml && key == id && i.tenant == tenant && i.nonce == ""
                   case LoginOidc(tenant, id, nonce, _, _) =>
                     kind == Oidc && key == id && i.tenant == tenant && i.nonce == nonce != ""
                   case _ => false
  }

  lemma {:induction false} IssueStays(s: State, actions: seq<Action>, a: Action, kind: Kind, key: string, i: Issue)
    requires IssuedBy(s, actions, kind, key, i)
    ensures IssuedBy(s, actions + [a], kind, key, i)
  {
    var k :| 0 <= k < |actions| && (kind, key) !in Run(s, actions[..k]).issued && i.at == Run(s, actions[..k]).clock
             && match actions[k]
                case LoginSaml(tenant, id, _) => kind == Saml && key == id && i.tenant == tenant && i.nonce == ""
                case LoginOidc(tenant, id, nonce, _, _) =>
                  kind == Oidc && key == id && i.tenant == tenant && i.nonce == nonce != ""
                case _ => false;
    StartsAlike(actions, a, k);
    assert (actions + [a])[k] == actions[k];
  }

  lemma {:induction false} IssueStep(t: State, a: Action, kind: Kind, key: string)
    ensures (kind, key) in t.issued ==>
              (kind, key) in Do(t, a).issued && Do(t, a).issued[(kind, key)] == t.issued[(kind, key)]
    ensures (kind, key) in Do(t, a).issued && (kind, key) !in t.issued ==>
              var i := Do(t, a).issued[(kind, key)];
              && i.at == t.clock
              && match a
                 case LoginSaml(tenant, id, _) => kind == Saml && key == id && i.tenant == tenant && i.nonce == ""
                 case LoginOidc(tenant, id, nonce, _, _) =>
                   kind == Oidc && key == id && i.tenant == tenant && i.nonce == nonce != ""
                 case _ => false
  {
  }

  lemma {:induction false} Issued(s: State, actions: seq<Action>, kind: Kind, key: string)
    requires Initial(s) && (kind, key) in Run(s, actions).issued
    ensures IssuedBy(s, actions, kind, key, Run(s, actions).issued[(kind, key)])
  {
    var n := |actions| - 1;
    var init, a := actions[..n], actions[n];
    IssueStep(Run(s, init), a, kind, key);
    assert actions == init + [a];
    if (kind, key) in Run(s, init).issued {
      Issued(s, init, kind, key);
      IssueStays(s, init, a, kind, key, Run(s, init).issued[(kind, key)]);
    } else {
      assert actions[..n] == init && actions[n] == a;
    }
  }

  /** In every run a request can be answered exactly from its login on until it is consumed: the row that is there
      then has the tenant and the nonce of that login and expires ten minutes after it. */
  lemma {:induction false} PendingExactly(s: State, actions: seq<Action>, kind: Kind, key: string)
    requires Initial(s)
    ensures
      var t := Run(s, actions);
      && (RowAt(t.db, kind, key).Some? <==> (kind, key) in t.issued && !Taken(s, actions, kind, key))
      && (RowAt(t.db, kind, key).Some? ==>
          var (tenant, nonce, expires) := RowAt(t.db, kind, key).value;
          expires >= 10 * MINUTE && IssuedBy(s, actions, kind, key, Issue(tenant, nonce, expires - 10 * MINUTE)))
  {
    Pending(s, actions, kind, key);
    if (kind, key) in Run(s, actions).issued { Issued(s, actions, kind, key); }
  }

  // ---- one login from start to end ----

  /** The request the claims answer is pending for the tenant. */
  predicate AnswersPending(t: State, tenant: string, c: Claims) {
    && c.inResponseTo in t.db.saml && t.db.saml[c.inResponseTo].tenant == tenant
    && t.clock <= t.db.saml[c.inResponseTo].expires
  }

  /** The session that a response with these claims leads to. */
  function SamlSession(t: State, tenant: string, c: Claims, id: string, user: string, attributes: string): Made {
    Made(id, SessionRow(tenant, user, c.subject, attributes, "saml", t.clock, t.clock + 8 * HOUR),
         if AnswersPending(t, tenant, c) then Some(Ticket(Saml, c.inResponseTo, tenant, "", t.clock)) else None, "")
  }

  lemma {:induction false} AfterMarked(t: State, h: nat, tenant: string, c: Claims, id: string, user: string,
                                       attributes: string)
    requires At(t, h) == Marked(tenant, c)
    ensures Do(Do(t, TakeSaml(h)), Finish(h, id, user, attributes)).made ==
            if (c.inResponseTo != "" && !AnswersPending(t, tenant, c)) || id in t.db.sessions then t.made
            else t.made + [SamlSession(t, tenant, c, id, user, attributes)]
  {
  }

  lemma {:induction false} AfterOver(t: State, h: nat, id: string, user: string, attributes: string)
    requires At(t, h) == Over
    ensures Do(Do(t, TakeSaml(h)), Finish(h, id, user, attributes)).made == t.made
  {
  }

  /** A response handled without interruption ends in a session exactly when its assertion was not used before, it
      answers no request or a pending one of the tenant, and the session identifier is free; the session is
      then for the assertion's subject. */
  lemma {:induction false} SamlLogin(s: State, before: seq<Action>, h: nat, tenant: string, c: Claims, id: string,
                                     user: string, attributes: string)
    requires h !in Run(s, before).handlers && Accepts(Run(s, before), c)
    ensures
      var t := Run(s, before);
      Run(s, before + Handling(h, tenant, c) + [TakeSaml(h)] + [Finish(h, id, user, attributes)]).made ==
      if || UsedBefore(t.db.used, (tenant, c.id), t.clock)
         || (c.inResponseTo != "" && !AnswersPending(t, tenant, c))
         || id in t.db.sessions
      then t.made else t.made + [SamlSession(t, tenant, c, id, user, attributes)]
  {
    var marked := before + Handling(h, tenant, c);
    HandlingEnds(s, before, h, tenant, c);
    RunMore(s, marked, TakeSaml(h));
    RunMore(s, marked + [TakeSaml(h)], Finish(h, id, user, attributes));
    ThenAnswered(Run(s, before), Run(s, marked), h, tenant, c, id, user, attributes);
  }

  lemma {:induction false} ThenAnswered(t: State, t': State, h: nat, tenant: string, c: Claims, id: string,
                                        user: string, attributes: string)
    requires t'.clock == t.clock && t'.db.saml == t.db.saml && t'.db.sessions == t.db.sessions && t'.made == t.made
    requires At(t', h) == if UsedBefore(t.db.used, (tenant, c.id), t.clock) then Over else Marked(tenant, c)
    ensures Do(Do(t', TakeSaml(h)), Finish(h, id, user, attributes)).made ==
            if || UsedBefore(t.db.used, (tenant, c.id), t.clock)
               || (c.inResponseTo != "" && !AnswersPending(t, tenant, c))
               || id in t.db.sessions
            then t.made else t.made + [SamlSession(t, tenant, c, id, user, attributes)]
  {
    if UsedBefore(t.db.used, (tenant, c.id), t.clock) {
      AfterOver(t', h, id, user, attributes);
    } else {
      AfterMarked(t', h, tenant, c, id, user, attributes);
    }
  }

  /** A callback handled without interruption ends in a session exactly when its state is pending for the tenant, the
      token names a subject and carries the nonce sent, and the session identifier is free. */
  lemma {:induction false} OidcLogin(t: State, h: nat, tenant: string, state: string, nonce: string, subject: string,
                                     id: string, user: string, attributes: string)
    requires h !in t.handlers && state != ""
    ensures
      var pending := state in t.db.oidc && t.db.oidc[state].tenant == tenant && t.clock <= t.db.oidc[state].expires;
      var sent := if pending then t.db.oidc[state].nonce else "";
      var row := SessionRow(tenant, user, subject, attributes, "oidc", t.clock, t.clock + 8 * HOUR);
      var taken := Do(Do(t, StartCallback(h, tenant, state)), TakeOidc(h));
      Do(Do(taken, CheckToken(h, nonce, subject)), Finish(h, id, user, attributes)).made ==
      if !pending || subject == "" || (sent != "" && nonce != sent) || id in t.db.sessions then t.made
      else t.made + [Made(id, row, Some(Ticket(Oidc, state, tenant, sent, t.clock)), nonce)]
  {
    var started := Do(t, StartCallback(h, tenant, state));
    assert started == Move(t, h, Arrived(tenant, state));
    var taken := Do(started, TakeOidc(h));
    assert taken == DoTakeOidc(started, h, Arrived(tenant, state));
    CheckAndFinish(taken, h, nonce, subject, id, user, attributes);
  }

  lemma {:induction false} CheckAndFinish(t: State, h: nat, nonce: string, subject: string, id: string, user: string,
                                          attributes: string)
    requires At(t, h).Over? || (At(t, h).Consumed? && At(t, h).ticket.Some?)
    ensures
      var x := At(t, h);
      var made := Do(Do(t, CheckToken(h, nonce, subject)), Finish(h, id, user, attributes)).made;
      && (x.Over? ==> made == t.made)
      && (x.Consumed? ==>
          var sent := x.ticket.value.nonce;
          var row := SessionRow(x.tenant, user, subject, attributes, "oidc", t.clock, t.clock + 8 * HOUR);
          made == if subject == "" || (sent != "" && nonce != sent) || id in t.db.sessions then t.made
                  else t.made + [Made(id, row, x.ticket, nonce)])
  {
  }

  // ---- the session table ----

  /** A session that was made is in the table as it was made, at least until it expires. */
  ghost predicate Kept(t: State) {
    forall i :: 0 <= i < |t.made| ==>
      t.made[i].row.expires < t.clock || (t.made[i].id in t.db.sessions && t.db.sessions[t.made[i].id] == t.made[i].row)
  }

  lemma {:induction false} FinishKeeps(t: State, h: nat, x: Handler, id: string, user: string, attributes: string)
    requires Kept(t) && At(t, h) == x && (x.Answered? || x.Checked?)
    ensures Kept(DoFinish(t, h, x, id, user, attributes))
  {
    var t', n := DoFinish(t, h, x, id, user, attributes), |t.made|;
    assert forall i :: 0 <= i < n ==> t'.made[i] == t.made[i];
  }

  lemma {:induction false} StepKeeps(t: State, a: Action)
    requires Kept(t)
    ensures Kept(Do(t, a))
  {
    match a
    case Finish(h, id, u, att) =>
      if At(t, h).Answered? || At(t, h).Checked? { FinishKeeps(t, h, At(t, h), id, u, att); }
    case _ =>
  }

  lemma {:induction false} RunKeeps(s: State, actions: seq<Action>)
    requires Initial(s)
    ensures Kept(Run(s, actions))
  {
    if actions != [] {
      RunKeeps(s, actions[..|actions| - 1]);
      StepKeeps(Run(s, actions[..|actions| - 1]), actions[|actions| - 1]);
    }
  }

  /** In every run a cookie is good for a session exactly when that session was made and has not expired. */
  lemma {:induction false} SessionsExactly(s: State, actions: seq<Action>, id: string, row: SessionRow)
    requires Initial(s)
    ensures
      var t := Run(s, actions);
      Fetched(t.db.sessions, id, t.clock) == Some(row) <==>
      t.clock <= row.expires && exists i :: 0 <= i < |t.made| && t.made[i].id == id && t.made[i].row == row
  {
    RunKeeps(s, actions);
    RunFits(s, actions);
    var t := Run(s, actions);
    if id in t.db.sessions { assert WasMade(t.made, id, t.db.sessions[id]); }
  }
}
