/** The session, pending-request and used-assertion tables, and the methods that change them. */
module SessionStore {
  import opened Text
  import opened Timestamp

  datatype SamlRow = SamlRow(tenant: string, relayState: string, expires: Time)

  datatype OidcRow = OidcRow(tenant: string, nonce: string, verifier: string, relayState: string, expires: Time)

  /** `attributes` is the JSON text of what the login said about the user. */
  datatype SessionRow = SessionRow(
    tenant: string, user: string, subject: string, attributes: string, authMethod: string, created: Time, expires: Time)

  /** Each table under its primary key. Expiry of a used assertion is kept as the text that is compared. */
  datatype Tables = Tables(
    used: map<(string, string), string>,
    saml: map<string, SamlRow>,
    oidc: map<string, OidcRow>,
    sessions: map<string, SessionRow>)

  const REQUEST_TTL: nat := 10 * MINUTE
  const SESSION_TTL: nat := 8 * HOUR

  /** DELETE ... WHERE expires_at < now, on text. */
  function PurgeUsed(used: map<(string, string), string>, now: Time): (r: map<(string, string), string>)
    ensures forall k :: k in r <==> k in used && !Less(used[k], Format(now))
    ensures forall k :: k in r ==> r[k] == used[k]
  {
    map k | k in used && !Less(used[k], Format(now)) :: used[k]
  }

  /** INSERT, which a row with the same key refuses. */
  function InsertUsed(used: map<(string, string), string>, key: (string, string),
                      expires: Time): Option<map<(string, string), string>> {
    if key in used then None else Some(used[key := Format(expires)])
  }

  /** Purge and insert: the assertion was recorded before, and the table afterwards. */
  predicate UsedBefore(used: map<(string, string), string>, key: (string, string), now: Time) {
    key in PurgeUsed(used, now)
  }

  function AfterMark(used: map<(string, string), string>, key: (string, string), expires: Time,
                     now: Time): map<(string, string), string> {
    var inserted := InsertUsed(PurgeUsed(used, now), key, expires);
    if inserted.Some? then inserted.value else PurgeUsed(used, now)
  }

  function AfterPutSaml(saml: map<string, SamlRow>, id: string, row: SamlRow): map<string, SamlRow> {
    if id in saml then saml else saml[id := row]
  }

  function AfterPutOidc(oidc: map<string, OidcRow>, state: string, row: OidcRow): map<string, OidcRow> {
    if state in oidc then oidc else oidc[state := row]
  }

  function AfterCreate(sessions: map<string, SessionRow>, id: string, row: SessionRow): map<string, SessionRow> {
    if id in sessions then sessions else sessions[id := row]
  }

  /** The pending request a SAML response may answer: of its tenant, and not expired. */
  function LiveSaml(saml: map<string, SamlRow>, id: string, tenant: string, now: Time): Option<SamlRow> {
    if id in saml && saml[id].tenant == tenant && now <= saml[id].expires then Some(saml[id]) else None
  }

  function AfterTakeSaml(saml: map<string, SamlRow>, id: string, tenant: string): map<string, SamlRow> {
    if id in saml && saml[id].tenant == tenant then saml - {id} else saml
  }

  function AfterTakeOidc(oidc: map<string, OidcRow>, state: string): map<string, OidcRow> { oidc - {state} }

  function LiveOidc(oidc: map<string, OidcRow>, state: string, now: Time): Option<OidcRow> {
    if state in oidc && now <= oidc[state].expires then Some(oidc[state]) else None
  }

  class Store {
    var db: Tables

    /** Tells whether the assertion was recorded before, and records it if not. */
    method MarkAssertionUsed(tenant: string, assertionID: string, expires: Time, now: Time) returns (usedBefore: bool)
      modifies this
      ensures usedBefore <==> UsedBefore(old(db.used), (tenant, assertionID), now)
      ensures db == old(db).(used := AfterMark(old(db.used), (tenant, assertionID), expires, now))
      ensures var key := (tenant, assertionID);
              && (usedBefore <==> key in old(db.used) && !Less(old(db.used)[key], Format(now)))
              && (!usedBefore ==> key in db.used && db.used[key] == Format(expires))
              && forall k :: k != key || usedBefore ==>
                   (k in db.used <==> k in old(db.used) && !Less(old(db.used)[k], Format(now)))
                   && (k in db.used ==> db.used[k] == old(db.used)[k])
    {
      db := db.(used := PurgeUsed(db.used, now));
      var inserted := InsertUsed(db.used, (tenant, assertionID), expires);
      if inserted.None? {
        return true;
      }
      db := db.(used := inserted.value);
      return false;
    }

    /** Fails when the ID is already pending. */
    method PutSAMLRequest(id: string, tenant: string, relayState: string, ttl: nat, now: Time) returns (ok: bool)
      modifies this
      ensures ok <==> id !in old(db.saml)
      ensures db == old(db).(saml := AfterPutSaml(old(db.saml), id, SamlRow(tenant, relayState, now + ttl)))
      ensures db.saml == if ok then old(db.saml)[id := SamlRow(tenant, relayState, now + ttl)] else old(db.saml)
    {
      if id in db.saml {
        return false;
      }
      db := db.(saml := db.saml[id := SamlRow(tenant, relayState, now + ttl)]);
      return true;
    }

    /** Consumes a pending request of the tenant, expired or not, and tells whether it was still good. */
    method TakeSAMLRequest(id: string, tenant: string, now: Time) returns (relayState: string, ok: bool)
      modifies this
      ensures ok == LiveSaml(old(db.saml), id, tenant, now).Some?
      ensures relayState == if ok then LiveSaml(old(db.saml), id, tenant, now).value.relayState else ""
      ensures db == old(db).(saml := AfterTakeSaml(old(db.saml), id, tenant))
      ensures ok <==> id in old(db.saml) && old(db.saml)[id].tenant == tenant && now <= old(db.saml)[id].expires
      ensures db.saml == if id in old(db.saml) && old(db.saml)[id].tenant == tenant then old(db.saml) - {id}
                         else old(db.saml)
      ensures ok ==> relayState == old(db.saml)[id].relayState
    {
      if !(id in db.saml && db.saml[id].tenant == tenant) {
        return "", false;
      }
      var row := db.saml[id];
      db := db.(saml := db.saml - {id});
      if now > row.expires {
        return "", false;
      }
      return row.relayState, true;
    }

    method PutOIDCRequest(state: string, row: OidcRow, ttl: nat, now: Time) returns (ok: bool)
      modifies this
      ensures ok <==> state !in old(db.oidc)
      ensures db == old(db).(oidc := AfterPutOidc(old(db.oidc), state, row.(expires := now + ttl)))
      ensures db.oidc == if ok then old(db.oidc)[state := row.(expires := now + ttl)] else old(db.oidc)
    {
      if state in db.oidc {
        return false;
      }
      db := db.(oidc := db.oidc[state := row.(expires := now + ttl)]);
      return true;
    }

    /** Consumes a pending request whatever tenant it is of; the caller compares tenants afterwards. */
    method TakeOIDCRequest(state: string, now: Time) returns (row: Option<OidcRow>)
      modifies this
      ensures row == LiveOidc(old(db.oidc), state, now)
      ensures db == old(db).(oidc := AfterTakeOidc(old(db.oidc), state))
      ensures db.oidc == old(db.oidc) - {state}
      ensures row.Some? <==> state in old(db.oidc) && now <= old(db.oidc)[state].expires
      ensures row.Some? ==> row.value == old(db.oidc)[state]
    {
      if state !in db.oidc {
        assert db.oidc - {state} == db.oidc;
        return None;
      }
      var r := db.oidc[state];
      db := db.(oidc := db.oidc - {state});
      return if now > r.expires then None else Some(r);
    }

    method CreateSession(id: string, row: SessionRow, ttl: nat, now: Time) returns (ok: bool)
      modifies this
      ensures ok <==> id !in old(db.sessions)
      ensures db == old(db).(sessions := AfterCreate(old(db.sessions), id, row.(created := now, expires := now + ttl)))
      ensures db.sessions == if ok then old(db.sessions)[id := row.(created := now, expires := now + ttl)]
                             else old(db.sessions)
    {
      if id in db.sessions {
        return false;
      }
      db := db.(sessions := db.sessions[id := row.(created := now, expires := now + ttl)]);
      return true;
    }

    /** Returns a session that has not expired, and deletes one that has. */
    method GetSession(id: string, now: Time) returns (row: Option<SessionRow>)
      modifies this
      ensures row == Fetched(old(db.sessions), id, now)
      ensures db == old(db).(sessions := AfterFetch(old(db.sessions), id, now))
      ensures row.Some? <==> id in old(db.sessions) && now <= old(db.sessions)[id].expires
      ensures row.Some? ==> row.value == old(db.sessions)[id] && db == old(db)
      ensures row.None? ==> db.sessions == old(db.sessions) - {id}
    {
      if id !in db.sessions {
        return None;
      }
      var r := db.sessions[id];
      if now > r.expires {
        db := db.(sessions := db.sessions - {id});
        return None;
      }
      return Some(r);
    }
  }

  function Fetched(sessions: map<string, SessionRow>, id: string, now: Time): Option<SessionRow> {
    if id in sessions && now <= sessions[id].expires then Some(sessions[id]) else None
  }

  function AfterFetch(sessions: map<string, SessionRow>, id: string, now: Time): map<string, SessionRow> {
    if id in sessions && now > sessions[id].expires then sessions - {id} else sessions
  }
}
