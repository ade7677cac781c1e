/** Reading a verified assertion: what is read, how it is judged, and what acceptance means. */
module Response {
  import opened Text
  import opened Xml
  import opened Document
  import opened Canon
  import opened Signature

  // ---- what is read ----

  datatype Confirmation = Confirmation(recipient: Option<string>, inResponseTo: Option<string>,
                                       notOnOrAfter: Option<string>)

  /** `audiences` is nothing when there is no AudienceRestriction. */
  datatype Conditions = Conditions(notBefore: Option<string>, notOnOrAfter: Option<string>,
                                   audiences: Option<seq<string>>)

  datatype NameID = NameID(text: string, format: string)

  datatype Statement = Statement(name: string, values: seq<string>)

  /** Everything ParseAndVerifyResponse takes from an assertion. */
  datatype Reading = Reading(
    id: string,
    issuer: string,
    subject: Option<Option<NameID>>,
    confirmation: Option<Confirmation>,
    conditions: Option<Conditions>,
    attributes: seq<Statement>)

  function AttributeOf(n: Node, local: string): Option<string> { AttrValue(n.tag.el.attrs, local) }

  function OrEmpty(v: Option<string>): string { if v.Some? then v.value else "" }

  function ReadIssuer(a: Node): string {
    var n := Child(a, SAML, "Issuer");
    if n.Some? then TrimmedText(n.value) else ""
  }

  function ReadSubject(a: Node): Option<Option<NameID>> {
    var s := Child(a, SAML, "Subject");
    if s.None? then None
    else
      var n := Child(s.value, SAML, "NameID");
      Some(if n.Some? then Some(NameID(TrimmedText(n.value), OrEmpty(AttributeOf(n.value, "Format")))) else None)
  }

  /** findSubjectConfirmationData, and the attributes read there. */
  function ReadConfirmation(a: Node): Option<Confirmation> {
    var s := Child(a, SAML, "Subject");
    if s.None? then None
    else
      var c := Child(s.value, SAML, "SubjectConfirmation");
      if c.None? then None
      else
        var d := Child(c.value, SAML, "SubjectConfirmationData");
        if d.None? then None
        else Some(Confirmation(AttributeOf(d.value, "Recipient"), AttributeOf(d.value, "InResponseTo"),
                               AttributeOf(d.value, "NotOnOrAfter")))
  }

  function Texts(ns: seq<Node>): seq<string> {
    if ns == [] then [] else [TrimmedText(ns[0])] + Texts(ns[1..])
  }

  function ReadConditions(a: Node): Option<Conditions> {
    var c := Child(a, SAML, "Conditions");
    if c.None? then None
    else
      var r := Child(c.value, SAML, "AudienceRestriction");
      Some(Conditions(AttributeOf(c.value, "NotBefore"), AttributeOf(c.value, "NotOnOrAfter"),
                      if r.None? then None else Some(Texts(Descendants(r.value, SAML, "Audience")))))
  }

  function AttributeName(n: Node): string {
    if OrEmpty(AttributeOf(n, "Name")) == "" then OrEmpty(AttributeOf(n, "FriendlyName"))
        else OrEmpty(AttributeOf(n, "Name"))
  }

  function AttributesIn(ns: seq<Node>): seq<Statement> {
    if ns == [] then []
    else [Statement(AttributeName(ns[0]), Texts(Descendants(ns[0], SAML, "AttributeValue")))] + AttributesIn(ns[1..])
  }

  function Statements(ns: seq<Node>): seq<Statement> {
    if ns == [] then [] else AttributesIn(Descendants(ns[0], SAML, "Attribute")) + Statements(ns[1..])
  }

  function Read(a: Node): Reading {
    Reading(OrEmpty(AttributeOf(a, "ID")), ReadIssuer(a), ReadSubject(a), ReadConfirmation(a), ReadConditions(a),
            Statements(Descendants(a, SAML, "AttributeStatement")))
  }

  // ---- how it is judged ----

  /** The caller's expectations and the clock. */
  datatype Settings = Settings(
    entityID: string, acsURL: string, requestID: string, now: int, skew: int, parseTime: string -> Option<int>)

  datatype Assertion = Assertion(
    id: string, nameID: string, nameIDFormat: string, issuer: string, inResponseTo: string,
    notBefore: Option<int>, notOnOrAfter: int, attributes: map<string, seq<string>>)

  datatype ResponseError =
    | BadSignatures(why: VerifyError)
    | WrongDestination | NoSubject | NoNameID | NoConfirmationData | WrongRecipient
    | BadConfirmationTime | ConfirmationExpired | WrongInResponseTo
    | NoConditions | BadNotBefore | NotYetValid | BadNotOnOrAfter | Expired | NoNotOnOrAfter
    | NoAudienceRestriction | WrongAudience

  datatype Result = Claims(assertion: Assertion) | Refused(error: ResponseError)

  function Collect(attributes: seq<Statement>): map<string, seq<string>> {
    if attributes == [] then map[]
    else
      var n := |attributes| - 1;
      var m, a := Collect(attributes[..n]), attributes[n];
      if a.name == "" then m else m[a.name := (if a.name in m then m[a.name] else []) + a.values]
  }

  /** The checks on the subject confirmation, in the order they are made. */
  function ConfirmationError(s: Settings, c: Option<Confirmation>): Option<ResponseError> {
    if c.None? then Some(NoConfirmationData)
    else if c.value.recipient.Some? && c.value.recipient.value != s.acsURL then Some(WrongRecipient)
    else if c.value.notOnOrAfter.Some? && s.parseTime(c.value.notOnOrAfter.value).None? then Some(BadConfirmationTime)
    else if c.value.notOnOrAfter.Some?
        && s.now > s.parseTime(c.value.notOnOrAfter.value).value + s.skew then Some(ConfirmationExpired)
    else if s.requestID != "" && OrEmpty(c.value.inResponseTo) != s.requestID then Some(WrongInResponseTo)
    else None
  }

  function ConditionsError(s: Settings, c: Option<Conditions>): Option<ResponseError> {
    if c.None? then Some(NoConditions)
    else if c.value.notBefore.Some? && s.parseTime(c.value.notBefore.value).None? then Some(BadNotBefore)
    else if c.value.notBefore.Some?
        && s.now + s.skew < s.parseTime(c.value.notBefore.value).value then Some(NotYetValid)
    else if c.value.notOnOrAfter.None? then Some(NoNotOnOrAfter)
    else if s.parseTime(c.value.notOnOrAfter.value).None? then Some(BadNotOnOrAfter)
    else if s.now > s.parseTime(c.value.notOnOrAfter.value).value + s.skew then Some(Expired)
    else if c.value.audiences.None? then Some(NoAudienceRestriction)
    else if s.entityID !in c.value.audiences.value then Some(WrongAudience)
    else None
  }

  /** The claims of a reading, or the first check it fails. */
  function Judge(s: Settings, r: Reading): Result {
    if r.subject.None? then Refused(NoSubject)
    else if r.subject.value.None? || r.subject.value.value.text == "" then Refused(NoNameID)
    else if ConfirmationError(s, r.confirmation).Some? then Refused(ConfirmationError(s, r.confirmation).value)
    else if ConditionsError(s, r.conditions).Some? then Refused(ConditionsError(s, r.conditions).value)
    else
      var n, c := r.subject.value.value, r.conditions.value;
      Claims(Assertion(r.id, n.text, n.format, r.issuer, OrEmpty(r.confirmation.value.inResponseTo),
                       if c.notBefore.Some? then Some(s.parseTime(c.notBefore.value).value) else None,
                       s.parseTime(c.notOnOrAfter.value).value, Collect(r.attributes)))
  }

  /** The check on the Response's own tag, and then those on the reading. */
  function Decide(s: Settings, destination: Option<string>, r: Reading): Result {
    if destination.Some? && destination.value != s.acsURL then Refused(WrongDestination) else Judge(s, r)
  }

  /** What ParseAndVerifyResponse reports for a decoded document. */
  ghost function ParseAndVerify(c: Crypto, cert: Certificate, s: Settings, f: Forest<Tag>): Result
    requires AllAligned(f)
  {
    match Verify(c, cert, f)
    case Failed(why) => Refused(BadSignatures(why))
    case Verified(a, root) => Decide(s, AttributeOf(root, "Destination"), Read(a))
  }

  // ---- what acceptance means ----

  /** An attribute that must match when it is there. */
  predicate MatchesIfPresent(attribute: Option<string>, value: string) { attribute == Some(value) <==> attribute.Some? }

  /** A time that is in the future, up to the skew. */
  predicate NotPast(s: Settings, text: string) { s.parseTime(text).Some? && s.now <= s.parseTime(text).value + s.skew }

  predicate ConfirmationMeans(s: Settings, c: Option<Confirmation>, inResponseTo: string) {
    && c.Some? && MatchesIfPresent(c.value.recipient, s.acsURL)
    && (c.value.notOnOrAfter.Some? ==> NotPast(s, c.value.notOnOrAfter.value))
    && inResponseTo == OrEmpty(c.value.inResponseTo)
    && (s.requestID != "" ==> inResponseTo == s.requestID)
  }

  predicate ConditionsMean(s: Settings, c: Option<Conditions>, claims: Assertion) {
    && c.Some? && c.value.notOnOrAfter.Some? && NotPast(s, c.value.notOnOrAfter.value)
    && Some(claims.notOnOrAfter) == s.parseTime(c.value.notOnOrAfter.value)
    && (c.value.notBefore.Some? <==> claims.notBefore.Some?)
    && (claims.notBefore.Some? ==>
        claims.notBefore == s.parseTime(c.value.notBefore.value) && claims.notBefore.value <= s.now + s.skew)
    && c.value.audiences.Some? && s.entityID in c.value.audiences.value
  }

  /** The reading is accepted with some claims exactly when it has a named subject and the confirmation and
      the conditions say what they should. */
  lemma {:induction false} JudgedMeans(s: Settings, r: Reading, claims: Assertion)
    ensures Judge(s, r) == Claims(claims) <==>
              && r.subject.Some? && r.subject.value.Some?
              && r.subject.value.value == NameID(claims.nameID, claims.nameIDFormat)
              && claims.nameID != "" && claims.id == r.id && claims.issuer == r.issuer
              && claims.attributes == Collect(r.attributes)
              && ConfirmationMeans(s, r.confirmation, claims.inResponseTo) && ConditionsMean(s, r.conditions, claims)
  {
  }

  /** Some Audience of the first AudienceRestriction of the first Conditions has this text. */
  ghost predicate AudienceNamed(a: Node, entityID: string) {
    exists cond, ar ::
      && Child(a, SAML, "Conditions") == Some(cond)
      && Child(cond, SAML, "AudienceRestriction") == Some(ar)
      && entityID in Texts(Descendants(ar, SAML, "Audience"))
  }

  lemma {:induction false} AudienceRead(a: Node, entityID: string)
    requires
      var c := ReadConditions(a);
      c.Some? && c.value.audiences.Some? && entityID in c.value.audiences.value
    ensures AudienceNamed(a, entityID)
  {
    var cond := Child(a, SAML, "Conditions").value;
    var ar := Child(cond, SAML, "AudienceRestriction").value;
    assert Child(a, SAML, "Conditions") == Some(cond) && Child(cond, SAML, "AudienceRestriction") == Some(ar);
  }

  /** A response is accepted exactly when its signatures verify, its Destination, if there is one, is this
      endpoint, and its assertion is acceptable: Recipient, if there is one, is this endpoint too, both
      expiry times and the start of validity hold up to the skew, the audience is this service provider,
      and it answers the request that was sent. */
  lemma {:induction false} AcceptedMeans(c: Crypto, cert: Certificate, s: Settings, f: Forest<Tag>, claims: Assertion)
    requires AllAligned(f)
    ensures ParseAndVerify(c, cert, s, f) == Claims(claims) <==>
              && Verify(c, cert, f).Verified?
              && MatchesIfPresent(AttributeOf(Verify(c, cert, f).response, "Destination"), s.acsURL)
              && var r := Read(Verify(c, cert, f).assertion);
                 && r.subject.Some? && r.subject.value == Some(NameID(claims.nameID, claims.nameIDFormat))
                 && claims.nameID != "" && claims.id == r.id && claims.issuer == r.issuer
                 && claims.attributes == Collect(r.attributes)
                 && ConfirmationMeans(s, r.confirmation, claims.inResponseTo) && ConditionsMean(s, r.conditions, claims)
    ensures ParseAndVerify(c, cert, s, f) == Claims(claims) ==>
            AudienceNamed(Verify(c, cert, f).assertion, s.entityID)
  {
    var v := Verify(c, cert, f);
    if v.Verified? {
      JudgedMeans(s, Read(v.assertion), claims);
      if Judge(s, Read(v.assertion)) == Claims(claims) { AudienceRead(v.assertion, s.entityID); }
    }
  }

  /** Neither Destination nor Recipient is needed: whatever is accepted with them is accepted without, with
      the same claims. Both must match exactly in the accepted responses that have both. */
  lemma {:induction false} EndpointNotNeeded(s: Settings, destination: Option<string>, r: Reading)
    requires Decide(s, destination, r).Claims?
    ensures
      var without := r.(confirmation := Some(r.confirmation.value.(recipient := None)));
      r.confirmation.Some? && Decide(s, None, without) == Decide(s, destination, r)
    ensures destination == Some(s.acsURL) && r.confirmation.value.recipient == Some(s.acsURL) <==>
            destination.Some? && r.confirmation.value.recipient.Some?
  {
  }
}
