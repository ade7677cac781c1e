/** ParseAndVerifyResponse as it runs: searches, checks in order, and attributes gathered in loops. */
module Reader {
  import opened Text
  import opened Xml
  import opened Document
  import opened Canon
  import opened Canonicalizer
  import opened Signature
  import opened Response
  import opened Acceptance
  import opened Verifier

  method OptionalAttribute(doc: XmlDoc, raw: map<nat, string>, ghost n: Node, start: nat, local: string)
    returns (value: Option<string>)
    requires Sees(doc, raw, n) && start == n.pos
    ensures value == AttributeOf(n, local)
  {
    var text, ok := AttrLookup(doc.tokens[start].el, local);
    return if ok then Some(text) else None;
  }

  lemma {:induction false} SpanAt(ns: seq<Node>, i: nat)
    requires i < |ns|
    ensures |Spans(ns)| == |ns| && Spans(ns)[i] == Span(ns[i].pos, EndOf(ns[i]))
  {
    SpansLength(ns);
    if i > 0 { SpanAt(ns[1..], i - 1); }
  }

  lemma {:induction false} HeadOf<T>(s: seq<T>, i: nat)
    requires i < |s|
    ensures s[i..] != [] && s[i..][0] == s[i] && s[i..][1..] == s[i + 1..]
  {
  }

  /** The trimmed texts of the outermost descendants of a name. */
  method ReadTexts(doc: XmlDoc, raw: map<nat, string>, ghost n: Node, start: nat, end: nat, local: string)
    returns (values: seq<string>)
    requires Sees(doc, raw, n) && start == n.pos && end == EndOf(n)
    ensures values == Texts(Descendants(n, SAML, local))
  {
    var spans := doc.FindAllDescendants(start, end, SAML, local, n);
    ghost var ns := Descendants(n, SAML, local);
    SpansLength(ns);
    DescendantsSeen(doc, raw, n, SAML, local);
    values := [];
    for i := 0 to |spans|
      invariant values + Texts(ns[i..]) == Texts(ns)
    {
      SpanAt(ns, i);
      HeadOf(ns, i);
      var text := TextAt(doc, raw, ns[i], spans[i].start, spans[i].end);
      Regroup(values, [text], Texts(ns[i + 1..]));
      values := values + [text];
    }
  }

  /** checkAudience: stops at the first match. */
  method CheckAudience(doc: XmlDoc, raw: map<nat, string>, ghost r: Node, start: nat, end: nat, entityID: string)
    returns (ok: bool)
    requires Sees(doc, raw, r) && start == r.pos && end == EndOf(r)
    ensures ok <==> entityID in Texts(Descendants(r, SAML, "Audience"))
    ensures ok <==> SomeSays(AllInSaml(r, "Audience"), entityID)
  {
    var spans := doc.FindAllDescendants(start, end, SAML, "Audience", r);
    ghost var ns := Descendants(r, SAML, "Audience");
    SomeSaysText(ns, entityID);
    SpansLength(ns);
    DescendantsSeen(doc, raw, r, SAML, "Audience");
    for i := 0 to |spans|
      invariant entityID in Texts(ns) <==> entityID in Texts(ns[i..])
    {
      SpanAt(ns, i);
      HeadOf(ns, i);
      var text := TextAt(doc, raw, ns[i], spans[i].start, spans[i].end);
      if text == entityID {
        return true;
      }
    }
    return false;
  }

  method AddAttribute(attrs: map<string, seq<string>>, name: string, values: seq<string>, ghost done: seq<Statement>)
    returns (attrs': map<string, seq<string>>)
    requires attrs == Collect(done)
    ensures attrs' == Collect(done + [Statement(name, values)])
  {
    assert (done + [Statement(name, values)])[..|done|] == done;
    if name != "" {
      return attrs[name := (if name in attrs then attrs[name] else []) + values];
    }
    return attrs;
  }

  method ReadName(doc: XmlDoc, raw: map<nat, string>, ghost n: Node, start: nat) returns (name: string)
    requires Sees(doc, raw, n) && start == n.pos
    ensures name == AttributeName(n)
  {
    var found;
    name, found := AttrLookup(doc.tokens[start].el, "Name");
    if name == "" {
      name, found := AttrLookup(doc.tokens[start].el, "FriendlyName");
    }
  }

  /** The attributes of one statement, added to those of the statements before it. */
  method ReadStatement(doc: XmlDoc, raw: map<nat, string>, ghost n: Node, start: nat, end: nat,
                       attrs: map<string, seq<string>>, ghost done: seq<Statement>)
    returns (attrs': map<string, seq<string>>)
    requires Sees(doc, raw, n) && start == n.pos && end == EndOf(n) && attrs == Collect(done)
    ensures attrs' == Collect(done + AttributesIn(Descendants(n, SAML, "Attribute")))
  {
    var spans := doc.FindAllDescendants(start, end, SAML, "Attribute", n);
    ghost var ns := Descendants(n, SAML, "Attribute");
    SpansLength(ns);
    DescendantsSeen(doc, raw, n, SAML, "Attribute");
    attrs' := attrs;
    ghost var read := [];
    assert done + read == done;
    for i := 0 to |spans|
      invariant read + AttributesIn(ns[i..]) == AttributesIn(ns) && attrs' == Collect(done + read)
    {
      SpanAt(ns, i);
      HeadOf(ns, i);
      var name := ReadName(doc, raw, ns[i], spans[i].start);
      var values := ReadTexts(doc, raw, ns[i], spans[i].start, spans[i].end, "AttributeValue");
      attrs' := AddAttribute(attrs', name, values, done + read);
      Regroup(done, read, [Statement(name, values)]);
      Regroup(read, [Statement(name, values)], AttributesIn(ns[i + 1..]));
      read := read + [Statement(name, values)];
    }
    assert read + [] == read;
  }

  method ReadAttributes(doc: XmlDoc, raw: map<nat, string>, ghost a: Node, start: nat, end: nat)
    returns (attrs: map<string, seq<string>>)
    requires Sees(doc, raw, a) && start == a.pos && end == EndOf(a)
    ensures attrs == Collect(Statements(Descendants(a, SAML, "AttributeStatement"))) && SaysAttributes(a, attrs)
  {
    var spans := doc.FindAllDescendants(start, end, SAML, "AttributeStatement", a);
    ghost var ns := Descendants(a, SAML, "AttributeStatement");
    SpansLength(ns);
    DescendantsSeen(doc, raw, a, SAML, "AttributeStatement");
    attrs := map[];
    ghost var read := [];
    for i := 0 to |spans|
      invariant read + Statements(ns[i..]) == Statements(ns) && attrs == Collect(read)
    {
      SpanAt(ns, i);
      HeadOf(ns, i);
      attrs := ReadStatement(doc, raw, ns[i], spans[i].start, spans[i].end, attrs, read);
      ghost var here := AttributesIn(Descendants(ns[i], SAML, "Attribute"));
      Regroup(read, here, Statements(ns[i + 1..]));
      read := read + here;
    }
    assert read + [] == read;
    AttributesSaid(a, attrs);
  }

  method CheckConfirmation(doc: XmlDoc, raw: map<nat, string>, s: Settings, ghost a: Node, ghost sub: Node, start: nat,
                           end: nat)
    returns (e: Option<ResponseError>, inResponseTo: string)
    requires Sees(doc, raw, sub) && start == sub.pos && end == EndOf(sub) && Child(a, SAML, "Subject") == Some(sub)
    ensures e == ConfirmationError(s, ReadConfirmation(a))
    ensures e.None? ==> ReadConfirmation(a).Some? && inResponseTo == OrEmpty(ReadConfirmation(a).value.inResponseTo)
  {
    inResponseTo := "";
    var cs, ce, ok := Find(doc, raw, sub, start, end, SAML, "SubjectConfirmation");
    if !ok { return Some(NoConfirmationData), ""; }
    ghost var c := Child(sub, SAML, "SubjectConfirmation").value;
    var ds, _, ok2 := Find(doc, raw, c, cs, ce, SAML, "SubjectConfirmationData");
    if !ok2 { return Some(NoConfirmationData), ""; }
    ghost var d := Child(c, SAML, "SubjectConfirmationData").value;
    var recipient := OptionalAttribute(doc, raw, d, ds, "Recipient");
    if recipient.Some? && recipient.value != s.acsURL { return Some(WrongRecipient), ""; }
    var irt := OptionalAttribute(doc, raw, d, ds, "InResponseTo");
    if irt.Some? { inResponseTo := irt.value; }
    var noa := OptionalAttribute(doc, raw, d, ds, "NotOnOrAfter");
    if noa.Some? {
      var t := s.parseTime(noa.value);
      if t.None? { return Some(BadConfirmationTime), ""; }
      if s.now > t.value + s.skew { return Some(ConfirmationExpired), ""; }
    }
    if s.requestID != "" && inResponseTo != s.requestID { return Some(WrongInResponseTo), ""; }
    e := None;
  }

  method CheckConditions(doc: XmlDoc, raw: map<nat, string>, s: Settings, ghost a: Node, start: nat, end: nat)
    returns (e: Option<ResponseError>, notBefore: Option<int>, notOnOrAfter: int)
    requires Sees(doc, raw, a) && start == a.pos && end == EndOf(a)
    ensures e == ConditionsError(s, ReadConditions(a))
    ensures e.None? ==>
      var c := ReadConditions(a).value;
      && notBefore == (if c.notBefore.Some? then Some(s.parseTime(c.notBefore.value).value) else None)
      && notOnOrAfter == s.parseTime(c.notOnOrAfter.value).value
  {
    notBefore, notOnOrAfter := None, 0;
    var cs, ce, ok := Find(doc, raw, a, start, end, SAML, "Conditions");
    if !ok { return Some(NoConditions), None, 0; }
    ghost var c := Child(a, SAML, "Conditions").value;
    var nb := OptionalAttribute(doc, raw, c, cs, "NotBefore");
    if nb.Some? {
      notBefore := s.parseTime(nb.value);
      if notBefore.None? { return Some(BadNotBefore), None, 0; }
      if s.now + s.skew < notBefore.value { return Some(NotYetValid), None, 0; }
    }
    var noa := OptionalAttribute(doc, raw, c, cs, "NotOnOrAfter");
    if noa.None? { return Some(NoNotOnOrAfter), None, 0; }
    var t := s.parseTime(noa.value);
    if t.None? { return Some(BadNotOnOrAfter), None, 0; }
    notOnOrAfter := t.value;
    if s.now > t.value + s.skew { return Some(Expired), None, 0; }
    var rs, re, ok2 := Find(doc, raw, c, cs, ce, SAML, "AudienceRestriction");
    if !ok2 { return Some(NoAudienceRestriction), None, 0; }
    var meant := CheckAudience(doc, raw, Child(c, SAML, "AudienceRestriction").value, rs, re, s.entityID);
    if !meant { return Some(WrongAudience), None, 0; }
    e := None;
  }

  method ReadIssuerText(doc: XmlDoc, raw: map<nat, string>, ghost a: Node, start: nat, end: nat)
    returns (issuer: string)
    requires Sees(doc, raw, a) && start == a.pos && end == EndOf(a)
    ensures issuer == ReadIssuer(a)
  {
    issuer := "";
    var iStart, iEnd, ok := Find(doc, raw, a, start, end, SAML, "Issuer");
    if ok { issuer := TextAt(doc, raw, Child(a, SAML, "Issuer").value, iStart, iEnd); }
  }

  method ReadNameID(doc: XmlDoc, raw: map<nat, string>, ghost a: Node, ghost sub: Node, start: nat, end: nat)
    returns (nameID: string, format: string)
    requires Sees(doc, raw, sub) && start == sub.pos && end == EndOf(sub) && Child(a, SAML, "Subject") == Some(sub)
    ensures ReadSubject(a).Some?
    ensures var n := ReadSubject(a).value; if n.Some? then n.value == NameID(nameID, format) else nameID == ""
  {
    nameID, format := "", "";
    var nStart, nEnd, ok := Find(doc, raw, sub, start, end, SAML, "NameID");
    if ok {
      nameID := TextAt(doc, raw, Child(sub, SAML, "NameID").value, nStart, nEnd);
      var found;
      format, found := AttrLookup(doc.tokens[nStart].el, "Format");
    }
  }

  /** The checks and fields of an assertion whose signatures hold. */
  method ReadAssertion(doc: XmlDoc, raw: map<nat, string>, s: Settings, ghost a: Node, start: nat, end: nat)
    returns (r: Result)
    requires Sees(doc, raw, a) && start == a.pos && end == EndOf(a)
    ensures r == Judge(s, Read(a))
  {
    var id, _ := AttrLookup(doc.tokens[start].el, "ID");
    var issuer := ReadIssuerText(doc, raw, a, start, end);
    var sStart, sEnd, ok := Find(doc, raw, a, start, end, SAML, "Subject");
    if !ok { return Response.Refused(NoSubject); }
    ghost var sub := Child(a, SAML, "Subject").value;
    var nameID, format := ReadNameID(doc, raw, a, sub, sStart, sEnd);
    if nameID == "" { return Response.Refused(NoNameID); }
    var e, inResponseTo := CheckConfirmation(doc, raw, s, a, sub, sStart, sEnd);
    if e.Some? { return Response.Refused(e.value); }
    var e2, notBefore, notOnOrAfter := CheckConditions(doc, raw, s, a, start, end);
    if e2.Some? { return Response.Refused(e2.value); }
    var attrs := ReadAttributes(doc, raw, a, start, end);
    return Claims(Assertion(id, nameID, format, issuer, inResponseTo, notBefore, notOnOrAfter, attrs));
  }

  /** ParseAndVerifyResponse, from the decoded document on. */
  method ParseAndVerifyResponse(c: Crypto, cert: Certificate, s: Settings, doc: XmlDoc, raw: map<nat, string>,
                                ghost f: Forest<Tag>)
    returns (r: Result)
    requires Covers(doc.tokens, doc.matchEnd, doc.nsAtStart, f, 0, map[]) && Size(f) == |doc.tokens|
    requires RawNames(raw, f, 0) && AllAligned(f)
    ensures r == ParseAndVerify(c, cert, s, f)
  {
    var verified := VerifyResponse(c, cert, doc, raw, f);
    if verified.Refused? { return Response.Refused(BadSignatures(verified.why)); }
    ghost var v := Verify(c, cert, f);
    VerifiedSeen(c, cert, doc, raw, f);
    var dest := OptionalAttribute(doc, raw, v.response, verified.responseStart, "Destination");
    if dest.Some? && dest.value != s.acsURL { return Response.Refused(WrongDestination); }
    r := ReadAssertion(doc, raw, s, v.assertion, verified.start, verified.end);
  }

  lemma {:induction false} VerifiedSeen(c: Crypto, cert: Certificate, doc: XmlDoc, raw: map<nat, string>,
                                        f: Forest<Tag>)
    requires Covers(doc.tokens, doc.matchEnd, doc.nsAtStart, f, 0, map[]) && RawNames(raw, f, 0) && AllAligned(f)
    requires Verify(c, cert, f).Verified?
    ensures Sees(doc, raw, Verify(c, cert, f).response) && Sees(doc, raw, Verify(c, cert, f).assertion)
  {
    var root := Root(f, 0).value;
    RootAligned(f, 0);
    RootRaw(raw, f, 0);
    RootSeen(doc.tokens, doc.matchEnd, doc.nsAtStart, f, 0);
    DescendantsSeen(doc, raw, root, SAML, "Assertion");
    assert Verify(c, cert, f).assertion == Descendants(root, SAML, "Assertion")[0];
  }

  lemma {:induction false} RootSeen(ts: seq<Token>, ends: map<nat, nat>, scopes: map<nat, Scope>, f: Forest<Tag>,
                                    pos: nat)
    requires Covers(ts, ends, scopes, f, pos, map[])
    ensures Root(f, pos).Some? ==> CoversNode(ts, ends, scopes, Root(f, pos).value)
  {
    if f.Leaf? { RootSeen(ts, ends, scopes, f.rest, pos + 1); }
  }
}
