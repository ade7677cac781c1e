/** What an accepted response must contain, and what its claims are, read off the document element by element. */
module Acceptance {
  import opened Text
  import opened Xml
  import opened Document
  import opened Canon
  import opened Signature
  import opened Response

  function InSaml(n: Node, local: string): Option<Node> {
    Child(n, "urn:oasis:names:tc:SAML:2.0:assertion", local)
  }

  function AllInSaml(n: Node, local: string): seq<Node> {
    Descendants(n, "urn:oasis:names:tc:SAML:2.0:assertion", local)
  }

  /** The character data in the element is `t`, apart from white space before and after it. */
  ghost predicate Says(n: Node, t: string) { exists before, after :: Frames(TextOf(n.kids), before, t, after) }

  ghost predicate SomeSays(ns: seq<Node>, t: string) { exists i :: 0 <= i < |ns| && Says(ns[i], t) }

  ghost predicate AllSay(ns: seq<Node>, texts: seq<string>) {
    |texts| == |ns| && forall i :: 0 <= i < |ns| ==> Says(ns[i], texts[i])
  }

  // ---- what is required of the parts ----

  ghost predicate SaysSubject(s: Settings, a: Node, x: Assertion) {
    && InSaml(a, "Subject").Some?
    && var subject := InSaml(a, "Subject").value;
       && InSaml(subject, "NameID").Some? && InSaml(subject, "SubjectConfirmation").Some?
       && var name, confirmation := InSaml(subject, "NameID").value, InSaml(subject, "SubjectConfirmation").value;
          && Says(name, x.nameID) && x.nameID != "" && x.nameIDFormat == Attribute(name, "Format")
          && InSaml(confirmation, "SubjectConfirmationData").Some?
          && Confirms(s, InSaml(confirmation, "SubjectConfirmationData").value, x.inResponseTo)
  }

  ghost predicate Confirms(s: Settings, data: Node, inResponseTo: string) {
    && AttributeOf(data, "Recipient") in {None, Some(s.acsURL)}
    && (AttributeOf(data, "NotOnOrAfter").Some? ==>
        exists t :: s.parseTime(Attribute(data, "NotOnOrAfter")) == Some(t) && s.now <= t + s.skew)
    && inResponseTo == Attribute(data, "InResponseTo") && (s.requestID == "" || inResponseTo == s.requestID)
  }

  ghost predicate SaysConditions(s: Settings, a: Node, x: Assertion) {
    && InSaml(a, "Conditions").Some?
    && var conditions := InSaml(a, "Conditions").value;
       && (if AttributeOf(conditions, "NotBefore").None? then x.notBefore.None?
           else x.notBefore.Some? && s.parseTime(Attribute(conditions, "NotBefore")) == x.notBefore
                && x.notBefore.value <= s.now + s.skew)
       && AttributeOf(conditions, "NotOnOrAfter").Some?
       && s.parseTime(Attribute(conditions, "NotOnOrAfter")) == Some(x.notOnOrAfter)
       && s.now <= x.notOnOrAfter + s.skew
       && InSaml(conditions, "AudienceRestriction").Some?
       && SomeSays(AllInSaml(InSaml(conditions, "AudienceRestriction").value, "Audience"), s.entityID)
  }

  /** The attributes of all statements, in document order. */
  function AttributeNodes(statements: seq<Node>): seq<Node> {
    if statements == [] then [] else AllInSaml(statements[0], "Attribute") + AttributeNodes(statements[1..])
  }

  /** An attribute goes by its Name, or without one by its FriendlyName. */
  predicate GoesBy(n: Node, name: string) {
    name == if Attribute(n, "Name") != "" then Attribute(n, "Name") else Attribute(n, "FriendlyName")
  }

  predicate SomeGoesBy(ns: seq<Node>, name: string) { exists i :: 0 <= i < |ns| && GoesBy(ns[i], name) }

  /** The value elements of all attributes that go by a name, in document order. */
  function ValueNodes(attributes: seq<Node>, name: string): seq<Node> {
    if attributes == [] then []
    else
      var n := |attributes| - 1;
      ValueNodes(attributes[..n], name)
      + if GoesBy(attributes[n], name) then AllInSaml(attributes[n], "AttributeValue") else []
  }

  ghost predicate SaysAttributes(a: Node, m: map<string, seq<string>>) {
    var ns := AttributeNodes(AllInSaml(a, "AttributeStatement"));
    forall name :: AttributeGiven(ns, m, name)
  }

  ghost predicate AttributeGiven(ns: seq<Node>, m: map<string, seq<string>>, name: string) {
    && (name in m <==> name != "" && SomeGoesBy(ns, name))
    && (name in m ==> AllSay(ValueNodes(ns, name), m[name]))
  }

  ghost predicate SaysClaims(s: Settings, a: Node, x: Assertion) {
    && x.id == Attribute(a, "ID")
    && (if InSaml(a, "Issuer").None? then x.issuer == "" else Says(InSaml(a, "Issuer").value, x.issuer))
    && SaysSubject(s, a, x) && SaysConditions(s, a, x) && SaysAttributes(a, x.attributes)
  }

  // ---- texts ----

  lemma {:induction false} SaysTrimmed(n: Node, t: string)
    ensures Says(n, t) <==> TrimmedText(n) == t
  {
    TrimsExactly(TextOf(n.kids), t);
  }

  lemma {:induction false} TextsAt(ns: seq<Node>, i: nat)
    ensures |Texts(ns)| == |ns| && (i < |ns| ==> Texts(ns)[i] == TrimmedText(ns[i]))
  {
    if ns != [] { TextsAt(ns[1..], if i > 0 then i - 1 else 0); }
  }

  lemma {:induction false} AllSayTexts(ns: seq<Node>, texts: seq<string>)
    ensures AllSay(ns, texts) <==> texts == Texts(ns)
  {
    TextsAt(ns, 0);
    forall i | 0 <= i < |ns|
      ensures Texts(ns)[i] == TrimmedText(ns[i])
      ensures i < |texts| ==> (Says(ns[i], texts[i]) <==> TrimmedText(ns[i]) == texts[i])
    {
      TextsAt(ns, i);
      if i < |texts| { SaysTrimmed(ns[i], texts[i]); }
    }
  }

  /** One of the elements says the text exactly when it is among the trimmed texts. */
  lemma {:induction false} SomeSaysText(ns: seq<Node>, t: string)
    ensures SomeSays(ns, t) <==> t in Texts(ns)
  {
    TextsAt(ns, 0);
    forall i | 0 <= i < |ns| ensures Texts(ns)[i] == t <==> Says(ns[i], t) {
      TextsAt(ns, i);
      SaysTrimmed(ns[i], t);
    }
  }

  /** An Audience that gives the entity ID with white space around it will do, and one that gives anything
      else between white space will not. */
  lemma {:induction false} AudienceBetweenSpaces(n: Node, before: string, entityID: string, after: string)
    requires TextOf(n.kids) == before + entityID + after && AllWhite(before) && AllWhite(after)
    ensures Says(n, entityID) <==>
            entityID == "" || (!IsWhite(entityID[0]) && !IsWhite(entityID[|entityID| - 1]))
  {
    if entityID == "" || (!IsWhite(entityID[0]) && !IsWhite(entityID[|entityID| - 1])) {
      assert Frames(TextOf(n.kids), before, entityID, after);
    }
  }

  // ---- attributes ----

  lemma {:induction false} TextsJoin(a: seq<Node>, b: seq<Node>)
    ensures Texts(a + b) == Texts(a) + Texts(b)
  {
    if a == [] { assert a + b == b; }
    else {
      assert (a + b)[0] == a[0] && (a + b)[1..] == a[1..] + b;
      TextsJoin(a[1..], b);
    }
  }

  lemma {:induction false} AttributesJoin(a: seq<Node>, b: seq<Node>)
    ensures AttributesIn(a + b) == AttributesIn(a) + AttributesIn(b)
  {
    if a == [] { assert a + b == b; }
    else {
      assert (a + b)[0] == a[0] && (a + b)[1..] == a[1..] + b;
      AttributesJoin(a[1..], b);
    }
  }

  lemma {:induction false} StatementsAre(statements: seq<Node>)
    ensures Statements(statements) == AttributesIn(AttributeNodes(statements))
  {
    if statements != [] {
      StatementsAre(statements[1..]);
      AttributesJoin(AllInSaml(statements[0], "Attribute"), AttributeNodes(statements[1..]));
    }
  }

  /** Each name that is not empty has the values of all attributes that go by it. */
  ghost predicate Gathered(ns: seq<Node>, m: map<string, seq<string>>, name: string) {
    && (name in m <==> name != "" && SomeGoesBy(ns, name))
    && (name != "" ==> (if name in m then m[name] else []) == Texts(ValueNodes(ns, name)))
  }

  lemma {:induction false} OneMoreNamed(ns: seq<Node>, last: Node, name: string)
    ensures SomeGoesBy(ns + [last], name) <==> SomeGoesBy(ns, name) || GoesBy(last, name)
    ensures Texts(ValueNodes(ns + [last], name)) ==
            Texts(ValueNodes(ns, name)) + if GoesBy(last, name) then Texts(AllInSaml(last, "AttributeValue")) else []
  {
    var all := ns + [last];
    assert all[..|ns|] == ns && all[|ns|] == last;
    if SomeGoesBy(ns, name) {
      var i :| 0 <= i < |ns| && GoesBy(ns[i], name);
      assert all[i] == ns[i];
    }
    TextsJoin(ValueNodes(ns, name), if GoesBy(last, name) then AllInSaml(last, "AttributeValue") else []);
  }

  lemma {:induction false} Collected(ns: seq<Node>, name: string)
    ensures Gathered(ns, Collect(AttributesIn(ns)), name)
  {
    if ns != [] {
      var k := |ns| - 1;
      assert ns == ns[..k] + [ns[k]];
      Collected(ns[..k], name);
      LastCollected(ns[..k], ns[k]);
      OneMoreNamed(ns[..k], ns[k], name);
      assert GoesBy(ns[k], name) <==> AttributeName(ns[k]) == name;
    }
  }

  lemma {:induction false} LastCollected(ns: seq<Node>, last: Node)
    ensures
      var m, n, values := Collect(AttributesIn(ns)), AttributeName(last), Texts(AllInSaml(last, "AttributeValue"));
      Collect(AttributesIn(ns + [last])) == if n == "" then m else m[n := (if n in m then m[n] else []) + values]
  {
    var s := Statement(AttributeName(last), Texts(AllInSaml(last, "AttributeValue")));
    AttributesJoin(ns, [last]);
    assert [last][1..] == [] && AttributesIn([last]) == [s];
    var all := AttributesIn(ns) + [s];
    assert all[..|all| - 1] == AttributesIn(ns) && all[|all| - 1] == s;
  }

  lemma {:induction false} AttributesSaid(a: Node, m: map<string, seq<string>>)
    ensures SaysAttributes(a, m) <==> m == Collect(Statements(AllInSaml(a, "AttributeStatement")))
  {
    var ns := AttributeNodes(AllInSaml(a, "AttributeStatement"));
    var all := Collect(AttributesIn(ns));
    StatementsAre(AllInSaml(a, "AttributeStatement"));
    forall name
      ensures AttributeGiven(ns, m, name) <==> (name in m <==> name in all) && (name in m ==> m[name] == all[name])
    {
      Collected(ns, name);
      if name in m { AllSayTexts(ValueNodes(ns, name), m[name]); }
    }
    if SaysAttributes(a, m) {
      forall name ensures (name in m <==> name in all) && (name in m ==> m[name] == all[name]) {
        assert AttributeGiven(ns, m, name);
      }
    }
  }

  // ---- acceptance ----

  lemma {:induction false} SubjectSaid(s: Settings, a: Node, x: Assertion)
    ensures SaysSubject(s, a, x) <==>
              && var r := Read(a);
                 r.subject.Some? && r.subject.value == Some(NameID(x.nameID, x.nameIDFormat))
                 && x.nameID != "" && ConfirmationMeans(s, r.confirmation, x.inResponseTo)
  {
    if InSaml(a, "Subject").Some? {
      var subject := InSaml(a, "Subject").value;
      if InSaml(subject, "NameID").Some? { SaysTrimmed(InSaml(subject, "NameID").value, x.nameID); }
    }
  }

  lemma {:induction false} ConditionsSaid(s: Settings, a: Node, x: Assertion)
    ensures SaysConditions(s, a, x) <==> ConditionsMean(s, ReadConditions(a), x)
  {
    if InSaml(a, "Conditions").Some? {
      var conditions := InSaml(a, "Conditions").value;
      if InSaml(conditions, "AudienceRestriction").Some? {
        SomeSaysText(AllInSaml(InSaml(conditions, "AudienceRestriction").value, "Audience"), s.entityID);
      }
    }
  }

  lemma {:induction false} IssuerSaid(a: Node, issuer: string)
    ensures (if InSaml(a, "Issuer").None? then issuer == "" else Says(InSaml(a, "Issuer").value, issuer)) <==>
            issuer == ReadIssuer(a)
  {
    if InSaml(a, "Issuer").Some? { SaysTrimmed(InSaml(a, "Issuer").value, issuer); }
  }

  /** A response is accepted with certain claims exactly when its signatures verify, its Destination is this
      endpoint if it has one, and its Assertion says just these claims and meets every condition on them. */
  lemma {:induction false} AcceptedExactly(c: Crypto, cert: Certificate, s: Settings, f: Forest<Tag>, x: Assertion)
    requires AllAligned(f)
    ensures ParseAndVerify(c, cert, s, f) == Claims(x) <==>
              && Verify(c, cert, f).Verified?
              && AttributeOf(Verify(c, cert, f).response, "Destination") in {None, Some(s.acsURL)}
              && SaysClaims(s, Verify(c, cert, f).assertion, x)
  {
    AcceptedMeans(c, cert, s, f, x);
    if Verify(c, cert, f).Verified? {
      var a := Verify(c, cert, f).assertion;
      IssuerSaid(a, x.issuer);
      SubjectSaid(s, a, x);
      ConditionsSaid(s, a, x);
      AttributesSaid(a, x.attributes);
    }
  }
}
