/** Documents that are accepted although what they claim, or part of it, is not in the signed content. */
module Instances {
  import opened Text
  import opened Xml
  import opened Document
  import opened Canon
  import opened Canonicalizer
  import opened Decode
  import opened Signature
  import opened Signing
  import opened RoundTrip
  import opened Response
  import opened Coverage

  // ---- an instance ----

  function S(local: string): string { "s:" + local }

  /** One attribute statement with one attribute. */
  function ExtraStatement(name: string, value: string): Forest<WTag> {
    Elem(WTag(S("AttributeStatement"), [DeclaresS(SAML)]),
      ExtraAttribute(name, value), Nil)
  }

  function ExtraAttribute(name: string, value: string): Forest<WTag> {
    Elem(WTag(S("Attribute"), [WAttr("Name", name)]), ExtraValue(value), Nil)
  }

  function ExtraValue(value: string): Forest<WTag> { Elem(WTag(S("AttributeValue"), []), Leaf(Some(value), Nil), Nil) }

  lemma {:induction false} SSplit(local: string)
    ensures Prefix(S(local)) == "s" && Local(S(local)) == local
  {
    var qn := S(local);
    assert qn[0] == 's' && qn[1..][0] == ':';
    assert Colon(qn[1..]) == 0;
    assert Colon(qn) == 1;
    assert qn[..1] == "s" && qn[2..] == local;
  }

  lemma {:induction false} STag(local: string, attrs: seq<WAttr>, s: Scope, uri: string)
    requires "s" in s && s["s"] == uri
    ensures Named(DecodeTag(WTag(S(local), attrs), s).el, uri, local)
  {
    SSplit(local);
    assert S(local)[1] == ':';
    assert |"s"| == 1 && |"xmlns"| == 5 && |"xml"| == 3;
    assert S(local) != "xmlns" by { assert "xmlns"[1] == 'm'; }
  }

  function DeclaresS(uri: string): WAttr { WAttr(XmlnsName("s"), uri) }

  lemma {:induction false} DeclareS(s: Scope, uri: string)
    ensures WInside(s, [DeclaresS(uri)]) == s["s" := uri] && WritesDeclaration(DeclaresS(uri))
            && WrittenPrefix(DeclaresS(uri)) == "s"
  {
    XmlnsS();
    assert [DeclaresS(uri)][1..] == [];
  }

  lemma {:induction false} XmlnsS()
    ensures Prefix(XmlnsName("s")) == "xmlns" && Local(XmlnsName("s")) == "s" && XmlnsName("s") != "xmlns"
  {
    var qn := "xmlns:s";
    assert XmlnsName("s") == qn;
    assert qn[5..][0] == ':' && Colon(qn[5..]) == 0;
    assert qn[4..][1..] == qn[5..] && Colon(qn[4..]) == 1;
    assert qn[3..][1..] == qn[4..] && Colon(qn[3..]) == 2;
    assert qn[2..][1..] == qn[3..] && Colon(qn[2..]) == 3;
    assert qn[1..][1..] == qn[2..] && Colon(qn[1..]) == 4;
    assert Colon(qn) == 5;
    assert qn[..5] == "xmlns" && qn[6..] == "s" && |qn| == 7;
  }

  lemma {:induction false} ValueRead(n: Node, value: string, s: Scope)
    requires "s" in s && s["s"] == SAML
    requires n.kids == DecodeForest(ExtraValue(value), s)
    ensures Texts(Descendants(n, SAML, "AttributeValue")) == [TrimSpace(value)]
  {
    STag("AttributeValue", [], s, SAML);
    var text: Forest<WTag> := Leaf(Some(value), Nil);
    assert WInside(s, []) == s;
    DecodedElem(WTag(S("AttributeValue"), []), text, Nil, s, s);
    var t, k := DecodeTag(WTag(S("AttributeValue"), []), s), DecodeForest(text, s);
    OnlyElement(t, k, n.pos + 1, Inner(n), SAML, "AttributeValue");
    var v := Node(n.pos + 1, t, k, Inner(n));
    HeldText(v, value, s);
    assert [v][1..] == [] && Texts([v]) == [TrimmedText(v)];
  }

  lemma {:induction false} NameRead(n: Node, local: string, name: string, s: Scope)
    requires n.tag == DecodeTag(WTag(S(local), [WAttr("Name", name)]), s)
    ensures AttributeOf(n, "Name") == Some(name) && WInside(s, [WAttr("Name", name)]) == s
  {
    var a := WAttr("Name", name);
    assert |"Name"| == 4 && |"xmlns"| == 5;
    OnePlain(a);
    PlainAttrs([a], s);
    assert n.tag.el.attrs == [Attr("", "Name", name)];
  }

  lemma {:induction false} AttributeTag(name: string, value: string, s: Scope) returns (t: Tag)
    requires "s" in s && s["s"] == SAML
    ensures t == DecodeTag(WTag(S("Attribute"), [WAttr("Name", name)]), s) && Named(t.el, SAML, "Attribute")
    ensures DecodeForest(ExtraAttribute(name, value), s) == Elem(t, DecodeForest(ExtraValue(value), s), Nil)
  {
    var w := WTag(S("Attribute"), [WAttr("Name", name)]);
    STag("Attribute", w.attrs, s, SAML);
    t := DecodeTag(w, s);
    NameRead(Node(0, t, Nil, s), "Attribute", name, s);
    DecodedElem(w, ExtraValue(value), Nil, s, s);
  }

  lemma {:induction false} AttributeRead(n: Node, name: string, value: string, s: Scope)
    requires "s" in s && s["s"] == SAML && name != ""
    requires n.kids == DecodeForest(ExtraAttribute(name, value), s)
    ensures AttributesIn(Descendants(n, SAML, "Attribute")) == [Statement(name, [TrimSpace(value)])]
  {
    var t := AttributeTag(name, value, s);
    var a := Node(n.pos + 1, t, DecodeForest(ExtraValue(value), s), Inner(n));
    NameRead(a, "Attribute", name, s);
    ValueRead(a, value, s);
    OneAttribute(n, a, name, [TrimSpace(value)]);
  }

  lemma {:induction false} OneAttribute(n: Node, a: Node, name: string, values: seq<string>)
    requires n.kids == Elem(a.tag, a.kids, Nil) && a == Node(n.pos + 1, a.tag, a.kids, Inner(n))
             && Named(a.tag.el, SAML, "Attribute")
    requires AttributeOf(a, "Name") == Some(name) && name != ""
             && Texts(Descendants(a, SAML, "AttributeValue")) == values
    ensures AttributesIn(Descendants(n, SAML, "Attribute")) == [Statement(name, values)]
  {
    OnlyDescendant(n, a, SAML, "Attribute");
    OneRead(a, name, values);
  }

  lemma {:induction false} OnlyDescendant(n: Node, a: Node, space: string, local: string)
    requires n.kids == Elem(a.tag, a.kids, Nil) && a == Node(n.pos + 1, a.tag, a.kids, Inner(n))
    requires Named(a.tag.el, space, local)
    ensures Descendants(n, space, local) == [a]
  {
    OnlyElement(a.tag, a.kids, n.pos + 1, Inner(n), space, local);
  }

  lemma {:induction false} OneRead(a: Node, name: string, values: seq<string>)
    requires AttributeOf(a, "Name") == Some(name) && name != ""
             && Texts(Descendants(a, SAML, "AttributeValue")) == values
    ensures AttributesIn([a]) == [Statement(name, values)]
  {
    assert [a][1..] == [];
  }

  /** The instance is read as one statement. */
  lemma {:induction false} ExtraRead(name: string, value: string, s: Scope)
    requires name != ""
    ensures StatementsOf(DecodeForest(ExtraStatement(name, value), s)) == [Statement(name, [TrimSpace(value)])]
  {
    var w := WTag(S("AttributeStatement"), [DeclaresS(SAML)]);
    var inner := s["s" := SAML];
    var kids := ExtraAttribute(name, value);
    DeclareS(s, SAML);
    STag("AttributeStatement", w.attrs, inner, SAML);
    DecodedElem(w, kids, Nil, s, inner);
    var t, k := DecodeTag(w, inner), DecodeForest(kids, inner);
    OnlyElement(t, k, 0, map[], SAML, "AttributeStatement");
    var n := Node(0, t, k, map[]);
    AttributeRead(n, name, value, inner);
    assert [n][1..] == [] && Statements([n]) == AttributesIn(Descendants(n, SAML, "Attribute")) + [];
  }

  // ---- the claims ----

  lemma {:induction false} CollectFirst(name: string, values: seq<string>, rest: seq<Statement>)
    requires name != ""
    ensures
      var all, without := Collect([Statement(name, values)] + rest), Collect(rest);
      name in all && all[name] == values + (if name in without then without[name] else [])
    decreases |rest|
  {
    var first := [Statement(name, values)];
    if rest == [] {
      CollectLast([], Statement(name, values));
      assert first + rest == [] + first;
    } else {
      var n := |rest| - 1;
      var front, last := rest[..n], rest[n];
      assert first + rest == (first + front) + [last] && rest == front + [last];
      CollectFirst(name, values, front);
      CollectLast(first + front, last);
      CollectLast(front, last);
      CollectMore(name, values, Collect(first + front), Collect(front), last);
    }
  }

  lemma {:induction false} CollectLast(front: seq<Statement>, last: Statement)
    ensures Collect(front + [last]) == Add(Collect(front), last)
  {
    assert (front + [last])[..|front|] == front;
  }

  function Add(m: map<string, seq<string>>, a: Statement): map<string, seq<string>> {
    if a.name == "" then m else m[a.name := (if a.name in m then m[a.name] else []) + a.values]
  }

  lemma {:induction false} CollectMore(name: string, values: seq<string>, all: map<string, seq<string>>,
                                       without: map<string, seq<string>>, a: Statement)
    requires name != "" && name in all && all[name] == values + (if name in without then without[name] else [])
    ensures name in Add(all, a)
            && Add(all, a)[name] == values + (if name in Add(without, a) then Add(without, a)[name] else [])
  {
    if a.name == name { Regroup(values, if name in without then without[name] else [], a.values); }
  }

  lemma {:induction false} JudgedWith(s: Settings, r: Reading, extra: seq<Statement>)
    ensures
      var with := Judge(s, r.(attributes := extra + r.attributes));
      if Judge(s, r).Claims?
        then with == Response.Claims(Judge(s, r).assertion.(attributes := Collect(extra + r.attributes)))
      else with == Judge(s, r)
  {
  }

  /** The claims of `own`, and under one name a further value in front. */
  ghost predicate WithValue(claimed: Assertion, own: Assertion, name: string, value: string) {
    && claimed.(attributes := own.attributes) == own
    && name in claimed.attributes
    && claimed.attributes[name] == [value] + (if name in own.attributes then own.attributes[name] else [])
    && claimed.attributes != own.attributes
  }

  lemma {:induction false} ClaimedWith(s: Settings, bare: Reading, name: string, value: string)
    requires Judge(s, bare).Claims? && name != ""
    ensures
      var r := Judge(s, bare.(attributes := [Statement(name, [value])] + bare.attributes));
      r.Claims? && WithValue(r.assertion, Judge(s, bare).assertion, name, value)
  {
    JudgedWith(s, bare, [Statement(name, [value])]);
    CollectFirst(name, [value], bare.attributes);
  }

  /** Acceptance is not affected by the tail of the signature, and the attributes claimed include its
      statements: for every Assertion whose own content is acceptable the Response with an extra statement
      there is accepted, and the attribute it names has a value that no signature covers. */
  lemma {:induction false} UncoveredClaim(c: Crypto, key: Key, cert: Certificate, name: string, value: string,
                                          id: string, tag: WTag, body: Forest<WTag>, signed: Forest<WTag>,
                                          prolog: seq<Option<string>>, root: WTag, ctx: Ctx<WTag>, after: Forest<WTag>,
                                          rootInner: Scope, hole: Scope, inner: Scope, s: Settings)
    requires Sound(c, key, cert) && !HasElementBelow(Tree(Alone(tag, body)))
    requires signed == Signed(c, key, ExtraStatement(name, value), id, tag, body) && name != ""
    requires Admits(id, tag, body, signed.kids, root, ctx, rootInner, hole, inner)
    requires AttrValue(DecodeTag(root, rootInner).el.attrs, "Destination") in {None, Some(s.acsURL)}
    requires Judge(s, Read(Alone(tag, body))).Claims?
    ensures
      var f := DecodeForest(Wrapped(prolog, root, Plug(ctx, tag, signed.kids), after), map[]);
      && AllAligned(f) && ParseAndVerify(c, cert, s, f).Claims?
      && WithValue(ParseAndVerify(c, cert, s, f).assertion, Judge(s, Read(Alone(tag, body))).assertion, name,
                   TrimSpace(value))
  {
    var bare := Read(Alone(tag, body));
    var f := DecodeForest(Wrapped(prolog, root, Plug(ctx, tag, signed.kids), after), map[]);
    var a := Embedded(prolog, ctx, tag, signed.kids, rootInner, hole, inner);
    TailIsRead(c, key, cert, ExtraStatement(name, value), id, tag, body, signed, prolog, root, ctx, after, rootInner,
               hole, inner);
    ExtraRead(name, value, SignatureScope(inner));
    ClaimedWith(s, bare, name, TrimSpace(value));
    AcceptedAs(c, cert, s, f, a, RootNode(prolog, root, Plug(ctx, tag, signed.kids)));
  }

  lemma {:induction false} AcceptedAs(c: Crypto, cert: Certificate, s: Settings, f: Forest<Tag>, a: Node, root: Node)
    requires AllAligned(f) && Verify(c, cert, f) == Verified(a, root)
             && AttributeOf(root, "Destination") in {None, Some(s.acsURL)}
    ensures ParseAndVerify(c, cert, s, f) == Judge(s, Read(a))
  {
  }
}
