/** Concrete documents: one that is accepted at every endpoint, and two that are accepted although what they claim
    is not all in the signed content. */
module Examples {
  import opened Text
  import opened Xml
  import opened Document
  import opened Canon
  import opened Canonicalizer
  import opened Context
  import opened Decode
  import opened Signature
  import opened Signing
  import opened RoundTrip
  import opened Response
  import opened Coverage
  import opened Instances
  import Claims

  // ---- library functions that fit together ----

  function EncodeBytes(b: Bytes): string { if b == [] then "" else [(256 + b[0] as int) as char] + EncodeBytes(b[1..]) }

  function DecodeBytes(s: string): Option<Bytes> {
    if s == "" then Some([])
    else if !('\U{100}' <= s[0] <= '\U{1ff}') then None
    else
      var rest := DecodeBytes(s[1..]);
      if rest.None? then None else Some([(s[0] as int - 256) as bv8] + rest.value)
  }

  lemma {:induction false} EncodeBack(b: Bytes)
    ensures DecodeBytes(EncodeBytes(b)) == Some(b)
    ensures forall i :: 0 <= i < |EncodeBytes(b)| ==> !IsWhite(EncodeBytes(b)[i])
  {
    if b != [] {
      EncodeBack(b[1..]);
      var x := b[0];
      assert 0 <= x as int < 256;
      assert ((256 + x as int) as char) as int == 256 + x as int;
      assert (x as int) as bv8 == x;
      assert EncodeBytes(b)[1..] == EncodeBytes(b[1..]);
      assert b == [b[0]] + b[1..];
    }
  }

  lemma {:induction false} NoWhiteTrim(s: string)
    requires forall i :: 0 <= i < |s| ==> !IsWhite(s[i])
    ensures TrimSpace(s) == s
  {
  }

  /** Library functions that fit together exist. */
  function Library(): Crypto {
    Crypto(s => [], b => EncodeBytes(b), s => DecodeBytes(s), cert => true, (k, d) => d, (cert, d, sig) => sig == d)
  }

  lemma {:induction false} LibrarySound(key: Key, cert: Certificate)
    ensures Sound(Library(), key, cert)
  {
    forall b ensures Library().decode(TrimSpace(Library().encode(b))) == Some(b) {
      EncodeBack(b);
      NoWhiteTrim(EncodeBytes(b));
    }
  }

  // ---- tags with an identifier ----

  /** An element that binds the prefix `s` for itself and has an identifier. */
  function Identified(local: string, uri: string, id: string): WTag {
    WTag(S(local), [DeclaresS(uri), WAttr("ID", id)])
  }

  lemma {:induction false} IdIsPlain(id: string)
    ensures PlainAttr(WAttr("ID", id)) && AllPlain([WAttr("ID", id)]) && Prefix("ID") == "" && "ID" != "xmlns"
  {
    assert |"ID"| == 2 && |"xmlns"| == 5;
    OnePlain(WAttr("ID", id));
    NoColon("ID");
  }

  lemma {:induction false} IdentifiedScope(local: string, uri: string, id: string, scope: Scope, inner: Scope)
    requires Sane(scope) && uri != "" && uri != "xmlns" && inner == WInside(scope, Identified(local, uri, id).attrs)
    ensures inner == scope["s" := uri] && Sane(inner) && SaneTag(Identified(local, uri, id))
  {
    var attrs := Identified(local, uri, id).attrs;
    IdIsPlain(id);
    DeclareS(scope, uri);
    assert attrs[1..] == [WAttr("ID", id)];
    PlainAttrs([WAttr("ID", id)], scope["s" := uri]);
  }

  lemma {:induction false} IdentifiedTag(local: string, uri: string, id: string, inner: Scope)
    requires Sane(inner) && "s" in inner && inner["s"] == uri
    ensures
      var t := DecodeTag(Identified(local, uri, id), inner);
      && Named(t.el, uri, local) && t.el.attrs == [Attr("xmlns", "s", uri), Attr("", "ID", id)]
      && t.name == S(local) && t.attrNames == [XmlnsName("s"), "ID"]
  {
    IdIsPlain(id);
    XmlnsS();
    var attrs := Identified(local, uri, id).attrs;
    SSplit(local);
    STag(local, attrs, inner, uri);
    PlainAttrs([WAttr("ID", id)], inner);
    assert attrs[1..] == [WAttr("ID", id)] && [WAttr("ID", id)][1..] == [];
    assert AttrNames([]) == [] && AttrNames([WAttr("ID", id)]) == ["ID"];
  }

  lemma {:induction false} IdentifiedValues(el: StartElement, uri: string, id: string)
    requires el.attrs == [Attr("xmlns", "s", uri), Attr("", "ID", id)]
    ensures AttrValue(el.attrs, "ID") == Some(id) && AttrValue(el.attrs, "Destination") == None
  {
    assert |"s"| == 1 && |"ID"| == 2 && |"Destination"| == 11;
    assert el.attrs[1..] == [Attr("", "ID", id)] && [Attr("", "ID", id)][1..] == [];
    assert AttrValue([], "Destination") == None && AttrValue([Attr("", "ID", id)], "Destination") == None;
  }

  /** With content written in `s` alone such an element has no free prefix. */
  lemma {:induction false} IdentifiedFree(local: string, uri: string, id: string, body: Forest<WTag>, inner: Scope)
    requires uri != "" && uri != "xmlns" && inner == WInside(map[], Identified(local, uri, id).attrs)
    requires OnlyPrefix(body, "s")
    ensures AllAligned(Tree(Alone(Identified(local, uri, id), body)))
    ensures FreePrefixes(Tree(Alone(Identified(local, uri, id), body))) == {}
  {
    var w := Identified(local, uri, id);
    AloneAligned(w, body);
    IdentifiedScope(local, uri, id, map[], inner);
    IdentifiedTag(local, uri, id, inner);
    OnlyPrefixFree(body, "s", inner);
    var t := DecodeTag(w, inner);
    TagFree(t, uri, id, local);
    assert Tree(Alone(w, body)) == Elem(t, DecodeForest(body, inner), Nil);
    assert FreePrefixes(Nil) == {};
  }

  lemma {:induction false} TagFree(t: Tag, uri: string, id: string, local: string)
    requires t.el.attrs == [Attr("xmlns", "s", uri), Attr("", "ID", id)]
    requires t.name == S(local) && t.attrNames == [XmlnsName("s"), "ID"]
    ensures Aligned(t) && TagUses(t) == {"s"} && Declared(t.el.attrs) == {"s"}
  {
    SSplit(local);
    IdIsPlain(id);
    var d, a := t.el.attrs[0], t.el.attrs[1];
    assert !IsDeclaration(a) && IsDeclaration(d);
    assert t.el.attrs[1..] == [a] && [a][1..] == [] && t.attrNames[1..] == ["ID"] && ["ID"][1..] == [];
    assert PlainPrefixes([], []) == {} && PlainPrefixes([a], ["ID"]) == {};
    assert Declared([]) == {} && Declared([a]) == {};
  }

  // ---- content written in one prefix ----

  /** `s` is bound to the assertion namespace. */
  ghost predicate ReadsS(s: Scope) { "s" in s && s["s"] == SAML && Sane(s) }

  /** An element written with the prefix, decoded in place. */
  function SNode(pos: nat, local: string, attrs: seq<WAttr>, kids: Forest<WTag>, s: Scope): Node {
    Node(pos, DecodeTag(WTag(S(local), attrs), s), DecodeForest(kids, s), s)
  }

  lemma {:induction false} DecodedS(local: string, attrs: seq<WAttr>, k: Forest<WTag>, r: Forest<WTag>, s: Scope,
                                    pos: nat) returns (n: Node)
    requires ReadsS(s) && AllPlain(attrs)
    ensures n == SNode(pos, local, attrs, k, s) && Inner(n) == s && Named(n.tag.el, SAML, local)
    ensures DecodeForest(Elem(WTag(S(local), attrs), k, r), s) == Elem(n.tag, n.kids, DecodeForest(r, s))
  {
    n := SNode(pos, local, attrs, k, s);
    PlainAttrs(attrs, s);
    STag(local, attrs, s, SAML);
    DecodedElem(WTag(S(local), attrs), k, r, s, s);
    DecodedInside(s, attrs, s);
  }

  /** The first child. */
  lemma {:induction false} FirstS(n: Node, local: string, attrs: seq<WAttr>, k: Forest<WTag>, r: Forest<WTag>,
                                  s: Scope) returns (m: Node)
    requires ReadsS(s) && AllPlain(attrs) && Inner(n) == s
    requires n.kids == DecodeForest(Elem(WTag(S(local), attrs), k, r), s)
    ensures m == SNode(n.pos + 1, local, attrs, k, s) && Inner(m) == s && Child(n, SAML, local) == Some(m)
    ensures n.kids == Elem(m.tag, m.kids, DecodeForest(r, s)) && Named(m.tag.el, SAML, local)
  {
    m := DecodedS(local, attrs, k, r, s, n.pos + 1);
  }

  lemma {:induction false} TwoFound(n: Node, t: Tag, k: Forest<Tag>, u: Tag, l: Forest<Tag>, pos: nat, space: string,
                                    first: string, second: string, other: string)
    requires n.kids == Elem(t, k, Elem(u, l, Nil)) && Named(t.el, space, first) && Named(u.el, space, second)
    requires pos == n.pos + 3 + Size(k) && first != second && other != first && other != second
    ensures Child(n, space, second) == Some(Node(pos, u, l, Inner(n))) && Child(n, space, other) == None
  {
    var last, none: Forest<Tag> := Elem(u, l, Nil), Nil;
    assert FirstChild(none, pos + 2 + Size(l), Inner(n), space, other) == None;
    assert FirstChild(last, pos, Inner(n), space, other) == None;
    assert FirstChild(n.kids, n.pos + 1, Inner(n), space, other) == FirstChild(last, pos, Inner(n), space, other);
    assert FirstChild(n.kids, n.pos + 1, Inner(n), space, second) == FirstChild(last, pos, Inner(n), space, second);
  }

  /** The second of two children, and that there is no other. */
  lemma {:induction false} SecondS(n: Node, first: string, k: Forest<WTag>, second: string, attrs: seq<WAttr>,
                                   l: Forest<WTag>, s: Scope, other: string) returns (m: Node)
    requires ReadsS(s) && AllPlain(attrs) && Inner(n) == s && first != second && other != first && other != second
    requires n.kids == DecodeForest(Elem(WTag(S(first), []), k, Elem(WTag(S(second), attrs), l, Nil)), s)
    ensures m == SNode(m.pos, second, attrs, l, s) && Inner(m) == s && Child(n, SAML, second) == Some(m)
    ensures Child(n, SAML, other) == None
  {
    var a := FirstS(n, first, [], k, Elem(WTag(S(second), attrs), l, Nil), s);
    m := DecodedS(second, attrs, l, Nil, s, n.pos + 3 + Size(a.kids));
    TwoFound(n, a.tag, a.kids, m.tag, m.kids, m.pos, SAML, first, second, other);
  }

  // ---- what an acceptable assertion says ----

  function TextLeaf(text: string): Forest<WTag> { Leaf(Some(text), Nil) }

  function Plain(local: string, kids: Forest<WTag>, rest: Forest<WTag>): Forest<WTag> {
    Elem(WTag(S(local), []), kids, rest)
  }

  function SubjectKids(name: string): Forest<WTag> {
    Plain("NameID", TextLeaf(name), Plain("SubjectConfirmation", Plain("SubjectConfirmationData", Nil, Nil), Nil))
  }

  function ConditionsKids(audience: string): Forest<WTag> {
    Plain("AudienceRestriction", Plain("Audience", TextLeaf(audience), Nil), Nil)
  }

  function ConditionsOf(audience: string, until: string): Forest<WTag> {
    Elem(WTag(S("Conditions"), [WAttr("NotOnOrAfter", until)]), ConditionsKids(audience), Nil)
  }

  /** A subject, and conditions with an end and an audience. */
  function Content(name: string, audience: string, until: string): Forest<WTag> {
    Plain("Subject", SubjectKids(name), ConditionsOf(audience, until))
  }

  lemma {:induction false} UntilIsPlain(until: string)
    ensures PlainAttr(WAttr("NotOnOrAfter", until)) && AllPlain([WAttr("NotOnOrAfter", until)])
  {
    assert |"NotOnOrAfter"| == 12 && |"xmlns"| == 5;
    OnePlain(WAttr("NotOnOrAfter", until));
  }

  lemma {:induction false} NoAttributes(n: Node, local: string, s: Scope)
    requires n.tag == DecodeTag(WTag(S(local), []), s)
    ensures forall l :: AttributeOf(n, l) == None
  {
    assert n.tag.el.attrs == [];
  }

  lemma {:induction false} NameRead(sub: Node, name: string, rest: Forest<WTag>, s: Scope) returns (n: Node)
    requires ReadsS(s) && Inner(sub) == s && sub.kids == DecodeForest(Plain("NameID", TextLeaf(name), rest), s)
    ensures Child(sub, SAML, "NameID") == Some(n) && TrimmedText(n) == TrimSpace(name)
            && AttributeOf(n, "Format") == None
  {
    n := FirstS(sub, "NameID", [], TextLeaf(name), rest, s);
    HeldText(n, name, s);
    NoAttributes(n, "NameID", s);
  }

  lemma {:induction false} DataRead(c: Node, s: Scope) returns (d: Node)
    requires ReadsS(s) && Inner(c) == s && c.kids == DecodeForest(Plain("SubjectConfirmationData", Nil, Nil), s)
    ensures Child(c, SAML, "SubjectConfirmationData") == Some(d) && forall l :: AttributeOf(d, l) == None
  {
    d := FirstS(c, "SubjectConfirmationData", [], Nil, Nil, s);
    NoAttributes(d, "SubjectConfirmationData", s);
  }

  lemma {:induction false} SubjectRead(a: Node, sub: Node, name: string, s: Scope)
    requires ReadsS(s) && Child(a, SAML, "Subject") == Some(sub) && Inner(sub) == s
    requires sub.kids == DecodeForest(SubjectKids(name), s)
    ensures ReadSubject(a) == Some(Some(NameID(TrimSpace(name), "")))
    ensures ReadConfirmation(a) == Some(Confirmation(None, None, None))
  {
    assert |"NameID"| == 6 && |"SubjectConfirmation"| == 19;
    var data: Forest<WTag> := Plain("SubjectConfirmationData", Nil, Nil);
    var n := NameRead(sub, name, Plain("SubjectConfirmation", data, Nil), s);
    var c := SecondS(sub, "NameID", TextLeaf(name), "SubjectConfirmation", [], data, s, "");
    var d := DataRead(c, s);
    SubjectIs(a, sub, n, c, d, name);
  }

  lemma {:induction false} SubjectIs(a: Node, sub: Node, n: Node, c: Node, d: Node, name: string)
    requires Child(a, SAML, "Subject") == Some(sub) && Child(sub, SAML, "NameID") == Some(n)
    requires TrimmedText(n) == TrimSpace(name) && AttributeOf(n, "Format") == None
    requires Child(sub, SAML, "SubjectConfirmation") == Some(c) && Child(c, SAML, "SubjectConfirmationData") == Some(d)
    requires forall l :: AttributeOf(d, l) == None
    ensures ReadSubject(a) == Some(Some(NameID(TrimSpace(name), "")))
    ensures ReadConfirmation(a) == Some(Confirmation(None, None, None))
  {
  }

  lemma {:induction false} UntilRead(cond: Node, until: string, s: Scope)
    requires cond.tag == DecodeTag(WTag(S("Conditions"), [WAttr("NotOnOrAfter", until)]), s)
    ensures AttributeOf(cond, "NotOnOrAfter") == Some(until) && AttributeOf(cond, "NotBefore") == None
  {
    UntilIsPlain(until);
    PlainAttrs([WAttr("NotOnOrAfter", until)], s);
    assert |"NotOnOrAfter"| == 12 && |"NotBefore"| == 9;
    var x := Attr("", "NotOnOrAfter", until);
    assert cond.tag.el.attrs == [x] && [x][1..] == [];
    assert AttrValue([], "NotBefore") == None;
  }

  lemma {:induction false} ConditionsRead(a: Node, cond: Node, audience: string, until: string, s: Scope)
    requires ReadsS(s) && Child(a, SAML, "Conditions") == Some(cond) && Inner(cond) == s
    requires cond.kids == DecodeForest(ConditionsKids(audience), s)
    requires cond.tag == DecodeTag(WTag(S("Conditions"), [WAttr("NotOnOrAfter", until)]), s)
    ensures ReadConditions(a) == Some(Conditions(None, Some(until), Some([TrimSpace(audience)])))
  {
    UntilRead(cond, until, s);
    var r := FirstS(cond, "AudienceRestriction", [], Plain("Audience", TextLeaf(audience), Nil), Nil, s);
    AudienceFound(r, audience, s);
    ConditionsAre(a, cond, r, audience, until);
  }

  lemma {:induction false} ConditionsAre(a: Node, cond: Node, r: Node, audience: string, until: string)
    requires Child(a, SAML, "Conditions") == Some(cond) && Child(cond, SAML, "AudienceRestriction") == Some(r)
    requires AttributeOf(cond, "NotOnOrAfter") == Some(until) && AttributeOf(cond, "NotBefore") == None
    requires Texts(Descendants(r, SAML, "Audience")) == [TrimSpace(audience)]
    ensures ReadConditions(a) == Some(Conditions(None, Some(until), Some([TrimSpace(audience)])))
  {
  }

  lemma {:induction false} AudienceFound(r: Node, audience: string, s: Scope)
    requires ReadsS(s) && Inner(r) == s && r.kids == DecodeForest(Plain("Audience", TextLeaf(audience), Nil), s)
    ensures Texts(Descendants(r, SAML, "Audience")) == [TrimSpace(audience)]
  {
    var m := FirstS(r, "Audience", [], TextLeaf(audience), Nil, s);
    OnlyElement(m.tag, m.kids, r.pos + 1, s, SAML, "Audience");
    HeldText(m, audience, s);
    assert [m][1..] == [] && Texts([m]) == [TrimmedText(m)];
  }

  /** No element of this local name. */
  predicate NoneNamed(w: Forest<WTag>, local: string) {
    match w
    case Nil => true
    case Leaf(_, r) => NoneNamed(r, local)
    case Elem(tag, k, r) => Local(tag.name) != local && NoneNamed(k, local) && NoneNamed(r, local)
  }

  lemma {:induction false} NoneCounted(w: Forest<WTag>, s: Scope, space: string, local: string)
    requires NoneNamed(w, local)
    ensures Count(DecodeForest(w, s), space, local) == 0
  {
    match w
    case Nil =>
    case Leaf(_, r) => NoneCounted(r, s, space, local);
    case Elem(tag, k, r) => NoneCounted(k, WInside(s, tag.attrs), space, local); NoneCounted(r, s, space, local);
  }

  lemma {:induction false} OnlyPrefixSane(w: Forest<WTag>, p: string)
    requires OnlyPrefix(w, p)
    ensures SaneForest(w)
  {
    match w
    case Nil =>
    case Leaf(_, r) => OnlyPrefixSane(r, p);
    case Elem(tag, k, r) => PlainIsSane(tag); OnlyPrefixSane(k, p); OnlyPrefixSane(r, p);
  }

  /** An element of other names, no deeper than its content. */
  ghost predicate Simple(w: Forest<WTag>, depth: nat) {
    OnlyPrefix(w, "s") && Height(w) <= depth && NoneNamed(w, "AttributeStatement")
  }

  lemma {:induction false} SimpleElem(local: string, attrs: seq<WAttr>, k: Forest<WTag>, r: Forest<WTag>, depth: nat)
    requires AllPlain(attrs) && Simple(k, depth) && Simple(r, depth + 1) && |local| != 18
    ensures Simple(Elem(WTag(S(local), attrs), k, r), depth + 1)
  {
    SSplit(local);
    assert |"AttributeStatement"| == 18;
  }

  lemma {:induction false} SimpleText(text: string, depth: nat)
    ensures Simple(TextLeaf(text), depth) && Simple(Nil, depth)
  {
    assert OnlyPrefix(Nil, "s") && Height<WTag>(Nil) == 0 && NoneNamed(Nil, "AttributeStatement");
  }

  lemma {:induction false} ContentSimple(name: string, audience: string, until: string)
    ensures Simple(Content(name, audience, until), 3)
  {
    assert |"NameID"| == 6 && |"SubjectConfirmation"| == 19 && |"SubjectConfirmationData"| == 23;
    assert |"Subject"| == 7 && |"Conditions"| == 10 && |"AudienceRestriction"| == 19 && |"Audience"| == 8;
    UntilIsPlain(until);
    SimpleText(name, 1);
    SimpleText(name, 0);
    SimpleText(name, 2);
    SimpleText(name, 3);
    SimpleText(audience, 0);
    SimpleElem("SubjectConfirmationData", [], Nil, Nil, 0);
    SimpleElem("SubjectConfirmation", [], Plain("SubjectConfirmationData", Nil, Nil), Nil, 1);
    var confirmation: Forest<WTag> := Plain("SubjectConfirmation", Plain("SubjectConfirmationData", Nil, Nil), Nil);
    SimpleElem("NameID", [], TextLeaf(name), confirmation, 1);
    SimpleElem("Audience", [], TextLeaf(audience), Nil, 0);
    SimpleElem("AudienceRestriction", [], Plain("Audience", TextLeaf(audience), Nil), Nil, 1);
    SimpleElem("Conditions", [WAttr("NotOnOrAfter", until)], ConditionsKids(audience), Nil, 2);
    SimpleElem("Subject", [], SubjectKids(name), ConditionsOf(audience, until), 2);
  }

  // ---- the assertion and what it claims ----

  const ASSERTION := Identified("Assertion", SAML, "x")

  function ContentReading(name: string, audience: string, until: string, attributes: seq<Statement>): Reading {
    Reading("x", "", Some(Some(NameID(TrimSpace(name), ""))), Some(Confirmation(None, None, None)),
            Some(Conditions(None, Some(until), Some([TrimSpace(audience)]))), attributes)
  }

  lemma {:induction false} SamlIsSane()
    ensures SAML != "" && SAML != "xmlns" && SAMLP != "" && SAMLP != "xmlns" && SAML != SAMLP
  {
    assert SAML[0] == 'u' && SAMLP[0] == 'u' && "xmlns"[0] == 'x';
    assert SAML[|SAML| - 1] == 'n' && SAMLP[|SAMLP| - 1] == 'l';
  }

  lemma {:induction false} AloneInside(w: WTag, body: Forest<WTag>, inner: Scope)
    requires Sane(inner) && inner == WInside(map[], w.attrs)
    ensures Inner(Alone(w, body)) == inner && Alone(w, body).kids == DecodeForest(body, inner)
    ensures Alone(w, body).tag == DecodeTag(w, inner)
  {
    DecodedInside(map[], w.attrs, inner);
  }

  lemma {:induction false} NoStatementsRead(w: Forest<WTag>, s: Scope)
    requires NoneNamed(w, "AttributeStatement")
    ensures StatementsOf(DecodeForest(w, s)) == []
  {
    NoneCounted(w, s, SAML, "AttributeStatement");
    NothingOutermost(DecodeForest(w, s), 0, map[], SAML, "AttributeStatement");
  }

  lemma {:induction false} ContentRead(name: string, audience: string, until: string)
    ensures Read(Alone(ASSERTION, Content(name, audience, until))) == ContentReading(name, audience, until, [])
  {
    var inner: Scope := WInside(map[], ASSERTION.attrs);
    SamlIsSane();
    IdentifiedScope("Assertion", SAML, "x", map[], inner);
    IdentifiedTag("Assertion", SAML, "x", inner);
    AloneInside(ASSERTION, Content(name, audience, until), inner);
    ContentSimple(name, audience, until);
    NoStatementsRead(Content(name, audience, until), inner);
    NodeRead(Alone(ASSERTION, Content(name, audience, until)), name, audience, until, inner);
  }

  lemma {:induction false} NodeRead(a: Node, name: string, audience: string, until: string, s: Scope)
    requires ReadsS(s) && Inner(a) == s && a.kids == DecodeForest(Content(name, audience, until), s)
    requires a.tag.el.attrs == [Attr("xmlns", "s", SAML), Attr("", "ID", "x")] && StatementsOf(a.kids) == []
    ensures Read(a) == ContentReading(name, audience, until, [])
  {
    assert |"Subject"| == 7 && |"Conditions"| == 10 && |"Issuer"| == 6;
    UntilIsPlain(until);
    IdentifiedValues(a.tag.el, SAML, "x");
    var sub := FirstS(a, "Subject", [], SubjectKids(name), ConditionsOf(audience, until), s);
    var cond := SecondS(a, "Subject", SubjectKids(name), "Conditions", [WAttr("NotOnOrAfter", until)],
                        ConditionsKids(audience), s, "Issuer");
    SubjectRead(a, sub, name, s);
    ConditionsRead(a, cond, audience, until, s);
    AttributesRead(a);
    ContentIs(a, name, audience, until);
  }

  lemma {:induction false} ContentIs(a: Node, name: string, audience: string, until: string)
    requires AttributeOf(a, "ID") == Some("x") && Child(a, SAML, "Issuer") == None && Read(a).attributes == []
    requires ReadSubject(a) == Some(Some(NameID(TrimSpace(name), "")))
    requires ReadConfirmation(a) == Some(Confirmation(None, None, None))
    requires ReadConditions(a) == Some(Conditions(None, Some(until), Some([TrimSpace(audience)])))
    ensures Read(a) == ContentReading(name, audience, until, [])
  {
  }

  /** The settings that such an assertion suits: a name, this audience, and an end that has not passed. */
  predicate Suits(s: Settings, name: string, audience: string, until: string) {
    && s.requestID == "" && s.entityID == TrimSpace(audience) && TrimSpace(name) != "" && NotPast(s, until)
  }

  function ContentClaims(s: Settings, name: string, until: string, attributes: seq<Statement>): Assertion
    requires NotPast(s, until)
  {
    Assertion("x", TrimSpace(name), "", "", "", None, s.parseTime(until).value, Collect(attributes))
  }

  lemma {:induction false} ContentJudged(s: Settings, name: string, audience: string, until: string,
                                         attributes: seq<Statement>)
    requires Suits(s, name, audience, until)
    ensures Judge(s, ContentReading(name, audience, until, attributes)) ==
            Response.Claims(ContentClaims(s, name, until, attributes))
  {
  }

  // ---- a Response around it ----

  const RESPONSE := Identified("Response", SAMLP, "r")

  lemma {:induction false} ExtraSane(name: string, value: string)
    ensures SaneForest(ExtraStatement(name, value))
  {
    SamlIsSane();
    var text: Forest<WTag> := Leaf(Some(value), Nil);
    assert SaneForest(Nil) && SaneForest(text);
    assert SaneForest(ExtraValue(value));
    assert |"Name"| == 4 && |"xmlns"| == 5;
    OnePlain(WAttr("Name", name));
    PlainIsSane(WTag(S("Attribute"), [WAttr("Name", name)]));
    assert SaneForest(ExtraAttribute(name, value));
    assert SaneTag(WTag(S("AttributeStatement"), [DeclaresS(SAML)]));
  }

  lemma {:induction false} SignatureSane(id: string, digest: string, value: string, tail: Forest<WTag>,
                                         rest: Forest<WTag>)
    requires SaneForest(tail) && SaneForest(rest)
    ensures SaneForest(Elem(WTag(Ds("Signature"), [DsDeclaration()]), SignatureKids(id, digest, value, tail), rest))
  {
    InfoSane(id, digest);
    var text: Forest<WTag> := Leaf(Some(value), Nil);
    assert SaneForest(Nil) && SaneForest(text);
    var after := Holder("SignatureValue", value, tail);
    assert SaneTag(WTag(Ds("SignatureValue"), []));
    assert SaneForest(after);
    var info := SignedInfo(id, digest, Nil);
    assert SaneTag(info.tag) && SaneForest(info.kids);
    assert SaneForest(SignedInfo(id, digest, after));
    assert SaneTag(WTag(Ds("Signature"), [DsDeclaration()])) by {
      assert WTag(Ds("Signature"), [DsDeclaration()]).attrs == info.tag.attrs;
    }
  }

  /** The content is an acceptable body for the assertion. */
  lemma {:induction false} ContentFits(name: string, audience: string, until: string)
    ensures
      var body := Content(name, audience, until);
      && OnlyPrefix(body, "s") && SaneForest(body) && NoneNamed(body, "AttributeStatement")
      && !HasElementBelow(Tree(Alone(ASSERTION, body)))
      && AllAligned(Tree(Alone(ASSERTION, body))) && FreePrefixes(Tree(Alone(ASSERTION, body))) == {}
  {
    var body := Content(name, audience, until);
    ContentSimple(name, audience, until);
    OnlyPrefixSane(body, "s");
    AloneShallow(ASSERTION, body);
    SamlIsSane();
    IdentifiedFree("Assertion", SAML, "x", body, WInside(map[], ASSERTION.attrs));
  }

  lemma {:induction false} SignedSane(c: Crypto, key: Key, tail: Forest<WTag>, id: string, tag: WTag,
                                      body: Forest<WTag>, signed: Forest<WTag>)
    requires SignWith(c, key, tail, id, tag, body) == Some(signed) && SaneForest(tail) && SaneForest(body)
    ensures SaneForest(signed.kids)
  {
    var digest, value := SignedShape(c, key, tail, id, tag, body, signed);
    SignatureSane(id, digest, value, tail, body);
  }

  lemma {:induction false} NoSignatureBeside(t: Tag, k: Forest<Tag>)
    requires t.el.space == SAML
    ensures CountTop(Elem(t, k, Nil), DS, "Signature") == 0
  {
    Claims.Namespaces();
    assert CountTop(Nil, DS, "Signature") == 0;
  }

  /** A Response with nothing but this Assertion admits it. */
  lemma {:induction false} ContentAdmitted(body: Forest<WTag>, kids: Forest<WTag>, outer: Scope, inner: Scope)
    requires SaneForest(kids) && SaneForest(body)
    requires outer == WInside(map[], RESPONSE.attrs) && inner == WInside(outer, ASSERTION.attrs)
    requires AllAligned(Tree(Alone(ASSERTION, body))) && FreePrefixes(Tree(Alone(ASSERTION, body))) == {}
    ensures Admits("x", ASSERTION, body, kids, RESPONSE, Hole(Nil), outer, outer, inner) && Sane(inner)
    ensures AttrValue(DecodeTag(RESPONSE, outer).el.attrs, "Destination") == None
  {
    SamlIsSane();
    IdentifiedScope("Response", SAMLP, "r", map[], outer);
    IdentifiedTag("Response", SAMLP, "r", outer);
    IdentifiedValues(DecodeTag(RESPONSE, outer).el, SAMLP, "r");
    IdentifiedScope("Assertion", SAML, "x", outer, inner);
    IdentifiedTag("Assertion", SAML, "x", inner);
    IdentifiedValues(DecodeTag(ASSERTION, inner).el, SAML, "x");
    PlacedAlone(ASSERTION, kids, outer, inner);
  }

  lemma {:induction false} PlacedAlone(tag: WTag, kids: Forest<WTag>, outer: Scope, inner: Scope)
    requires inner == WInside(outer, tag.attrs) && SaneTag(tag) && SaneForest(kids)
    requires DecodeTag(tag, inner).el.space == SAML
    ensures SaneForest(Plug(Hole(Nil), tag, kids))
    ensures CountAround(DecodeCtx(Hole(Nil), outer), SAML, "Assertion") == 0
    ensures CountTop(DecodeForest(Plug(Hole(Nil), tag, kids), outer), DS, "Signature") == 0
  {
    var ctx: Ctx<WTag> := Hole(Nil);
    assert SaneForest(Nil) && SaneForest(Plug(ctx, tag, kids));
    assert DecodeCtx(ctx, outer) == Hole(DecodeForest(Nil, outer)) == Hole(Nil);
    DecodedElem(tag, kids, Nil, outer, inner);
    NoSignatureBeside(DecodeTag(tag, inner), DecodeForest(kids, inner));
  }

  /** The document with a signature on the assertion that ends in `tail`, and how it is read. */
  lemma {:induction false} SignedContent(c: Crypto, key: Key, cert: Certificate, tail: Forest<WTag>, name: string,
                                         audience: string, until: string)
    returns (f: Forest<Tag>, a: Node, root: Node, inner: Scope)
    requires Sound(c, key, cert) && SaneForest(tail)
    ensures AllAligned(f) && Verify(c, cert, f) == Verified(a, root) && AttributeOf(root, "Destination") == None
    ensures
      Read(a) == ContentReading(name, audience, until, StatementsOf(DecodeForest(tail, SignatureScope(inner))))
    ensures StatementsOf(Claims.WithoutFirst(a.kids, DS, "Signature")) == []
  {
    var body := Content(name, audience, until);
    ContentFits(name, audience, until);
    var outer := WInside(map[], RESPONSE.attrs);
    inner := WInside(outer, ASSERTION.attrs);
    var signed := Signed(c, key, tail, "x", ASSERTION, body);
    SignedSane(c, key, tail, "x", ASSERTION, body, signed);
    ContentAdmitted(body, signed.kids, outer, inner);
    f, a, root := SignedPlaced(c, key, cert, tail, body, signed, outer, inner);
    ContentRead(name, audience, until);
    Nothing(StatementsOf(DecodeForest(tail, SignatureScope(inner))));
    SignedRest(c, key, tail, body, signed, a, inner);
  }

  lemma {:induction false} Nothing(x: seq<Statement>)
    ensures x + [] == x
  {
  }

  lemma {:induction false} SignedPlaced(c: Crypto, key: Key, cert: Certificate, tail: Forest<WTag>, body: Forest<WTag>,
                                        signed: Forest<WTag>, outer: Scope, inner: Scope)
    returns (f: Forest<Tag>, a: Node, root: Node)
    requires Sound(c, key, cert) && !HasElementBelow(Tree(Alone(ASSERTION, body)))
             && signed == Signed(c, key, tail, "x", ASSERTION, body)
    requires Admits("x", ASSERTION, body, signed.kids, RESPONSE, Hole(Nil), outer, outer, inner)
    requires AttrValue(DecodeTag(RESPONSE, outer).el.attrs, "Destination") == None
    ensures AllAligned(f) && Verify(c, cert, f) == Verified(a, root) && AttributeOf(root, "Destination") == None
    ensures
      var bare := Read(Alone(ASSERTION, body));
      Read(a) == bare.(attributes := StatementsOf(DecodeForest(tail, SignatureScope(inner))) + bare.attributes)
    ensures a.kids == DecodeForest(signed.kids, inner)
  {
    var ctx: Ctx<WTag> := Hole(Nil);
    f := DecodeForest(Wrapped([], RESPONSE, Plug(ctx, ASSERTION, signed.kids), Nil), map[]);
    a := Embedded([], ctx, ASSERTION, signed.kids, outer, outer, inner);
    root := RootNode([], RESPONSE, Plug(ctx, ASSERTION, signed.kids));
    TailIsRead(c, key, cert, tail, "x", ASSERTION, body, signed, [], RESPONSE, ctx, Nil, outer, outer, inner);
  }

  lemma {:induction false} SignedRest(c: Crypto, key: Key, tail: Forest<WTag>, body: Forest<WTag>,
                                      signed: Forest<WTag>, a: Node, inner: Scope)
    requires SignWith(c, key, tail, "x", ASSERTION, body) == Some(signed) && Sane(inner)
    requires NoneNamed(body, "AttributeStatement") && a.kids == DecodeForest(signed.kids, inner)
    ensures StatementsOf(Claims.WithoutFirst(a.kids, DS, "Signature")) == []
  {
    var digest, value := SignedShape(c, key, tail, "x", ASSERTION, body, signed);
    var sigKids := SignatureKids("x", digest, value, tail);
    var t := SignatureTag(sigKids, body, inner);
    NoStatementsRead(body, inner);
  }

  // ---- the three documents ----

  lemma {:induction false} NamesTrimmed()
    ensures TrimSpace("alice") == "alice" && TrimSpace("sp") == "sp" && TrimSpace("Sales") == "Sales"
  {
    NoWhiteTrim("alice");
    NoWhiteTrim("sp");
    NoWhiteTrim("Sales");
  }

  /** What a caller who runs the service provider `sp` expects, at any endpoint. */
  predicate Expects(s: Settings, until: string) { s.requestID == "" && s.entityID == "sp" && NotPast(s, until) }

  /** Who is claimed to have logged in. */
  function Alice(s: Settings, until: string, attributes: map<string, seq<string>>): Assertion
    requires NotPast(s, until)
  {
    Assertion("x", "alice", "", "", "", None, s.parseTime(until).value, attributes)
  }

  lemma {:induction false} AcceptedAsAlice(c: Crypto, cert: Certificate, s: Settings, f: Forest<Tag>, a: Node,
                                           root: Node, until: string, attributes: seq<Statement>)
    requires AllAligned(f) && Verify(c, cert, f) == Verified(a, root) && AttributeOf(root, "Destination") == None
    requires Read(a) == ContentReading("alice", "sp", until, attributes) && Expects(s, until)
    ensures ParseAndVerify(c, cert, s, f) == Response.Claims(Alice(s, until, Collect(attributes)))
  {
    NamesTrimmed();
    ContentJudged(s, "alice", "sp", until, attributes);
  }

  /** A document with neither Destination nor Recipient, accepted at every endpoint. */
  lemma {:induction false} EndpointExample(key: Key, cert: Certificate, until: string)
    returns (f: Forest<Tag>, a: Node, root: Node)
    ensures Sound(Library(), key, cert) && AllAligned(f) && Verify(Library(), cert, f) == Verified(a, root)
    ensures AttributeOf(root, "Destination") == None && Read(a).confirmation == Some(Confirmation(None, None, None))
    ensures forall s :: Expects(s, until) ==>
            ParseAndVerify(Library(), cert, s, f) == Response.Claims(Alice(s, until, map[]))
  {
    LibrarySound(key, cert);
    var inner;
    f, a, root, inner := SignedContent(Library(), key, cert, Nil, "alice", "sp", until);
    assert DecodeForest(Nil, SignatureScope(inner)) == Nil && StatementsOf(Nil) == [];
    forall s | Expects(s, until)
      ensures ParseAndVerify(Library(), cert, s, f) == Response.Claims(Alice(s, until, map[]))
    {
      AcceptedAsAlice(Library(), cert, s, f, a, root, until, []);
    }
  }

  /** A Response that is accepted with an attribute although its signed content has none. */
  lemma {:induction false} UncoveredExample(key: Key, cert: Certificate, until: string)
    returns (f: Forest<Tag>, a: Node, root: Node)
    ensures Sound(Library(), key, cert) && AllAligned(f) && Verify(Library(), cert, f) == Verified(a, root)
    ensures StatementsOf(Claims.WithoutFirst(a.kids, DS, "Signature")) == []
    ensures forall s :: Expects(s, until) ==>
            ParseAndVerify(Library(), cert, s, f) == Response.Claims(Alice(s, until, map["Department" := ["Sales"]]))
  {
    LibrarySound(key, cert);
    ExtraSane("Department", "Sales");
    var inner;
    f, a, root, inner := SignedContent(Library(), key, cert, ExtraStatement("Department", "Sales"), "alice", "sp",
                                       until);
    ExtraRead("Department", "Sales", SignatureScope(inner));
    NamesTrimmed();
    var extra := [Statement("Department", ["Sales"])];
    DepartmentCollected(extra);
    forall s | Expects(s, until)
      ensures ParseAndVerify(Library(), cert, s, f) == Response.Claims(Alice(s, until, map["Department" := ["Sales"]]))
    {
      AcceptedAsAlice(Library(), cert, s, f, a, root, until, extra);
    }
  }

  lemma {:induction false} DepartmentCollected(extra: seq<Statement>)
    requires extra == [Statement("Department", ["Sales"])]
    ensures Collect(extra) == map["Department" := ["Sales"]]
  {
    assert extra[..0] == [] && Collect(extra[..0]) == map[];
    assert [] + ["Sales"] == ["Sales"];
  }

  /** A Response whose signed content holds no Assertion at all, accepted with all its claims. */
  lemma {:induction false} UnsignedExample(key: Key, cert: Certificate, until: string)
    returns (f: Forest<Tag>, root: Node, sig: Node, n: Node)
    ensures Sound(Library(), key, cert)
    ensures VerifiesUnsigned(Library(), cert, f, root, sig, n, Alone(RESPONSE, Nil),
                             Alone(ASSERTION, Content("alice", "sp", until)))
    ensures forall s :: Expects(s, until) ==>
            ParseAndVerify(Library(), cert, s, f) == Response.Claims(Alice(s, until, map[]))
  {
    LibrarySound(key, cert);
    var x, xBody := ASSERTION, Content("alice", "sp", until);
    var inner, tail: Forest<WTag> := WInside(map[], RESPONSE.attrs), Elem(x, xBody, Nil);
    ContentFits("alice", "sp", until);
    ResponseCarries(xBody, inner, WInside(SignatureScope(inner), x.attrs));
    AloneShallow(RESPONSE, Nil);
    var signed := Signed(Library(), key, tail, "r", RESPONSE, Nil);
    n, sig := UnsignedAssertion(Library(), key, cert, "r", RESPONSE, Nil, x, xBody, signed, [], Nil, inner,
                                WInside(SignatureScope(inner), x.attrs));
    f := DecodeForest(Wrapped([], RESPONSE, signed.kids, Nil), map[]);
    root := RootNode([], RESPONSE, signed.kids);
    RootValues(inner);
    ContentRead("alice", "sp", until);
    forall s | Expects(s, until)
      ensures ParseAndVerify(Library(), cert, s, f) == Response.Claims(Alice(s, until, map[]))
    {
      AcceptedAsAlice(Library(), cert, s, f, n, root, until, []);
    }
  }

  lemma {:induction false} RootValues(inner: Scope)
    requires inner == WInside(map[], RESPONSE.attrs)
    ensures AttrValue(DecodeTag(RESPONSE, inner).el.attrs, "Destination") == None
  {
    SamlIsSane();
    IdentifiedScope("Response", SAMLP, "r", map[], inner);
    IdentifiedTag("Response", SAMLP, "r", inner);
    IdentifiedValues(DecodeTag(RESPONSE, inner).el, SAMLP, "r");
  }

  lemma {:induction false} ResponseCarries(xBody: Forest<WTag>, inner: Scope, xInner: Scope)
    requires inner == WInside(map[], RESPONSE.attrs) && xInner == WInside(SignatureScope(inner), ASSERTION.attrs)
    requires OnlyPrefix(xBody, "s") && SaneForest(xBody)
    requires AllAligned(Tree(Alone(ASSERTION, xBody))) && FreePrefixes(Tree(Alone(ASSERTION, xBody))) == {}
    ensures Carries("r", RESPONSE, Nil, ASSERTION, xBody, inner, xInner)
  {
    SamlIsSane();
    IdentifiedScope("Response", SAMLP, "r", map[], inner);
    IdentifiedTag("Response", SAMLP, "r", inner);
    IdentifiedValues(DecodeTag(RESPONSE, inner).el, SAMLP, "r");
    DeclareDs(inner);
    IdentifiedScope("Assertion", SAML, "x", SignatureScope(inner), xInner);
    IdentifiedTag("Assertion", SAML, "x", xInner);
    NoSignatureIn(xBody, xInner);
    assert SaneForest(Nil) && Count(DecodeForest(Nil, inner), SAML, "Assertion") == 0;
  }

  /** Content written in `s` has no signature. */
  lemma {:induction false} NoSignatureIn(w: Forest<WTag>, s: Scope)
    requires OnlyPrefix(w, "s") && ReadsS(s)
    ensures CountTop(DecodeForest(w, s), DS, "Signature") == 0
  {
    match w
    case Nil =>
    case Leaf(_, r) => NoSignatureIn(r, s);
    case Elem(tag, k, r) =>
      NoSignatureIn(r, s);
      PlainAttrs(tag.attrs, s);
      OtherSpace(tag, s);
  }

  lemma {:induction false} OtherSpace(tag: WTag, s: Scope)
    requires Prefix(tag.name) == "s" && ReadsS(s)
    ensures DecodeTag(tag, s).el.space == SAML != DS
  {
    Claims.Namespaces();
    assert |"s"| == 1 && |"xmlns"| == 5 && |"xml"| == 3;
    if tag.name == "xmlns" { NoColon(tag.name); }
  }
}
