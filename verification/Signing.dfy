/** Making an enveloped signature, and reading back what was made. */
module Signing {
  import opened Text
  import opened Xml
  import opened Document
  import opened Canon
  import opened Canonicalizer
  import opened Decode
  import opened Signature

  // ---- the signature element ----

  function Ds(local: string): string { "ds:" + local }

  function DsDeclaration(): WAttr { WAttr(XmlnsName("ds"), DS) }

  const C14N := "http://www.w3.org/2001/10/xml-exc-c14n#"
  const ENVELOPED := "http://www.w3.org/2000/09/xmldsig#enveloped-signature"

  function Method(local: string, algorithm: string, rest: Forest<WTag>): Forest<WTag> {
    Elem(WTag(Ds(local), [WAttr("Algorithm", algorithm)]), Nil, rest)
  }

  function Holder(local: string, text: string, rest: Forest<WTag>): Forest<WTag> {
    Elem(WTag(Ds(local), []), Leaf(Some(text), Nil), rest)
  }

  function ReferenceKids(digest: string): Forest<WTag> {
    Elem(WTag(Ds("Transforms"), []), Method("Transform", ENVELOPED, Nil),
      Method("DigestMethod", SHA256, Holder("DigestValue", digest, Nil)))
  }

  function InfoKids(id: string, digest: string): Forest<WTag> {
    Method("CanonicalizationMethod", C14N,
      Method("SignatureMethod", RSA_SHA256,
        Elem(WTag(Ds("Reference"), [WAttr("URI", "#" + id)]), ReferenceKids(digest), Nil)))
  }

  function SignedInfo(id: string, digest: string, rest: Forest<WTag>): Forest<WTag> {
    Elem(WTag(Ds("SignedInfo"), [DsDeclaration()]), InfoKids(id, digest), rest)
  }

  function KeyInfo(certificate: string): Forest<WTag> {
    Elem(WTag(Ds("KeyInfo"), []), Elem(WTag(Ds("X509Data"), []), Holder("X509Certificate", certificate, Nil), Nil), Nil)
  }

  /** What a signature holds: the two parts that are checked, and then anything. */
  function SignatureKids(id: string, digest: string, value: string, tail: Forest<WTag>): Forest<WTag> {
    SignedInfo(id, digest, Holder("SignatureValue", value, tail))
  }

  // ---- signing ----

  /** A single element as a document of its own. */
  function Alone(tag: WTag, kids: Forest<WTag>): Node {
    var inner := WInside(map[], tag.attrs);
    Node(0, DecodeTag(tag, inner), DecodeForest(kids, inner), map[])
  }

  lemma {:induction false} AloneAligned(tag: WTag, kids: Forest<WTag>)
    ensures AllAligned(Tree(Alone(tag, kids)))
    ensures Tree(Alone(tag, kids)) == DecodeForest(Elem(tag, kids, Nil), map[])
  {
    DecodedAligned(Elem(tag, kids, Nil), map[]);
  }

  /** The element with a signature as its first child. */
  function Enveloped(tag: WTag, body: Forest<WTag>, sigKids: Forest<WTag>): Forest<WTag> {
    Elem(tag, Elem(WTag(Ds("Signature"), [DsDeclaration()]), sigKids, body), Nil)
  }

  /** The element with a signature over it as its first child, or nothing when it nests too deeply. */
  ghost function SignWith(c: Crypto, key: Key, tail: Forest<WTag>, id: string, tag: WTag,
                          body: Forest<WTag>): Option<Forest<WTag>> {
    AloneAligned(tag, body);
    var target := CanonicalElement(Alone(tag, body), {});
    if target.None? then None
    else
      var digest := c.encode(c.hash(target.value));
      var info := SignedInfo(id, digest, Nil);
      AloneAligned(info.tag, info.kids);
      var signed := CanonicalElement(Alone(info.tag, info.kids), {});
      if signed.None? then None
      else
        var value := c.encode(c.sign(key, c.hash(signed.value)));
        Some(Enveloped(tag, body, SignatureKids(id, digest, value, tail)))
  }

  /** BuildSignedElementXML, which puts the certificate after the signature value. */
  ghost function Sign(c: Crypto, key: Key, certificate: string, id: string, tag: WTag,
                      body: Forest<WTag>): Option<Forest<WTag>> {
    SignWith(c, key, KeyInfo(certificate), id, tag, body)
  }

  lemma {:induction false} DecodedHeight(w: Forest<WTag>, s: Scope)
    ensures Height(DecodeForest(w, s)) == Height(w)
  {
    match w
    case Nil =>
    case Leaf(_, r) => DecodedHeight(r, s);
    case Elem(tag, k, r) => DecodedHeight(k, WInside(s, tag.attrs)); DecodedHeight(r, s);
  }

  lemma {:induction false} InfoHeight(id: string, digest: string)
    ensures Height(InfoKids(id, digest)) == 3
  {
    assert Height<WTag>(Nil) == 0;
    assert Height(Holder("DigestValue", digest, Nil)) == 1 by { assert Height<WTag>(Leaf(Some(digest), Nil)) == 0; }
    assert Height(Method("DigestMethod", SHA256, Holder("DigestValue", digest, Nil))) == 1;
    assert Height(Method("Transform", ENVELOPED, Nil)) == 1;
    assert Height(ReferenceKids(digest)) == 2;
    var ref := Elem(WTag(Ds("Reference"), [WAttr("URI", "#" + id)]), ReferenceKids(digest), Nil);
    assert Height(ref) == 3;
    assert Height(Method("SignatureMethod", RSA_SHA256, ref)) == 3;
  }

  lemma {:induction false} AloneShallow(tag: WTag, kids: Forest<WTag>)
    requires Height(kids) <= MAX_DEPTH
    ensures !HasElementBelow(Tree(Alone(tag, kids)))
  {
    DecodedHeight(kids, WInside(map[], tag.attrs));
    assert Height(Tree(Alone(tag, kids))) == 1 + Height(kids) by { assert Height<Tag>(Nil) == 0; }
    DeepestElement(Tree(Alone(tag, kids)));
  }

  /** Signing succeeds exactly when no element lies more than 256 levels below the signed one. */
  lemma {:induction false} SignSucceeds(c: Crypto, key: Key, tail: Forest<WTag>, id: string, tag: WTag,
                                        body: Forest<WTag>)
    ensures SignWith(c, key, tail, id, tag, body).Some? <==> !HasElementBelow(Tree(Alone(tag, body)))
  {
    AloneAligned(tag, body);
    CanonicalWhole(Alone(tag, body));
    if !HasElementBelow(Tree(Alone(tag, body))) {
      var digest := c.encode(c.hash(CanonicalElement(Alone(tag, body), {}).value));
      var infoTag := WTag(Ds("SignedInfo"), [DsDeclaration()]);
      AloneAligned(infoTag, InfoKids(id, digest));
      InfoHeight(id, digest);
      AloneShallow(infoTag, InfoKids(id, digest));
      CanonicalWhole(Alone(infoTag, InfoKids(id, digest)));
    }
  }

  /** The signed element, for every element within the depth limit. */
  ghost function Signed(c: Crypto, key: Key, tail: Forest<WTag>, id: string, tag: WTag,
                        body: Forest<WTag>): (w: Forest<WTag>)
    requires !HasElementBelow(Tree(Alone(tag, body)))
    ensures w.Elem? && SignWith(c, key, tail, id, tag, body) == Some(w)
  {
    SignSucceeds(c, key, tail, id, tag, body);
    SignWith(c, key, tail, id, tag, body).value
  }

  lemma {:induction false} BuiltIsSigned(c: Crypto, key: Key, certificate: string, id: string, tag: WTag,
                                         body: Forest<WTag>)
    ensures Sign(c, key, certificate, id, tag, body) ==
            if HasElementBelow(Tree(Alone(tag, body))) then None
                else Some(Signed(c, key, KeyInfo(certificate), id, tag, body))
  {
    SignSucceeds(c, key, KeyInfo(certificate), id, tag, body);
  }

  // ---- what is written ----

  /** An element without attributes, and one that has a single attribute and no content. */
  function Wrap(name: string, kids: Forest<WTag>, rest: Forest<WTag>): Forest<WTag> { Elem(WTag(name, []), kids, rest) }

  function Choice(name: string, algorithm: string, rest: Forest<WTag>): Forest<WTag> {
    Elem(WTag(name, [WAttr("Algorithm", algorithm)]), Nil, rest)
  }

  /** The SignedInfo of an enveloped signature by SHA-256 and RSA over the element with this identifier. */
  function InfoFor(id: string, digest: string, rest: Forest<WTag>): Forest<WTag> {
    Elem(WTag("ds:SignedInfo", [WAttr("xmlns:ds", "http://www.w3.org/2000/09/xmldsig#")]),
      Choice("ds:CanonicalizationMethod", "http://www.w3.org/2001/10/xml-exc-c14n#",
        Choice("ds:SignatureMethod", "http://www.w3.org/2001/04/xmldsig-more#rsa-sha256",
          Elem(WTag("ds:Reference", [WAttr("URI", "#" + id)]),
            Wrap("ds:Transforms",
              Choice("ds:Transform", "http://www.w3.org/2000/09/xmldsig#enveloped-signature", Nil),
              Choice("ds:DigestMethod", "http://www.w3.org/2001/04/xmlenc#sha256",
                Wrap("ds:DigestValue", Leaf(Some(digest), Nil), Nil))),
            Nil))),
      rest)
  }

  lemma {:induction false} DsNames()
    ensures Ds("Signature") == "ds:Signature" && Ds("SignedInfo") == "ds:SignedInfo"
    ensures Ds("Transforms") == "ds:Transforms" && Ds("Transform") == "ds:Transform"
    ensures Ds("Reference") == "ds:Reference"
  {
  }

  lemma {:induction false} DsMethods()
    ensures Ds("CanonicalizationMethod") == "ds:CanonicalizationMethod"
    ensures Ds("SignatureMethod") == "ds:SignatureMethod"
  {
  }

  lemma {:induction false} DsDigest()
    ensures Ds("DigestMethod") == "ds:DigestMethod" && Ds("DigestValue") == "ds:DigestValue"
  {
  }

  lemma {:induction false} DsNamesAfter()
    ensures Ds("SignatureValue") == "ds:SignatureValue" && Ds("KeyInfo") == "ds:KeyInfo"
    ensures Ds("X509Data") == "ds:X509Data" && Ds("X509Certificate") == "ds:X509Certificate"
    ensures DsDeclaration() == WAttr("xmlns:ds", "http://www.w3.org/2000/09/xmldsig#")
  {
  }

  lemma {:induction false} InfoIs(id: string, digest: string, rest: Forest<WTag>)
    ensures SignedInfo(id, digest, rest) == InfoFor(id, digest, rest)
  {
    DsNames();
    DsMethods();
    DsDigest();
    DsNamesAfter();
  }

  /** The signature goes first in the element, holds the digest of the canonical element, a signature of the digest
      of the canonical SignedInfo and the certificate, and nothing else about the element changes. */
  lemma {:induction false} BuiltExactly(c: Crypto, key: Key, certificate: string, id: string, tag: WTag,
                                        body: Forest<WTag>, target: string, signed: string)
    requires AllAligned(Tree(Alone(tag, body))) && CanonicalElement(Alone(tag, body), {}) == Some(target)
    requires var info := InfoFor(id, c.encode(c.hash(target)), Nil);
             AllAligned(Tree(Alone(info.tag, info.kids)))
             && CanonicalElement(Alone(info.tag, info.kids), {}) == Some(signed)
    ensures
      Sign(c, key, certificate, id, tag, body) ==
      Some(Elem(tag,
        Elem(WTag("ds:Signature", [WAttr("xmlns:ds", "http://www.w3.org/2000/09/xmldsig#")]),
          InfoFor(id, c.encode(c.hash(target)),
            Wrap("ds:SignatureValue", Leaf(Some(c.encode(c.sign(key, c.hash(signed)))), Nil),
              Wrap("ds:KeyInfo",
                Wrap("ds:X509Data", Wrap("ds:X509Certificate", Leaf(Some(certificate), Nil), Nil), Nil),
                Nil))),
          body),
        Nil))
  {
    var digest := c.encode(c.hash(target));
    InfoIs(id, digest, Nil);
    var value := c.encode(c.sign(key, c.hash(signed)));
    InfoIs(id, digest, Holder("SignatureValue", value, KeyInfo(certificate)));
    DsNames();
    DsNamesAfter();
  }

  // ---- reading the signature element back ----

  lemma {:induction false} DsSplit(local: string)
    ensures Prefix(Ds(local)) == "ds" && Local(Ds(local)) == local
  {
    var qn := Ds(local);
    assert qn[0] == 'd' && qn[1..][0] == 's' && qn[1..][1..][0] == ':';
    assert Colon(qn[1..][1..]) == 0;
    assert Colon(qn[1..]) == 1;
    assert Colon(qn) == 2;
    assert qn[..2] == "ds" && qn[3..] == local;
  }

  lemma {:induction false} XmlnsSplit()
    ensures Prefix(XmlnsName("ds")) == "xmlns" && Local(XmlnsName("ds")) == "ds"
    ensures WritesDeclaration(DsDeclaration()) && WrittenPrefix(DsDeclaration()) == "ds"
  {
    var qn := "xmlns:ds";
    assert XmlnsName("ds") == qn;
    assert qn[5..][0] == ':' && Colon(qn[5..]) == 0;
    assert qn[4..][1..] == qn[5..] && Colon(qn[4..]) == 1;
    assert qn[3..][1..] == qn[4..] && Colon(qn[3..]) == 2;
    assert qn[2..][1..] == qn[3..] && Colon(qn[2..]) == 3;
    assert qn[1..][1..] == qn[2..] && Colon(qn[1..]) == 4;
    assert Colon(qn) == 5;
    assert qn[..5] == "xmlns" && qn[6..] == "ds";
  }

  lemma {:induction false} NoColon(s: string)
    requires forall i :: 0 <= i < |s| ==> s[i] != ':'
    ensures Colon(s) == |s| && Prefix(s) == "" && Local(s) == s
  {
    if s != "" { NoColon(s[1..]); }
  }

  /** `ds` is bound, and nothing is bound amiss. */
  ghost predicate DsScope(s: Scope) { "ds" in s && s["ds"] == DS && Sane(s) }

  predicate PlainAttr(a: WAttr) { a.name != "xmlns" && forall i :: 0 <= i < |a.name| ==> a.name[i] != ':' }

  /** How many attributes are declarations or have a prefix. */
  function NotPlain(attrs: seq<WAttr>): nat {
    if attrs == [] then 0 else (if PlainAttr(attrs[0]) then 0 else 1) + NotPlain(attrs[1..])
  }

  predicate AllPlain(attrs: seq<WAttr>) { NotPlain(attrs) == 0 }

  lemma {:induction false} PlainAt(attrs: seq<WAttr>, i: nat)
    requires AllPlain(attrs) && i < |attrs|
    ensures PlainAttr(attrs[i])
  {
    if i > 0 { PlainAt(attrs[1..], i - 1); }
  }

  lemma {:induction false} OnePlain(a: WAttr)
    requires PlainAttr(a)
    ensures AllPlain([a])
  {
    assert [a][1..] == [];
  }

  lemma {:induction false} PlainAttrs(attrs: seq<WAttr>, s: Scope)
    requires AllPlain(attrs)
    ensures WInside(s, attrs) == s
    ensures |attrs| == 1 ==> DecodeAttrs(attrs, s) == [Attr("", attrs[0].name, attrs[0].value)]
    decreases |attrs|
  {
    if attrs != [] {
      NoColon(attrs[0].name);
      PlainAttrs(attrs[1..], s);
    }
  }

  lemma {:induction false} DsTag(local: string, attrs: seq<WAttr>, s: Scope)
    requires DsScope(s)
    ensures Named(DecodeTag(WTag(Ds(local), attrs), s).el, DS, local)
    ensures forall other :: other != local ==> !Named(DecodeTag(WTag(Ds(local), attrs), s).el, DS, other)
  {
    DsSplit(local);
  }

  lemma {:induction false} DeclareDs(s: Scope)
    requires Sane(s)
    ensures WInside(s, [DsDeclaration()]) == s["ds" := DS] && DsScope(s["ds" := DS])
    ensures SaneTag(WTag("", [DsDeclaration()]))
  {
    XmlnsSplit();
    assert [DsDeclaration()][1..] == [];
  }

  lemma {:induction false} AlgorithmIsPlain(v: string)
    ensures PlainAttr(WAttr("Algorithm", v)) && AllPlain([WAttr("Algorithm", v)])
  {
    assert |"Algorithm"| == 9 && |"xmlns"| == 5;
    OnePlain(WAttr("Algorithm", v));
  }

  lemma {:induction false} UriIsPlain(v: string)
    ensures PlainAttr(WAttr("URI", v)) && AllPlain([WAttr("URI", v)])
  {
    assert |"URI"| == 3 && |"xmlns"| == 5;
    OnePlain(WAttr("URI", v));
  }

  lemma {:induction false} OnlyAttr(local: string, a: WAttr, s: Scope)
    requires PlainAttr(a)
    ensures AttrValue(DecodeTag(WTag(Ds(local), [a]), s).el.attrs, a.name) == Some(a.value)
  {
    OnePlain(a);
    PlainAttrs([a], s);
  }

  /** A child written in `ds` is found by its local name. */
  lemma {:induction false} ChildHere(local: string, attrs: seq<WAttr>, k: Forest<WTag>, r: Forest<WTag>, pos: nat,
                                     s: Scope)
    requires DsScope(s) && AllPlain(attrs)
    ensures FirstChild(DecodeForest(Elem(WTag(Ds(local), attrs), k, r), s), pos, s, DS, local) ==
            Some(Node(pos, DecodeTag(WTag(Ds(local), attrs), s), DecodeForest(k, s), s))
  {
    PlainAttrs(attrs, s);
    DsTag(local, attrs, s);
  }

  /** Three such children in a row. */
  lemma {:induction false} ThreeKids(n: Node, a: WTag, ak: Forest<WTag>, b: WTag, bk: Forest<WTag>, c: WTag,
                                     ck: Forest<WTag>, r: Forest<WTag>, la: string, lb: string, lc: string, s: Scope)
    requires DsScope(s) && Inner(n) == s && AllPlain(a.attrs) && AllPlain(b.attrs) && AllPlain(c.attrs)
    requires a.name == Ds(la) && b.name == Ds(lb) && c.name == Ds(lc) && la != lb && la != lc && lb != lc
    requires n.kids == DecodeForest(Elem(a, ak, Elem(b, bk, Elem(c, ck, r))), s)
    ensures var m := Child(n, DS, lb);
            m.Some? && m.value.tag == DecodeTag(b, s) && m.value.kids == DecodeForest(bk, s) && m.value.scope == s
    ensures var m := Child(n, DS, lc);
            m.Some? && m.value.tag == DecodeTag(c, s) && m.value.kids == DecodeForest(ck, s) && m.value.scope == s
  {
    var ta := DecodedDs(a, ak, Elem(b, bk, Elem(c, ck, r)), s, la);
    var tb := DecodedDs(b, bk, Elem(c, ck, r), s, lb);
    var tc := DecodedDs(c, ck, r, s, lc);
    ThirdOfThree(n, ta, DecodeForest(ak, s), tb, DecodeForest(bk, s), tc, DecodeForest(ck, s), DecodeForest(r, s), DS,
                 lb, lc);
  }

  lemma {:induction false} DecodedDs(w: WTag, k: Forest<WTag>, r: Forest<WTag>, s: Scope, local: string)
    returns (t: Tag)
    requires DsScope(s) && AllPlain(w.attrs) && w.name == Ds(local)
    ensures t == DecodeTag(w, s) && DecodeForest(Elem(w, k, r), s) == Elem(t, DecodeForest(k, s), DecodeForest(r, s))
    ensures Named(t.el, DS, local) && forall other :: other != local ==> !Named(t.el, DS, other)
  {
    t := DecodeTag(w, s);
    assert w == WTag(Ds(local), w.attrs);
    PlainAttrs(w.attrs, s);
    DsTag(local, w.attrs, s);
  }

  lemma {:induction false} ThirdOfThree(n: Node, ta: Tag, ka: Forest<Tag>, tb: Tag, kb: Forest<Tag>, tc: Tag,
                                        kc: Forest<Tag>, r: Forest<Tag>, space: string, lb: string, lc: string)
    requires n.kids == Elem(ta, ka, Elem(tb, kb, Elem(tc, kc, r)))
    requires !Named(ta.el, space, lb) && !Named(ta.el, space, lc) && Named(tb.el, space, lb)
             && !Named(tb.el, space, lc) && Named(tc.el, space, lc)
    ensures var m := Child(n, space, lb);
            m.Some? && m.value.tag == tb && m.value.kids == kb && m.value.scope == Inner(n)
    ensures var m := Child(n, space, lc);
            m.Some? && m.value.tag == tc && m.value.kids == kc && m.value.scope == Inner(n)
  {
    var last := Elem(tc, kc, r);
    var p := n.pos + 3 + Size(ka);
    assert FirstChild(n.kids, n.pos + 1, Inner(n), space, lb) == FirstChild(Elem(tb, kb, last), p, Inner(n), space, lb);
    assert FirstChild(n.kids, n.pos + 1, Inner(n), space, lc) == FirstChild(Elem(tb, kb, last), p, Inner(n), space, lc);
    assert FirstChild(Elem(tb, kb, last), p, Inner(n), space, lc) ==
        FirstChild(last, p + 2 + Size(kb), Inner(n), space, lc);
  }

  lemma {:induction false} DistinctNames()
    ensures "Transforms" != "DigestMethod" && "Transforms" != "DigestValue" && "DigestMethod" != "DigestValue"
    ensures "CanonicalizationMethod" != "SignatureMethod" && "CanonicalizationMethod" != "Reference"
            && "SignatureMethod" != "Reference"
    ensures "SignedInfo" != "SignatureValue"
  {
    assert |"Transforms"| == 10 && |"DigestMethod"| == 12 && |"DigestValue"| == 11;
    assert |"CanonicalizationMethod"| == 22 && |"SignatureMethod"| == 15 && |"Reference"| == 9;
    assert |"SignedInfo"| == 10 && |"SignatureValue"| == 14;
  }

  /** A tag written with one attribute is read back with it, and declares nothing. */
  lemma {:induction false} OneAttrRead(n: Node, local: string, a: WAttr, s: Scope)
    requires n.tag == DecodeTag(WTag(Ds(local), [a]), s) && PlainAttr(a) && DsScope(s)
    ensures Attribute(n, a.name) == a.value && (n.scope == s ==> Inner(n) == s)
  {
    OnlyAttr(local, a, s);
    OnePlain(a);
    PlainAttrs([a], s);
    DecodedInside(s, [a], s);
  }

  lemma {:induction false} ReferenceKidsFound(n: Node, digest: string, s: Scope)
    requires DsScope(s) && Inner(n) == s && n.kids == DecodeForest(ReferenceKids(digest), s)
    ensures var m := Child(n, DS, "DigestMethod");
            m.Some? && m.value.tag == DecodeTag(WTag(Ds("DigestMethod"), [WAttr("Algorithm", SHA256)]), s)
    ensures var v := Child(n, DS, "DigestValue"); v.Some? && v.value.kids == DecodeForest(Leaf(Some(digest), Nil), s)
  {
    DistinctNames();
    AlgorithmIsPlain(SHA256);
    ThreeKids(n, WTag(Ds("Transforms"), []), Method("Transform", ENVELOPED, Nil),
              WTag(Ds("DigestMethod"), [WAttr("Algorithm", SHA256)]), Nil,
              WTag(Ds("DigestValue"), []), Leaf(Some(digest), Nil), Nil,
              "Transforms", "DigestMethod", "DigestValue", s);
  }

  lemma {:induction false} ReferenceRead(n: Node, digest: string, s: Scope)
    requires DsScope(s) && Inner(n) == s && n.kids == DecodeForest(ReferenceKids(digest), s)
    ensures var m := Child(n, DS, "DigestMethod"); m.Some? && Attribute(m.value, "Algorithm") == SHA256
    ensures var v := Child(n, DS, "DigestValue"); v.Some? && v.value.kids == DecodeForest(Leaf(Some(digest), Nil), s)
  {
    ReferenceKidsFound(n, digest, s);
    AlgorithmIsPlain(SHA256);
    OneAttrRead(Child(n, DS, "DigestMethod").value, "DigestMethod", WAttr("Algorithm", SHA256), s);
  }

  lemma {:induction false} InfoKidsFound(n: Node, id: string, digest: string, s: Scope)
    requires DsScope(s) && Inner(n) == s && n.kids == DecodeForest(InfoKids(id, digest), s)
    ensures var m := Child(n, DS, "SignatureMethod");
            m.Some? && m.value.tag == DecodeTag(WTag(Ds("SignatureMethod"), [WAttr("Algorithm", RSA_SHA256)]), s)
    ensures
      var r := Child(n, DS, "Reference");
      && r.Some? && r.value.tag == DecodeTag(WTag(Ds("Reference"), [WAttr("URI", "#" + id)]), s)
      && r.value.kids == DecodeForest(ReferenceKids(digest), s) && r.value.scope == s
  {
    DistinctNames();
    AlgorithmIsPlain(C14N);
    AlgorithmIsPlain(RSA_SHA256);
    UriIsPlain("#" + id);
    ThreeKids(n, WTag(Ds("CanonicalizationMethod"), [WAttr("Algorithm", C14N)]), Nil,
              WTag(Ds("SignatureMethod"), [WAttr("Algorithm", RSA_SHA256)]), Nil,
              WTag(Ds("Reference"), [WAttr("URI", "#" + id)]), ReferenceKids(digest), Nil,
              "CanonicalizationMethod", "SignatureMethod", "Reference", s);
  }

  lemma {:induction false} InfoRead(n: Node, id: string, digest: string, s: Scope) returns (ref: Node)
    requires DsScope(s) && Inner(n) == s && n.kids == DecodeForest(InfoKids(id, digest), s)
    ensures Child(n, DS, "Reference") == Some(ref)
    ensures Attribute(ref, "URI") == "#" + id && Inner(ref) == s && ref.kids == DecodeForest(ReferenceKids(digest), s)
    ensures var m := Child(n, DS, "SignatureMethod"); m.Some? && Attribute(m.value, "Algorithm") == RSA_SHA256
  {
    InfoKidsFound(n, id, digest, s);
    AlgorithmIsPlain(RSA_SHA256);
    UriIsPlain("#" + id);
    ref := Child(n, DS, "Reference").value;
    OneAttrRead(ref, "Reference", WAttr("URI", "#" + id), s);
    OneAttrRead(Child(n, DS, "SignatureMethod").value, "SignatureMethod", WAttr("Algorithm", RSA_SHA256), s);
  }
}
