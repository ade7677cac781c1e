/** Enveloped signatures: what is checked, in which order, and with which library calls. */
module Signature {
  import opened Text
  import opened Xml
  import opened Document
  import opened Canon
  import opened Canonicalizer

  const DS := "http://www.w3.org/2000/09/xmldsig#"
  const SAML := "urn:oasis:names:tc:SAML:2.0:assertion"
  const SAMLP := "urn:oasis:names:tc:SAML:2.0:protocol"
  const SHA256 := "http://www.w3.org/2001/04/xmlenc#sha256"
  const SHA256_MORE := "http://www.w3.org/2001/04/xmldsig-more#sha256"
  const RSA_SHA256 := "http://www.w3.org/2001/04/xmldsig-more#rsa-sha256"

  type Bytes = seq<bv8>
  type Key = string
  type Certificate = string

  /** The library calls: SHA-256, base64 and RSA. */
  datatype Crypto = Crypto(
    hash: string -> Bytes,
    encode: Bytes -> string,
    decode: string -> Option<Bytes>,
    isRsa: Certificate -> bool,
    sign: (Key, Bytes) -> Bytes,
    verify: (Certificate, Bytes, Bytes) -> bool)

  /** hmacEqual: no early exit, but still equality. */
  method ConstantTimeEqual(a: Bytes, b: Bytes) returns (same: bool)
    ensures same <==> a == b
  {
    if |a| != |b| {
      return false;
    }
    var v: bv8 := 0;
    for i := 0 to |a|
      invariant v == 0 <==> a[..i] == b[..i]
    {
      assert a[..i + 1] == a[..i] + [a[i]] && b[..i + 1] == b[..i] + [b[i]];
      XorOr(v, a[i], b[i]);
      v := v | (a[i] ^ b[i]);
    }
    assert a[..|a|] == a && b[..|b|] == b;
    return v == 0;
  }

  lemma {:induction false} XorOr(v: bv8, x: bv8, y: bv8)
    ensures v | (x ^ y) == 0 <==> v == 0 && x == y
  {
  }

  // ---- checking ----

  datatype SigError =
    | NoId | NoSignedInfo | NoReference | WrongReference
    | NoDigestMethod | BadDigestMethod | NoDigestValue | BadDigestEncoding
    | TooNested | DigestMismatch
    | NoSignatureMethod | BadSignatureMethod | NoSignatureValue | BadSignatureEncoding
    | NotRsa | BadSignature

  function Attribute(n: Node, local: string): string {
    if AttrValue(n.tag.el.attrs, local).Some? then AttrValue(n.tag.el.attrs, local).value else ""
  }

  function TrimmedText(n: Node): string { TrimSpace(TextOf(n.kids)) }

  /** The digest half of an enveloped signature: the Reference names its parent, and its DigestValue is
      the digest of the parent without the signature. */
  ghost function DigestError(c: Crypto, parent: Node, sig: Node, ref: Node): Option<SigError>
    requires AllAligned(Tree(parent))
  {
    if TrimPrefix(Attribute(ref, "URI"), "#") != Attribute(parent, "ID") then Some(WrongReference)
    else if Child(ref, DS, "DigestMethod").None? then Some(NoDigestMethod)
    else
      var algorithm := Attribute(Child(ref, DS, "DigestMethod").value, "Algorithm");
      if algorithm != SHA256 && algorithm != SHA256_MORE then Some(BadDigestMethod)
      else if Child(ref, DS, "DigestValue").None? then Some(NoDigestValue)
      else
        var want := c.decode(TrimmedText(Child(ref, DS, "DigestValue").value));
        if want.None? then Some(BadDigestEncoding)
        else
          var target := CanonicalElement(parent, {sig.pos});
          if target.None? then Some(TooNested)
          else if c.hash(target.value) != want.value then Some(DigestMismatch)
          else None
  }

  /** The signature half: SignatureValue signs the digest of SignedInfo. */
  ghost function ValueError(c: Crypto, cert: Certificate, sig: Node, info: Node): Option<SigError>
    requires AllAligned(Tree(info))
  {
    if Child(info, DS, "SignatureMethod").None? then Some(NoSignatureMethod)
    else if Attribute(Child(info, DS, "SignatureMethod").value, "Algorithm") != RSA_SHA256 then Some(BadSignatureMethod)
    else if Child(sig, DS, "SignatureValue").None? then Some(NoSignatureValue)
    else
      var value := c.decode(TrimmedText(Child(sig, DS, "SignatureValue").value));
      if value.None? then Some(BadSignatureEncoding)
      else
        var signed := CanonicalElement(info, {});
        if signed.None? then Some(TooNested)
        else if !c.isRsa(cert) then Some(NotRsa)
        else if !c.verify(cert, c.hash(signed.value), value.value) then Some(BadSignature)
        else None
  }

  /** What verifyEnvelopedSignature reports. */
  ghost function EnvelopedError(c: Crypto, cert: Certificate, parent: Node, sig: Node): Option<SigError>
    requires AllAligned(Tree(parent)) && AllAligned(Tree(sig))
  {
    ChildAligned(sig, DS, "SignedInfo");
    if Attribute(parent, "ID") == "" then Some(NoId)
    else if Child(sig, DS, "SignedInfo").None? then Some(NoSignedInfo)
    else
      var info := Child(sig, DS, "SignedInfo").value;
      if Child(info, DS, "Reference").None? then Some(NoReference)
      else
        var e := DigestError(c, parent, sig, Child(info, DS, "Reference").value);
        if e.Some? then e else ValueError(c, cert, sig, info)
  }

  lemma {:induction false} FirstChildAligned(f: Forest<Tag>, pos: nat, scope: Scope, space: string, local: string)
    requires AllAligned(f)
    ensures FirstChild(f, pos, scope, space, local).Some? ==>
            AllAligned(Tree(FirstChild(f, pos, scope, space, local).value))
  {
    match f
    case Nil =>
    case Leaf(_, r) => FirstChildAligned(r, pos + 1, scope, space, local);
    case Elem(_, k, r) => FirstChildAligned(r, pos + 2 + Size(k), scope, space, local);
  }

  lemma {:induction false} ChildAligned(n: Node, space: string, local: string)
    requires AllAligned(Tree(n))
    ensures Child(n, space, local).Some? ==> AllAligned(Tree(Child(n, space, local).value))
  {
    FirstChildAligned(n.kids, n.pos + 1, Inner(n), space, local);
  }

  lemma {:induction false} FirstChildRaw(raw: map<nat, string>, f: Forest<Tag>, pos: nat, scope: Scope, space: string,
                                         local: string)
    requires RawNames(raw, f, pos)
    ensures FirstChild(f, pos, scope, space, local).Some? ==>
              var n := FirstChild(f, pos, scope, space, local).value; RawNames(raw, Tree(n), n.pos)
  {
    match f
    case Nil =>
    case Leaf(_, r) => FirstChildRaw(raw, r, pos + 1, scope, space, local);
    case Elem(_, k, r) => FirstChildRaw(raw, r, pos + 2 + Size(k), scope, space, local);
  }

  datatype VerifyError =
    | EmptyDocument | NotResponse | AssertionCount | Unsigned
    | ResponseSignature(error: SigError) | AssertionSignature(error: SigError)

  datatype Verdict = Verified(assertion: Node, response: Node) | Failed(why: VerifyError)

  /** The signatures on the Response and on its Assertion: at least one, and all that are there hold. */
  ghost function Signatures(c: Crypto, cert: Certificate, root: Node, a: Node): Verdict
    requires AllAligned(Tree(root)) && AllAligned(Tree(a))
  {
    ChildAligned(root, DS, "Signature");
    ChildAligned(a, DS, "Signature");
    var onRoot, onAssertion := Child(root, DS, "Signature"), Child(a, DS, "Signature");
    var rootError := if onRoot.Some? then EnvelopedError(c, cert, root, onRoot.value) else None;
    var assertionError := if onAssertion.Some? then EnvelopedError(c, cert, a, onAssertion.value) else None;
    if onRoot.None? && onAssertion.None? then Failed(Unsigned)
    else if rootError.Some? then Failed(ResponseSignature(rootError.value))
    else if assertionError.Some? then Failed(AssertionSignature(assertionError.value))
    else Verified(a, root)
  }

  /** What VerifySAMLResponseSignature reports: the one Assertion of a signed Response. */
  ghost function Verify(c: Crypto, cert: Certificate, f: Forest<Tag>): Verdict
    requires AllAligned(f)
  {
    if Root(f, 0).None? then Failed(EmptyDocument)
    else
      var root := Root(f, 0).value;
      RootAligned(f, 0);
      if !Named(root.tag.el, SAMLP, "Response") then Failed(NotResponse)
      else
        var assertions := Descendants(root, SAML, "Assertion");
        DescendantsAligned(root, SAML, "Assertion");
        if |assertions| != 1 then Failed(AssertionCount) else Signatures(c, cert, root, assertions[0])
  }

  lemma {:induction false} RootAligned(f: Forest<Tag>, pos: nat)
    requires AllAligned(f)
    ensures Root(f, pos).Some? ==> AllAligned(Tree(Root(f, pos).value))
  {
    if f.Leaf? { RootAligned(f.rest, pos + 1); }
  }

  lemma {:induction false} OutermostAligned(f: Forest<Tag>, pos: nat, scope: Scope, space: string, local: string)
    requires AllAligned(f)
    ensures forall i :: 0 <= i < |Outermost(f, pos, scope, space, local)| ==>
            AllAligned(Tree(Outermost(f, pos, scope, space, local)[i]))
  {
    match f
    case Nil =>
    case Leaf(_, r) => OutermostAligned(r, pos + 1, scope, space, local);
    case Elem(tag, k, r) =>
      OutermostAligned(k, pos + 1, Inside(scope, tag.el.attrs), space, local);
      OutermostAligned(r, pos + 2 + Size(k), scope, space, local);
  }

  lemma {:induction false} DescendantsAligned(n: Node, space: string, local: string)
    requires AllAligned(Tree(n))
    ensures forall i :: 0 <= i < |Descendants(n, space, local)| ==> AllAligned(Tree(Descendants(n, space, local)[i]))
  {
    OutermostAligned(n.kids, n.pos + 1, Inner(n), space, local);
  }

  // ---- what acceptance means ----

  /** A part of a signature, by its name in XML Signature. */
  function Part(n: Node, local: string): Option<Node> { Child(n, "http://www.w3.org/2000/09/xmldsig#", local) }

  /** A part names one of these algorithms. */
  predicate UsesOneOf(n: Node, local: string, algorithms: set<string>) {
    Part(n, local).Some? && Attribute(Part(n, local).value, "Algorithm") in algorithms
  }

  /** A part holds these bytes in base64, with white space around them or not. */
  predicate HoldsBytes(c: Crypto, n: Node, local: string, bytes: Bytes) {
    Part(n, local).Some? && c.decode(TrimmedText(Part(n, local).value)) == Some(bytes)
  }

  /** The Reference is to the element the signature stands in, which has an ID, and holds its digest: that of
      its canonical bytes without the signature. */
  ghost predicate Refers(c: Crypto, parent: Node, sig: Node, ref: Node)
    requires AllAligned(Tree(parent))
  {
    var id, uri := Attribute(parent, "ID"), Attribute(ref, "URI");
    && id != "" && (uri == "#" + id || (uri == id && id[0] != '#'))
    && UsesOneOf(ref, "DigestMethod",
                 {"http://www.w3.org/2001/04/xmlenc#sha256", "http://www.w3.org/2001/04/xmldsig-more#sha256"})
    && var target := CanonicalElement(parent, {sig.pos});
       target.Some? && HoldsBytes(c, ref, "DigestValue", c.hash(target.value))
  }

  /** The SignatureValue is a signature by the certificate's key over the canonical bytes of SignedInfo. */
  ghost predicate Signs(c: Crypto, cert: Certificate, sig: Node, info: Node)
    requires AllAligned(Tree(info))
  {
    && UsesOneOf(info, "SignatureMethod", {"http://www.w3.org/2001/04/xmldsig-more#rsa-sha256"})
    && c.isRsa(cert)
    && var signed := CanonicalElement(info, {});
       signed.Some? && exists value ::
          HoldsBytes(c, sig, "SignatureValue", value) && c.verify(cert, c.hash(signed.value), value)
  }

  /** A signature that holds over the element it stands in. */
  ghost predicate SignedBy(c: Crypto, cert: Certificate, parent: Node, sig: Node)
    requires AllAligned(Tree(parent)) && AllAligned(Tree(sig))
  {
    ChildAligned(sig, DS, "SignedInfo");
    && Part(sig, "SignedInfo").Some?
    && var info := Part(sig, "SignedInfo").value;
       Part(info, "Reference").Some? && Refers(c, parent, sig, Part(info, "Reference").value)
       && Signs(c, cert, sig, info)
  }

  lemma {:induction false} PrefixGone(uri: string, id: string)
    ensures id != "" ==> (TrimPrefix(uri, "#") == id <==> uri == "#" + id || (uri == id && id[0] != '#'))
  {
    if id != "" {
      if "#" <= uri { assert uri == "#" + uri[1..]; }
      if uri == "#" + id { assert uri[1..] == id; }
    }
  }

  lemma {:induction false} NoDigestError(c: Crypto, parent: Node, sig: Node, ref: Node)
    requires AllAligned(Tree(parent)) && Attribute(parent, "ID") != ""
    ensures DigestError(c, parent, sig, ref).None? <==> Refers(c, parent, sig, ref)
  {
    PrefixGone(Attribute(ref, "URI"), Attribute(parent, "ID"));
  }

  lemma {:induction false} NoValueError(c: Crypto, cert: Certificate, sig: Node, info: Node)
    requires AllAligned(Tree(info))
    ensures ValueError(c, cert, sig, info).None? <==> Signs(c, cert, sig, info)
  {
    if ValueError(c, cert, sig, info).None? {
      var value := c.decode(TrimmedText(Child(sig, DS, "SignatureValue").value)).value;
      assert HoldsBytes(c, sig, "SignatureValue", value);
    }
  }

  lemma {:induction false} NoEnvelopedError(c: Crypto, cert: Certificate, parent: Node, sig: Node)
    requires AllAligned(Tree(parent)) && AllAligned(Tree(sig))
    ensures EnvelopedError(c, cert, parent, sig).None? <==> SignedBy(c, cert, parent, sig)
  {
    ChildAligned(sig, DS, "SignedInfo");
    if Attribute(parent, "ID") != "" && Child(sig, DS, "SignedInfo").Some? {
      var info := Child(sig, DS, "SignedInfo").value;
      NoValueError(c, cert, sig, info);
      if Child(info, DS, "Reference").Some? { NoDigestError(c, parent, sig, Child(info, DS, "Reference").value); }
    }
  }

  /** If the element has a signature of its own, it holds. */
  ghost predicate HoldsIfSigned(c: Crypto, cert: Certificate, n: Node) {
    OwnAligned(n);
    AllAligned(Tree(n)) && (Part(n, "Signature").Some? ==> SignedBy(c, cert, n, Part(n, "Signature").value))
  }

  lemma {:induction false} OwnAligned(n: Node)
    ensures AllAligned(Tree(n)) && Part(n, "Signature").Some? ==> AllAligned(Tree(Part(n, "Signature").value))
  {
    if AllAligned(Tree(n)) { ChildAligned(n, DS, "Signature"); }
  }

  /** A document is accepted, with a certain Assertion, exactly when its first element is a Response, the
      Assertion is the only one in it, one of the two is signed, and every signature on them holds. */
  lemma {:induction false} VerifiedExactly(c: Crypto, cert: Certificate, f: Forest<Tag>, a: Node, root: Node)
    requires AllAligned(f)
    ensures Verify(c, cert, f) == Verified(a, root) <==>
              && Root(f, 0) == Some(root)
              && root.tag.el.space == "urn:oasis:names:tc:SAML:2.0:protocol" && root.tag.el.local == "Response"
              && Descendants(root, "urn:oasis:names:tc:SAML:2.0:assertion", "Assertion") == [a]
              && (Part(root, "Signature").Some? || Part(a, "Signature").Some?)
              && HoldsIfSigned(c, cert, root) && HoldsIfSigned(c, cert, a)
  {
    RootAligned(f, 0);
    if Root(f, 0) == Some(root) {
      var all := Descendants(root, SAML, "Assertion");
      DescendantsAligned(root, SAML, "Assertion");
      if |all| == 1 {
        assert all == [all[0]];
        SignaturesExactly(c, cert, root, all[0]);
      }
    }
  }

  lemma {:induction false} SignaturesExactly(c: Crypto, cert: Certificate, root: Node, a: Node)
    requires AllAligned(Tree(root)) && AllAligned(Tree(a))
    ensures Signatures(c, cert, root, a).Verified? ==> Signatures(c, cert, root, a) == Verified(a, root)
    ensures Signatures(c, cert, root, a) == Verified(a, root) <==>
              && (Part(root, "Signature").Some? || Part(a, "Signature").Some?)
              && HoldsIfSigned(c, cert, root) && HoldsIfSigned(c, cert, a)
  {
    ChildAligned(root, DS, "Signature");
    ChildAligned(a, DS, "Signature");
    if Part(root, "Signature").Some? { NoEnvelopedError(c, cert, root, Part(root, "Signature").value); }
    if Part(a, "Signature").Some? { NoEnvelopedError(c, cert, a, Part(a, "Signature").value); }
  }
}
