/** The signature checks as they run, over token indices. */
module Verifier {
  import opened Text
  import opened Xml
  import opened Document
  import opened Canon
  import opened Canonicalizer
  import opened Signature

  /** The document as the checks see it: indexed, with the source text of its start tags. */
  ghost predicate Sees(doc: XmlDoc, raw: map<nat, string>, n: Node)
    reads doc
  {
    CoversNode(doc.tokens, doc.matchEnd, doc.nsAtStart, n) && RawNames(raw, Tree(n), n.pos) && AllAligned(Tree(n))
  }

  method Find(doc: XmlDoc, raw: map<nat, string>, ghost n: Node, start: nat, end: nat, space: string, local: string)
    returns (s: nat, e: nat, ok: bool)
    requires Sees(doc, raw, n) && start == n.pos && end == EndOf(n)
    ensures ok == Child(n, space, local).Some?
    ensures ok ==> s == Child(n, space, local).value.pos && e == EndOf(Child(n, space, local).value)
    ensures ok ==> Sees(doc, raw, Child(n, space, local).value)
  {
    s, e, ok := doc.FindDirectChild(start, end, space, local, n);
    ChildAligned(n, space, local);
    FirstChildRaw(raw, n.kids, n.pos + 1, Inner(n), space, local);
  }

  method AttributeAt(doc: XmlDoc, raw: map<nat, string>, ghost n: Node, start: nat, local: string)
    returns (value: string)
    requires Sees(doc, raw, n) && start == n.pos
    ensures value == Attribute(n, local)
  {
    var ok;
    value, ok := AttrLookup(doc.tokens[start].el, local);
  }

  method TextAt(doc: XmlDoc, raw: map<nat, string>, ghost n: Node, start: nat, end: nat) returns (text: string)
    requires Sees(doc, raw, n) && start == n.pos && end == EndOf(n)
    ensures text == TrimmedText(n)
  {
    var all := doc.ElementText(start, end, n);
    text := TrimSpace(all);
  }

  method CheckDigest(c: Crypto, doc: XmlDoc, raw: map<nat, string>, parentStart: nat, parentEnd: nat, sigStart: nat,
                     refStart: nat, refEnd: nat, parentID: string, ghost parent: Node, ghost sig: Node, ghost ref: Node)
    returns (e: Option<SigError>)
    requires Sees(doc, raw, parent) && parentStart == parent.pos && parentEnd == EndOf(parent)
             && parentID == Attribute(parent, "ID")
    requires Sees(doc, raw, ref) && refStart == ref.pos && refEnd == EndOf(ref) && sigStart == sig.pos
    ensures e == DigestError(c, parent, sig, ref)
  {
    var uri := AttributeAt(doc, raw, ref, refStart, "URI");
    if TrimPrefix(uri, "#") != parentID { return Some(WrongReference); }
    var dmStart, _, ok := Find(doc, raw, ref, refStart, refEnd, DS, "DigestMethod");
    if !ok { return Some(NoDigestMethod); }
    var algorithm := AttributeAt(doc, raw, Child(ref, DS, "DigestMethod").value, dmStart, "Algorithm");
    if algorithm != SHA256 && algorithm != SHA256_MORE { return Some(BadDigestMethod); }
    var dvStart, dvEnd, ok2 := Find(doc, raw, ref, refStart, refEnd, DS, "DigestValue");
    if !ok2 { return Some(NoDigestValue); }
    var text := TextAt(doc, raw, Child(ref, DS, "DigestValue").value, dvStart, dvEnd);
    var want := c.decode(text);
    if want.None? { return Some(BadDigestEncoding); }
    var target := Canonicalize(doc, raw, parentStart, parentEnd, {sigStart}, parent);
    if target.None? { return Some(TooNested); }
    var same := ConstantTimeEqual(c.hash(target.value), want.value);
    if !same { return Some(DigestMismatch); }
    return None;
  }

  method CheckValue(c: Crypto, cert: Certificate, doc: XmlDoc, raw: map<nat, string>, sigStart: nat, sigEnd: nat,
                    siStart: nat, siEnd: nat, ghost sig: Node, ghost info: Node)
    returns (e: Option<SigError>)
    requires Sees(doc, raw, sig) && sigStart == sig.pos && sigEnd == EndOf(sig)
    requires Sees(doc, raw, info) && siStart == info.pos && siEnd == EndOf(info)
    ensures e == ValueError(c, cert, sig, info)
  {
    var smStart, _, ok := Find(doc, raw, info, siStart, siEnd, DS, "SignatureMethod");
    if !ok { return Some(NoSignatureMethod); }
    var algorithm := AttributeAt(doc, raw, Child(info, DS, "SignatureMethod").value, smStart, "Algorithm");
    if algorithm != RSA_SHA256 { return Some(BadSignatureMethod); }
    var svStart, svEnd, ok2 := Find(doc, raw, sig, sigStart, sigEnd, DS, "SignatureValue");
    if !ok2 { return Some(NoSignatureValue); }
    var text := TextAt(doc, raw, Child(sig, DS, "SignatureValue").value, svStart, svEnd);
    var value := c.decode(text);
    if value.None? { return Some(BadSignatureEncoding); }
    var signed := Canonicalize(doc, raw, siStart, siEnd, {}, info);
    if signed.None? { return Some(TooNested); }
    if !c.isRsa(cert) { return Some(NotRsa); }
    if !c.verify(cert, c.hash(signed.value), value.value) { return Some(BadSignature); }
    return None;
  }

  /** verifyEnvelopedSignature. */
  method CheckEnveloped(c: Crypto, cert: Certificate, doc: XmlDoc, raw: map<nat, string>, parentStart: nat,
                        parentEnd: nat, sigStart: nat, sigEnd: nat, ghost parent: Node, ghost sig: Node)
    returns (e: Option<SigError>)
    requires Sees(doc, raw, parent) && parentStart == parent.pos && parentEnd == EndOf(parent)
    requires Sees(doc, raw, sig) && sigStart == sig.pos && sigEnd == EndOf(sig)
    ensures e == EnvelopedError(c, cert, parent, sig)
  {
    var parentID := AttributeAt(doc, raw, parent, parentStart, "ID");
    if parentID == "" { return Some(NoId); }
    var siStart, siEnd, ok := Find(doc, raw, sig, sigStart, sigEnd, DS, "SignedInfo");
    if !ok { return Some(NoSignedInfo); }
    ghost var info := Child(sig, DS, "SignedInfo").value;
    var refStart, refEnd, ok2 := Find(doc, raw, info, siStart, siEnd, DS, "Reference");
    if !ok2 { return Some(NoReference); }
    e := CheckDigest(c, doc, raw, parentStart, parentEnd, sigStart, refStart, refEnd, parentID, parent, sig,
                     Child(info, DS, "Reference").value);
    if e.Some? { return; }
    e := CheckValue(c, cert, doc, raw, sigStart, sigEnd, siStart, siEnd, sig, info);
  }

  datatype Outcome = Accepted(start: nat, end: nat, responseStart: nat, responseEnd: nat) | Refused(why: VerifyError)

  ghost function OutcomeOf(v: Verdict): Outcome {
    match v
    case Verified(a, r) => Accepted(a.pos, EndOf(a), r.pos, EndOf(r))
    case Failed(why) => Refused(why)
  }

  /** VerifySAMLResponseSignature, from the decoded document on. */
  method VerifyResponse(c: Crypto, cert: Certificate, doc: XmlDoc, raw: map<nat, string>, ghost f: Forest<Tag>)
    returns (r: Outcome)
    requires Covers(doc.tokens, doc.matchEnd, doc.nsAtStart, f, 0, map[]) && Size(f) == |doc.tokens|
    requires RawNames(raw, f, 0) && AllAligned(f)
    ensures r == OutcomeOf(Verify(c, cert, f))
  {
    var rootStart, rootEnd, ok := doc.RootRange(f);
    if !ok { return Refused(EmptyDocument); }
    ghost var root := Root(f, 0).value;
    RootAligned(f, 0);
    RootRaw(raw, f, 0);
    var el := doc.tokens[rootStart].el;
    if el.local != "Response" || el.space != SAMLP { return Refused(NotResponse); }
    var assertions := doc.FindAllDescendants(rootStart, rootEnd, SAML, "Assertion", root);
    SpansLength(Descendants(root, SAML, "Assertion"));
    if |assertions| != 1 { return Refused(AssertionCount); }
    var aStart, aEnd := assertions[0].start, assertions[0].end;
    ghost var a := Descendants(root, SAML, "Assertion")[0];
    DescendantsSeen(doc, raw, root, SAML, "Assertion");
    r := CheckBoth(c, cert, doc, raw, rootStart, rootEnd, aStart, aEnd, root, a);
  }

  method CheckBoth(c: Crypto, cert: Certificate, doc: XmlDoc, raw: map<nat, string>, rootStart: nat, rootEnd: nat,
                   aStart: nat, aEnd: nat, ghost root: Node, ghost a: Node)
    returns (r: Outcome)
    requires Sees(doc, raw, root) && rootStart == root.pos && rootEnd == EndOf(root)
    requires Sees(doc, raw, a) && aStart == a.pos && aEnd == EndOf(a)
    ensures r == OutcomeOf(Signatures(c, cert, root, a))
  {
    var rsStart, rsEnd, respSigned := Find(doc, raw, root, rootStart, rootEnd, DS, "Signature");
    var asStart, asEnd, assertSigned := Find(doc, raw, a, aStart, aEnd, DS, "Signature");
    if !respSigned && !assertSigned { return Refused(Unsigned); }
    if respSigned {
      var e := CheckEnveloped(c, cert, doc, raw, rootStart, rootEnd, rsStart, rsEnd, root,
                              Child(root, DS, "Signature").value);
      if e.Some? { return Refused(ResponseSignature(e.value)); }
    }
    if assertSigned {
      var e := CheckEnveloped(c, cert, doc, raw, aStart, aEnd, asStart, asEnd, a, Child(a, DS, "Signature").value);
      if e.Some? { return Refused(AssertionSignature(e.value)); }
    }
    return Accepted(aStart, aEnd, rootStart, rootEnd);
  }

  lemma {:induction false} RootRaw(raw: map<nat, string>, f: Forest<Tag>, pos: nat)
    requires RawNames(raw, f, pos)
    ensures Root(f, pos).Some? ==> RawNames(raw, Tree(Root(f, pos).value), Root(f, pos).value.pos)
  {
    if f.Leaf? { RootRaw(raw, f.rest, pos + 1); }
  }

  lemma {:induction false} SpansLength(ns: seq<Node>)
    ensures |Spans(ns)| == |ns|
    ensures |ns| == 1 ==> Spans(ns)[0] == Span(ns[0].pos, EndOf(ns[0]))
  {
    if ns != [] { SpansLength(ns[1..]); }
  }

  lemma {:induction false} OutermostSeen(ts: seq<Token>, ends: map<nat, nat>, scopes: map<nat, Scope>,
                                         raw: map<nat, string>, f: Forest<Tag>, pos: nat, scope: Scope, space: string,
                                         local: string)
    requires Covers(ts, ends, scopes, f, pos, scope) && RawNames(raw, f, pos)
    ensures forall i :: 0 <= i < |Outermost(f, pos, scope, space, local)| ==>
              var n := Outermost(f, pos, scope, space, local)[i];
              CoversNode(ts, ends, scopes, n) && RawNames(raw, Tree(n), n.pos)
  {
    match f
    case Nil =>
    case Leaf(_, r) => OutermostSeen(ts, ends, scopes, raw, r, pos + 1, scope, space, local);
    case Elem(tag, k, r) =>
      OutermostSeen(ts, ends, scopes, raw, k, pos + 1, Inside(scope, tag.el.attrs), space, local);
      OutermostSeen(ts, ends, scopes, raw, r, pos + 2 + Size(k), scope, space, local);
      OneSeen(ts, ends, scopes, raw, tag, k, r, pos, scope);
  }

  lemma {:induction false} OneSeen(ts: seq<Token>, ends: map<nat, nat>, scopes: map<nat, Scope>, raw: map<nat, string>,
                                   tag: Tag, k: Forest<Tag>, r: Forest<Tag>, pos: nat, scope: Scope)
    requires Covers(ts, ends, scopes, Elem(tag, k, r), pos, scope) && RawNames(raw, Elem(tag, k, r), pos)
    ensures CoversNode(ts, ends, scopes, Node(pos, tag, k, scope)) && RawNames(raw, Elem(tag, k, Nil), pos)
  {
  }

  lemma {:induction false} DescendantsSeen(doc: XmlDoc, raw: map<nat, string>, n: Node, space: string, local: string)
    requires Sees(doc, raw, n)
    ensures forall i :: 0 <= i < |Descendants(n, space, local)| ==> Sees(doc, raw, Descendants(n, space, local)[i])
  {
    OutermostSeen(doc.tokens, doc.matchEnd, doc.nsAtStart, raw, n.kids, n.pos + 1, Inner(n), space, local);
    DescendantsAligned(n, space, local);
  }
}
