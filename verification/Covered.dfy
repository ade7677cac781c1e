/** When everything that is read from an accepted Response lies inside what a signature covers. */
module Covered {
  import opened Text
  import opened Xml
  import opened Document
  import opened Canon
  import opened Canonicalizer
  import opened Unambiguous
  import opened Signature
  import opened Response
  import opened Claims
  import opened Decode
  import opened Legible

  // ---- the two signatures ----

  /** The Assertion's own signature covers all that is read. */
  ghost predicate CoveredByOwn(a: Node)
    requires CleanNode(a, READ)
  {
    Child(a, DS, "Signature").Some? && Read(a) == ReadingIn(SignedSense(a, READ))
  }

  /** The Response's signature does: its signed meaning holds one Assertion, which reads the same. */
  ghost predicate CoveredByResponse(root: Node, a: Node)
    requires CleanNode(root, READ)
  {
    && Child(root, DS, "Signature").Some?
    && var found := AllIn(SignedSense(root, READ).kids, SAML, "Assertion");
       |found| == 1 && Read(a) == ReadingIn(found[0])
  }

  /** The Assertion's signature has no attribute statement inside it. */
  predicate SignatureSilent(a: Node) {
    var sig := Child(a, DS, "Signature");
    sig.Some? && Statements(Descendants(sig.value, SAML, "AttributeStatement")) == []
  }

  /** The Response's signature has no Assertion inside it. */
  predicate SignatureEmpty(root: Node) {
    var sig := Child(root, DS, "Signature");
    sig.Some? && Descendants(sig.value, SAML, "Assertion") == []
  }

  lemma {:induction false} OwnExactly(a: Node)
    requires CleanNode(a, READ)
    ensures CoveredByOwn(a) <==> SignatureSilent(a)
  {
    var sig := Child(a, DS, "Signature");
    if sig.Some? {
      SignedReading(a);
      SignedAttributes(a, sig.value);
      SameButAttributes(Read(a), ReadingIn(SignedSense(a, READ)));
    }
  }

  lemma {:induction false} SameButAttributes(r: Reading, r': Reading)
    requires r.(attributes := []) == r'.(attributes := [])
    ensures r == r' <==> r.attributes == r'.attributes
  {
  }

  /** One Assertion, found around a signature or inside it. */
  lemma {:induction false} OneAround(a: Node, xs: seq<Node>, inside: seq<Node>, ys: seq<Node>, ss: seq<Sense>,
                                     ts: seq<Sense>, v: Vocabulary)
    requires [a] == xs + (inside + ys) && ShowsAll(xs, ss, v) && ShowsAll(ys, ts, v)
    ensures inside == [] ==> |ss + ts| == 1 && Shows(a, (ss + ts)[0], v)
    ensures inside != [] ==> ss + ts == []
  {
    var all := xs + (inside + ys);
    assert |all| == |xs| + |inside| + |ys| == 1 && all[0] == a;
    if inside == [] {
      if |xs| == 1 {
        assert all[0] == xs[0] && (ss + ts)[0] == ss[0];
      } else {
        assert all[0] == ys[0] && (ss + ts)[0] == ts[0];
      }
    }
  }

  /** A signed Response covers its Assertion, and then all that is read from it, exactly when the Assertion is
      not inside the signature; otherwise nothing that it covers is an Assertion. */
  lemma {:induction false} ResponseExactly(root: Node, a: Node)
    requires CleanNode(root, READ) && Descendants(root, SAML, "Assertion") == [a]
    ensures CoveredByResponse(root, a) <==> SignatureEmpty(root)
    ensures Child(root, DS, "Signature").Some? && !SignatureEmpty(root) ==>
            AllIn(SignedSense(root, READ).kids, SAML, "Assertion") == []
  {
    var sig := Child(root, DS, "Signature");
    if sig.Some? {
      Namespaces();
      ReadCovers();
      var xs, ys, ss, ts := FoundAroundSignature(root, READ, SAML, "Assertion", sig.value);
      OneAround(a, xs, Descendants(sig.value, SAML, "Assertion"), ys, ss, ts, READ);
      if Descendants(sig.value, SAML, "Assertion") == [] { ReadingShown(a, (ss + ts)[0]); }
    }
  }

  lemma {:induction false} VerifiedWithin(c: Crypto, cert: Certificate, f: Forest<Tag>, a: Node, root: Node)
    requires Clean(f, map[], READ) && WellNamed(f) && Verify(c, cert, f) == Verified(a, root)
    ensures CleanNode(a, READ) && WellNamed(Tree(a)) && CleanNode(root, READ) && WellNamed(Tree(root))
    ensures Descendants(root, SAML, "Assertion") == [a]
    ensures var sig := Child(root, DS, "Signature");
            sig.Some? ==> AllAligned(Tree(sig.value)) && EnvelopedError(c, cert, root, sig.value).None?
  {
    ReadCovers();
    VerifiedClean(c, cert, f, READ);
    RootClean(f, 0, READ);
    ChildAligned(root, DS, "Signature");
    assert Signatures(c, cert, root, a).Verified?;
  }

  /** The signed meaning of an element is the meaning of the tree whose canonical text its signature digests. */
  lemma {:induction false} DigestedSense(n: Node, sig: Node, v: Vocabulary)
    requires CleanNode(n, v) && WellNamed(Tree(n)) && Child(n, DS, "Signature") == Some(sig)
    requires CanonicalElement(n, {sig.pos}).Some?
    ensures WellNamed(Claims.Unsigned(n))
    ensures CanonicalElement(n, {sig.pos}).value == Canonical(Claims.Unsigned(n), n.scope, map[], "")
    ensures
      var m := MeaningOf(Claims.Unsigned(n), n.scope);
      m.MElem? && SignedSense(n, v) == Sense(m.attrs, m.kids)
  {
    UnsignedSense(n, v);
    DigestedText(n, sig);
  }

  /** Every claim of an accepted response lies inside what some signature covers exactly when the Assertion's
      own signature holds no attribute statement or the Response's signature holds no Assertion. */
  lemma {:induction false} ClaimsCovered(c: Crypto, cert: Certificate, f: Forest<Tag>, a: Node, root: Node)
    requires Clean(f, map[], READ) && WellNamed(f) && Verify(c, cert, f) == Verified(a, root)
    ensures CleanNode(a, READ) && CleanNode(root, READ)
    ensures CoveredByOwn(a) || CoveredByResponse(root, a) <==> SignatureSilent(a) || SignatureEmpty(root)
  {
    VerifiedWithin(c, cert, f, a, root);
    OwnExactly(a);
    ResponseExactly(root, a);
  }

  /** The same for every document that can be read from its tokens as it is written. */
  lemma {:induction false} ReadableCovered(c: Crypto, cert: Certificate, w: Forest<WTag>, a: Node, root: Node)
    requires Readable(w) && AllAligned(DecodeForest(w, map[]))
    requires Verify(c, cert, DecodeForest(w, map[])) == Verified(a, root)
    ensures CleanNode(a, READ) && CleanNode(root, READ)
    ensures CoveredByOwn(a) || CoveredByResponse(root, a) <==> SignatureSilent(a) || SignatureEmpty(root)
  {
    ReadableDocuments(w);
    ClaimsCovered(c, cert, DecodeForest(w, map[]), a, root);
  }

  // ---- a signature on the Response determines the claims ----

  /** An accepted document, its Assertion, its root and the signature on the root. */
  ghost predicate SignedResponse(c: Crypto, cert: Certificate, s: Settings, f: Forest<Tag>, a: Node, root: Node,
                                 sig: Node) {
    && Clean(f, map[], READ) && WellNamed(f) && ParseAndVerify(c, cert, s, f).Claims?
    && Verify(c, cert, f) == Verified(a, root) && Child(root, DS, "Signature") == Some(sig)
  }

  /** Two accepted responses signed on the Response over the same bytes make the same claims, all of them,
      when the Assertion is not inside the signature. */
  lemma {:induction false} SameResponseSameClaims(c: Crypto, cert: Certificate, s: Settings, f: Forest<Tag>, a: Node,
                                                  root: Node, sig: Node, c': Crypto, cert': Certificate, s': Settings,
                                                  g: Forest<Tag>, b: Node, root': Node, sig': Node)
    requires SignedResponse(c, cert, s, f, a, root, sig) && SignedResponse(c', cert', s', g, b, root', sig')
             && s.parseTime == s'.parseTime
    requires AllAligned(Tree(root)) && AllAligned(Tree(root'))
    requires CanonicalElement(root, {sig.pos}).Some?
             && CanonicalElement(root, {sig.pos}) == CanonicalElement(root', {sig'.pos})
    requires SignatureEmpty(root) && SignatureEmpty(root')
    ensures ParseAndVerify(c, cert, s, f) == ParseAndVerify(c', cert', s', g)
  {
    VerifiedWithin(c, cert, f, a, root);
    VerifiedWithin(c', cert', g, b, root');
    SameBytesSameSense(root, sig, root', sig', READ);
    ResponseExactly(root, a);
    ResponseExactly(root', b);
    JudgedAlike(s, Read(a), s', Read(b));
  }
}
