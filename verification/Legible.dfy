/** Which documents are read from their tokens as they are written. */
module Legible {
  import opened Text
  import opened Order
  import opened Xml
  import opened Document
  import opened Canon
  import opened Unambiguous
  import opened Decode
  import opened Claims
  import QName
  import Signature
  import Response

  /** Attribute local names are unique in the tag, no declared prefix is spelled like an attribute that
      is looked for, and the tag's own prefix is neither `xml` nor `xmlns`. */
  ghost predicate LegibleTag(w: WTag, v: Vocabulary) {
    && w.name != "" && w.name[0] != ':' && w.name != "xmlns" && Prefix(w.name) != "xmlns" && Prefix(w.name) != "xml"
    && (forall a :: a in w.attrs ==> a.name != "" && a.name[0] != ':')
    && (forall a :: a in w.attrs && WritesDeclaration(a) ==> Local(a.name) !in v.attrs)
    && (forall a, b ::
       a in w.attrs && b in w.attrs && !WritesDeclaration(a) && !WritesDeclaration(b) && Local(a.name) == Local(b.name)
       ==> a == b)
  }

  ghost predicate LegibleForest(w: Forest<WTag>, v: Vocabulary) {
    match w
    case Nil => true
    case Leaf(_, r) => LegibleForest(r, v)
    case Elem(tag, k, r) => LegibleTag(tag, v) && LegibleForest(k, v) && LegibleForest(r, v)
  }

  lemma {:induction false} PlainLocal(name: string)
    requires name != "" && name[0] != ':'
    ensures Prefix(name) == "" ==> Local(name) == name
  {
  }

  lemma {:induction false} NoColonBefore(s: string)
    ensures ':' !in Prefix(s)
  {
    if s != "" && s[0] != ':' {
      NoColonBefore(s[1..]);
      if Colon(s) < |s| { assert Prefix(s) == [s[0]] + Prefix(s[1..]); }
    }
  }

  // ---- the value of an attribute ----

  predicate IsPlain(a: WAttr, local: string) { !WritesDeclaration(a) && Local(a.name) == local }

  /** The attribute a tag has under a local name, as written. */
  ghost predicate Has(attrs: seq<WAttr>, local: string, value: Option<string>) {
    && (value.None? ==> forall a :: a in attrs ==> !IsPlain(a, local))
    && (value.Some? ==> exists a :: a in attrs && IsPlain(a, local) && a.value == value.value)
  }

  lemma {:induction false} DecodedValue(attrs: seq<WAttr>, inner: Scope, local: string)
    requires forall a :: a in attrs ==> a.name != "" && a.name[0] != ':'
    requires forall a :: a in attrs && WritesDeclaration(a) ==> Local(a.name) != local
    ensures Has(attrs, local, AttrValue(DecodeAttrs(attrs, inner), local))
  {
    if attrs != [] {
      var a := attrs[0];
      assert a in attrs;
      PlainLocal(a.name);
      assert DecodeAttrs(attrs, inner)[1..] == DecodeAttrs(attrs[1..], inner);
      DecodedValue(attrs[1..], inner, local);
      assert attrs == [a] + attrs[1..];
      assert DecodeAttr(a, inner).local == Local(a.name);
      if Local(a.name) == local { assert IsPlain(a, local); }
    }
  }

  lemma {:induction false} WrittenItems(attrs: seq<WAttr>, inner: Scope, x: Item)
    requires Sane(inner) && |DecodeAttrs(attrs, inner)| == |AttrNames(attrs)|
    ensures x in Items(DecodeAttrs(attrs, inner), AttrNames(attrs), inner) <==>
            exists a :: a in attrs && !WritesDeclaration(a) && x == AttrItem(a.name, a.value, inner)
  {
    if attrs != [] {
      var a := attrs[0];
      DecodedDeclaration(a, inner);
      assert DecodeAttrs(attrs, inner)[1..] == DecodeAttrs(attrs[1..], inner)
          && AttrNames(attrs)[1..] == AttrNames(attrs[1..]);
      WrittenItems(attrs[1..], inner, x);
      assert attrs == [a] + attrs[1..];
    }
  }

  lemma {:induction false} ValueInPairs(pairs: seq<Pair>, local: string)
    ensures PairValue(pairs, local).None? ==> forall q :: q in pairs ==> Local(q.name) != local
    ensures PairValue(pairs, local).Some? ==>
            exists q :: q in pairs && Local(q.name) == local && q.value == PairValue(pairs, local).value
  {
    if pairs != [] {
      ValueInPairs(pairs[1..], local);
      assert pairs == [pairs[0]] + pairs[1..];
    }
  }

  lemma {:induction false} PairsMembers(items: seq<Item>)
    ensures forall q :: q in Pairs(items) <==> exists x :: x in items && q == Pair(x.name, x.value)
  {
    if items != [] {
      PairsMembers(items[1..]);
      assert forall x :: x in items <==> x == items[0] || x in items[1..];
      assert items[0] in items;
    }
  }

  lemma {:induction false} WrittenPairs(w: WTag, inner: Scope, q: Pair)
    requires Sane(inner) && Aligned(DecodeTag(w, inner))
    ensures q in AttrPairs(DecodeTag(w, inner), inner) <==>
            exists a :: a in w.attrs && !WritesDeclaration(a) && q == Pair(a.name, a.value)
  {
    var items := Items(DecodeAttrs(w.attrs, inner), AttrNames(w.attrs), inner);
    PairsMembers(Sort(items));
    if q in Pairs(Sort(items)) {
      var x :| x in Sort(items) && q == Pair(x.name, x.value);
      MemberOfSorted(items, x);
      WrittenItems(w.attrs, inner, x);
    }
    forall a | a in w.attrs && !WritesDeclaration(a) && q == Pair(a.name, a.value) ensures q in Pairs(Sort(items)) {
      var x := AttrItem(a.name, a.value, inner);
      WrittenItems(w.attrs, inner, x);
      MemberOfSorted(items, x);
    }
  }

  lemma {:induction false} CanonicalValue(w: WTag, inner: Scope, local: string)
    requires Sane(inner) && Aligned(DecodeTag(w, inner))
    ensures Has(w.attrs, local, PairValue(AttrPairs(DecodeTag(w, inner), inner), local))
  {
    var pairs := AttrPairs(DecodeTag(w, inner), inner);
    ValueInPairs(pairs, local);
    forall a | a in w.attrs && IsPlain(a, local) ensures Pair(a.name, a.value) in pairs {
      WrittenPairs(w, inner, Pair(a.name, a.value));
    }
    if PairValue(pairs, local).Some? {
      var q :| q in pairs && Local(q.name) == local && q.value == PairValue(pairs, local).value;
      WrittenPairs(w, inner, q);
    }
  }

  /** The value looked up among decoded attributes is the one the canonical text shows. */
  lemma {:induction false} SameValue(w: WTag, inner: Scope, v: Vocabulary, local: string)
    requires Sane(inner) && Aligned(DecodeTag(w, inner)) && LegibleTag(w, v) && local in v.attrs
    ensures AttrValue(DecodeTag(w, inner).el.attrs, local) == PairValue(AttrPairs(DecodeTag(w, inner), inner), local)
  {
    DecodedValue(w.attrs, inner, local);
    CanonicalValue(w, inner, local);
  }

  lemma {:induction false} SameSpace(name: string, inner: Scope, space: string)
    requires name != "xmlns" && Prefix(name) != "xmlns" && Prefix(name) != "xml" && ':' in space
    ensures ElementSpace(name, inner) == space <==> Lookup(inner, Prefix(name)) == space
  {
    NoColonBefore(name);
  }

  lemma {:induction false} DecodedPlain(w: WTag, inner: Scope, v: Vocabulary)
    requires Sane(inner) && LegibleTag(w, v) && forall s :: s in v.spaces ==> ':' in s
    ensures Plain(DecodeTag(w, inner), inner, v)
  {
    var tag := DecodeTag(w, inner);
    DecodedShape(w.attrs, inner);
    forall s | s in v.spaces ensures tag.el.space == s <==> Lookup(inner, Prefix(tag.name)) == s {
      SameSpace(w.name, inner, s);
    }
    forall l | l in v.attrs ensures AttrValue(tag.el.attrs, l) == PairValue(AttrPairs(tag, inner), l) {
      SameValue(w, inner, v, l);
    }
  }

  /** Every legible document is read, from its decoded tokens, exactly as its canonical text says. */
  lemma {:induction false} DecodedClean(w: Forest<WTag>, scope: Scope, v: Vocabulary)
    requires Sane(scope) && SaneForest(w) && LegibleForest(w, v) && forall s :: s in v.spaces ==> ':' in s
    ensures Clean(DecodeForest(w, scope), scope, v)
  {
    match w
    case Nil =>
    case Leaf(_, r) => DecodedClean(r, scope, v);
    case Elem(tag, k, r) =>
      var inner := WInside(scope, tag.attrs);
      SaneWInside(scope, tag);
      DecodedInside(scope, tag.attrs, inner);
      DecodedPlain(tag, inner, v);
      DecodedClean(k, inner, v);
      DecodedClean(r, scope, v);
  }

  /** Names are XML names. */
  ghost predicate NamedTag(w: WTag) {
    QName.IsName(w.name) && forall i :: 0 <= i < |w.attrs| ==> QName.IsName(w.attrs[i].name)
  }

  ghost predicate NamedForest(w: Forest<WTag>) {
    match w
    case Nil => true
    case Leaf(_, r) => NamedForest(r)
    case Elem(tag, k, r) => NamedTag(tag) && NamedForest(k) && NamedForest(r)
  }

  lemma {:induction false} XmlnsPrefix(name: string)
    requires "xmlns:" <= name
    ensures Prefix(name) == "xmlns"
  {
    assert name[0] != ':' && name[1..][0] != ':' && name[1..][1..][0] != ':' && name[1..][1..][1..][0] != ':'
        && name[1..][1..][1..][1..][0] != ':';
    assert name[1..][1..][1..][1..][1..][0] == name[5] == ':';
    assert Colon(name[1..][1..][1..][1..][1..]) == 0;
    assert Colon(name[1..][1..][1..][1..]) == 1;
    assert Colon(name[1..][1..][1..]) == 2;
    assert Colon(name[1..][1..]) == 3;
    assert Colon(name) == 5;
    assert name[..5] == "xmlns:"[..5] == "xmlns";
  }

  lemma {:induction false} DecodedTagNamed(w: WTag, inner: Scope)
    requires Sane(inner) && NamedTag(w)
    ensures TagNamed(DecodeTag(w, inner))
  {
    DecodedShape(w.attrs, inner);
    forall i | 0 <= i < |w.attrs| && IsXmlns(w.attrs[i].name) ensures IsDeclaration(DecodeAttr(w.attrs[i], inner)) {
      if w.attrs[i].name != "xmlns" { XmlnsPrefix(w.attrs[i].name); }
      DecodedDeclaration(w.attrs[i], inner);
    }
  }

  lemma {:induction false} DecodedWellNamed(w: Forest<WTag>, scope: Scope)
    requires Sane(scope) && SaneForest(w) && NamedForest(w)
    ensures WellNamed(DecodeForest(w, scope))
  {
    match w
    case Nil =>
    case Leaf(_, r) => DecodedWellNamed(r, scope);
    case Elem(tag, k, r) =>
      var inner := WInside(scope, tag.attrs);
      SaneWInside(scope, tag);
      DecodedTagNamed(tag, inner);
      DecodedWellNamed(k, inner);
      DecodedWellNamed(r, scope);
  }

  /** The conditions a document can be checked for: XML names, bound prefixes, and legible tags. */
  ghost predicate Readable(w: Forest<WTag>) { SaneForest(w) && NamedForest(w) && LegibleForest(w, READ) }

  lemma {:induction false} Colons()
    ensures forall s :: s in READ.spaces ==> ':' in s
  {
    assert Signature.SAML[3] == ':' && Signature.DS[4] == ':';
  }

  /** Every readable document decodes to one whose claims the signed bytes determine. */
  lemma {:induction false} ReadableDocuments(w: Forest<WTag>)
    requires Readable(w)
    ensures Clean(DecodeForest(w, map[]), map[], READ) && WellNamed(DecodeForest(w, map[]))
  {
    Colons();
    DecodedClean(w, map[], READ);
    DecodedWellNamed(w, map[]);
  }

  /** A readable document whose response is accepted, its assertion and the signature on it. */
  ghost predicate AcceptedSigned(c: Signature.Crypto, cert: Signature.Certificate, s: Response.Settings,
                                 w: Forest<WTag>, a: Node, sig: Node) {
    && Readable(w) && AllAligned(DecodeForest(w, map[]))
    && Response.ParseAndVerify(c, cert, s, DecodeForest(w, map[])).Claims?
    && var v := Signature.Verify(c, cert, DecodeForest(w, map[]));
       v.Verified? && v.assertion == a && Child(a, Signature.DS, "Signature") == Some(sig)
  }

  /** Nothing is read from inside the signature. */
  predicate NoStatements(sig: Node) {
    Response.Statements(Descendants(sig, Signature.SAML, "AttributeStatement")) == []
  }

  lemma {:induction false} AcceptedIsSigned(c: Signature.Crypto, cert: Signature.Certificate, s: Response.Settings,
                                            w: Forest<WTag>, a: Node, sig: Node)
    requires AcceptedSigned(c, cert, s, w, a, sig)
    ensures SignedAssertion(c, cert, s, DecodeForest(w, map[]), a, sig) && AllAligned(Tree(a)) && AllAligned(Tree(sig))
  {
    ReadableDocuments(w);
    VerifiedSignature(c, cert, DecodeForest(w, map[]), a, sig);
  }

  /** End to end: for readable documents, what is signed determines the claims. Two accepted responses signed
      over the same SignedInfo bytes make the same claims, unless the digest collides. */
  lemma {:induction false} SignedDeterminesClaims(c: Signature.Crypto, cert: Signature.Certificate,
                                                  s: Response.Settings, w: Forest<WTag>, a: Node, sig: Node,
                                                  cert': Signature.Certificate, s': Response.Settings,
                                                  w': Forest<WTag>, b: Node, sig': Node)
    requires AcceptedSigned(c, cert, s, w, a, sig) && AcceptedSigned(c, cert', s', w', b, sig')
             && s.parseTime == s'.parseTime
    requires AllAligned(Tree(a)) && AllAligned(Tree(b)) && AllAligned(Tree(sig)) && AllAligned(Tree(sig'))
    requires SameSignedInfo(c, a, sig, b, sig')
    ensures
      var x := Response.ParseAndVerify(c, cert, s, DecodeForest(w, map[])).assertion;
      var y := Response.ParseAndVerify(c, cert', s', DecodeForest(w', map[])).assertion;
      && x.(attributes := map[]) == y.(attributes := map[])
      && (NoStatements(sig) && NoStatements(sig') ==> x == y)
  {
    AcceptedIsSigned(c, cert, s, w, a, sig);
    AcceptedIsSigned(c, cert', s', w', b, sig');
    SameInfoSameClaims(c, cert, s, DecodeForest(w, map[]), a, sig, cert', s', DecodeForest(w', map[]), b, sig');
  }
}
