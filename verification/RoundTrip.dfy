/** What is signed verifies, wherever in a Response it is put. */
module RoundTrip {
  import opened Text
  import opened Xml
  import opened Document
  import opened Canon
  import opened Canonicalizer
  import opened Context
  import opened Decode
  import opened Signature
  import opened Signing

  // ---- canonical text is the same before and after ----

  /** An element whose excluded first child is cut away reads, in any scope that agrees on its free
      prefixes, like the element that never had that child. */
  lemma {:induction false} ExcludedChild(n: Node, first: Tag, firstKids: Forest<Tag>, rest: Forest<Tag>, bare: Node)
    requires n.kids == Elem(first, firstKids, rest) && bare.tag == n.tag && bare.kids == rest
    requires AllAligned(Tree(n)) && AllAligned(Tree(bare))
    requires Agree(bare.scope, n.scope, FreePrefixes(Tree(bare)))
    ensures CanonicalElement(n, {n.pos + 1}) == CanonicalElement(bare, {})
  {
    var after := n.pos + 3 + Size(firstKids);
    PruneAbove(rest, after, {n.pos + 1});
    assert Prune(n.kids, n.pos + 1, {n.pos + 1}) == rest;
    assert Prune(Nil, n.pos + 2 + Size(n.kids), {n.pos + 1}) == Nil;
    assert Prune(Tree(n), n.pos, {n.pos + 1}) == Tree(bare);
    PruneAbove(Tree(bare), bare.pos, {});
    SameText(Tree(bare), bare.scope, n.scope);
  }

  lemma {:induction false} SameElement(n: Node, bare: Node)
    requires n.tag == bare.tag && n.kids == bare.kids && AllAligned(Tree(n))
    requires Agree(bare.scope, n.scope, FreePrefixes(Tree(bare)))
    ensures CanonicalElement(n, {}) == CanonicalElement(bare, {})
  {
    PruneAbove(Tree(n), n.pos, {});
    PruneAbove(Tree(bare), bare.pos, {});
    SameText(Tree(bare), bare.scope, n.scope);
  }

  lemma {:induction false} SameText(f: Forest<Tag>, s: Scope, s': Scope)
    requires AllAligned(f) && Agree(s, s', FreePrefixes(f))
    ensures Canonical(f, s, map[], "") == Canonical(f, s', map[], "")
  {
    MeaningOfFree(f, s, s');
    CanonicalPrints(f, s, map[], "");
    CanonicalPrints(f, s', map[], "");
  }

  // ---- SignedInfo has no free prefix ----

  /** Every element is written with the prefix `p`, without declarations and prefixed attributes. */
  ghost predicate OnlyPrefix(w: Forest<WTag>, p: string) {
    match w
    case Nil => true
    case Leaf(_, r) => OnlyPrefix(r, p)
    case Elem(tag, k, r) => Prefix(tag.name) == p && AllPlain(tag.attrs) && OnlyPrefix(k, p) && OnlyPrefix(r, p)
  }

  ghost predicate OnlyDs(w: Forest<WTag>) { OnlyPrefix(w, "ds") }

  lemma {:induction false} PlainAttrsUse(attrs: seq<WAttr>, s: Scope)
    requires AllPlain(attrs)
    ensures |DecodeAttrs(attrs, s)| == |AttrNames(attrs)|
    ensures PlainPrefixes(DecodeAttrs(attrs, s), AttrNames(attrs)) == {}
  {
    if attrs != [] {
      NoColon(attrs[0].name);
      assert DecodeAttrs(attrs, s)[1..] == DecodeAttrs(attrs[1..], s) && AttrNames(attrs)[1..] == AttrNames(attrs[1..]);
      PlainAttrsUse(attrs[1..], s);
    }
  }

  lemma {:induction false} OnlyPrefixFree(w: Forest<WTag>, p: string, s: Scope)
    requires OnlyPrefix(w, p)
    ensures AllAligned(DecodeForest(w, s)) && FreePrefixes(DecodeForest(w, s)) <= {p}
  {
    DecodedAligned(w, s);
    match w
    case Nil =>
    case Leaf(_, r) => OnlyPrefixFree(r, p, s);
    case Elem(tag, k, r) =>
      var inner := WInside(s, tag.attrs);
      PlainAttrsUse(tag.attrs, inner);
      OnlyPrefixFree(k, p, inner);
      OnlyPrefixFree(r, p, s);
  }

  lemma {:induction false} InfoOnlyDs(id: string, digest: string)
    ensures OnlyDs(InfoKids(id, digest)) && SaneForest(InfoKids(id, digest))
  {
    AlgorithmIsPlain(C14N);
    AlgorithmIsPlain(RSA_SHA256);
    UriIsPlain("#" + id);
    ReferenceOnlyDs(digest);
    DsSplit("CanonicalizationMethod");
    DsSplit("SignatureMethod");
    DsSplit("Reference");
    var ref := Elem(WTag(Ds("Reference"), [WAttr("URI", "#" + id)]), ReferenceKids(digest), Nil);
    PlainIsSane(ref.tag);
    assert OnlyDs(Nil) && SaneForest(Nil);
    assert OnlyDs(ref) && SaneForest(ref);
    var mid := Method("SignatureMethod", RSA_SHA256, ref);
    PlainIsSane(mid.tag);
    assert OnlyDs(mid) && SaneForest(mid);
    PlainIsSane(InfoKids(id, digest).tag);
  }

  lemma {:induction false} PlainIsSane(tag: WTag)
    requires AllPlain(tag.attrs)
    ensures SaneTag(tag)
  {
    forall i | 0 <= i < |tag.attrs| ensures !WritesDeclaration(tag.attrs[i]) {
      PlainAt(tag.attrs, i);
      NoColon(tag.attrs[i].name);
    }
  }

  lemma {:induction false} ReferenceOnlyDs(digest: string)
    ensures OnlyDs(ReferenceKids(digest)) && SaneForest(ReferenceKids(digest))
  {
    AlgorithmIsPlain(ENVELOPED);
    AlgorithmIsPlain(SHA256);
    DsSplit("Transforms");
    DsSplit("Transform");
    DsSplit("DigestMethod");
    DsSplit("DigestValue");
    var value := Holder("DigestValue", digest, Nil);
    assert OnlyDs(Nil) && SaneForest(Nil);
    assert OnlyDs(Leaf(Some(digest), Nil)) && SaneForest(Leaf(Some(digest), Nil));
    assert OnlyDs(value) && SaneForest(value);
    var how := Method("DigestMethod", SHA256, value);
    PlainIsSane(how.tag);
    assert OnlyDs(how) && SaneForest(how);
    var transform := Method("Transform", ENVELOPED, Nil);
    PlainIsSane(transform.tag);
    assert OnlyDs(transform) && SaneForest(transform);
  }

  /** SignedInfo declares `ds` itself, so it decodes and canonicalizes the same everywhere. */
  lemma {:induction false} InfoEverywhere(id: string, digest: string, s: Scope, n: Node)
    requires Sane(s) && n.scope == s
    requires n.tag == DecodeTag(WTag(Ds("SignedInfo"), [DsDeclaration()]), WInside(s, [DsDeclaration()]))
    requires n.kids == DecodeForest(InfoKids(id, digest), WInside(s, [DsDeclaration()]))
    ensures AllAligned(Tree(n))
            && AllAligned(Tree(Alone(WTag(Ds("SignedInfo"), [DsDeclaration()]), InfoKids(id, digest))))
    ensures CanonicalElement(n, {}) ==
            CanonicalElement(Alone(WTag(Ds("SignedInfo"), [DsDeclaration()]), InfoKids(id, digest)), {})
  {
    var tag, kids := WTag(Ds("SignedInfo"), [DsDeclaration()]), InfoKids(id, digest);
    var w := Elem(tag, kids, Nil);
    AloneAligned(tag, kids);
    InfoFree(id, digest, map[]);
    InfoSane(id, digest);
    DecodesAlike(w, map[], s);
    assert DecodeForest(w, s) == Tree(n);
    SameElement(n, Alone(tag, kids));
  }

  lemma {:induction false} InfoSane(id: string, digest: string)
    ensures SaneForest(SignedInfo(id, digest, Nil))
  {
    InfoOnlyDs(id, digest);
    DeclareDs(map[]);
    var w := SignedInfo(id, digest, Nil);
    assert SaneForest(Nil);
    assert SaneTag(w.tag) by { assert WTag("", [DsDeclaration()]).attrs == w.tag.attrs; DsIsSane(); }
  }

  lemma {:induction false} DsIsSane()
    ensures DS != "" && DS != "xmlns"
  {
    assert |DS| == 34 && |"xmlns"| == 5;
  }

  lemma {:induction false} DsTagUses(local: string, inner: Scope)
    requires DsScope(inner)
    ensures var t := DecodeTag(WTag(Ds(local), [DsDeclaration()]), inner);
            Aligned(t) && TagUses(t) == {"ds"} && Declared(t.el.attrs) == {"ds"}
  {
    DsSplit(local);
    XmlnsSplit();
    var attrs := [DsDeclaration()];
    DecodedShape(attrs, inner);
    DecodedDeclaration(DsDeclaration(), inner);
    var a := DecodeAttr(DsDeclaration(), inner);
    assert DecodeAttrs(attrs, inner) == [a];
    assert [a][1..] == [] && AttrNames(attrs)[1..] == [];
    assert Declared([]) == {} && PlainPrefixes([], []) == {};
  }

  lemma {:induction false} InfoFree(id: string, digest: string, s: Scope)
    requires Sane(s)
    ensures AllAligned(DecodeForest(SignedInfo(id, digest, Nil), s))
            && FreePrefixes(DecodeForest(SignedInfo(id, digest, Nil), s)) == {}
  {
    var w := SignedInfo(id, digest, Nil);
    var inner := WInside(s, [DsDeclaration()]);
    DecodedAligned(w, s);
    DeclareDs(s);
    InfoOnlyDs(id, digest);
    OnlyPrefixFree(w.kids, "ds", inner);
    DsTagUses("SignedInfo", inner);
    assert DecodeForest(w, s) == Elem(DecodeTag(w.tag, inner), DecodeForest(w.kids, inner), Nil);
    assert FreePrefixes(Nil) == {};
  }

  // ---- contexts ----

  function DecodeCtx(ctx: Ctx<WTag>, scope: Scope): Ctx<Tag> {
    match ctx
    case Hole(r) => Hole(DecodeForest(r, scope))
    case PastLeaf(t, next) => PastLeaf(t, DecodeCtx(next, scope))
    case Past(u, k, next) =>
      var inner := WInside(scope, u.attrs);
      Past(DecodeTag(u, inner), DecodeForest(k, inner), DecodeCtx(next, scope))
    case Into(u, inside, r) =>
      var inner := WInside(scope, u.attrs);
      Into(DecodeTag(u, inner), DecodeCtx(inside, inner), DecodeForest(r, scope))
  }

  /** The scope around the hole, as written. */
  function ScopeAtHole(ctx: Ctx<WTag>, scope: Scope): Scope {
    match ctx
    case Hole(_) => scope
    case PastLeaf(_, next) => ScopeAtHole(next, scope)
    case Past(_, _, next) => ScopeAtHole(next, scope)
    case Into(u, inside, _) => ScopeAtHole(inside, WInside(scope, u.attrs))
  }

  lemma {:induction false} DecodePlug(ctx: Ctx<WTag>, tag: WTag, kids: Forest<WTag>, scope: Scope, inner: Scope)
    requires inner == WInside(ScopeAtHole(ctx, scope), tag.attrs)
    ensures DecodeForest(Plug(ctx, tag, kids), scope) ==
            Plug(DecodeCtx(ctx, scope), DecodeTag(tag, inner), DecodeForest(kids, inner))
    decreases ctx
  {
    match ctx
    case Hole(_) =>
    case PastLeaf(_, next) => DecodePlug(next, tag, kids, scope, inner);
    case Past(_, _, next) => DecodePlug(next, tag, kids, scope, inner);
    case Into(u, inside, _) => DecodePlug(inside, tag, kids, WInside(scope, u.attrs), inner);
  }

  /** In a document without misbound prefixes both scopes are the same. */
  lemma {:induction false} HoleScope(ctx: Ctx<WTag>, tag: WTag, kids: Forest<WTag>, scope: Scope)
    requires Sane(scope) && SaneForest(Plug(ctx, tag, kids))
    ensures IndexedScope(DecodeCtx(ctx, scope), scope) == ScopeAtHole(ctx, scope)
    ensures Sane(ScopeAtHole(ctx, scope)) && SaneTag(tag) && SaneForest(kids)
    decreases ctx
  {
    match ctx
    case Hole(_) =>
    case PastLeaf(_, next) => HoleScope(next, tag, kids, scope);
    case Past(_, _, next) => HoleScope(next, tag, kids, scope);
    case Into(u, inside, _) =>
      SaneWInside(scope, u);
      DecodedInside(scope, u.attrs, WInside(scope, u.attrs));
      HoleScope(inside, tag, kids, WInside(scope, u.attrs));
  }

  function IfNamed(el: StartElement, space: string, local: string): nat {
    if NamedLoosely(el, space, local) then 1 else 0
  }

  /** How many elements of a forest have this name. */
  function Count(f: Forest<Tag>, space: string, local: string): nat {
    match f
    case Nil => 0
    case Leaf(_, r) => Count(r, space, local)
    case Elem(tag, k, r) => IfNamed(tag.el, space, local) + Count(k, space, local) + Count(r, space, local)
  }

  /** How many elements of the context itself have this name. */
  function CountAround(ctx: Ctx<Tag>, space: string, local: string): nat {
    match ctx
    case Hole(r) => Count(r, space, local)
    case PastLeaf(_, next) => CountAround(next, space, local)
    case Past(u, k, next) => IfNamed(u.el, space, local) + Count(k, space, local) + CountAround(next, space, local)
    case Into(u, inside, r) => IfNamed(u.el, space, local) + CountAround(inside, space, local) + Count(r, space, local)
  }

  lemma {:induction false} NothingOutermost(f: Forest<Tag>, pos: nat, scope: Scope, space: string, local: string)
    requires Count(f, space, local) == 0
    ensures Outermost(f, pos, scope, space, local) == []
  {
    match f
    case Nil =>
    case Leaf(_, r) => NothingOutermost(r, pos + 1, scope, space, local);
    case Elem(tag, k, r) =>
      NothingOutermost(k, pos + 1, Inside(scope, tag.el.attrs), space, local);
      NothingOutermost(r, pos + 2 + Size(k), scope, space, local);
  }

  /** The element in the hole is the only one of its name that the search reports. */
  lemma {:induction false} OnlyInHole(ctx: Ctx<Tag>, tag: Tag, kids: Forest<Tag>, pos: nat, scope: Scope,
                                      space: string, local: string)
    requires CountAround(ctx, space, local) == 0 && NamedLoosely(tag.el, space, local)
    ensures Outermost(Plug(ctx, tag, kids), pos, scope, space, local) ==
            [Node(HoleAt(ctx, pos), tag, kids, IndexedScope(ctx, scope))]
    decreases ctx
  {
    match ctx
    case Hole(r) => NothingOutermost(r, pos + 2 + Size(kids), scope, space, local);
    case PastLeaf(_, next) => OnlyInHole(next, tag, kids, pos + 1, scope, space, local);
    case Past(u, k, next) =>
      NothingOutermost(k, pos + 1, Inside(scope, u.el.attrs), space, local);
      OnlyInHole(next, tag, kids, pos + 2 + Size(k), scope, space, local);
    case Into(u, inside, r) =>
      OnlyInHole(inside, tag, kids, pos + 1, Inside(scope, u.el.attrs), space, local);
      NothingOutermost(r, pos + 2 + Size(Plug(inside, tag, kids)), scope, space, local);
  }

  lemma {:induction false} DecodedElem(tag: WTag, k: Forest<WTag>, r: Forest<WTag>, s: Scope, inner: Scope)
    requires inner == WInside(s, tag.attrs)
    ensures DecodeForest(Elem(tag, k, r), s) == Elem(DecodeTag(tag, inner), DecodeForest(k, inner), DecodeForest(r, s))
  {
  }

  /** How many of the siblings at the top of the forest have exactly this name. */
  function CountTop(f: Forest<Tag>, space: string, local: string): nat {
    match f
    case Nil => 0
    case Leaf(_, r) => CountTop(r, space, local)
    case Elem(tag, _, r) => (if Named(tag.el, space, local) then 1 else 0) + CountTop(r, space, local)
  }

  lemma {:induction false} NoChildFound(f: Forest<Tag>, pos: nat, scope: Scope, space: string, local: string)
    requires CountTop(f, space, local) == 0
    ensures FirstChild(f, pos, scope, space, local) == None
  {
    match f
    case Nil =>
    case Leaf(_, r) => NoChildFound(r, pos + 1, scope, space, local);
    case Elem(_, k, r) => NoChildFound(r, pos + 2 + Size(k), scope, space, local);
  }

  // ---- the round trip ----

  /** The library calls fit together: base64 decodes what it encoded, and the certificate's key
      verifies what the private key signed. */
  ghost predicate Sound(c: Crypto, key: Key, cert: Certificate) {
    && (forall b :: c.decode(TrimSpace(c.encode(b))) == Some(b))
    && c.isRsa(cert)
    && (forall d :: c.verify(cert, d, c.sign(key, d)))
  }

  /** A comment, declaration or white space before the root element. */
  function WithProlog(leaves: seq<Option<string>>, f: Forest<WTag>): Forest<WTag> {
    if leaves == [] then f else Leaf(leaves[0], WithProlog(leaves[1..], f))
  }

  lemma {:induction false} RootPastProlog(leaves: seq<Option<string>>, root: WTag, kids: Forest<WTag>,
                                          after: Forest<WTag>, pos: nat)
    ensures var inner := WInside(map[], root.attrs);
            Root(DecodeForest(WithProlog(leaves, Elem(root, kids, after)), map[]), pos) ==
            Some(Node(pos + |leaves|, DecodeTag(root, inner), DecodeForest(kids, inner), map[]))
    decreases |leaves|
  {
    if leaves != [] { RootPastProlog(leaves[1..], root, kids, after, pos + 1); }
  }

  lemma {:induction false} SameAsBare(tag: WTag, body: Forest<WTag>, scope: Scope, inner: Scope)
    requires Sane(scope) && SaneTag(tag) && SaneForest(body) && inner == WInside(scope, tag.attrs)
    requires AllAligned(Tree(Alone(tag, body))) && Agree(map[], scope, FreePrefixes(Tree(Alone(tag, body))))
    ensures Alone(tag, body).tag == DecodeTag(tag, inner) && Alone(tag, body).kids == DecodeForest(body, inner)
  {
    var w := Elem(tag, body, Nil);
    AloneAligned(tag, body);
    assert SaneForest(Nil) && SaneForest(w);
    DecodesAlike(w, map[], scope);
    assert DecodeForest(w, scope) == Elem(DecodeTag(tag, inner), DecodeForest(body, inner), Nil);
  }

  /** Two children, the first of another name than the second. */
  lemma {:induction false} TwoKids(n: Node, t: Tag, k: Forest<Tag>, first: string, second: string, vk: Forest<WTag>,
                                   r: Forest<WTag>, s: Scope)
    requires DsScope(s) && Inner(n) == s && Named(t.el, DS, first) && first != second
    requires n.kids == Elem(t, k, DecodeForest(Elem(WTag(Ds(second), []), vk, r), s))
    ensures Child(n, DS, first) == Some(Node(n.pos + 1, t, k, s))
    ensures var v := Child(n, DS, second); v.Some? && v.value.kids == DecodeForest(vk, s)
  {
    ChildHere(second, [], vk, r, n.pos + 3 + Size(k), s);
  }

  /** The two children of the signature that the check reads. */
  lemma {:induction false} SignatureRead(sig: Node, id: string, digest: string, value: string, tail: Forest<WTag>,
                                         s: Scope) returns (info: Node)
    requires DsScope(s) && Inner(sig) == s && sig.kids == DecodeForest(SignatureKids(id, digest, value, tail), s)
    ensures Child(sig, DS, "SignedInfo") == Some(info) && info.scope == s
    ensures info.tag == DecodeTag(WTag(Ds("SignedInfo"), [DsDeclaration()]), WInside(s, [DsDeclaration()]))
    ensures info.kids == DecodeForest(InfoKids(id, digest), WInside(s, [DsDeclaration()]))
    ensures var v := Child(sig, DS, "SignatureValue");
            v.Some? && v.value.kids == DecodeForest(Leaf(Some(value), Nil), s)
  {
    var tag := WTag(Ds("SignedInfo"), [DsDeclaration()]);
    var s2 := WInside(s, [DsDeclaration()]);
    DeclareDs(s);
    DsTag("SignedInfo", [DsDeclaration()], s2);
    DistinctNames();
    info := Node(sig.pos + 1, DecodeTag(tag, s2), DecodeForest(InfoKids(id, digest), s2), s);
    DecodedElem(tag, InfoKids(id, digest), Holder("SignatureValue", value, tail), s, s2);
    TwoKids(sig, info.tag, info.kids, "SignedInfo", "SignatureValue", Leaf(Some(value), Nil), tail, s);
  }

  lemma {:induction false} HeldText(n: Node, text: string, s: Scope)
    requires n.kids == DecodeForest(Leaf(Some(text), Nil), s)
    ensures TrimmedText(n) == TrimSpace(text)
  {
    assert DecodeForest(Leaf(Some(text), Nil), s) == Leaf(Some(text), DecodeForest(Nil, s));
    assert TextOf(Leaf(Some(text), Nil)) == text + "" == text;
  }

  lemma {:induction false} HashUri(id: string)
    ensures TrimPrefix("#" + id, "#") == id
  {
  }

  lemma {:induction false} DigestHolds(c: Crypto, a: Node, sig: Node, ref: Node, id: string, digest: string, s: Scope)
    requires AllAligned(Tree(a)) && Attribute(a, "ID") == id
    requires DsScope(s) && Inner(ref) == s && ref.kids == DecodeForest(ReferenceKids(digest), s)
             && Attribute(ref, "URI") == "#" + id
    requires CanonicalElement(a, {sig.pos}).Some?
             && c.decode(TrimSpace(digest)) == Some(c.hash(CanonicalElement(a, {sig.pos}).value))
    ensures DigestError(c, a, sig, ref) == None
  {
    HashUri(id);
    ReferenceRead(ref, digest, s);
    HeldText(Child(ref, DS, "DigestValue").value, digest, s);
  }

  /** A signature element made of the right digest and the right signature value passes the check. */
  lemma {:induction false} Checks(c: Crypto, cert: Certificate, tail: Forest<WTag>, id: string, digest: string,
                                  value: string, a: Node, sig: Node, s: Scope, signedText: string, sigValue: Bytes)
    requires AllAligned(Tree(a)) && AllAligned(Tree(sig)) && DsScope(s) && Inner(sig) == s
    requires sig.kids == DecodeForest(SignatureKids(id, digest, value, tail), s)
    requires Attribute(a, "ID") == id && id != ""
    requires CanonicalElement(a, {sig.pos}).Some?
             && c.decode(TrimSpace(digest)) == Some(c.hash(CanonicalElement(a, {sig.pos}).value))
    requires AllAligned(Tree(Alone(WTag(Ds("SignedInfo"), [DsDeclaration()]), InfoKids(id, digest))))
    requires CanonicalElement(Alone(WTag(Ds("SignedInfo"), [DsDeclaration()]), InfoKids(id, digest)), {}) ==
             Some(signedText)
    requires c.decode(TrimSpace(value)) == Some(sigValue) && c.isRsa(cert)
             && c.verify(cert, c.hash(signedText), sigValue)
    ensures EnvelopedError(c, cert, a, sig) == None
  {
    var info := SignatureRead(sig, id, digest, value, tail, s);
    var s2 := WInside(s, [DsDeclaration()]);
    DeclareDs(s);
    DecodedInside(s, [DsDeclaration()], s2);
    assert Inner(info) == s2;
    InfoEverywhere(id, digest, s, info);
    var ref := InfoRead(info, id, digest, s2);
    DigestHolds(c, a, sig, ref, id, digest, s2);
    HeldText(Child(sig, DS, "SignatureValue").value, value, s);
    assert ValueError(c, cert, sig, info) == None;
  }

  /** The signature on the signed element holds in any sane scope that agrees on its free prefixes. */
  lemma {:induction false} SignatureHolds(c: Crypto, key: Key, cert: Certificate, tail: Forest<WTag>, id: string,
                                          tag: WTag, body: Forest<WTag>, signed: Forest<WTag>, a: Node, inner: Scope)
    requires Sound(c, key, cert) && SignWith(c, key, tail, id, tag, body) == Some(signed)
    requires Sane(a.scope) && SaneTag(tag) && SaneForest(body)
    requires inner == WInside(a.scope, tag.attrs) && a.tag == DecodeTag(tag, inner)
             && a.kids == DecodeForest(signed.kids, inner)
    requires AttrValue(a.tag.el.attrs, "ID") == Some(id) && id != ""
    requires AllAligned(Tree(Alone(tag, body))) && Agree(map[], a.scope, FreePrefixes(Tree(Alone(tag, body))))
    ensures AllAligned(Tree(a))
    ensures var sig := Child(a, DS, "Signature");
            sig.Some? && AllAligned(Tree(sig.value)) && EnvelopedError(c, cert, a, sig.value) == None
    ensures
      var sig := Child(a, DS, "Signature").value;
      CanonicalElement(a, {sig.pos}).Some? && CanonicalElement(a, {sig.pos}) == CanonicalElement(Alone(tag, body), {})
  {
    var sigTag, sigKids := signed.kids.tag, signed.kids.kids;
    var s := WInside(inner, sigTag.attrs);
    SaneWInside(a.scope, tag);
    var sig := SignatureFound(tag, sigKids, body, a, inner);
    assert CanonicalElement(a, {sig.pos}) == CanonicalElement(Alone(tag, body), {}) by {
      SameAsBare(tag, body, a.scope, inner);
      ExcludedChild(a, sig.tag, sig.kids, DecodeForest(body, inner), Alone(tag, body));
    }
    var target := CanonicalElement(Alone(tag, body), {}).value;
    var digest := c.encode(c.hash(target));
    var infoTag := WTag(Ds("SignedInfo"), [DsDeclaration()]);
    AloneAligned(infoTag, InfoKids(id, digest));
    var text := CanonicalElement(Alone(infoTag, InfoKids(id, digest)), {}).value;
    var value := c.sign(key, c.hash(text));
    Checks(c, cert, tail, id, digest, c.encode(value), a, sig, s, text, value);
  }

  lemma {:induction false} SignatureFound(tag: WTag, sigKids: Forest<WTag>, body: Forest<WTag>, a: Node, inner: Scope)
    returns (sig: Node)
    requires Sane(a.scope) && Sane(inner) && inner == WInside(a.scope, tag.attrs) && a.tag == DecodeTag(tag, inner)
    requires a.kids == DecodeForest(Elem(WTag(Ds("Signature"), [DsDeclaration()]), sigKids, body), inner)
    ensures AllAligned(Tree(a)) && Child(a, DS, "Signature") == Some(sig) && AllAligned(Tree(sig))
    ensures sig.pos == a.pos + 1 && a.kids == Elem(sig.tag, sig.kids, DecodeForest(body, inner))
    ensures Named(sig.tag.el, DS, "Signature") && sig.scope == Inner(a) == inner
    ensures DsScope(WInside(inner, [DsDeclaration()])) && Inner(sig) == WInside(inner, [DsDeclaration()])
    ensures sig.kids == DecodeForest(sigKids, WInside(inner, [DsDeclaration()]))
  {
    AssertionAligned(tag, Elem(WTag(Ds("Signature"), [DsDeclaration()]), sigKids, body), a, inner);
    var t := SignatureTag(sigKids, body, inner);
    var kids := DecodeForest(sigKids, WInside(inner, [DsDeclaration()]));
    sig := Node(a.pos + 1, t, kids, inner);
    FirstKid(a, t, kids, DecodeForest(body, inner), inner, DS, "Signature");
  }

  lemma {:induction false} SignatureTag(sigKids: Forest<WTag>, body: Forest<WTag>, inner: Scope) returns (t: Tag)
    requires Sane(inner)
    ensures
      var s := WInside(inner, [DsDeclaration()]);
      && DecodeForest(Elem(WTag(Ds("Signature"), [DsDeclaration()]), sigKids, body), inner) ==
          Elem(t, DecodeForest(sigKids, s), DecodeForest(body, inner))
      && Named(t.el, DS, "Signature") && DsScope(s) && Inside(inner, t.el.attrs) == s
  {
    var s := WInside(inner, [DsDeclaration()]);
    t := DecodeTag(WTag(Ds("Signature"), [DsDeclaration()]), s);
    DeclareDs(inner);
    DsTag("Signature", [DsDeclaration()], s);
    DecodedInside(inner, [DsDeclaration()], s);
  }

  lemma {:induction false} AssertionAligned(tag: WTag, w: Forest<WTag>, a: Node, inner: Scope)
    requires Sane(inner) && inner == WInside(a.scope, tag.attrs) && a.tag == DecodeTag(tag, inner)
             && a.kids == DecodeForest(w, inner)
    ensures AllAligned(Tree(a)) && Inner(a) == inner
  {
    DecodedInside(a.scope, tag.attrs, inner);
    DecodedAligned(Elem(tag, w, Nil), a.scope);
    assert DecodeForest(Elem(tag, w, Nil), a.scope) == Tree(a);
  }

  lemma {:induction false} FirstKid(a: Node, t: Tag, k: Forest<Tag>, r: Forest<Tag>, inner: Scope, space: string,
                                    local: string)
    requires a.kids == Elem(t, k, r) && Inner(a) == inner && Named(t.el, space, local) && AllAligned(Tree(a))
    ensures Child(a, space, local) == Some(Node(a.pos + 1, t, k, inner)) && AllAligned(Elem(t, k, Nil))
  {
  }

  /** The document that holds `w` inside a root element, and its root. */
  function Wrapped(prolog: seq<Option<string>>, root: WTag, w: Forest<WTag>, after: Forest<WTag>): Forest<WTag> {
    WithProlog(prolog, Elem(root, w, after))
  }

  function RootNode(prolog: seq<Option<string>>, root: WTag, w: Forest<WTag>): Node {
    var inner := WInside(map[], root.attrs);
    Node(|prolog|, DecodeTag(root, inner), DecodeForest(w, inner), map[])
  }

  /** The conditions on a Response around a signed Assertion: no misbound prefix, no free prefix of the
      Assertion rebound, no Signature of its own and no other Assertion. */
  ghost predicate Admits(id: string, tag: WTag, body: Forest<WTag>, kids: Forest<WTag>, root: WTag, ctx: Ctx<WTag>,
                         rootInner: Scope, hole: Scope, inner: Scope) {
    && SaneTag(root) && SaneForest(Plug(ctx, tag, kids)) && SaneForest(body)
    && rootInner == WInside(map[], root.attrs) && hole == ScopeAtHole(ctx, rootInner)
    && inner == WInside(hole, tag.attrs)
    && Named(DecodeTag(root, rootInner).el, SAMLP, "Response")
    && CountAround(DecodeCtx(ctx, rootInner), SAML, "Assertion") == 0
    && CountTop(DecodeForest(Plug(ctx, tag, kids), rootInner), DS, "Signature") == 0
    && Named(DecodeTag(tag, inner).el, SAML, "Assertion")
    && AttrValue(DecodeTag(tag, inner).el.attrs, "ID") == Some(id) && id != ""
    && AllAligned(Tree(Alone(tag, body))) && Agree(map[], hole, FreePrefixes(Tree(Alone(tag, body))))
  }

  /** The Assertion in its place. */
  function Embedded(prolog: seq<Option<string>>, ctx: Ctx<WTag>, tag: WTag, kids: Forest<WTag>, rootInner: Scope,
                    hole: Scope, inner: Scope): Node {
    Node(HoleAt(DecodeCtx(ctx, rootInner), |prolog| + 1), DecodeTag(tag, inner), DecodeForest(kids, inner), hole)
  }

  /** What is signed verifies: an Assertion signed on its own, nesting within the depth limit, is accepted
      inside every Response that admits it, whatever follows the signature value; the range reported is
      that Assertion, and the bytes digested are those it had on its own. */
  lemma {:induction false} SignedVerifies(c: Crypto, key: Key, cert: Certificate, tail: Forest<WTag>, id: string,
                                          tag: WTag, body: Forest<WTag>, signed: Forest<WTag>,
                                          prolog: seq<Option<string>>, root: WTag, ctx: Ctx<WTag>, after: Forest<WTag>,
                                          rootInner: Scope, hole: Scope, inner: Scope)
    requires Sound(c, key, cert) && !HasElementBelow(Tree(Alone(tag, body)))
             && signed == Signed(c, key, tail, id, tag, body)
    requires Admits(id, tag, body, signed.kids, root, ctx, rootInner, hole, inner)
    ensures
      var f := DecodeForest(Wrapped(prolog, root, Plug(ctx, tag, signed.kids), after), map[]);
      var a := Embedded(prolog, ctx, tag, signed.kids, rootInner, hole, inner);
      && AllAligned(f) && AllAligned(Tree(a))
      && Verify(c, cert, f) == Verified(a, RootNode(prolog, root, Plug(ctx, tag, signed.kids)))
      && var sig := Child(a, DS, "Signature");
         sig.Some? && CanonicalElement(a, {sig.value.pos}) == CanonicalElement(Alone(tag, body), {}) != None
  {
    var w := Plug(ctx, tag, signed.kids);
    var a := Embedded(prolog, ctx, tag, signed.kids, rootInner, hole, inner);
    Placed(prolog, root, ctx, tag, signed.kids, after, rootInner, inner, a);
    SignatureHolds(c, key, cert, tail, id, tag, body, signed, a, inner);
    FoundInRoot(RootNode(prolog, root, w), DecodeCtx(ctx, rootInner), a, SAML, "Assertion", DS, "Signature");
    Assemble(c, cert, DecodeForest(Wrapped(prolog, root, w, after), map[]), RootNode(prolog, root, w), a);
  }

  /** Where the element in the hole of a document is, and in which scope. */
  lemma {:induction false} Placed(prolog: seq<Option<string>>, root: WTag, ctx: Ctx<WTag>, tag: WTag,
                                  kids: Forest<WTag>, after: Forest<WTag>, rootInner: Scope, inner: Scope, a: Node)
    requires SaneTag(root) && SaneForest(Plug(ctx, tag, kids)) && rootInner == WInside(map[], root.attrs)
    requires a.scope == ScopeAtHole(ctx, rootInner) && inner == WInside(a.scope, tag.attrs)
    requires a.tag == DecodeTag(tag, inner) && a.kids == DecodeForest(kids, inner)
    ensures
      var f, n := DecodeForest(Wrapped(prolog, root, Plug(ctx, tag, kids), after), map[]),
          RootNode(prolog, root, Plug(ctx, tag, kids));
      && AllAligned(f) && Root(f, 0) == Some(n) && n.kids == Plug(DecodeCtx(ctx, rootInner), a.tag, a.kids)
      && Inner(n) == rootInner
    ensures a.scope == IndexedScope(DecodeCtx(ctx, rootInner), rootInner) && Sane(a.scope) && SaneTag(tag)
  {
    SaneWInside(map[], root);
    HoleScope(ctx, tag, kids, rootInner);
    DecodePlug(ctx, tag, kids, rootInner, inner);
    DecodedInside(map[], root.attrs, rootInner);
    DecodedAligned(Wrapped(prolog, root, Plug(ctx, tag, kids), after), map[]);
    RootPastProlog(prolog, root, Plug(ctx, tag, kids), after, 0);
  }

  /** The element in the hole is what the verifier finds, and nothing else is in its way. */
  lemma {:induction false} FoundInRoot(root: Node, ctx: Ctx<Tag>, a: Node, space: string, local: string, other: string,
                                       sig: string)
    requires root.kids == Plug(ctx, a.tag, a.kids) && a.pos == HoleAt(ctx, root.pos + 1)
             && a.scope == IndexedScope(ctx, Inner(root))
    requires Named(a.tag.el, space, local) && CountAround(ctx, space, local) == 0
             && CountTop(root.kids, other, sig) == 0
    ensures Descendants(root, space, local) == [a] && Child(root, other, sig) == None
  {
    OnlyInHole(ctx, a.tag, a.kids, root.pos + 1, Inner(root), space, local);
    NoChildFound(root.kids, root.pos + 1, Inner(root), other, sig);
  }

  lemma {:induction false} Assemble(c: Crypto, cert: Certificate, f: Forest<Tag>, root: Node, a: Node)
    requires AllAligned(f) && AllAligned(Tree(a)) && Root(f, 0) == Some(root) && Named(root.tag.el, SAMLP, "Response")
    requires Descendants(root, SAML, "Assertion") == [a] && Child(root, DS, "Signature") == None
    requires var sig := Child(a, DS, "Signature");
             sig.Some? && AllAligned(Tree(sig.value)) && EnvelopedError(c, cert, a, sig.value) == None
    ensures Verify(c, cert, f) == Verified(a, root)
  {
    RootAligned(f, 0);
    assert Signatures(c, cert, root, a) == Verified(a, root);
  }
}
