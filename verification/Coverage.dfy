/** What a signature on an assertion covers, and what is read from the assertion all the same. */
module Coverage {
  import opened Text
  import opened Xml
  import opened Document
  import opened Canon
  import opened Canonicalizer
  import opened Context
  import opened Decode
  import opened Signature
  import opened Signing
  import opened RoundTrip
  import opened Response
  import Claims

  // ---- reading does not depend on place ----

  datatype Shape = Shape(tag: Tag, kids: Forest<Tag>)

  function ShapeOf(n: Option<Node>): Option<Shape> {
    if n.Some? then Some(Shape(n.value.tag, n.value.kids)) else None
  }

  function Shapes(ns: seq<Node>): seq<Shape> {
    if ns == [] then [] else [Shape(ns[0].tag, ns[0].kids)] + Shapes(ns[1..])
  }

  lemma {:induction false} ShapesJoin(ns: seq<Node>, ms: seq<Node>)
    ensures Shapes(ns + ms) == Shapes(ns) + Shapes(ms)
  {
    if ns == [] { assert ns + ms == ms; }
    else {
      assert (ns + ms)[1..] == ns[1..] + ms;
      ShapesJoin(ns[1..], ms);
      Regroup([Shape(ns[0].tag, ns[0].kids)], Shapes(ns[1..]), Shapes(ms));
    }
  }

  lemma {:induction false} FirstAnywhere(f: Forest<Tag>, pos: nat, scope: Scope, pos': nat, scope': Scope,
                                         space: string, local: string)
    ensures ShapeOf(FirstChild(f, pos, scope, space, local)) == ShapeOf(FirstChild(f, pos', scope', space, local))
  {
    match f
    case Nil =>
    case Leaf(_, r) => FirstAnywhere(r, pos + 1, scope, pos' + 1, scope', space, local);
    case Elem(_, k, r) => FirstAnywhere(r, pos + 2 + Size(k), scope, pos' + 2 + Size(k), scope', space, local);
  }

  lemma {:induction false} AllAnywhere(f: Forest<Tag>, pos: nat, scope: Scope, pos': nat, scope': Scope, space: string,
                                       local: string)
    ensures Shapes(Outermost(f, pos, scope, space, local)) == Shapes(Outermost(f, pos', scope', space, local))
  {
    match f
    case Nil =>
    case Leaf(_, r) => AllAnywhere(r, pos + 1, scope, pos' + 1, scope', space, local);
    case Elem(tag, k, r) =>
      var inner, inner' := Inside(scope, tag.el.attrs), Inside(scope', tag.el.attrs);
      AllAnywhere(r, pos + 2 + Size(k), scope, pos' + 2 + Size(k), scope', space, local);
      var after, after' := Outermost(r, pos + 2 + Size(k), scope, space, local),
          Outermost(r, pos' + 2 + Size(k), scope', space, local);
      if NamedLoosely(tag.el, space, local) {
        assert [Node(pos, tag, k, scope)][1..] == [] && [Node(pos', tag, k, scope')][1..] == [];
        JoinAnywhere([Node(pos, tag, k, scope)], [Node(pos', tag, k, scope')], after, after');
      } else {
        AllAnywhere(k, pos + 1, inner, pos' + 1, inner', space, local);
        JoinAnywhere(Outermost(k, pos + 1, inner, space, local), Outermost(k, pos' + 1, inner', space, local), after,
                     after');
      }
  }

  lemma {:induction false} JoinAnywhere(ns: seq<Node>, ns': seq<Node>, ms: seq<Node>, ms': seq<Node>)
    requires Shapes(ns) == Shapes(ns') && Shapes(ms) == Shapes(ms')
    ensures Shapes(ns + ms) == Shapes(ns' + ms')
  {
    ShapesJoin(ns, ms);
    ShapesJoin(ns', ms');
  }

  lemma {:induction false} TextsAnywhere(ns: seq<Node>, ns': seq<Node>)
    requires Shapes(ns) == Shapes(ns')
    ensures Texts(ns) == Texts(ns')
  {
    if ns != [] && ns' != [] {
      Peel(ns, ns');
      TextsAnywhere(ns[1..], ns'[1..]);
    }
  }

  lemma {:induction false} Peel(ns: seq<Node>, ns': seq<Node>)
    requires Shapes(ns) == Shapes(ns')
    ensures |ns| == 0 <==> |ns'| == 0
    ensures ns != [] && ns' != [] ==>
            ns[0].tag == ns'[0].tag && ns[0].kids == ns'[0].kids && Shapes(ns[1..]) == Shapes(ns'[1..])
  {
    if ns != [] && ns' != [] {
      assert Shapes(ns)[0] == Shapes(ns')[0];
      assert Shapes(ns)[1..] == Shapes(ns[1..]) && Shapes(ns')[1..] == Shapes(ns'[1..]);
    }
  }

  lemma {:induction false} TextsBelow(n: Node, n': Node, local: string)
    requires n.kids == n'.kids
    ensures Texts(Descendants(n, SAML, local)) == Texts(Descendants(n', SAML, local))
  {
    AllAnywhere(n.kids, n.pos + 1, Inner(n), n'.pos + 1, Inner(n'), SAML, local);
    TextsAnywhere(Descendants(n, SAML, local), Descendants(n', SAML, local));
  }

  lemma {:induction false} AttributesAnywhere(ns: seq<Node>, ns': seq<Node>)
    requires Shapes(ns) == Shapes(ns')
    ensures AttributesIn(ns) == AttributesIn(ns')
  {
    Peel(ns, ns');
    if ns != [] {
      TextsBelow(ns[0], ns'[0], "AttributeValue");
      AttributesAnywhere(ns[1..], ns'[1..]);
    }
  }

  lemma {:induction false} StatementsAnywhere(ns: seq<Node>, ns': seq<Node>)
    requires Shapes(ns) == Shapes(ns')
    ensures Statements(ns) == Statements(ns')
  {
    Peel(ns, ns');
    if ns != [] {
      var n, n' := ns[0], ns'[0];
      AllAnywhere(n.kids, n.pos + 1, Inner(n), n'.pos + 1, Inner(n'), SAML, "Attribute");
      AttributesAnywhere(Descendants(n, SAML, "Attribute"), Descendants(n', SAML, "Attribute"));
      StatementsAnywhere(ns[1..], ns'[1..]);
    }
  }

  /** The attribute statements of a forest, wherever it is. */
  function StatementsOf(f: Forest<Tag>): seq<Statement> {
    Statements(Outermost(f, 0, map[], SAML, "AttributeStatement"))
  }

  lemma {:induction false} StatementsAt(f: Forest<Tag>, pos: nat, scope: Scope)
    ensures Statements(Outermost(f, pos, scope, SAML, "AttributeStatement")) == StatementsOf(f)
  {
    AllAnywhere(f, pos, scope, 0, map[], SAML, "AttributeStatement");
    StatementsAnywhere(Outermost(f, pos, scope, SAML, "AttributeStatement"),
                       Outermost(f, 0, map[], SAML, "AttributeStatement"));
  }

  // ---- the other fields ----

  lemma {:induction false} ChildAnywhere(n: Node, n': Node, space: string, local: string)
    requires n.kids == n'.kids
    ensures ShapeOf(Child(n, space, local)) == ShapeOf(Child(n', space, local))
  {
    FirstAnywhere(n.kids, n.pos + 1, Inner(n), n'.pos + 1, Inner(n'), space, local);
  }

  lemma {:induction false} SubjectAnywhere(a: Node, a': Node)
    requires ShapeOf(Child(a, SAML, "Subject")) == ShapeOf(Child(a', SAML, "Subject"))
    ensures ReadSubject(a) == ReadSubject(a')
  {
    var s, s' := Child(a, SAML, "Subject"), Child(a', SAML, "Subject");
    if s.Some? { ChildAnywhere(s.value, s'.value, SAML, "NameID"); }
  }

  lemma {:induction false} ConfirmationAnywhere(a: Node, a': Node)
    requires ShapeOf(Child(a, SAML, "Subject")) == ShapeOf(Child(a', SAML, "Subject"))
    ensures ReadConfirmation(a) == ReadConfirmation(a')
  {
    var s, s' := Child(a, SAML, "Subject"), Child(a', SAML, "Subject");
    if s.Some? {
      ChildAnywhere(s.value, s'.value, SAML, "SubjectConfirmation");
      var c, c' := Child(s.value, SAML, "SubjectConfirmation"), Child(s'.value, SAML, "SubjectConfirmation");
      if c.Some? { ChildAnywhere(c.value, c'.value, SAML, "SubjectConfirmationData"); }
    }
  }

  lemma {:induction false} ConditionsAnywhere(a: Node, a': Node)
    requires ShapeOf(Child(a, SAML, "Conditions")) == ShapeOf(Child(a', SAML, "Conditions"))
    ensures ReadConditions(a) == ReadConditions(a')
  {
    var c, c' := Child(a, SAML, "Conditions"), Child(a', SAML, "Conditions");
    if c.Some? {
      ChildAnywhere(c.value, c'.value, SAML, "AudienceRestriction");
      var r, r' := Child(c.value, SAML, "AudienceRestriction"), Child(c'.value, SAML, "AudienceRestriction");
      if r.Some? { TextsBelow(r.value, r'.value, "Audience"); }
    }
  }

  /** An element put before the children changes no field but the attributes, if it is of another namespace. */
  lemma {:induction false} FieldsUnmoved(a: Node, bare: Node, t: Tag, k: Forest<Tag>)
    requires a.tag == bare.tag && a.kids == Elem(t, k, bare.kids) && t.el.space != SAML
    ensures Read(a).(attributes := []) == Read(bare).(attributes := [])
  {
    ChildUnmoved(a, bare, t, k, SAML, "Issuer");
    ChildUnmoved(a, bare, t, k, SAML, "Subject");
    ChildUnmoved(a, bare, t, k, SAML, "Conditions");
    SubjectAnywhere(a, bare);
    ConfirmationAnywhere(a, bare);
    ConditionsAnywhere(a, bare);
  }

  lemma {:induction false} ChildUnmoved(a: Node, bare: Node, t: Tag, k: Forest<Tag>, space: string, local: string)
    requires a.kids == Elem(t, k, bare.kids) && t.el.space != space
    ensures ShapeOf(Child(a, space, local)) == ShapeOf(Child(bare, space, local))
  {
    FirstAnywhere(bare.kids, a.pos + 3 + Size(k), Inner(a), bare.pos + 1, Inner(bare), space, local);
  }

  lemma {:induction false} DescendantsFirst(a: Node, bare: Node, t: Tag, k: Forest<Tag>, space: string, local: string)
    requires a.kids == Elem(t, k, bare.kids) && t.el.space != space && space != ""
    ensures
      var first := Node(a.pos + 1, t, k, Inner(a));
      Descendants(a, space, local) ==
          Descendants(first, space, local) + Outermost(bare.kids, first.pos + 2 + Size(k), Inner(a), space, local)
  {
    Claims.OutermostInside(Node(a.pos + 1, t, k, Inner(a)), bare.kids, space, local);
  }

  lemma {:induction false} AttributesRead(a: Node)
    ensures Read(a).attributes == StatementsOf(a.kids)
  {
    StatementsAt(a.kids, a.pos + 1, Inner(a));
  }

  lemma {:induction false} JoinedStatements(all: seq<Node>, within: seq<Node>, after: seq<Node>, x: seq<Statement>,
                                            y: seq<Statement>)
    requires all == within + after && Statements(within) == x && Statements(after) == y
    ensures Statements(all) == x + y
  {
    Claims.StatementsJoin(within, after);
  }

  lemma {:induction false} StatementsWithin(n: Node)
    ensures Statements(Descendants(n, SAML, "AttributeStatement")) == StatementsOf(n.kids)
  {
    StatementsAt(n.kids, n.pos + 1, Inner(n));
  }

  /** Its attribute statements are read first. */
  lemma {:induction false} StatementsFirst(a: Node, bare: Node, t: Tag, k: Forest<Tag>)
    requires a.kids == Elem(t, k, bare.kids) && t.el.space != SAML && SAML != ""
    ensures StatementsOf(a.kids) == StatementsOf(k) + StatementsOf(bare.kids)
  {
    var within, after := ReadApart(a, bare, t, k, Node(a.pos + 1, t, k, Inner(a)), a.pos + 3 + Size(k));
    JoinedStatements(Descendants(a, SAML, "AttributeStatement"), within, after, StatementsOf(k),
                     StatementsOf(bare.kids));
    StatementsWithin(a);
  }

  lemma {:induction false} ReadApart(a: Node, bare: Node, t: Tag, k: Forest<Tag>, first: Node, next: nat)
    returns (within: seq<Node>, after: seq<Node>)
    requires a.kids == Elem(t, k, bare.kids) && t.el.space != SAML && SAML != ""
    requires first == Node(a.pos + 1, t, k, Inner(a)) && next == a.pos + 3 + Size(k)
    ensures Descendants(a, SAML, "AttributeStatement") == within + after
    ensures Statements(within) == StatementsOf(k) && Statements(after) == StatementsOf(bare.kids)
  {
    within, after := DescendantsApart(a, bare, t, k, first, next, SAML, "AttributeStatement");
    StatementsWithin(first);
    StatementsAt(bare.kids, next, Inner(a));
  }

  lemma {:induction false} DescendantsApart(a: Node, bare: Node, t: Tag, k: Forest<Tag>, first: Node, next: nat,
                                            space: string, local: string)
    returns (within: seq<Node>, after: seq<Node>)
    requires a.kids == Elem(t, k, bare.kids) && t.el.space != space && space != ""
    requires first == Node(a.pos + 1, t, k, Inner(a)) && next == a.pos + 3 + Size(k)
    ensures within == Descendants(first, space, local) && after == Outermost(bare.kids, next, Inner(a), space, local)
    ensures Descendants(a, space, local) == within + after
  {
    DescendantsFirst(a, bare, t, k, space, local);
    within, after := Descendants(first, space, local), Outermost(bare.kids, next, Inner(a), space, local);
  }

  // ---- what a signature holds besides its tail ----

  lemma {:induction false} DsNamesNone(w: WTag, s: Scope, space: string, local: string)
    requires Prefix(w.name) == "ds" && AllPlain(w.attrs) && DsScope(s) && space != DS && space != ""
    ensures WInside(s, w.attrs) == s && IfNamed(DecodeTag(w, s).el, space, local) == 0
  {
    PlainAttrs(w.attrs, s);
    assert DecodeTag(w, s).el.space == ElementSpace(w.name, s) == DS by { DsIsNoXmlns(w.name); }
  }

  lemma {:induction false} DsIsNoXmlns(name: string)
    requires Prefix(name) == "ds"
    ensures name != "xmlns" && "ds" != "xmlns" && "ds" != "xml"
  {
    if name == "xmlns" { NoColon(name); }
    assert |"ds"| == 2 && |"xmlns"| == 5 && |"xml"| == 3;
  }

  lemma {:induction false} DsHoldsNone(w: Forest<WTag>, s: Scope, space: string, local: string)
    requires OnlyDs(w) && DsScope(s) && space != DS && space != ""
    ensures Count(DecodeForest(w, s), space, local) == 0
  {
    match w
    case Nil =>
    case Leaf(_, r) => DsHoldsNone(r, s, space, local);
    case Elem(tag, k, r) =>
      DsNamesNone(tag, s, space, local);
      DsHoldsNone(k, s, space, local);
      DsHoldsNone(r, s, space, local);
  }

  lemma {:induction false} OutermostPast(t: Tag, k: Forest<Tag>, r: Forest<Tag>, pos: nat, scope: Scope, space: string,
                                         local: string)
    requires IfNamed(t.el, space, local) == 0 && Count(k, space, local) == 0
    ensures Outermost(Elem(t, k, r), pos, scope, space, local) == Outermost(r, pos + 2 + Size(k), scope, space, local)
  {
    NothingOutermost(k, pos + 1, Inside(scope, t.el.attrs), space, local);
  }

  lemma {:induction false} InfoHoldsNone(id: string, digest: string, r: Forest<WTag>, s: Scope, space: string,
                                         local: string) returns (t: Tag, k: Forest<Tag>)
    requires DsScope(s) && space != DS && space != ""
    ensures DecodeForest(SignedInfo(id, digest, r), s) == Elem(t, k, DecodeForest(r, s))
    ensures IfNamed(t.el, space, local) == 0 && Count(k, space, local) == 0
  {
    var tag, s2 := WTag(Ds("SignedInfo"), [DsDeclaration()]), WInside(s, [DsDeclaration()]);
    DeclareDs(s);
    DsTag("SignedInfo", [DsDeclaration()], s2);
    InfoOnlyDs(id, digest);
    DsHoldsNone(InfoKids(id, digest), s2, space, local);
    DecodedElem(tag, InfoKids(id, digest), r, s, s2);
    t, k := DecodeTag(tag, s2), DecodeForest(InfoKids(id, digest), s2);
  }

  lemma {:induction false} ValueHoldsNone(value: string, tail: Forest<WTag>, s: Scope, space: string, local: string)
    returns (t: Tag, k: Forest<Tag>)
    requires DsScope(s) && space != DS && space != ""
    ensures DecodeForest(Holder("SignatureValue", value, tail), s) == Elem(t, k, DecodeForest(tail, s))
    ensures IfNamed(t.el, space, local) == 0 && Count(k, space, local) == 0
  {
    var tag := WTag(Ds("SignatureValue"), []);
    DsSplit("SignatureValue");
    DsNamesNone(tag, s, space, local);
    var text: Forest<WTag> := Leaf(Some(value), Nil);
    assert OnlyDs(Nil) && OnlyDs(text);
    DsHoldsNone(text, s, space, local);
    DecodedElem(tag, text, tail, s, s);
    t, k := DecodeTag(tag, s), DecodeForest(text, s);
  }

  /** What a search finds in a signature is what it finds in its tail. */
  lemma {:induction false} PastParts(id: string, digest: string, value: string, tail: Forest<WTag>, s: Scope, pos: nat,
                                     scope: Scope, space: string, local: string) returns (next: nat)
    requires DsScope(s) && space != DS && space != ""
    ensures Outermost(DecodeForest(SignatureKids(id, digest, value, tail), s), pos, scope, space, local) ==
            Outermost(DecodeForest(tail, s), next, scope, space, local)
  {
    var rest := Holder("SignatureValue", value, tail);
    var t, k := InfoHoldsNone(id, digest, rest, s, space, local);
    var u, l := ValueHoldsNone(value, tail, s, space, local);
    next := PastTwo(t, k, u, l, DecodeForest(tail, s), pos, scope, space, local);
  }

  lemma {:induction false} PastTwo(t: Tag, k: Forest<Tag>, u: Tag, l: Forest<Tag>, r: Forest<Tag>, pos: nat,
                                   scope: Scope, space: string, local: string) returns (next: nat)
    requires IfNamed(t.el, space, local) == 0 && Count(k, space, local) == 0
    requires IfNamed(u.el, space, local) == 0 && Count(l, space, local) == 0
    ensures Outermost(Elem(t, k, Elem(u, l, r)), pos, scope, space, local) == Outermost(r, next, scope, space, local)
  {
    next := pos + 2 + Size(k);
    OutermostPast(t, k, Elem(u, l, r), pos, scope, space, local);
    OutermostPast(u, l, r, next, scope, space, local);
    next := next + 2 + Size(l);
  }

  /** The attribute statements of a signature are those of its tail. */
  lemma {:induction false} TailStatements(id: string, digest: string, value: string, tail: Forest<WTag>, s: Scope)
    requires DsScope(s)
    ensures StatementsOf(DecodeForest(SignatureKids(id, digest, value, tail), s)) == StatementsOf(DecodeForest(tail, s))
  {
    Claims.Namespaces();
    var next := PastParts(id, digest, value, tail, s, 0, map[], SAML, "AttributeStatement");
    StatementsAt(DecodeForest(tail, s), next, map[]);
  }

  // ---- signed assertions ----

  lemma {:induction false} SignedShape(c: Crypto, key: Key, tail: Forest<WTag>, id: string, tag: WTag,
                                       body: Forest<WTag>, signed: Forest<WTag>)
    returns (digest: string, value: string)
    requires SignWith(c, key, tail, id, tag, body) == Some(signed)
    ensures signed == Enveloped(tag, body, SignatureKids(id, digest, value, tail))
  {
    AloneAligned(tag, body);
    digest := c.encode(c.hash(CanonicalElement(Alone(tag, body), {}).value));
    var info := WTag(Ds("SignedInfo"), [DsDeclaration()]);
    AloneAligned(info, InfoKids(id, digest));
    value := c.encode(c.sign(key, c.hash(CanonicalElement(Alone(info, InfoKids(id, digest)), {}).value)));
  }

  /** What is read from a signed element in place: what was read from it before signing, and the statements
      of the signature's tail before its own. */
  lemma {:induction false} SignedReads(id: string, digest: string, value: string, tail: Forest<WTag>, tag: WTag,
                                       body: Forest<WTag>, a: Node, inner: Scope)
    requires Sane(a.scope) && SaneTag(tag) && SaneForest(body)
    requires inner == WInside(a.scope, tag.attrs) && a.tag == DecodeTag(tag, inner)
    requires a.kids == DecodeForest(Elem(WTag(Ds("Signature"), [DsDeclaration()]),
                                         SignatureKids(id, digest, value, tail), body), inner)
    requires AllAligned(Tree(Alone(tag, body))) && Agree(map[], a.scope, FreePrefixes(Tree(Alone(tag, body))))
    ensures
      var bare, s := Read(Alone(tag, body)), WInside(inner, [DsDeclaration()]);
      Read(a) == bare.(attributes := StatementsOf(DecodeForest(tail, s)) + bare.attributes)
  {
    var bare, s := Alone(tag, body), WInside(inner, [DsDeclaration()]);
    SaneWInside(a.scope, tag);
    DeclareDs(inner);
    SameAsBare(tag, body, a.scope, inner);
    var t := SignatureTag(SignatureKids(id, digest, value, tail), body, inner);
    var k := DecodeForest(SignatureKids(id, digest, value, tail), s);
    TailStatements(id, digest, value, tail, s);
    ReadsTail(a, bare, t, k);
  }

  lemma {:induction false} ReadsTail(a: Node, bare: Node, t: Tag, k: Forest<Tag>)
    requires a.tag == bare.tag && a.kids == Elem(t, k, bare.kids) && Named(t.el, DS, "Signature")
    ensures Read(a) == Read(bare).(attributes := StatementsOf(k) + Read(bare).attributes)
  {
    Claims.Namespaces();
    FieldsUnmoved(a, bare, t, k);
    StatementsFirst(a, bare, t, k);
    AttributesRead(a);
    AttributesRead(bare);
  }

  /** The scope inside the signature of an assertion. */
  function SignatureScope(inner: Scope): Scope { WInside(inner, [DsDeclaration()]) }

  /** Whatever follows the signature value, a signed Assertion is accepted with the same digested bytes, and
      the attribute statements found there are read in front of the signed ones. */
  lemma {:induction false} TailIsRead(c: Crypto, key: Key, cert: Certificate, tail: Forest<WTag>, id: string,
                                      tag: WTag, body: Forest<WTag>, signed: Forest<WTag>, prolog: seq<Option<string>>,
                                      root: WTag, ctx: Ctx<WTag>, after: Forest<WTag>, rootInner: Scope, hole: Scope,
                                      inner: Scope)
    requires Sound(c, key, cert) && !HasElementBelow(Tree(Alone(tag, body)))
             && signed == Signed(c, key, tail, id, tag, body)
    requires Admits(id, tag, body, signed.kids, root, ctx, rootInner, hole, inner)
    ensures
      var f := DecodeForest(Wrapped(prolog, root, Plug(ctx, tag, signed.kids), after), map[]);
      var a := Embedded(prolog, ctx, tag, signed.kids, rootInner, hole, inner);
      var bare := Read(Alone(tag, body));
      && AllAligned(f) && AllAligned(Tree(a))
      && Verify(c, cert, f) == Verified(a, RootNode(prolog, root, Plug(ctx, tag, signed.kids)))
      && (var sig := Child(a, DS, "Signature");
          sig.Some? && CanonicalElement(a, {sig.value.pos}) == CanonicalElement(Alone(tag, body), {}))
      && Read(a) == bare.(attributes := StatementsOf(DecodeForest(tail, SignatureScope(inner))) + bare.attributes)
  {
    SignedVerifies(c, key, cert, tail, id, tag, body, signed, prolog, root, ctx, after, rootInner, hole, inner);
    var digest, value := SignedShape(c, key, tail, id, tag, body, signed);
    var a := Embedded(prolog, ctx, tag, signed.kids, rootInner, hole, inner);
    Placed(prolog, root, ctx, tag, signed.kids, after, rootInner, inner, a);
    SignedReads(id, digest, value, tail, tag, body, a, inner);
  }

  // ---- an Assertion inside the Response's own signature ----

  lemma {:induction false} ReadAnywhere(a: Node, b: Node)
    requires a.tag == b.tag && a.kids == b.kids
    ensures Read(a) == Read(b)
  {
    ChildAnywhere(a, b, SAML, "Issuer");
    ChildAnywhere(a, b, SAML, "Subject");
    ChildAnywhere(a, b, SAML, "Conditions");
    SubjectAnywhere(a, b);
    ConfirmationAnywhere(a, b);
    ConditionsAnywhere(a, b);
    AttributesRead(a);
    AttributesRead(b);
  }

  /** The conditions on a Response that is signed itself and on an Assertion in the tail of its signature: no
      misbound prefix, no Assertion in what is signed, and no signature on the Assertion. */
  ghost predicate Carries(id: string, root: WTag, body: Forest<WTag>, x: WTag, xBody: Forest<WTag>, inner: Scope,
                          xInner: Scope) {
    && SaneTag(root) && SaneForest(body) && SaneTag(x) && SaneForest(xBody)
    && inner == WInside(map[], root.attrs) && xInner == WInside(SignatureScope(inner), x.attrs)
    && Named(DecodeTag(root, inner).el, SAMLP, "Response")
    && AttrValue(DecodeTag(root, inner).el.attrs, "ID") == Some(id) && id != ""
    && Count(DecodeForest(body, inner), SAML, "Assertion") == 0
    && Named(DecodeTag(x, xInner).el, SAML, "Assertion")
    && CountTop(DecodeForest(xBody, xInner), DS, "Signature") == 0
    && AllAligned(Tree(Alone(x, xBody))) && Agree(map[], SignatureScope(inner), FreePrefixes(Tree(Alone(x, xBody))))
  }

  /** The children of the signature made, and what a search finds there. */
  lemma {:induction false} SignedKids(c: Crypto, key: Key, tail: Forest<WTag>, id: string, tag: WTag,
                                      body: Forest<WTag>, signed: Forest<WTag>, s: Scope, pos: nat, space: string,
                                      local: string) returns (sigKids: Forest<WTag>, next: nat)
    requires SignWith(c, key, tail, id, tag, body) == Some(signed) && DsScope(s) && space != DS && space != ""
    ensures signed == Enveloped(tag, body, sigKids)
    ensures Outermost(DecodeForest(sigKids, s), pos, s, space, local) ==
            Outermost(DecodeForest(tail, s), next, s, space, local)
  {
    var digest, value := SignedShape(c, key, tail, id, tag, body, signed);
    sigKids := SignatureKids(id, digest, value, tail);
    next := PastParts(id, digest, value, tail, s, pos, s, space, local);
  }

  lemma {:induction false} FoundInTail(sig: Node, next: nat, x: WTag, xBody: Forest<WTag>, tail: Forest<WTag>,
                                       s: Scope, xInner: Scope, space: string, local: string) returns (n: Node)
    requires xInner == WInside(s, x.attrs) && tail == Elem(x, xBody, Nil) && Inner(sig) == s
    requires Outermost(sig.kids, sig.pos + 1, s, space, local) ==
             Outermost(DecodeForest(tail, s), next, s, space, local)
    requires Named(DecodeTag(x, xInner).el, space, local)
    ensures Descendants(sig, space, local) == [n] && n.scope == s
    ensures n.tag == DecodeTag(x, xInner) && n.kids == DecodeForest(xBody, xInner)
  {
    DecodedElem(x, xBody, Nil, s, xInner);
    n := Node(next, DecodeTag(x, xInner), DecodeForest(xBody, xInner), s);
    OnlyElement(n.tag, n.kids, next, s, space, local);
  }

  lemma {:induction false} OnlyElement(t: Tag, k: Forest<Tag>, pos: nat, scope: Scope, space: string, local: string)
    requires Named(t.el, space, local)
    ensures Outermost(Elem(t, k, Nil), pos, scope, space, local) == [Node(pos, t, k, scope)]
  {
    assert Outermost(Nil, pos + 2 + Size(k), scope, space, local) == [];
  }

  lemma {:induction false} OnlyInSignature(root: Node, sig: Node, rest: Forest<Tag>, n: Node, space: string,
                                           local: string)
    requires root.kids == Elem(sig.tag, sig.kids, rest) && sig.pos == root.pos + 1 && sig.scope == Inner(root)
    requires Descendants(sig, space, local) == [n] && Count(rest, space, local) == 0
    requires sig.tag.el.space != space && space != ""
    ensures Descendants(root, space, local) == [n]
  {
    Claims.OutermostInside(sig, rest, space, local);
    NothingOutermost(rest, sig.pos + 2 + Size(sig.kids), sig.scope, space, local);
    assert [n] + [] == [n];
  }

  /** The document verifies by the signature `sig` on its root over the bytes of `signed`; what is reported is an
      Assertion inside that signature and without one of its own, which reads like `other`, and nothing in `signed`
      is an Assertion. */
  ghost predicate VerifiesUnsigned(c: Crypto, cert: Certificate, f: Forest<Tag>, root: Node, sig: Node, n: Node,
                                   signed: Node, other: Node) {
    && AllAligned(f) && AllAligned(Tree(root)) && AllAligned(Tree(signed))
    && Verify(c, cert, f) == Verified(n, root)
    && Child(root, DS, "Signature") == Some(sig) && CanonicalElement(root, {sig.pos}) == CanonicalElement(signed, {})
    && Child(n, DS, "Signature") == None && Read(n) == Read(other)
    && Descendants(sig, SAML, "Assertion") == [n] && Descendants(signed, SAML, "Assertion") == []
  }

  lemma {:induction false} AssembleSigned(c: Crypto, cert: Certificate, f: Forest<Tag>, root: Node, sig: Node, n: Node,
                                          signed: Node, other: Node)
    requires AllAligned(f) && Root(f, 0) == Some(root) && Named(root.tag.el, SAMLP, "Response")
    requires AllAligned(Tree(root)) && AllAligned(Tree(n)) && AllAligned(Tree(sig))
    requires Descendants(root, SAML, "Assertion") == [n] && Child(root, DS, "Signature") == Some(sig)
    requires EnvelopedError(c, cert, root, sig) == None && Child(n, DS, "Signature") == None
    requires AllAligned(Tree(signed)) && CanonicalElement(root, {sig.pos}) == CanonicalElement(signed, {})
    requires Read(n) == Read(other) && Descendants(signed, SAML, "Assertion") == []
    requires Descendants(sig, SAML, "Assertion") == [n]
    ensures VerifiesUnsigned(c, cert, f, root, sig, n, signed, other)
  {
    assert Signatures(c, cert, root, n) == Verified(n, root);
  }

  /** A Response that holds no Assertion and is signed on its own is accepted with any Assertion put, without a
      signature, after the signature value: the digested bytes are those it had on its own, what is reported as
      verified is that Assertion, and it is read as it would be alone. */
  lemma {:induction false} UnsignedAssertion(c: Crypto, key: Key, cert: Certificate, id: string, root: WTag,
                                             body: Forest<WTag>, x: WTag, xBody: Forest<WTag>, signed: Forest<WTag>,
                                             prolog: seq<Option<string>>, after: Forest<WTag>, inner: Scope,
                                             xInner: Scope) returns (n: Node, sig: Node)
    requires Sound(c, key, cert) && !HasElementBelow(Tree(Alone(root, body)))
             && signed == Signed(c, key, Elem(x, xBody, Nil), id, root, body)
    requires Carries(id, root, body, x, xBody, inner, xInner)
    ensures VerifiesUnsigned(c, cert, DecodeForest(Wrapped(prolog, root, signed.kids, after), map[]),
                             RootNode(prolog, root, signed.kids), sig, n, Alone(root, body), Alone(x, xBody))
  {
    var a := RootNode(prolog, root, signed.kids);
    var f := DecodeForest(Wrapped(prolog, root, signed.kids, after), map[]);
    RootPastProlog(prolog, root, signed.kids, after, 0);
    DecodedAligned(Wrapped(prolog, root, signed.kids, after), map[]);
    n, sig := CarriedVerifies(c, key, cert, id, root, body, x, xBody, signed, f, a, inner, xInner);
  }

  lemma {:induction false} CarriedVerifies(c: Crypto, key: Key, cert: Certificate, id: string, root: WTag,
                                           body: Forest<WTag>, x: WTag, xBody: Forest<WTag>, signed: Forest<WTag>,
                                           f: Forest<Tag>, a: Node, inner: Scope, xInner: Scope)
    returns (n: Node, sig: Node)
    requires Sound(c, key, cert) && SignWith(c, key, Elem(x, xBody, Nil), id, root, body) == Some(signed)
    requires Carries(id, root, body, x, xBody, inner, xInner) && AllAligned(f) && Root(f, 0) == Some(a)
    requires a.scope == map[] && a.tag == DecodeTag(root, inner) && a.kids == DecodeForest(signed.kids, inner)
    ensures VerifiesUnsigned(c, cert, f, a, sig, n, Alone(root, body), Alone(x, xBody))
  {
    AloneAligned(root, body);
    SaneWInside(map[], root);
    SignatureHolds(c, key, cert, Elem(x, xBody, Nil), id, root, body, signed, a, inner);
    n, sig := CarriedFound(c, key, id, root, body, x, xBody, signed, a, inner, xInner);
    NothingSigned(root, body, inner);
    AssembleSigned(c, cert, f, a, sig, n, Alone(root, body), Alone(x, xBody));
  }

  lemma {:induction false} NothingSigned(root: WTag, body: Forest<WTag>, inner: Scope)
    requires inner == WInside(map[], root.attrs) && Count(DecodeForest(body, inner), SAML, "Assertion") == 0
    ensures Descendants(Alone(root, body), SAML, "Assertion") == []
  {
    NothingOutermost(DecodeForest(body, inner), 1, Inner(Alone(root, body)), SAML, "Assertion");
  }

  lemma {:induction false} CarriedFound(c: Crypto, key: Key, id: string, root: WTag, body: Forest<WTag>, x: WTag,
                                        xBody: Forest<WTag>, signed: Forest<WTag>, a: Node, inner: Scope,
                                        xInner: Scope) returns (n: Node, sig: Node)
    requires SignWith(c, key, Elem(x, xBody, Nil), id, root, body) == Some(signed)
    requires Carries(id, root, body, x, xBody, inner, xInner) && Sane(inner)
    requires a.scope == map[] && a.tag == DecodeTag(root, inner) && a.kids == DecodeForest(signed.kids, inner)
    ensures Descendants(a, SAML, "Assertion") == [n] == Descendants(sig, SAML, "Assertion")
    ensures Child(a, DS, "Signature") == Some(sig)
    ensures Child(n, DS, "Signature") == None && Read(n) == Read(Alone(x, xBody))
    ensures AllAligned(Tree(a)) && AllAligned(Tree(sig)) && AllAligned(Tree(n))
  {
    var tail: Forest<WTag> := Elem(x, xBody, Nil);
    var s := SignatureScope(inner);
    Claims.Namespaces();
    DeclareDs(inner);
    var sigKids, next := SignedKids(c, key, tail, id, root, body, signed, s, a.pos + 2, SAML, "Assertion");
    sig := SignatureFound(root, sigKids, body, a, inner);
    n := FoundInTail(sig, next, x, xBody, tail, s, xInner, SAML, "Assertion");
    OnlyInSignature(a, sig, DecodeForest(body, inner), n, SAML, "Assertion");
    OneAligned(a, n, SAML, "Assertion");
    NoChildFound(n.kids, n.pos + 1, Inner(n), DS, "Signature");
    UnsignedReads(n, x, xBody, s, xInner);
  }

  lemma {:induction false} OneAligned(a: Node, n: Node, space: string, local: string)
    requires AllAligned(Tree(a)) && Descendants(a, space, local) == [n]
    ensures AllAligned(Tree(n))
  {
    DescendantsAligned(a, space, local);
    assert Descendants(a, space, local)[0] == n;
  }

  lemma {:induction false} UnsignedReads(n: Node, x: WTag, xBody: Forest<WTag>, s: Scope, xInner: Scope)
    requires Sane(s) && SaneTag(x) && SaneForest(xBody) && xInner == WInside(s, x.attrs)
    requires n.tag == DecodeTag(x, xInner) && n.kids == DecodeForest(xBody, xInner)
    requires AllAligned(Tree(Alone(x, xBody))) && Agree(map[], s, FreePrefixes(Tree(Alone(x, xBody))))
    ensures Read(n) == Read(Alone(x, xBody))
  {
    SameAsBare(x, xBody, s, xInner);
    ReadAnywhere(n, Alone(x, xBody));
  }
}
