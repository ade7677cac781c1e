/** How written tags become decoded ones: prefixes resolve in the scope around them. */
module Decode {
  import opened Xml
  import opened Canon
  import opened Context

  datatype WAttr = WAttr(name: string, value: string)

  datatype WTag = WTag(name: string, attrs: seq<WAttr>)

  const XML_SPACE := "http://www.w3.org/XML/1998/namespace"

  predicate WritesDeclaration(a: WAttr) { a.name == "xmlns" || Prefix(a.name) == "xmlns" }

  function WrittenPrefix(a: WAttr): string { if a.name == "xmlns" then "" else Local(a.name) }

  /** The scope inside a written tag. */
  function WInside(scope: Scope, attrs: seq<WAttr>): Scope
    decreases |attrs|
  {
    if attrs == [] then scope
    else
      var a := attrs[0];
      WInside(if WritesDeclaration(a) then scope[WrittenPrefix(a) := a.value] else scope, attrs[1..])
  }

  /** What the decoder makes of a prefix: an undeclared one stays as it is. */
  function Resolve(scope: Scope, p: string): string {
    if p == "xml" then XML_SPACE else if p in scope then scope[p] else p
  }

  function DecodeAttr(a: WAttr, inner: Scope): Attr {
    if a.name == "xmlns" then Attr("", "xmlns", a.value)
    else if Prefix(a.name) == "xmlns" then Attr("xmlns", Local(a.name), a.value)
    else if Prefix(a.name) == "" then Attr("", a.name, a.value)
    else Attr(Resolve(inner, Prefix(a.name)), Local(a.name), a.value)
  }

  function DecodeAttrs(attrs: seq<WAttr>, inner: Scope): seq<Attr> {
    if attrs == [] then [] else [DecodeAttr(attrs[0], inner)] + DecodeAttrs(attrs[1..], inner)
  }

  function AttrNames(attrs: seq<WAttr>): seq<string> {
    if attrs == [] then [] else [attrs[0].name] + AttrNames(attrs[1..])
  }

  function ElementSpace(name: string, inner: Scope): string {
    if Prefix(name) == "xmlns" then "xmlns" else if name == "xmlns" then "" else Resolve(inner, Prefix(name))
  }

  /** The tag decoded with `inner` in force inside it. */
  function DecodeTag(w: WTag, inner: Scope): Tag {
    Tag(StartElement(ElementSpace(w.name, inner), Local(w.name), DecodeAttrs(w.attrs, inner)), w.name,
        AttrNames(w.attrs))
  }

  function DecodeForest(w: Forest<WTag>, scope: Scope): Forest<Tag> {
    match w
    case Nil => Nil
    case Leaf(t, r) => Leaf(t, DecodeForest(r, scope))
    case Elem(tag, k, r) =>
      var inner := WInside(scope, tag.attrs);
      Elem(DecodeTag(tag, inner), DecodeForest(k, inner), DecodeForest(r, scope))
  }

  // ---- documents the Namespaces recommendation allows ----

  /** No prefix is unbound or bound to the text "xmlns". */
  ghost predicate Sane(scope: Scope) {
    forall p :: p in scope && p != "" ==> scope[p] != "" && scope[p] != "xmlns"
  }

  ghost predicate SaneTag(w: WTag) {
    forall i :: 0 <= i < |w.attrs| && WritesDeclaration(w.attrs[i]) && WrittenPrefix(w.attrs[i]) != "" ==>
      w.attrs[i].value != "" && w.attrs[i].value != "xmlns"
  }

  ghost predicate SaneForest(w: Forest<WTag>) {
    match w
    case Nil => true
    case Leaf(_, r) => SaneForest(r)
    case Elem(tag, k, r) => SaneTag(tag) && SaneForest(k) && SaneForest(r)
  }

  lemma {:induction false} SaneInside(scope: Scope, attrs: seq<WAttr>)
    requires Sane(scope) && SaneTag(WTag("", attrs))
    ensures Sane(WInside(scope, attrs))
    decreases |attrs|
  {
    if attrs != [] {
      var a := attrs[0];
      assert WTag("", attrs).attrs[0] == a;
      var scope' := if WritesDeclaration(a) then scope[WrittenPrefix(a) := a.value] else scope;
      forall i | 0 <= i < |attrs[1..]| ensures attrs[1..][i] == WTag("", attrs).attrs[i + 1] {}
      SaneInside(scope', attrs[1..]);
    }
  }

  lemma {:induction false} DecodedDeclaration(a: WAttr, inner: Scope)
    requires Sane(inner)
    ensures IsDeclaration(DecodeAttr(a, inner)) <==> WritesDeclaration(a)
    ensures WritesDeclaration(a) ==> DeclaredPrefix(DecodeAttr(a, inner)) == WrittenPrefix(a)
    ensures DecodeAttr(a, inner).value == a.value
  {
  }

  lemma {:induction false} DecodedShape(attrs: seq<WAttr>, inner: Scope)
    ensures |DecodeAttrs(attrs, inner)| == |AttrNames(attrs)| == |attrs|
    ensures forall i :: 0 <= i < |attrs| ==>
            DecodeAttrs(attrs, inner)[i] == DecodeAttr(attrs[i], inner) && AttrNames(attrs)[i] == attrs[i].name
  {
    if attrs != [] { DecodedShape(attrs[1..], inner); }
  }

  /** The scope the index computes from decoded tags is the one the text declares. */
  lemma {:induction false} DecodedInside(scope: Scope, attrs: seq<WAttr>, inner: Scope)
    requires Sane(inner)
    ensures Inside(scope, DecodeAttrs(attrs, inner)) == WInside(scope, attrs)
    decreases |attrs|
  {
    if attrs != [] {
      var a := attrs[0];
      DecodedDeclaration(a, inner);
      assert DecodeAttrs(attrs, inner)[1..] == DecodeAttrs(attrs[1..], inner);
      DecodedInside(if WritesDeclaration(a) then scope[WrittenPrefix(a) := a.value] else scope, attrs[1..], inner);
    }
  }

  lemma {:induction false} DecodedAligned(w: Forest<WTag>, scope: Scope)
    ensures AllAligned(DecodeForest(w, scope))
  {
    match w
    case Nil =>
    case Leaf(_, r) => DecodedAligned(r, scope);
    case Elem(tag, k, r) =>
      var inner := WInside(scope, tag.attrs);
      DecodedShape(tag.attrs, inner);
      DecodedAligned(k, inner);
      DecodedAligned(r, scope);
  }

  // ---- decoding depends on context through free prefixes too ----

  lemma {:induction false} ResolveAgrees(s: Scope, s': Scope, p: string)
    requires Sane(s) && Sane(s') && Lookup(s, p) == Lookup(s', p)
    ensures Resolve(s, p) == Resolve(s', p)
  {
  }

  lemma {:induction false} AttrsAgree(attrs: seq<WAttr>, s: Scope, s': Scope)
    requires Sane(s) && Sane(s')
    requires |DecodeAttrs(attrs, s)| == |AttrNames(attrs)|
             && Agree(s, s', PlainPrefixes(DecodeAttrs(attrs, s), AttrNames(attrs)))
    ensures DecodeAttrs(attrs, s) == DecodeAttrs(attrs, s')
  {
    if attrs != [] {
      var a := attrs[0];
      assert DecodeAttrs(attrs, s)[1..] == DecodeAttrs(attrs[1..], s) && AttrNames(attrs)[1..] == AttrNames(attrs[1..]);
      DecodedDeclaration(a, s);
      if !WritesDeclaration(a) && Prefix(a.name) != "" { ResolveAgrees(s, s', Prefix(a.name)); }
      AttrsAgree(attrs[1..], s, s');
    }
  }

  lemma {:induction false} TagDecodesAlike(w: WTag, s: Scope, s': Scope)
    requires Sane(s) && Sane(s') && Aligned(DecodeTag(w, s)) && Agree(s, s', TagUses(DecodeTag(w, s)))
    ensures DecodeTag(w, s) == DecodeTag(w, s')
  {
    ResolveAgrees(s, s', Prefix(w.name));
    AttrsAgree(w.attrs, s, s');
  }

  /** Scopes that agree on the free prefixes decode a forest alike. */
  lemma {:induction false} DecodesAlike(w: Forest<WTag>, s: Scope, s': Scope)
    requires Sane(s) && Sane(s') && SaneForest(w) && AllAligned(DecodeForest(w, s))
    requires Agree(s, s', FreePrefixes(DecodeForest(w, s)))
    ensures DecodeForest(w, s) == DecodeForest(w, s')
  {
    match w
    case Nil =>
    case Leaf(_, r) => DecodesAlike(r, s, s');
    case Elem(tag, k, r) =>
      var inner, inner' := WInside(s, tag.attrs), WInside(s', tag.attrs);
      var t := DecodeTag(tag, inner);
      SaneWInside(s, tag);
      SaneWInside(s', tag);
      DecodedInside(s, tag.attrs, inner);
      DecodedInside(s', tag.attrs, inner);
      InnerAgrees(s, s', t.el.attrs, TagUses(t) + FreePrefixes(DecodeForest(k, inner)));
      TagDecodesAlike(tag, inner, inner');
      DecodesAlike(k, inner, inner');
      DecodesAlike(r, s, s');
  }

  lemma {:induction false} SaneWInside(s: Scope, tag: WTag)
    requires Sane(s) && SaneTag(tag)
    ensures Sane(WInside(s, tag.attrs))
  {
    assert SaneTag(WTag("", tag.attrs)) by {
      assert WTag("", tag.attrs).attrs == tag.attrs;
      assert forall i :: 0 <= i < |tag.attrs| ==> WTag("", tag.attrs).attrs[i] == tag.attrs[i];
    }
    SaneInside(s, tag.attrs);
  }
}
