/** The output at one element of a document: which output ancestors it has and what they have declared. */
module Output {
  import opened Text
  import opened Order
  import opened Escape
  import opened Xml
  import opened Canon
  import opened Canonicalizer

  // ---- what output ancestors have declared ----

  /** The output scope below ancestors with these uses, outermost first. */
  function WrittenBy(ancestors: seq<map<string, string>>): Scope {
    if ancestors == [] then map[]
    else RenderedBelow(ancestors[|ancestors| - 1], WrittenBy(ancestors[..|ancestors| - 1]))
  }

  /** What the nearest output ancestor that declares a prefix declares it to be. */
  function NearestDeclaration(ancestors: seq<map<string, string>>, p: string): Option<string> {
    if ancestors == [] then None
    else
      var last, above := ancestors[|ancestors| - 1], ancestors[..|ancestors| - 1];
      if p in Needed(last, WrittenBy(above)) then Some(last[p]) else NearestDeclaration(above, p)
  }

  lemma {:induction false} WrittenIsNearest(ancestors: seq<map<string, string>>, p: string)
    ensures p in WrittenBy(ancestors) <==> NearestDeclaration(ancestors, p).Some?
    ensures p in WrittenBy(ancestors) ==> NearestDeclaration(ancestors, p) == Some(WrittenBy(ancestors)[p])
  {
    if ancestors != [] { WrittenIsNearest(ancestors[..|ancestors| - 1], p); }
  }

  lemma {:induction false} NeededWhenNew(uses: map<string, string>, ancestors: seq<map<string, string>>, p: string)
    ensures p in Needed(uses, WrittenBy(ancestors)) <==> p in uses && NearestDeclaration(ancestors, p) != Some(uses[p])
  {
    WrittenIsNearest(ancestors, p);
  }

  // ---- an element of a document ----

  ghost predicate CtxAligned(ctx: Ctx<Tag>) {
    match ctx
    case Hole(r) => AllAligned(r)
    case PastLeaf(_, next) => CtxAligned(next)
    case Past(u, k, next) => Aligned(u) && AllAligned(k) && CtxAligned(next)
    case Into(u, inside, r) => Aligned(u) && CtxAligned(inside) && AllAligned(r)
  }

  /** What the ancestors of the hole visibly use, outermost first. */
  ghost function AncestorUses(ctx: Ctx<Tag>, scope: Scope): seq<map<string, string>>
    requires CtxAligned(ctx)
  {
    match ctx
    case Hole(_) => []
    case PastLeaf(_, next) => AncestorUses(next, scope)
    case Past(_, _, next) => AncestorUses(next, scope)
    case Into(u, inside, _) =>
      var inner := Inside(scope, u.el.attrs);
      [Uses(u, inner)] + AncestorUses(inside, inner)
  }

  lemma {:induction false} PlugAligned(ctx: Ctx<Tag>, tag: Tag, kids: Forest<Tag>)
    ensures AllAligned(Plug(ctx, tag, kids)) <==> CtxAligned(ctx) && Aligned(tag) && AllAligned(kids)
  {
    match ctx
    case Hole(_) =>
    case PastLeaf(_, next) => PlugAligned(next, tag, kids);
    case Past(_, _, next) => PlugAligned(next, tag, kids);
    case Into(_, inside, _) => PlugAligned(inside, tag, kids);
  }

  /** The start tag of an element, its content and its end tag. */
  ghost function ElementText(tag: Tag, kids: Forest<Tag>, inner: Scope, rendered: Scope, after: string): string
    requires Aligned(tag) && AllAligned(kids)
  {
    var uses := Uses(tag, inner);
    OpenTag(tag.name, uses, AttrPairs(tag, inner), rendered,
      Canonical(kids, inner, RenderedBelow(uses, rendered), CloseTag(tag.name, after)))
  }

  lemma {:induction false} WrittenOneMore(above: seq<map<string, string>>, uses: map<string, string>)
    ensures WrittenBy(above + [uses]) == RenderedBelow(uses, WrittenBy(above))
  {
    var all := above + [uses];
    assert all[..|all| - 1] == above && all[|all| - 1] == uses;
  }

  lemma {:induction false} SiblingBefore(u: Tag, k: Forest<Tag>, r: Forest<Tag>, scope: Scope, rendered: Scope,
                                         tail: string)
    requires Aligned(u) && AllAligned(k) && AllAligned(r)
    ensures Canonical(Elem(u, k, r), scope, rendered, tail) ==
            Canonical(Elem(u, k, Nil), scope, rendered, "") + Canonical(r, scope, rendered, tail)
  {
    var rest := Canonical(r, scope, rendered, tail);
    CanonicalThen(Elem(u, k, Nil), scope, rendered, rest);
    assert Canonical(Nil, scope, rendered, rest) == rest;
  }

  /** What is written before the element in the hole: its elder siblings, and around those the start tags of its
      ancestors and what comes before them. */
  ghost function TextBefore(ctx: Ctx<Tag>, scope: Scope, rendered: Scope): string
    requires CtxAligned(ctx)
  {
    match ctx
    case Hole(_) => ""
    case PastLeaf(t, next) => Escaped(Said(t), false) + TextBefore(next, scope, rendered)
    case Past(u, k, next) => Canonical(Elem(u, k, Nil), scope, rendered, "") + TextBefore(next, scope, rendered)
    case Into(u, inside, _) =>
      var outer := Inside(scope, u.el.attrs);
      var uses := Uses(u, outer);
      OpenTag(u.name, uses, AttrPairs(u, outer), rendered, TextBefore(inside, outer, RenderedBelow(uses, rendered)))
  }

  /** What is written after it: its younger siblings, and the end tags of its ancestors with theirs. */
  ghost function TextAfter(ctx: Ctx<Tag>, scope: Scope, rendered: Scope, tail: string): string
    requires CtxAligned(ctx)
  {
    match ctx
    case Hole(r) => Canonical(r, scope, rendered, tail)
    case PastLeaf(_, next) => TextAfter(next, scope, rendered, tail)
    case Past(_, _, next) => TextAfter(next, scope, rendered, tail)
    case Into(u, inside, r) =>
      var outer := Inside(scope, u.el.attrs);
      TextAfter(inside, outer, RenderedBelow(Uses(u, outer), rendered),
                CloseTag(u.name, Canonical(r, scope, rendered, tail)))
  }

  /** The canonical text of a document is what stands before an element, the element written with exactly what
      its output ancestors have declared already in force, and what stands after it. */
  lemma {:induction false} OutputAt(ctx: Ctx<Tag>, tag: Tag, kids: Forest<Tag>, scope: Scope,
                                    above: seq<map<string, string>>, tail: string)
    requires CtxAligned(ctx) && Aligned(tag) && AllAligned(kids) && AllAligned(Plug(ctx, tag, kids))
    ensures
      var inner := Inside(IndexedScope(ctx, scope), tag.el.attrs);
      Canonical(Plug(ctx, tag, kids), scope, WrittenBy(above), tail) ==
      TextBefore(ctx, scope, WrittenBy(above))
      + ElementText(tag, kids, inner, WrittenBy(above + AncestorUses(ctx, scope)),
                    TextAfter(ctx, scope, WrittenBy(above), tail))
    decreases ctx, 0
  {
    var rendered := WrittenBy(above);
    var after := TextAfter(ctx, scope, rendered, tail);
    match ctx
    case Hole(r) =>
      assert above + [] == above;
      Nothing(ElementText(tag, kids, Inside(scope, tag.el.attrs), rendered, after));
    case PastLeaf(t, next) =>
      OutputAt(next, tag, kids, scope, above, tail);
      var inner := Inside(IndexedScope(next, scope), tag.el.attrs);
      Regroup(Escaped(Said(t), false), TextBefore(next, scope, rendered),
              ElementText(tag, kids, inner, WrittenBy(above + AncestorUses(next, scope)), after));
    case Past(u, k, next) =>
      OutputAt(next, tag, kids, scope, above, tail);
      SiblingBefore(u, k, Plug(next, tag, kids), scope, rendered, tail);
      var inner := Inside(IndexedScope(next, scope), tag.el.attrs);
      Regroup(Canonical(Elem(u, k, Nil), scope, rendered, ""), TextBefore(next, scope, rendered),
              ElementText(tag, kids, inner, WrittenBy(above + AncestorUses(next, scope)), after));
    case Into(u, inside, r) => OutputInto(u, inside, r, tag, kids, scope, above, tail);
  }

  lemma {:induction false} Nothing(s: string)
    ensures s == "" + s
  {
  }

  lemma {:induction false} OutputInto(u: Tag, inside: Ctx<Tag>, r: Forest<Tag>, tag: Tag, kids: Forest<Tag>,
                                      scope: Scope, above: seq<map<string, string>>, tail: string)
    requires CtxAligned(Into(u, inside, r)) && Aligned(tag) && AllAligned(kids) && AllAligned(Plug(inside, tag, kids))
    ensures
      var outer := Inside(scope, u.el.attrs);
      var inner := Inside(IndexedScope(inside, outer), tag.el.attrs);
      Canonical(Elem(u, Plug(inside, tag, kids), r), scope, WrittenBy(above), tail) ==
      TextBefore(Into(u, inside, r), scope, WrittenBy(above))
      + ElementText(tag, kids, inner, WrittenBy(above + ([Uses(u, outer)] + AncestorUses(inside, outer))),
                    TextAfter(Into(u, inside, r), scope, WrittenBy(above), tail))
    decreases inside, 1
  {
    var outer := Inside(scope, u.el.attrs);
    var uses, rendered := Uses(u, outer), WrittenBy(above);
    var close := CloseTag(u.name, Canonical(r, scope, rendered, tail));
    OutputAt(inside, tag, kids, outer, above + [uses], close);
    WrittenOneMore(above, uses);
    Regroup(above, [uses], AncestorUses(inside, outer));
    var below := RenderedBelow(uses, rendered);
    var inner := Inside(IndexedScope(inside, outer), tag.el.attrs);
    var text := ElementText(tag, kids, inner, WrittenBy(above + ([uses] + AncestorUses(inside, outer))),
                            TextAfter(inside, outer, below, close));
    TextWithin(u, Plug(inside, tag, kids), r, scope, outer, rendered, tail, TextBefore(inside, outer, below), text);
  }

  /** The start tag of an element comes before what its content starts with. */
  lemma {:induction false} TextWithin(u: Tag, k: Forest<Tag>, r: Forest<Tag>, scope: Scope, outer: Scope,
                                      rendered: Scope, tail: string, first: string, text: string)
    requires Aligned(u) && AllAligned(k) && AllAligned(r) && outer == Inside(scope, u.el.attrs)
    requires Canonical(k, outer, RenderedBelow(Uses(u, outer), rendered),
                       CloseTag(u.name, Canonical(r, scope, rendered, tail))) == first + text
    ensures Canonical(Elem(u, k, r), scope, rendered, tail) ==
            OpenTag(u.name, Uses(u, outer), AttrPairs(u, outer), rendered, first) + text
  {
    OpenTagThen(u.name, Uses(u, outer), AttrPairs(u, outer), rendered, first, text);
  }

  /** At every element of every document a prefix is declared exactly when the element visibly uses it and
      the nearest output ancestor's declaration of it is absent or different. Declarations come in order
      of prefix, give the prefix's URI and stand before the attributes. */
  lemma {:induction false} DeclaredExactlyWhenNew(ctx: Ctx<Tag>, tag: Tag, kids: Forest<Tag>, scope: Scope,
                                                  tail: string)
    returns (declared: seq<string>)
    requires AllAligned(Plug(ctx, tag, kids))
    ensures CtxAligned(ctx) && Aligned(tag) && AllAligned(kids)
    ensures
      var uses := Uses(tag, Inside(IndexedScope(ctx, scope), tag.el.attrs));
      && (forall p :: p in declared <==> p in uses && NearestDeclaration(AncestorUses(ctx, scope), p) != Some(uses[p]))
      && (forall i, j :: 0 <= i < j < |declared| ==> Less(declared[i], declared[j]))
    ensures
      var inner := Inside(IndexedScope(ctx, scope), tag.el.attrs);
      var pairs := Declarations(declared, Uses(tag, inner)) + AttrPairs(tag, inner);
      var content := Canonical(kids, inner, WrittenBy(AncestorUses(ctx, scope) + [Uses(tag, inner)]),
                               CloseTag(tag.name, TextAfter(ctx, scope, map[], tail)));
      Canonical(Plug(ctx, tag, kids), scope, map[], tail) ==
          TextBefore(ctx, scope, map[]) + ("<" + (tag.name + PairsThen(pairs, ">" + content)))
  {
    PlugAligned(ctx, tag, kids);
    var uses, ancestors := Uses(tag, Inside(IndexedScope(ctx, scope), tag.el.attrs)), AncestorUses(ctx, scope);
    OutputAt(ctx, tag, kids, scope, [], tail);
    assert [] + ancestors == ancestors;
    WrittenOneMore(ancestors, uses);
    declared := Listing(Needed(uses, WrittenBy(ancestors)));
    ListingIs(Needed(uses, WrittenBy(ancestors)));
    forall p ensures p in declared <==> p in uses && NearestDeclaration(ancestors, p) != Some(uses[p]) {
      NeededWhenNew(uses, ancestors, p);
    }
  }
}
