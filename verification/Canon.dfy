/** Exclusive canonicalization as a function of trees, and what its output means. */
module Canon {
  import opened Order
  import opened Escape
  import opened Xml

  // ---- names ----

  function Colon(qn: string): (i: nat)
    ensures i <= |qn| && (i < |qn| ==> qn[i] == ':')
  {
    if qn == "" || qn[0] == ':' then 0 else 1 + Colon(qn[1..])
  }

  /** splitQName: the part before the first colon, or "" if there is none. */
  function Prefix(qn: string): string { if Colon(qn) < |qn| then qn[..Colon(qn)] else "" }

  function Local(qn: string): string { if Colon(qn) < |qn| then qn[Colon(qn) + 1..] else qn }

  // ---- one start tag ----

  ghost predicate Aligned(tag: Tag) { |tag.attrNames| == |tag.el.attrs| }

  /** The attributes that are not declarations, with the keys they sort by. */
  function Items(attrs: seq<Attr>, names: seq<string>, scope: Scope): seq<Item>
    requires |attrs| == |names|
  {
    if attrs == [] then []
    else
      var rest := Items(attrs[1..], names[1..], scope);
      if IsDeclaration(attrs[0]) then rest
      else [AttrItem(names[0], attrs[0].value, scope)] + rest
  }

  function AttrItem(qn: string, value: string, scope: Scope): Item {
    Item(if Prefix(qn) == "" then "" else Lookup(scope, Prefix(qn)), Local(qn), qn, value)
  }

  datatype Pair = Pair(name: string, value: string)

  function Pairs(items: seq<Item>): seq<Pair> {
    if items == [] then [] else [Pair(items[0].name, items[0].value)] + Pairs(items[1..])
  }

  /** The prefixes of attribute names; an unprefixed attribute uses no namespace. */
  function UsedByAttrs(pairs: seq<Pair>): set<string> {
    if pairs == [] then {}
    else UsedByAttrs(pairs[1..]) + if Prefix(pairs[0].name) == "" then {} else {Prefix(pairs[0].name)}
  }

  /** The attributes of a tag as they are written out. */
  function AttrPairs(tag: Tag, inner: Scope): seq<Pair>
    requires Aligned(tag)
  {
    Pairs(Sort(Items(tag.el.attrs, tag.attrNames, inner)))
  }

  /** The prefixes a tag visibly uses: its own and those of its attributes. */
  function Used(name: string, pairs: seq<Pair>): set<string> { {Prefix(name)} + UsedByAttrs(pairs) }

  /** The same, read from the tag as written. */
  function TagUses(tag: Tag): set<string>
    requires Aligned(tag)
  {
    {Prefix(tag.name)} + PlainPrefixes(tag.el.attrs, tag.attrNames)
  }

  function PlainPrefixes(attrs: seq<Attr>, names: seq<string>): set<string>
    requires |attrs| == |names|
  {
    if attrs == [] then {}
    else PlainPrefixes(attrs[1..], names[1..])
         + if IsDeclaration(attrs[0]) || Prefix(names[0]) == "" then {} else {Prefix(names[0])}
  }

  function Uses(tag: Tag, inner: Scope): map<string, string>
    requires Aligned(tag)
  {
    map p | p in TagUses(tag) :: Lookup(inner, p)
  }

  /** Used prefixes whose binding no output ancestor has already written. */
  function Needed(uses: map<string, string>, rendered: Scope): set<string> {
    set p | p in uses && !(p in rendered && rendered[p] == uses[p])
  }

  function XmlnsName(prefix: string): string { if prefix == "" then "xmlns" else "xmlns:" + prefix }

  ghost function Declarations(prefixes: seq<string>, uses: map<string, string>): seq<Pair>
    requires forall p :: p in prefixes ==> p in uses
  {
    if prefixes == [] then []
    else [Pair(XmlnsName(prefixes[0]), uses[prefixes[0]])] + Declarations(prefixes[1..], uses)
  }

  ghost function DeclPairs(uses: map<string, string>, rendered: Scope): seq<Pair> {
    ListingIs(Needed(uses, rendered));
    Declarations(Listing(Needed(uses, rendered)), uses)
  }

  function RenderedBelow(uses: map<string, string>, rendered: Scope): Scope {
    rendered + map p | p in Needed(uses, rendered) :: uses[p]
  }

  /** `name="value"` for each pair, then `tail`. */
  function PairsThen(pairs: seq<Pair>, tail: string): string {
    if pairs == [] then tail
    else " " + (pairs[0].name + ("=\"" + (Escaped(pairs[0].value, true) + ("\"" + PairsThen(pairs[1..], tail)))))
  }

  ghost function OpenTag(name: string, uses: map<string, string>, attrs: seq<Pair>, rendered: Scope,
                         tail: string): string {
    "<" + (name + PairsThen(DeclPairs(uses, rendered) + attrs, ">" + tail))
  }

  function CloseTag(name: string, tail: string): string { "</" + (name + (">" + tail)) }

  // ---- a forest ----

  ghost predicate AllAligned(f: Forest<Tag>) {
    match f
    case Nil => true
    case Leaf(_, r) => AllAligned(r)
    case Elem(tag, k, r) => Aligned(tag) && AllAligned(k) && AllAligned(r)
  }

  /** The canonical text of `f`, followed by `tail`. `scope` is what the ancestors in the document have
      declared, `rendered` what the ancestors in the output have. */
  ghost function Canonical(f: Forest<Tag>, scope: Scope, rendered: Scope, tail: string): string
    requires AllAligned(f)
  {
    match f
    case Nil => tail
    case Leaf(t, r) => Escaped(Said(t), false) + Canonical(r, scope, rendered, tail)
    case Elem(tag, k, r) =>
      var inner := Inside(scope, tag.el.attrs);
      var uses := Uses(tag, inner);
      OpenTag(tag.name, uses, AttrPairs(tag, inner), rendered,
        Canonical(k, inner, RenderedBelow(uses, rendered),
          CloseTag(tag.name, Canonical(r, scope, rendered, tail))))
  }

  /** What canonical text says: names, the URIs of the prefixes used, sorted attributes, merged text.
      Comments, unused declarations, attribute order and the place of declarations are gone. */
  datatype Meaning =
    | MNil
    | MText(text: string, rest: Meaning)
    | MElem(name: string, uses: map<string, string>, attrs: seq<Pair>, kids: Meaning, rest: Meaning)

  function Say(text: string, m: Meaning): Meaning {
    if text == "" then m
    else if m.MText? then MText(text + m.text, m.rest)
    else MText(text, m)
  }

  function MeaningOf(f: Forest<Tag>, scope: Scope): Meaning
    requires AllAligned(f)
  {
    match f
    case Nil => MNil
    case Leaf(t, r) => Say(Said(t), MeaningOf(r, scope))
    case Elem(tag, k, r) =>
      var inner := Inside(scope, tag.el.attrs);
      MElem(tag.name, Uses(tag, inner), AttrPairs(tag, inner), MeaningOf(k, inner), MeaningOf(r, scope))
  }

  ghost function Print(m: Meaning, rendered: Scope, tail: string): string {
    match m
    case MNil => tail
    case MText(t, r) => Escaped(t, false) + Print(r, rendered, tail)
    case MElem(name, uses, attrs, k, r) =>
      OpenTag(name, uses, attrs, rendered,
        Print(k, RenderedBelow(uses, rendered), CloseTag(name, Print(r, rendered, tail))))
  }

  lemma {:induction false} PrintSay(text: string, m: Meaning, rendered: Scope, tail: string)
    ensures Print(Say(text, m), rendered, tail) == Escaped(text, false) + Print(m, rendered, tail)
  {
    if text != "" && m.MText? {
      EscapedConcat(text, m.text, false);
    }
  }

  /** Canonical text is the printed meaning, whatever the tree looks like otherwise. */
  lemma {:induction false} CanonicalPrints(f: Forest<Tag>, scope: Scope, rendered: Scope, tail: string)
    requires AllAligned(f)
    ensures Canonical(f, scope, rendered, tail) == Print(MeaningOf(f, scope), rendered, tail)
  {
    match f
    case Nil =>
    case Leaf(t, r) =>
      CanonicalPrints(r, scope, rendered, tail);
      PrintSay(Said(t), MeaningOf(r, scope), rendered, tail);
    case Elem(tag, k, r) =>
      var inner := Inside(scope, tag.el.attrs);
      CanonicalPrints(r, scope, rendered, tail);
      CanonicalPrints(k, inner, RenderedBelow(Uses(tag, inner), rendered),
                      CloseTag(tag.name, Canonical(r, scope, rendered, tail)));
  }
}
