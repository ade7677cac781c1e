/** The decoded token list of an XML document, and the tree it stands for. */
module Xml {
  import opened Text

  /** One decoded attribute. Declarations are attributes too: `xmlns:p` has space "xmlns",
      `xmlns` has space "" and local "xmlns". */
  datatype Attr = Attr(space: string, local: string, value: string)

  datatype StartElement = StartElement(space: string, local: string, attrs: seq<Attr>)

  /** Comments, processing instructions and directives are all `Other`. */
  datatype Token = Start(el: StartElement) | End | CharData(text: string) | Other

  type Scope = map<string, string>

  /** One start tag: what the decoder made of it, and the literal names in its source text. */
  datatype Tag = Tag(el: StartElement, name: string, attrNames: seq<string>)

  /** Sibling nodes in document order, each element with its own children. A leaf without text is a
      comment, processing instruction or directive. */
  datatype Forest<T> =
    | Nil
    | Leaf(text: Option<string>, rest: Forest<T>)
    | Elem(tag: T, kids: Forest<T>, rest: Forest<T>)

  /** What a leaf contributes to the text around it: a comment, instruction or directive nothing. */
  function Said(leaf: Option<string>): string { if leaf.Some? then leaf.value else "" }

  function LeafToken(leaf: Option<string>): Token { if leaf.Some? then CharData(leaf.value) else Other }

  function Size<T>(f: Forest<T>): nat {
    match f
    case Nil => 0
    case Leaf(_, r) => 1 + Size(r)
    case Elem(_, k, r) => 2 + Size(k) + Size(r)
  }

  // ---- namespace declarations ----

  predicate IsDeclaration(a: Attr) {
    a.space == "xmlns" || (a.space == "" && a.local == "xmlns")
  }

  function DeclaredPrefix(a: Attr): string
    requires IsDeclaration(a)
  {
    if a.space == "xmlns" then a.local else ""
  }

  /** The scope inside a tag: its declarations, in order, over what its ancestors declared. */
  function Inside(scope: Scope, attrs: seq<Attr>): Scope
    decreases |attrs|
  {
    if attrs == [] then scope
    else
      var a := attrs[0];
      Inside(if IsDeclaration(a) then scope[DeclaredPrefix(a) := a.value] else scope, attrs[1..])
  }

  function Lookup(scope: Scope, prefix: string): string {
    if prefix in scope then scope[prefix] else ""
  }

  // ---- the token list of a forest ----

  /** `ts`, `ends` and `scopes` describe `f` from index `pos` on: each start tag knows the index of
      its end tag and the scope its ancestors have declared. */
  ghost predicate Covers(ts: seq<Token>, ends: map<nat, nat>, scopes: map<nat, Scope>, f: Forest<Tag>, pos: nat,
                         scope: Scope)
  {
    match f
    case Nil => pos <= |ts|
    case Leaf(t, r) => pos < |ts| && ts[pos] == LeafToken(t) && Covers(ts, ends, scopes, r, pos + 1, scope)
    case Elem(tag, k, r) =>
      var e := pos + 1 + Size(k);
      && e < |ts| && ts[pos] == Start(tag.el) && ts[e] == End
      && pos in ends && ends[pos] == e
      && pos in scopes && scopes[pos] == scope
      && Covers(ts, ends, scopes, k, pos + 1, Inside(scope, tag.el.attrs))
      && Covers(ts, ends, scopes, r, e + 1, scope)
  }

  /** The index of the end tag of the element that starts at `i`, if one does. */
  function EndAt(f: Forest<Tag>, pos: nat, i: nat): Option<nat> {
    match f
    case Nil => None
    case Leaf(_, r) => EndAt(r, pos + 1, i)
    case Elem(_, k, r) =>
      var e := pos + 1 + Size(k);
      if i == pos then Some(e) else if i < e then EndAt(k, pos + 1, i) else EndAt(r, e + 1, i)
  }

  /** The scope that the ancestors of the element starting at `i` have declared. */
  function ScopeAt(f: Forest<Tag>, pos: nat, scope: Scope, i: nat): Option<Scope> {
    match f
    case Nil => None
    case Leaf(_, r) => ScopeAt(r, pos + 1, scope, i)
    case Elem(tag, k, r) =>
      var e := pos + 1 + Size(k);
      if i == pos then Some(scope)
      else if i < e then ScopeAt(k, pos + 1, Inside(scope, tag.el.attrs), i)
      else ScopeAt(r, e + 1, scope, i)
  }

  /** `f` is what the tokens from `pos` on spell. */
  ghost predicate Laid(ts: seq<Token>, f: Forest<Tag>, pos: nat) {
    match f
    case Nil => pos <= |ts|
    case Leaf(t, r) => pos < |ts| && ts[pos] == LeafToken(t) && Laid(ts, r, pos + 1)
    case Elem(tag, k, r) =>
      var e := pos + 1 + Size(k);
      e < |ts| && ts[pos] == Start(tag.el) && ts[e] == End && Laid(ts, k, pos + 1) && Laid(ts, r, e + 1)
  }

  /** The token at index `i`. */
  function TokenAt(f: Forest<Tag>, pos: nat, i: nat): Token
    requires pos <= i < pos + Size(f)
  {
    match f
    case Leaf(t, r) => if i == pos then LeafToken(t) else TokenAt(r, pos + 1, i)
    case Elem(tag, k, r) =>
      var e := pos + 1 + Size(k);
      if i == pos then Start(tag.el) else if i < e then TokenAt(k, pos + 1, i) else if i == e then End
          else TokenAt(r, e + 1, i)
  }

  lemma {:induction false} LaidAt(ts: seq<Token>, f: Forest<Tag>, pos: nat, i: nat)
    requires Laid(ts, f, pos) && pos <= i < pos + Size(f)
    ensures i < |ts| && ts[i] == TokenAt(f, pos, i)
  {
    match f
    case Leaf(_, r) => if i > pos { LaidAt(ts, r, pos + 1, i); }
    case Elem(_, k, r) =>
      var e := pos + 1 + Size(k);
      if pos < i < e { LaidAt(ts, k, pos + 1, i); }
      if e < i { LaidAt(ts, r, e + 1, i); }
  }

  lemma {:induction false} EndInRange(f: Forest<Tag>, pos: nat, i: nat)
    ensures EndAt(f, pos, i).Some? ==> pos <= i < EndAt(f, pos, i).value < pos + Size(f)
  {
    match f
    case Nil =>
    case Leaf(_, r) => EndInRange(r, pos + 1, i);
    case Elem(_, k, r) => EndInRange(k, pos + 1, i); EndInRange(r, pos + 2 + Size(k), i);
  }

  lemma {:induction false} CoversAt(ts: seq<Token>, ends: map<nat, nat>, scopes: map<nat, Scope>, f: Forest<Tag>,
                                    pos: nat, scope: Scope, i: nat)
    requires Covers(ts, ends, scopes, f, pos, scope) && pos <= i < pos + Size(f)
    ensures i < |ts| && ts[i] == TokenAt(f, pos, i)
    ensures ts[i].Start? ==> i in ends && EndAt(f, pos, i) == Some(ends[i]) && i < ends[i] < pos + Size(f)
  {
    match f
    case Leaf(_, r) => if i > pos { CoversAt(ts, ends, scopes, r, pos + 1, scope, i); }
    case Elem(tag, k, r) =>
      var e := pos + 1 + Size(k);
      if pos < i < e { CoversAt(ts, ends, scopes, k, pos + 1, Inside(scope, tag.el.attrs), i); }
      if e < i { CoversAt(ts, ends, scopes, r, e + 1, scope, i); }
  }

  /** Entries sit exactly at the start tags. */
  lemma {:induction false} EntriesAtStarts(ts: seq<Token>, f: Forest<Tag>, pos: nat, scope: Scope, i: nat)
    requires Laid(ts, f, pos)
    ensures pos + Size(f) <= |ts|
    ensures EndAt(f, pos, i).Some? <==> pos <= i < pos + Size(f) && ts[i].Start?
    ensures ScopeAt(f, pos, scope, i).Some? <==> EndAt(f, pos, i).Some?
    ensures EndAt(f, pos, i).Some? ==> i < EndAt(f, pos, i).value < pos + Size(f) && ts[EndAt(f, pos, i).value].End?
  {
    match f
    case Nil =>
    case Leaf(_, r) => EntriesAtStarts(ts, r, pos + 1, scope, i);
    case Elem(tag, k, r) =>
      EntriesAtStarts(ts, k, pos + 1, Inside(scope, tag.el.attrs), i);
      EntriesAtStarts(ts, r, pos + 2 + Size(k), scope, i);
  }

  /** The tables hold the entries of `f`. */
  ghost predicate Holds(ends: map<nat, nat>, scopes: map<nat, Scope>, f: Forest<Tag>, pos: nat, scope: Scope) {
    forall i: nat :: pos <= i < pos + Size(f) && EndAt(f, pos, i).Some? ==>
      && i in ends && ends[i] == EndAt(f, pos, i).value
      && i in scopes && Some(scopes[i]) == ScopeAt(f, pos, scope, i)
  }

  /** Tables that hold a forest's entries cover it. */
  lemma {:induction false} TreeCovers(ts: seq<Token>, ends: map<nat, nat>, scopes: map<nat, Scope>, f: Forest<Tag>,
                                      pos: nat, scope: Scope)
    requires Laid(ts, f, pos) && Holds(ends, scopes, f, pos, scope)
    ensures Covers(ts, ends, scopes, f, pos, scope)
  {
    match f
    case Nil =>
    case Leaf(_, r) => TreeCovers(ts, ends, scopes, r, pos + 1, scope);
    case Elem(tag, k, r) =>
      var e := pos + 1 + Size(k);
      assert EndAt(f, pos, pos) == Some(e);
      assert forall i: nat :: pos < i < e ==> EndAt(f, pos, i) == EndAt(k, pos + 1, i);
      assert forall i: nat :: e < i ==> EndAt(f, pos, i) == EndAt(r, e + 1, i);
      TreeCovers(ts, ends, scopes, k, pos + 1, Inside(scope, tag.el.attrs));
      TreeCovers(ts, ends, scopes, r, e + 1, scope);
  }

  // ---- an element in its place ----

  /** A forest with a hole for one element. */
  datatype Ctx<T> =
    | Hole(rest: Forest<T>)
    | PastLeaf(text: Option<string>, next: Ctx<T>)
    | Past(tag: T, kids: Forest<T>, next: Ctx<T>)
    | Into(tag: T, inside: Ctx<T>, rest: Forest<T>)

  function Plug<T>(ctx: Ctx<T>, tag: T, kids: Forest<T>): Forest<T> {
    match ctx
    case Hole(r) => Elem(tag, kids, r)
    case PastLeaf(t, next) => Leaf(t, Plug(next, tag, kids))
    case Past(u, k, next) => Elem(u, k, Plug(next, tag, kids))
    case Into(u, inside, r) => Elem(u, Plug(inside, tag, kids), r)
  }

  /** What is around the hole, and nothing in it. */
  function Emptied<T>(ctx: Ctx<T>): Forest<T> {
    match ctx
    case Hole(r) => r
    case PastLeaf(t, next) => Leaf(t, Emptied(next))
    case Past(u, k, next) => Elem(u, k, Emptied(next))
    case Into(u, inside, r) => Elem(u, Emptied(inside), r)
  }

  /** The scope around the hole, as the index computes it. */
  function IndexedScope(ctx: Ctx<Tag>, scope: Scope): Scope {
    match ctx
    case Hole(_) => scope
    case PastLeaf(_, next) => IndexedScope(next, scope)
    case Past(_, _, next) => IndexedScope(next, scope)
    case Into(u, inside, _) => IndexedScope(inside, Inside(scope, u.el.attrs))
  }

  /** The index of the element in the hole. */
  function HoleAt(ctx: Ctx<Tag>, pos: nat): nat {
    match ctx
    case Hole(_) => pos
    case PastLeaf(_, next) => HoleAt(next, pos + 1)
    case Past(_, k, next) => HoleAt(next, pos + 2 + Size(k))
    case Into(_, inside, _) => HoleAt(inside, pos + 1)
  }
}
