/** The indexed token list stands for a tree: its entries and searches in terms of the tokens alone. */
module Refinement {
  import opened Text
  import opened Xml
  import opened Document
  import opened Canonicalizer
  import opened Canon
  import QName

  // ---- every balanced token list is a forest ----

  /** From index `pos` on, with `depth` elements open, every end tag closes one and all get closed. */
  predicate Balanced(ts: seq<Token>, pos: nat, depth: nat)
    decreases |ts| - pos
  {
    if pos >= |ts| then pos == |ts| && depth == 0
    else match ts[pos]
      case Start(_) => Balanced(ts, pos + 1, depth + 1)
      case End => depth > 0 && Balanced(ts, pos + 1, depth - 1)
      case _ => Balanced(ts, pos + 1, depth)
  }

  /** The source text of every start tag is at hand, and names as many attributes as were decoded. */
  ghost predicate Captured(ts: seq<Token>, raw: map<nat, string>) {
    forall i: nat :: i < |ts| && ts[i].Start? ==>
      i in raw && '<' in raw[i] && |QName.AttrNames(raw[i])| == |ts[i].el.attrs|
  }

  /** `f` is what the tokens spell from `pos` to the next unmatched end tag. */
  ghost predicate Reads(ts: seq<Token>, raw: map<nat, string>, pos: nat, depth: nat, f: Forest<Tag>) {
    && Laid(ts, f, pos) && RawNames(raw, f, pos) && AllAligned(f)
    && pos + Size(f) <= |ts| && Balanced(ts, pos + Size(f), depth)
    && (pos + Size(f) < |ts| ==> ts[pos + Size(f)].End?)
  }

  lemma {:induction false} ReadForest(ts: seq<Token>, raw: map<nat, string>, pos: nat, depth: nat)
    returns (f: Forest<Tag>)
    requires Balanced(ts, pos, depth) && Captured(ts, raw)
    ensures Reads(ts, raw, pos, depth, f)
    decreases |ts| - pos, 1
  {
    if pos == |ts| || ts[pos].End? { return Nil; }
    if ts[pos].Start? {
      f := ReadElement(ts, raw, pos, depth);
    } else {
      var r := ReadForest(ts, raw, pos + 1, depth);
      f := Leaf(if ts[pos].CharData? then Some(ts[pos].text) else None, r);
    }
  }

  lemma {:induction false} ReadElement(ts: seq<Token>, raw: map<nat, string>, pos: nat, depth: nat)
    returns (f: Forest<Tag>)
    requires pos < |ts| && ts[pos].Start? && Balanced(ts, pos, depth) && Captured(ts, raw)
    ensures Reads(ts, raw, pos, depth, f)
    decreases |ts| - pos, 0
  {
    var k := ReadForest(ts, raw, pos + 1, depth + 1);
    var r := ReadForest(ts, raw, pos + 2 + Size(k), depth);
    f := Elem(Tag(ts[pos].el, QName.TagName(raw[pos]), QName.AttrNames(raw[pos])), k, r);
    assert Size(f) == 2 + Size(k) + Size(r);
  }

  lemma {:induction false} LaidBalanced(ts: seq<Token>, f: Forest<Tag>, pos: nat, depth: nat)
    requires Laid(ts, f, pos) && pos + Size(f) <= |ts|
    ensures Balanced(ts, pos, depth) <==> Balanced(ts, pos + Size(f), depth)
    decreases f
  {
    match f
    case Nil =>
    case Leaf(_, r) => LaidBalanced(ts, r, pos + 1, depth);
    case Elem(_, k, r) =>
      EntriesAtStarts(ts, r, pos + 2 + Size(k), map[], 0);
      LaidBalanced(ts, k, pos + 1, depth + 1);
      LaidBalanced(ts, r, pos + 2 + Size(k), depth);
  }

  /** A captured token list is balanced exactly when it is the token list of a forest. */
  lemma {:induction false} BalancedIsForest(ts: seq<Token>, raw: map<nat, string>)
    requires Captured(ts, raw)
    ensures Balanced(ts, 0, 0) <==>
            exists f: Forest<Tag> :: Laid(ts, f, 0) && Size(f) == |ts| && RawNames(raw, f, 0) && AllAligned(f)
  {
    if Balanced(ts, 0, 0) {
      var f := ReadForest(ts, raw, 0, 0);
    }
    if f: Forest<Tag> :| Laid(ts, f, 0) && Size(f) == |ts| && RawNames(raw, f, 0) && AllAligned(f) {
      LaidBalanced(ts, f, 0, 0);
    }
  }

  // ---- scopes ----

  /** The element starting at `a` is open at index `i`. */
  ghost predicate Encloses(f: Forest<Tag>, pos: nat, a: nat, i: nat) {
    EndAt(f, pos, a).Some? && a < i <= EndAt(f, pos, a).value
  }

  predicate Declares(attrs: seq<Attr>, p: string) {
    exists k :: 0 <= k < |attrs| && IsDeclaration(attrs[k]) && DeclaredPrefix(attrs[k]) == p
  }

  /** What the last declaration of a prefix in a tag binds it to. */
  function DeclaredUri(attrs: seq<Attr>, p: string): string {
    if attrs == [] then ""
    else
      var a := attrs[|attrs| - 1];
      if IsDeclaration(a) && DeclaredPrefix(a) == p then a.value else DeclaredUri(attrs[..|attrs| - 1], p)
  }

  lemma {:induction false} InsideSnoc(scope: Scope, attrs: seq<Attr>, a: Attr)
    ensures Inside(scope, attrs + [a]) ==
            if IsDeclaration(a) then Inside(scope, attrs)[DeclaredPrefix(a) := a.value] else Inside(scope, attrs)
    decreases |attrs|
  {
    if attrs == [] {
      assert attrs + [a] == [a];
    } else {
      assert (attrs + [a])[1..] == attrs[1..] + [a];
      var b := attrs[0];
      InsideSnoc(if IsDeclaration(b) then scope[DeclaredPrefix(b) := b.value] else scope, attrs[1..], a);
    }
  }

  lemma {:induction false} InsideLast(scope: Scope, attrs: seq<Attr>, p: string)
    ensures Declares(attrs, p) ==> p in Inside(scope, attrs) && Inside(scope, attrs)[p] == DeclaredUri(attrs, p)
    ensures !Declares(attrs, p) ==>
            (p in Inside(scope, attrs) <==> p in scope) && (p in scope ==> Inside(scope, attrs)[p] == scope[p])
    decreases |attrs|
  {
    if attrs != [] {
      var n := |attrs| - 1;
      var init, a := attrs[..n], attrs[n];
      assert attrs == init + [a];
      InsideSnoc(scope, init, a);
      InsideLast(scope, init, p);
      if Declares(init, p) {
        var k :| 0 <= k < |init| && IsDeclaration(init[k]) && DeclaredPrefix(init[k]) == p;
        assert attrs[k] == init[k];
      }
      if Declares(attrs, p) {
        var k :| 0 <= k < |attrs| && IsDeclaration(attrs[k]) && DeclaredPrefix(attrs[k]) == p;
        assert k == n || init[k] == attrs[k];
      }
    }
  }

  /** Which elements are open at `i`, level by level. */
  lemma {:induction false} EnclosersOf(ts: seq<Token>, tag: Tag, k: Forest<Tag>, r: Forest<Tag>, pos: nat, inside: nat,
                                       after: nat, i: nat)
    requires Laid(ts, Elem(tag, k, r), pos) && inside == pos + 1 && after == pos + 2 + Size(k)
    ensures i <= pos ==> forall b: nat :: !Encloses(Elem(tag, k, r), pos, b, i)
    ensures pos < i < after ==>
              forall b: nat :: Encloses(Elem(tag, k, r), pos, b, i) <==> b == pos || Encloses(k, inside, b, i)
    ensures after <= i ==>
              forall b: nat :: Encloses(Elem(tag, k, r), pos, b, i) <==> Encloses(r, after, b, i)
    ensures forall b: nat :: Encloses(k, inside, b, i) ==> pos < b
  {
    forall b: nat
      ensures EndAt(k, inside, b).Some? ==> pos < b < EndAt(k, inside, b).value < pos + 1 + Size(k)
      ensures EndAt(r, after, b).Some? ==> pos + 1 + Size(k) < b < EndAt(r, after, b).value
      ensures EndAt(Elem(tag, k, r), pos, b).Some? ==> pos <= b
    {
      EntriesAtStarts(ts, k, inside, map[], b);
      EntriesAtStarts(ts, r, after, map[], b);
      EntriesAtStarts(ts, Elem(tag, k, r), pos, map[], b);
    }
  }

  lemma {:induction false} EnclosersRest(t: Option<string>, r: Forest<Tag>, pos: nat, after: nat, i: nat)
    requires after == pos + 1
    ensures forall b: nat :: Encloses(Leaf(t, r), pos, b, i) <==> Encloses(r, after, b, i)
  {
  }

  /** No element open at `i` that starts after `after` declares the prefix. */
  ghost predicate NoneDeclares(ts: seq<Token>, f: Forest<Tag>, pos: nat, i: nat, p: string, after: int) {
    forall b: nat :: after < b && Encloses(f, pos, b, i) ==> b < |ts| && ts[b].Start? && !Declares(ts[b].el.attrs, p)
  }

  lemma {:induction false} NoneDeclared(ts: seq<Token>, f: Forest<Tag>, pos: nat, scope: Scope, i: nat, p: string)
    requires Laid(ts, f, pos) && NoneDeclares(ts, f, pos, i, p, -1)
    ensures p in CurrentAt(f, pos, scope, i) <==> p in scope
    ensures p in scope ==> CurrentAt(f, pos, scope, i)[p] == scope[p]
    decreases f
  {
    match f
    case Nil =>
    case Leaf(t, r) =>
      EnclosersRest(t, r, pos, pos + 1, i);
      NoneDeclared(ts, r, pos + 1, scope, i, p);
    case Elem(tag, k, r) =>
      var e := pos + 1 + Size(k);
      EnclosersOf(ts, tag, k, r, pos, pos + 1, pos + 2 + Size(k), i);
      if pos < i <= e {
        assert Encloses(f, pos, pos, i);
        InsideLast(scope, tag.el.attrs, p);
        NoneDeclared(ts, k, pos + 1, Inside(scope, tag.el.attrs), i, p);
      } else if e < i {
        NoneDeclared(ts, r, e + 1, scope, i, p);
      }
  }

  lemma {:induction false} NearestDeclares(ts: seq<Token>, f: Forest<Tag>, pos: nat, scope: Scope, i: nat, p: string,
                                           a: nat)
    requires Laid(ts, f, pos) && Encloses(f, pos, a, i) && NoneDeclares(ts, f, pos, i, p, a)
    requires a < |ts| && ts[a].Start? && Declares(ts[a].el.attrs, p)
    ensures p in CurrentAt(f, pos, scope, i) && CurrentAt(f, pos, scope, i)[p] == DeclaredUri(ts[a].el.attrs, p)
    decreases f
  {
    match f
    case Leaf(t, r) =>
      EnclosersRest(t, r, pos, pos + 1, i);
      NearestDeclares(ts, r, pos + 1, scope, i, p, a);
    case Elem(tag, k, r) =>
      var e := pos + 1 + Size(k);
      EnclosersOf(ts, tag, k, r, pos, pos + 1, pos + 2 + Size(k), i);
      if e < i {
        NearestDeclares(ts, r, e + 1, scope, i, p, a);
      } else if a == pos {
        InsideLast(scope, tag.el.attrs, p);
        NoneDeclared(ts, k, pos + 1, Inside(scope, tag.el.attrs), i, p);
      } else {
        NearestDeclares(ts, k, pos + 1, Inside(scope, tag.el.attrs), i, p, a);
      }
  }

  /** The scope recorded at a start tag is, prefix by prefix, the declaration of the innermost open
      element that declares it; nothing else is in it. */
  lemma {:induction false} InnermostWins(ts: seq<Token>, f: Forest<Tag>, i: nat, p: string)
    requires Laid(ts, f, 0) && Size(f) == |ts| && i < |ts| && ts[i].Start?
    ensures ScopeAt(f, 0, map[], i).Some?
    ensures NoneDeclares(ts, f, 0, i, p, -1) ==> p !in ScopeAt(f, 0, map[], i).value
    ensures
      forall a: nat ::
        && Encloses(f, 0, a, i) && a < |ts| && ts[a].Start? && Declares(ts[a].el.attrs, p)
        && NoneDeclares(ts, f, 0, i, p, a) ==>
        p in ScopeAt(f, 0, map[], i).value && ScopeAt(f, 0, map[], i).value[p] == DeclaredUri(ts[a].el.attrs, p)
  {
    LaidAt(ts, f, 0, i);
    StepStart(f, 0, map[], i);
    if NoneDeclares(ts, f, 0, i, p, -1) { NoneDeclared(ts, f, 0, map[], i, p); }
    forall a: nat | Encloses(f, 0, a, i) && a < |ts| && ts[a].Start? && Declares(ts[a].el.attrs, p)
        && NoneDeclares(ts, f, 0, i, p, a)
      ensures p in ScopeAt(f, 0, map[], i).value && ScopeAt(f, 0, map[], i).value[p] == DeclaredUri(ts[a].el.attrs, p)
    {
      NearestDeclares(ts, f, 0, map[], i, p, a);
    }
  }

  // ---- searches ----

  /** `c` is the start of a child: an element with no element of `f` open around it. */
  ghost predicate IsChild(f: Forest<Tag>, pos: nat, c: nat) {
    EndAt(f, pos, c).Some? && forall b: nat :: !Encloses(f, pos, b, c)
  }

  /** The search for a child finds the first child with that name, and finds one if there is any. */
  lemma {:induction false} FirstChildIsFirst(ts: seq<Token>, f: Forest<Tag>, pos: nat, scope: Scope, space: string,
                                             local: string, c: nat)
    requires Laid(ts, f, pos) && IsChild(f, pos, c)
    ensures c < |ts| && ts[c].Start?
    ensures Named(ts[c].el, space, local) ==>
              FirstChild(f, pos, scope, space, local).Some? && FirstChild(f, pos, scope, space, local).value.pos <= c
    ensures var r := FirstChild(f, pos, scope, space, local);
            r.Some? && r.value.pos == c ==> Named(ts[c].el, space, local) && EndAt(f, pos, c) == Some(EndOf(r.value))
    decreases f
  {
    EntriesAtStarts(ts, f, pos, scope, c);
    match f
    case Leaf(t, r) =>
      EnclosersRest(t, r, pos, pos + 1, c);
      FirstChildIsFirst(ts, r, pos + 1, scope, space, local, c);
    case Elem(tag, k, r) =>
      var e := pos + 1 + Size(k);
      EnclosersOf(ts, tag, k, r, pos, pos + 1, pos + 2 + Size(k), c);
      assert c == pos || e < c by { assert pos < c <= e ==> Encloses(f, pos, pos, c); }
      if c != pos { FirstChildIsFirst(ts, r, e + 1, scope, space, local, c); }
      else if !Named(tag.el, space, local) { FoundAfter(ts, r, e + 1, scope, space, local); }
  }

  lemma {:induction false} FoundAfter(ts: seq<Token>, f: Forest<Tag>, pos: nat, scope: Scope, space: string,
                                      local: string)
    requires Laid(ts, f, pos)
    ensures var r := FirstChild(f, pos, scope, space, local);
            r.Some? ==> pos <= r.value.pos && IsChild(f, pos, r.value.pos)
    decreases f
  {
    match f
    case Nil =>
    case Leaf(t, r) =>
      FoundAfter(ts, r, pos + 1, scope, space, local);
      var c := FirstChild(r, pos + 1, scope, space, local);
      if c.Some? { EnclosersRest(t, r, pos, pos + 1, c.value.pos); }
    case Elem(tag, k, r) =>
      FoundAfter(ts, r, pos + 2 + Size(k), scope, space, local);
      EnclosersOf(ts, tag, k, r, pos, pos + 1, pos + 2 + Size(k), pos);
      var c := FirstChild(r, pos + 2 + Size(k), scope, space, local);
      if c.Some? { EnclosersOf(ts, tag, k, r, pos, pos + 1, pos + 2 + Size(k), c.value.pos); }
  }

  ghost predicate Matches(ts: seq<Token>, j: nat, space: string, local: string) {
    j < |ts| && ts[j].Start? && NamedLoosely(ts[j].el, space, local)
  }

  /** A matching element of `f` with no matching element of `f` open around it. */
  ghost predicate IsOutermost(ts: seq<Token>, f: Forest<Tag>, pos: nat, j: nat, space: string, local: string) {
    && EndAt(f, pos, j).Some? && Matches(ts, j, space, local)
    && forall b: nat :: Encloses(f, pos, b, j) ==> !Matches(ts, b, space, local)
  }

  ghost predicate Found(ns: seq<Node>, j: nat) { exists d :: 0 <= d < |ns| && ns[d].pos == j }

  lemma {:induction false} FoundConcat(a: seq<Node>, b: seq<Node>, j: nat)
    ensures Found(a + b, j) <==> Found(a, j) || Found(b, j)
  {
    var c := a + b;
    if d :| 0 <= d < |a| && a[d].pos == j { assert c[d].pos == j; }
    if d :| 0 <= d < |b| && b[d].pos == j { assert c[|a| + d].pos == j; }
    if d :| 0 <= d < |c| && c[d].pos == j { assert d < |a| ==> a[d].pos == j; assert d >= |a| ==> b[d - |a|].pos == j; }
  }

  /** The search for descendants reports exactly the outermost matches. */
  lemma {:induction false} OutermostExactly(ts: seq<Token>, f: Forest<Tag>, pos: nat, scope: Scope, space: string,
                                            local: string, j: nat)
    requires Laid(ts, f, pos)
    ensures Found(Outermost(f, pos, scope, space, local), j) <==> IsOutermost(ts, f, pos, j, space, local)
    decreases f
  {
    match f
    case Nil =>
    case Leaf(t, r) =>
      EnclosersRest(t, r, pos, pos + 1, j);
      OutermostExactly(ts, r, pos + 1, scope, space, local, j);
    case Elem(tag, k, r) =>
      var inside, after := pos + 1, pos + 2 + Size(k);
      var inner := Inside(scope, tag.el.attrs);
      EnclosersOf(ts, tag, k, r, pos, inside, after, j);
      EntriesAtStarts(ts, k, inside, inner, j);
      EntriesAtStarts(ts, r, after, scope, j);
      OutermostExactly(ts, k, inside, inner, space, local, j);
      OutermostExactly(ts, r, after, scope, space, local, j);
      OutermostElement(ts, tag, k, r, pos, inside, after, scope, space, local, j);
  }

  lemma {:induction false} OutermostElement(ts: seq<Token>, tag: Tag, k: Forest<Tag>, r: Forest<Tag>, pos: nat,
                                            inside: nat, after: nat, scope: Scope, space: string, local: string, j: nat)
    requires Laid(ts, Elem(tag, k, r), pos) && inside == pos + 1 && after == pos + 2 + Size(k)
    requires Found(Outermost(k, inside, Inside(scope, tag.el.attrs), space, local), j) <==>
             IsOutermost(ts, k, inside, j, space, local)
    requires Found(Outermost(r, after, scope, space, local), j) <==> IsOutermost(ts, r, after, j, space, local)
    ensures Found(Outermost(Elem(tag, k, r), pos, scope, space, local), j) <==>
            IsOutermost(ts, Elem(tag, k, r), pos, j, space, local)
  {
    var here := [Node(pos, tag, k, scope)];
    var below := Outermost(k, inside, Inside(scope, tag.el.attrs), space, local);
    var rest := Outermost(r, after, scope, space, local);
    EnclosersOf(ts, tag, k, r, pos, inside, after, j);
    EntriesAtStarts(ts, k, inside, map[], j);
    EntriesAtStarts(ts, r, after, map[], j);
    FoundConcat(if NamedLoosely(tag.el, space, local) then here else below, rest, j);
    assert Found(here, j) <==> j == pos by { if j == pos { assert here[0].pos == j; } }
    assert Matches(ts, pos, space, local) <==> NamedLoosely(tag.el, space, local);
    if pos < j < after - 1 { assert Encloses(Elem(tag, k, r), pos, pos, j); }
  }

  /** The nodes lie one after the other between two indices. */
  ghost predicate InOrder(ns: seq<Node>, from: nat, to: nat) {
    && (forall d :: 0 <= d < |ns| ==> from <= ns[d].pos && EndOf(ns[d]) < to)
    && (forall c, d :: 0 <= c < d < |ns| ==> EndOf(ns[c]) < ns[d].pos)
  }

  lemma {:induction false} InOrderConcat(a: seq<Node>, b: seq<Node>, from: nat, mid: nat, to: nat)
    requires InOrder(a, from, mid) && InOrder(b, mid, to) && from <= mid <= to
    ensures InOrder(a + b, from, to)
  {
    var ns := a + b;
    forall c, d | 0 <= c < d < |ns| ensures EndOf(ns[c]) < ns[d].pos {
      if c < |a| <= d { assert EndOf(a[c]) < mid <= b[d - |a|].pos; }
    }
  }

  lemma {:induction false} ElementInOrder(n: Node, named: bool, below: seq<Node>, rest: seq<Node>, to: nat)
    requires InOrder(below, n.pos + 1, n.pos + 1 + Size(n.kids)) && InOrder(rest, n.pos + 2 + Size(n.kids), to)
    requires n.pos + 2 + Size(n.kids) <= to
    ensures InOrder((if named then [n] else below) + rest, n.pos, to)
  {
    InOrderConcat(if named then [n] else below, rest, n.pos, n.pos + 2 + Size(n.kids), to);
  }

  /** And reports them in document order. */
  lemma {:induction false} OutermostInOrder(f: Forest<Tag>, pos: nat, scope: Scope, space: string, local: string)
    ensures InOrder(Outermost(f, pos, scope, space, local), pos, pos + Size(f))
    decreases f
  {
    match f
    case Nil =>
    case Leaf(_, r) => OutermostInOrder(r, pos + 1, scope, space, local);
    case Elem(tag, k, r) =>
      var inner, after := Inside(scope, tag.el.attrs), pos + 2 + Size(k);
      OutermostInOrder(k, pos + 1, inner, space, local);
      OutermostInOrder(r, after, scope, space, local);
      ElementInOrder(Node(pos, tag, k, scope), NamedLoosely(tag.el, space, local),
                     Outermost(k, pos + 1, inner, space, local), Outermost(r, after, scope, space, local),
                     pos + Size(f));
  }

  // ---- the root, the text and the attributes that are read ----

  /** The root is the first start tag and runs to its own end tag. */
  lemma {:induction false} RootIsFirst(ts: seq<Token>, f: Forest<Tag>, pos: nat)
    requires Laid(ts, f, pos)
    ensures Root(f, pos).None? ==> forall i :: pos <= i < pos + Size(f) ==> i < |ts| && !ts[i].Start?
    ensures Root(f, pos).Some? ==>
      var n := Root(f, pos).value;
      && pos <= n.pos < |ts| && ts[n.pos] == Start(n.tag.el) && EndAt(f, pos, n.pos) == Some(EndOf(n))
      && forall i :: pos <= i < n.pos ==> !ts[i].Start?
  {
    match f
    case Nil =>
    case Leaf(_, r) =>
      RootIsFirst(ts, r, pos + 1);
      EntriesAtStarts(ts, r, pos + 1, map[], pos);
    case Elem(_, _, _) =>
  }

  /** The character data between two indices, token by token. */
  function DataBetween(ts: seq<Token>, from: nat, to: nat): string
    requires from <= to <= |ts|
    decreases |ts| - from
  {
    if from == to then ""
    else (if ts[from].CharData? then ts[from].text else "") + DataBetween(ts, from + 1, to)
  }

  lemma {:induction false} DataJoined(ts: seq<Token>, from: nat, mid: nat, to: nat)
    requires from <= mid <= to <= |ts|
    ensures DataBetween(ts, from, to) == DataBetween(ts, from, mid) + DataBetween(ts, mid, to)
    decreases |ts| - from
  {
    if from < mid {
      DataJoined(ts, from + 1, mid, to);
      Regroup(if ts[from].CharData? then ts[from].text else "", DataBetween(ts, from + 1, mid),
              DataBetween(ts, mid, to));
    }
  }

  /** The text of a tree is the character data of its tokens, in order; comments and tags add nothing. */
  lemma {:induction false} TextIsData(ts: seq<Token>, f: Forest<Tag>, pos: nat)
    requires Laid(ts, f, pos)
    ensures pos + Size(f) <= |ts| && TextOf(f) == DataBetween(ts, pos, pos + Size(f))
    decreases f
  {
    match f
    case Nil =>
    case Leaf(_, r) => TextIsData(ts, r, pos + 1);
    case Elem(_, k, r) =>
      var e := pos + 1 + Size(k);
      TextIsData(ts, k, pos + 1);
      TextIsData(ts, r, e + 1);
      DataJoined(ts, pos + 1, e, e + 1 + Size(r));
  }

  /** An attribute is looked up by its local name, and the first of that name is found. */
  lemma {:induction false} FirstAttribute(attrs: seq<Attr>, local: string)
    ensures AttrValue(attrs, local).None? <==> forall i :: 0 <= i < |attrs| ==> attrs[i].local != local
    ensures forall i :: 0 <= i < |attrs| && attrs[i].local == local
                        && (forall j :: 0 <= j < i ==> attrs[j].local != local)
                        ==> AttrValue(attrs, local) == Some(attrs[i].value)
  {
    if attrs != [] && attrs[0].local != local {
      FirstAttribute(attrs[1..], local);
      assert forall i :: 0 < i < |attrs| ==> attrs[i] == attrs[1..][i - 1];
      forall i | 0 <= i < |attrs| && attrs[i].local == local && (forall j :: 0 <= j < i ==> attrs[j].local != local)
        ensures AttrValue(attrs, local) == Some(attrs[i].value)
      {
        assert attrs[1..][i - 1].local == local && forall j :: 0 <= j < i - 1 ==> attrs[1..][j] == attrs[j + 1];
      }
    }
  }
}
