/** The canonicalizer as it runs: over token indices, appending to an output buffer. */
module Canonicalizer {
  import opened Text
  import opened Order
  import opened Escape
  import opened Xml
  import opened Document
  import opened Canon
  import QName

  const MAX_DEPTH: nat := 256

  // ---- what is rendered ----

  /** `f` without the elements whose start index is excluded. */
  function Prune(f: Forest<Tag>, pos: nat, exclude: set<nat>): Forest<Tag> {
    match f
    case Nil => Nil
    case Leaf(t, r) => Leaf(t, Prune(r, pos + 1, exclude))
    case Elem(tag, k, r) =>
      var r' := Prune(r, pos + 2 + Size(k), exclude);
      if pos in exclude then r' else Elem(tag, Prune(k, pos + 1, exclude), r')
  }

  /** How many levels of elements there are. */
  function Height<T>(f: Forest<T>): nat {
    match f
    case Nil => 0
    case Leaf(_, r) => Height(r)
    case Elem(_, k, r) => if 1 + Height(k) > Height(r) then 1 + Height(k) else Height(r)
  }

  /** Some element lies `level` levels below the top. */
  predicate ElementAt(f: Forest<Tag>, level: nat) {
    match f
    case Nil => false
    case Leaf(_, r) => ElementAt(r, level)
    case Elem(_, k, r) => level == 0 || ElementAt(k, level - 1) || ElementAt(r, level)
  }

  /** Some element lies more than 256 levels below the top. */
  ghost predicate HasElementBelow(f: Forest<Tag>) { exists level: nat :: level > 256 && ElementAt(f, level) }

  lemma {:induction false} HeightIsDepth(f: Forest<Tag>, level: nat)
    ensures ElementAt(f, level) <==> level < Height(f)
  {
    match f
    case Nil =>
    case Leaf(_, r) => HeightIsDepth(r, level);
    case Elem(_, k, r) =>
      if level > 0 { HeightIsDepth(k, level - 1); }
      HeightIsDepth(r, level);
  }

  lemma {:induction false} PruneAligned(f: Forest<Tag>, pos: nat, exclude: set<nat>)
    requires AllAligned(f)
    ensures AllAligned(Prune(f, pos, exclude))
  {
    match f
    case Nil =>
    case Leaf(_, r) => PruneAligned(r, pos + 1, exclude);
    case Elem(_, k, r) => PruneAligned(k, pos + 1, exclude); PruneAligned(r, pos + 2 + Size(k), exclude);
  }

  lemma {:induction false} PruneAbove(f: Forest<Tag>, pos: nat, exclude: set<nat>)
    requires forall p :: p in exclude ==> p < pos || pos + Size(f) <= p
    ensures Prune(f, pos, exclude) == f
  {
    match f
    case Nil =>
    case Leaf(_, r) => PruneAbove(r, pos + 1, exclude);
    case Elem(_, k, r) => PruneAbove(k, pos + 1, exclude); PruneAbove(r, pos + 2 + Size(k), exclude);
  }

  lemma {:induction false} HoleInside(ctx: Ctx<Tag>, tag: Tag, kids: Forest<Tag>, pos: nat)
    ensures pos <= HoleAt(ctx, pos) && HoleAt(ctx, pos) + 1 + Size(kids) < pos + Size(Plug(ctx, tag, kids))
  {
    match ctx
    case Hole(_) =>
    case PastLeaf(_, next) => HoleInside(next, tag, kids, pos + 1);
    case Past(_, k, next) => HoleInside(next, tag, kids, pos + 2 + Size(k));
    case Into(_, inside, _) => HoleInside(inside, tag, kids, pos + 1);
  }

  /** Leaving out the element at one index leaves everything around it as it is. */
  lemma {:induction false} CutOut(ctx: Ctx<Tag>, tag: Tag, kids: Forest<Tag>, pos: nat)
    ensures Prune(Plug(ctx, tag, kids), pos, {HoleAt(ctx, pos)}) == Emptied(ctx)
  {
    match ctx
    case Hole(r) => PruneAbove(r, pos + 2 + Size(kids), {pos});
    case PastLeaf(_, next) => CutOut(next, tag, kids, pos + 1);
    case Past(_, k, next) =>
      var after := pos + 2 + Size(k);
      HoleInside(next, tag, kids, after);
      PruneAbove(k, pos + 1, {HoleAt(next, after)});
      CutOut(next, tag, kids, after);
    case Into(_, inside, r) =>
      var hole, filled := HoleAt(inside, pos + 1), Plug(inside, tag, kids);
      HoleInside(inside, tag, kids, pos + 1);
      PruneAbove(r, pos + 2 + Size(filled), {hole});
      CutOut(inside, tag, kids, pos + 1);
  }

  /** Every start tag has its source text, and the text holds the literal names. */
  ghost predicate RawNames(raw: map<nat, string>, f: Forest<Tag>, pos: nat) {
    match f
    case Nil => true
    case Leaf(_, r) => RawNames(raw, r, pos + 1)
    case Elem(tag, k, r) =>
      && pos in raw && '<' in raw[pos] && QName.TagName(raw[pos]) == tag.name
      && QName.AttrNames(raw[pos]) == tag.attrNames
      && RawNames(raw, k, pos + 1) && RawNames(raw, r, pos + 2 + Size(k))
  }

  lemma {:induction false} PrintThen(m: Meaning, rendered: Scope, tail: string)
    ensures Print(m, rendered, tail) == Print(m, rendered, "") + tail
  {
    match m
    case MNil =>
    case MText(_, r) => PrintThen(r, rendered, tail);
    case MElem(name, uses, attrs, k, r) =>
      var below := RenderedBelow(uses, rendered);
      PrintThen(r, rendered, tail);
      PrintThen(k, below, CloseTag(name, Print(r, rendered, tail)));
      PrintThen(k, below, CloseTag(name, Print(r, rendered, "")));
      ElementThen(name, uses, attrs, rendered, Print(k, below, ""), Print(r, rendered, ""), tail);
  }

  lemma {:induction false} ElementThen(name: string, uses: map<string, string>, attrs: seq<Pair>, rendered: Scope,
                                       body: string, rest: string, tail: string)
    ensures OpenTag(name, uses, attrs, rendered, body + CloseTag(name, rest + tail)) ==
            OpenTag(name, uses, attrs, rendered, body + CloseTag(name, rest)) + tail
  {
    assert body + CloseTag(name, rest + tail) == (body + CloseTag(name, rest)) + tail;
    OpenTagThen(name, uses, attrs, rendered, body + CloseTag(name, rest), tail);
  }

  lemma {:induction false} CanonicalThen(f: Forest<Tag>, scope: Scope, rendered: Scope, tail: string)
    requires AllAligned(f)
    ensures Canonical(f, scope, rendered, tail) == Canonical(f, scope, rendered, "") + tail
  {
    CanonicalPrints(f, scope, rendered, tail);
    CanonicalPrints(f, scope, rendered, "");
    PrintThen(MeaningOf(f, scope), rendered, tail);
  }

  lemma {:induction false} PairsThenTail(pairs: seq<Pair>, x: string, tail: string)
    ensures PairsThen(pairs, x + tail) == PairsThen(pairs, x) + tail
  {
    if pairs != [] { PairsThenTail(pairs[1..], x, tail); }
  }

  lemma {:induction false} PairsThenConcat(a: seq<Pair>, b: seq<Pair>, tail: string)
    ensures PairsThen(a + b, tail) == PairsThen(a, PairsThen(b, tail))
  {
    if a == [] { assert a + b == b; }
    else { assert (a + b)[1..] == a[1..] + b; PairsThenConcat(a[1..], b, tail); }
  }

  lemma {:induction false} OpenTagThen(name: string, uses: map<string, string>, attrs: seq<Pair>, rendered: Scope,
                                       x: string, tail: string)
    ensures OpenTag(name, uses, attrs, rendered, x + tail) == OpenTag(name, uses, attrs, rendered, x) + tail
  {
    var pairs := DeclPairs(uses, rendered) + attrs;
    assert ">" + (x + tail) == (">" + x) + tail;
    PairsThenTail(pairs, ">" + x, tail);
  }

  // ---- one start tag ----

  function DeclItem(prefix: string, inner: Scope): Item { Item(prefix, "", XmlnsName(prefix), Lookup(inner, prefix)) }

  predicate Bound(rendered: Scope, p: string, inner: Scope) { p in rendered && rendered[p] == Lookup(inner, p) }

  /** `needed` lists, once each, the declarations that the prefixes seen so far call for. */
  ghost predicate Lists(needed: seq<Item>, seen: set<string>, inner: Scope, rendered: Scope) {
    && (forall i :: 0 <= i < |needed| ==> needed[i] == DeclItem(needed[i].major, inner))
    && (forall i :: 0 <= i < |needed| ==> needed[i].major in seen)
    && (forall i :: 0 <= i < |needed| ==> !Bound(rendered, needed[i].major, inner))
    && (forall i, j :: 0 <= i < j < |needed| ==> needed[i].major != needed[j].major)
    && (forall p :: p in seen && !Bound(rendered, p, inner) ==> DeclItem(p, inner) in needed)
  }

  method AddIfNeeded(prefix: string, inner: Scope, rendered: Scope, seen: set<string>, needed: seq<Item>)
    returns (seen': set<string>, needed': seq<Item>)
    requires Lists(needed, seen, inner, rendered)
    ensures seen' == seen + {prefix} && Lists(needed', seen', inner, rendered)
  {
    if prefix in seen {
      return seen, needed;
    }
    seen' := seen + {prefix};
    var uri := Lookup(inner, prefix);
    if prefix in rendered && rendered[prefix] == uri {
      return seen', needed;
    }
    needed' := needed + [Item(prefix, "", XmlnsName(prefix), uri)];
    assert forall i :: 0 <= i < |needed| ==> needed'[i] == needed[i];
    assert needed'[|needed|] in needed';
  }

  method CollectNeeded(prefix: string, attrs: seq<Attr>, names: seq<string>, inner: Scope, rendered: Scope)
    returns (needed: seq<Item>)
    requires |attrs| == |names|
    ensures Lists(needed, {prefix} + PlainPrefixes(attrs, names), inner, rendered)
  {
    var seen;
    seen, needed := AddIfNeeded(prefix, inner, rendered, {}, []);
    for i := 0 to |attrs|
      invariant seen + PlainPrefixes(attrs[i..], names[i..]) == {prefix} + PlainPrefixes(attrs, names)
      invariant Lists(needed, seen, inner, rendered)
    {
      assert attrs[i..][1..] == attrs[i + 1..] && names[i..][1..] == names[i + 1..];
      if !IsDeclaration(attrs[i]) {
        var p := Prefix(names[i]);
        if p != "" {
          seen, needed := AddIfNeeded(p, inner, rendered, seen, needed);
        }
      }
    }
  }

  lemma {:induction false} ListedMajor(needed: seq<Item>, seen: set<string>, inner: Scope, rendered: Scope, p: string)
    requires Lists(needed, seen, inner, rendered)
    ensures DeclItem(p, inner) in needed <==> p in seen && !Bound(rendered, p, inner)
  {
  }

  /** Sorted by prefix, the collected declarations are the ones canonical text calls for. */
  lemma {:induction false} SortedDeclarations(tag: Tag, needed: seq<Item>, inner: Scope, rendered: Scope)
    requires Aligned(tag) && Lists(needed, TagUses(tag), inner, rendered)
    ensures Pairs(Sort(needed)) == DeclPairs(Uses(tag, inner), rendered)
    ensures forall p :: p in Needed(Uses(tag, inner), rendered) <==> DeclItem(p, inner) in needed
  {
    var uses := Uses(tag, inner);
    var sorted := Sort(needed);
    SortIncreasing(needed);
    forall p ensures p in Needed(uses, rendered) <==> DeclItem(p, inner) in needed {
      ListedMajor(needed, TagUses(tag), inner, rendered, p);
    }
    var prefixes := seq(|sorted|, i requires 0 <= i < |sorted| => sorted[i].major);
    forall i | 0 <= i < |sorted|
      ensures sorted[i] == DeclItem(prefixes[i], inner) && prefixes[i] in Needed(uses, rendered)
    {
      assert sorted[i] in sorted;
      MemberOfSorted(needed, sorted[i]);
    }
    forall i, j | 0 <= i < j < |prefixes| ensures Less(prefixes[i], prefixes[j]) {
      assert Before(sorted[i], sorted[j]);
      LessIrreflexive("");
    }
    forall p ensures p in prefixes <==> p in Needed(uses, rendered) {
      if p in Needed(uses, rendered) {
        MemberOfSorted(needed, DeclItem(p, inner));
        var i :| 0 <= i < |sorted| && sorted[i] == DeclItem(p, inner);
        assert prefixes[i] == p;
      }
    }
    ListingUnique(prefixes, Needed(uses, rendered));
    PairsOfDecls(sorted, prefixes, uses, inner);
  }

  lemma {:induction false} PairsOfDecls(items: seq<Item>, prefixes: seq<string>, uses: map<string, string>,
                                        inner: Scope)
    requires |items| == |prefixes|
    requires forall i :: 0 <= i < |items| ==> items[i] == DeclItem(prefixes[i], inner)
    requires forall p :: p in prefixes ==> p in uses && uses[p] == Lookup(inner, p)
    ensures Pairs(items) == Declarations(prefixes, uses)
  {
    if items != [] {
      assert prefixes[0] in prefixes;
      PairsOfDecls(items[1..], prefixes[1..], uses, inner);
    }
  }

  lemma {:induction false} ItemsStep(attrs: seq<Attr>, names: seq<string>, inner: Scope, i: nat)
    requires |attrs| == |names| && i < |attrs|
    ensures Items(attrs[i..], names[i..], inner) ==
            (if IsDeclaration(attrs[i]) then [] else [AttrItem(names[i], attrs[i].value, inner)])
                + Items(attrs[i + 1..], names[i + 1..], inner)
  {
    assert attrs[i..][1..] == attrs[i + 1..] && names[i..][1..] == names[i + 1..];
  }

  method CollectAttrs(attrs: seq<Attr>, names: seq<string>, inner: Scope) returns (out: seq<Item>)
    requires |attrs| == |names|
    ensures out == Items(attrs, names, inner)
  {
    out := [];
    for i := 0 to |attrs|
      invariant out + Items(attrs[i..], names[i..], inner) == Items(attrs, names, inner)
    {
      ItemsStep(attrs, names, inner, i);
      if !IsDeclaration(attrs[i]) {
        Regroup(out, [AttrItem(names[i], attrs[i].value, inner)], Items(attrs[i + 1..], names[i + 1..], inner));
        out := out + [AttrItem(names[i], attrs[i].value, inner)];
      }
    }
  }

  method WriteItems(items: seq<Item>) returns (text: string)
    ensures text == PairsThen(Pairs(items), "")
  {
    text := "";
    for i := 0 to |items|
      invariant text + PairsThen(Pairs(items[i..]), "") == PairsThen(Pairs(items), "")
    {
      ItemText(items, i);
      var value := EscapeLoop(items[i].value, true);
      var item := " " + items[i].name + "=\"" + value + "\"";
      Regroup(text, item, PairsThen(Pairs(items[i + 1..]), ""));
      text := text + item;
    }
  }

  lemma {:induction false} ItemText(items: seq<Item>, i: nat)
    requires i < |items|
    ensures PairsThen(Pairs(items[i..]), "") ==
            (" " + items[i].name + "=\"" + Escaped(items[i].value, true) + "\"") + PairsThen(Pairs(items[i + 1..]), "")
  {
    assert items[i..][0] == items[i] && items[i..][1..] == items[i + 1..];
  }

  method WriteDeclarations(tag: Tag, inner: Scope, rendered: Scope) returns (text: string, newRendered: Scope)
    requires Aligned(tag)
    ensures text == PairsThen(DeclPairs(Uses(tag, inner), rendered), "")
    ensures newRendered == RenderedBelow(Uses(tag, inner), rendered)
  {
    var needed := CollectNeeded(Prefix(tag.name), tag.el.attrs, tag.attrNames, inner, rendered);
    SortedDeclarations(tag, needed, inner, rendered);
    newRendered := Record(needed, rendered);
    WrittenAll(tag, needed, inner, rendered);
    text := WriteItems(Sort(needed));
  }

  method Record(needed: seq<Item>, rendered: Scope) returns (newRendered: Scope)
    ensures newRendered == Written(needed, rendered)
  {
    newRendered := rendered;
    for i := 0 to |needed|
      invariant newRendered == Written(needed[..i], rendered)
    {
      assert needed[..i + 1][..i] == needed[..i];
      newRendered := newRendered[needed[i].major := needed[i].value];
    }
    assert needed[..|needed|] == needed;
  }

  ghost function Written(items: seq<Item>, rendered: Scope): Scope {
    if items == [] then rendered
    else
      var last := items[|items| - 1];
      Written(items[..|items| - 1], rendered)[last.major := last.value]
  }

  lemma {:induction false} WrittenLookup(items: seq<Item>, rendered: Scope, inner: Scope, p: string)
    requires forall i :: 0 <= i < |items| ==> items[i] == DeclItem(items[i].major, inner)
    ensures p in Written(items, rendered) <==> p in rendered || DeclItem(p, inner) in items
    ensures DeclItem(p, inner) in items ==> Written(items, rendered)[p] == Lookup(inner, p)
    ensures p in rendered && DeclItem(p, inner) !in items ==> Written(items, rendered)[p] == rendered[p]
  {
    if items != [] {
      var n := |items| - 1;
      WrittenLookup(items[..n], rendered, inner, p);
      assert items == items[..n] + [items[n]];
    }
  }

  lemma {:induction false} WrittenAll(tag: Tag, needed: seq<Item>, inner: Scope, rendered: Scope)
    requires Aligned(tag) && Lists(needed, TagUses(tag), inner, rendered)
    requires forall p :: p in Needed(Uses(tag, inner), rendered) <==> DeclItem(p, inner) in needed
    ensures Written(needed, rendered) == RenderedBelow(Uses(tag, inner), rendered)
  {
    var a, b := Written(needed, rendered), RenderedBelow(Uses(tag, inner), rendered);
    forall p ensures p in a <==> p in b
             ensures p in a ==> a[p] == b[p]
    {
      WrittenLookup(needed, rendered, inner, p);
    }
  }

  /** The start tag as written out, and the declarations in force below it. */
  method WriteStartTag(tag: Tag, inner: Scope, rendered: Scope) returns (text: string, newRendered: Scope)
    requires Aligned(tag)
    ensures text == OpenTag(tag.name, Uses(tag, inner), AttrPairs(tag, inner), rendered, "")
    ensures newRendered == RenderedBelow(Uses(tag, inner), rendered)
  {
    var declText;
    declText, newRendered := WriteDeclarations(tag, inner, rendered);
    var attrs := CollectAttrs(tag.el.attrs, tag.attrNames, inner);
    var attrText := WriteItems(Sort(attrs));
    text := "<" + tag.name + declText + attrText + ">";
    StartTagText(tag.name, DeclPairs(Uses(tag, inner), rendered), AttrPairs(tag, inner));
  }

  lemma {:induction false} StartTagText(name: string, decls: seq<Pair>, attrs: seq<Pair>)
    ensures "<" + name + PairsThen(decls, "") + PairsThen(attrs, "") + ">" ==
            "<" + (name + PairsThen(decls + attrs, ">" + ""))
  {
    PairsThenConcat(decls, attrs, ">");
    PairsThenTail(attrs, "", ">");
    PairsThenTail(decls, "", PairsThen(attrs, ">"));
    assert ">" + "" == ">";
    assert "" + ">" == ">" && "" + PairsThen(attrs, ">") == PairsThen(attrs, ">");
  }

  // ---- the walk ----

  /** What rendering does: it marks the document too deep, or appends text. */
  datatype Outcome = TooDeep | Wrote(text: string) {
    /** This, then `next`. */
    function Then(next: Outcome): Outcome {
      if this.TooDeep? || next.TooDeep? then TooDeep else Wrote(text + next.text)
    }

    /** The buffer and the mark, before and after. */
    predicate From(out: string, deep: bool, out': string, deep': bool) {
      if this.TooDeep? then deep' else deep' == deep && out' == out + text
    }
  }

  /** What rendering `height` levels of elements does, the topmost being `depth` levels below the start. */
  function Verdict(height: nat, depth: nat, text: string): Outcome {
    if height > 0 && depth + height - 1 > MAX_DEPTH then TooDeep else Wrote(text)
  }

  /** What rendering `f` does, its elements being `depth` levels below the start: too deep exactly when
      some element that is not excluded lies more than 256 levels below, else canonical text. */
  ghost function Rendering(f: Forest<Tag>, pos: nat, scope: Scope, rendered: Scope, depth: nat,
                           exclude: set<nat>): Outcome
    requires AllAligned(f)
  {
    PruneAligned(f, pos, exclude);
    RenderingOf(Prune(f, pos, exclude), scope, rendered, depth)
  }

  ghost function RenderingOf(g: Forest<Tag>, scope: Scope, rendered: Scope, depth: nat): Outcome
    requires AllAligned(g)
  {
    Verdict(Height(g), depth, Canonical(g, scope, rendered, ""))
  }

  lemma {:induction false} OutcomeLeaf(t: Option<string>, r: Forest<Tag>, pos: nat, scope: Scope, rendered: Scope,
                                       depth: nat, exclude: set<nat>)
    requires AllAligned(r)
    ensures Rendering(Leaf(t, r), pos, scope, rendered, depth, exclude) ==
            Wrote(Escaped(Said(t), false)).Then(Rendering(r, pos + 1, scope, rendered, depth, exclude))
  {
  }

  function Taller(a: nat, b: nat): nat { if a > b then a else b }

  lemma {:induction false} VerdictThen(height: nat, text: string, height': nat, text': string, depth: nat)
    ensures Verdict(Taller(height, height'), depth, text + text') ==
            Verdict(height, depth, text).Then(Verdict(height', depth, text'))
  {
  }

  lemma {:induction false} RenderingSibling(tag: Tag, k: Forest<Tag>, r: Forest<Tag>, scope: Scope, rendered: Scope,
                                            depth: nat)
    requires Aligned(tag) && AllAligned(k) && AllAligned(r)
    ensures RenderingOf(Elem(tag, k, r), scope, rendered, depth) ==
            RenderingOf(Elem(tag, k, Nil), scope, rendered, depth).Then(RenderingOf(r, scope, rendered, depth))
  {
    ElementFirst(tag, k, r, scope, rendered);
    assert Height<Tag>(Nil) == 0;
    assert Height(Elem(tag, k, r)) == Taller(Height(Elem(tag, k, Nil)), Height(r));
    VerdictThen(Height(Elem(tag, k, Nil)), Canonical(Elem(tag, k, Nil), scope, rendered, ""), Height(r),
                Canonical(r, scope, rendered, ""), depth);
  }

  lemma {:induction false} OutcomeSibling(tag: Tag, k: Forest<Tag>, r: Forest<Tag>, pos: nat, scope: Scope,
                                          rendered: Scope, depth: nat, exclude: set<nat>)
    requires Aligned(tag) && AllAligned(k) && AllAligned(r)
    ensures Rendering(Elem(tag, k, r), pos, scope, rendered, depth, exclude) ==
            Rendering(Elem(tag, k, Nil), pos, scope, rendered, depth, exclude)
              .Then(Rendering(r, pos + 2 + Size(k), scope, rendered, depth, exclude))
  {
    PruneAligned(k, pos + 1, exclude);
    PruneAligned(r, pos + 2 + Size(k), exclude);
    var k', r' := Prune(k, pos + 1, exclude), Prune(r, pos + 2 + Size(k), exclude);
    assert Prune(Nil, pos + 2 + Size(k), exclude) == Nil;
    if pos in exclude {
      NothingFirst(RenderingOf(r', scope, rendered, depth));
      assert RenderingOf(Nil, scope, rendered, depth) == Wrote("");
    } else {
      RenderingSibling(tag, k', r', scope, rendered, depth);
    }
  }

  lemma {:induction false} NothingFirst(o: Outcome)
    ensures Wrote("").Then(o) == o
  {
    if o.Wrote? { assert "" + o.text == o.text; }
  }

  lemma {:induction false} ThenNothing(o: Outcome)
    ensures o.Then(Wrote("")) == o
  {
    if o.Wrote? { assert o.text + "" == o.text; }
  }

  lemma {:induction false} OutcomeExcluded(tag: Tag, k: Forest<Tag>, pos: nat, scope: Scope, rendered: Scope,
                                           depth: nat, exclude: set<nat>)
    requires Aligned(tag) && AllAligned(k)
    ensures pos in exclude ==> Rendering(Elem(tag, k, Nil), pos, scope, rendered, depth, exclude) == Wrote("")
    ensures pos !in exclude && depth > MAX_DEPTH ==>
            Rendering(Elem(tag, k, Nil), pos, scope, rendered, depth, exclude) == TooDeep
  {
    assert Prune(Nil, pos + 2 + Size(k), exclude) == Nil;
  }

  lemma {:induction false} ElementFirst(tag: Tag, k: Forest<Tag>, r: Forest<Tag>, scope: Scope, rendered: Scope)
    requires Aligned(tag) && AllAligned(k) && AllAligned(r)
    ensures Canonical(Elem(tag, k, r), scope, rendered, "") ==
            Canonical(Elem(tag, k, Nil), scope, rendered, "") + Canonical(r, scope, rendered, "")
  {
    var rest := Canonical(r, scope, rendered, "");
    CanonicalThen(Elem(tag, k, Nil), scope, rendered, rest);
    assert Canonical(Nil, scope, rendered, rest) == rest;
  }

  lemma {:induction false} OutcomeElement(tag: Tag, k: Forest<Tag>, pos: nat, scope: Scope, rendered: Scope,
                                          depth: nat, exclude: set<nat>, open: string, inner: Scope, below: Scope)
    requires Aligned(tag) && AllAligned(k) && pos !in exclude && depth <= MAX_DEPTH
    requires inner == Inside(scope, tag.el.attrs) && below == RenderedBelow(Uses(tag, inner), rendered)
    requires open == OpenTag(tag.name, Uses(tag, inner), AttrPairs(tag, inner), rendered, "")
    ensures Rendering(Elem(tag, k, Nil), pos, scope, rendered, depth, exclude) ==
            Wrote(open)
            .Then(Rendering(k, pos + 1, inner, below, depth + 1, exclude))
            .Then(Wrote(CloseTag(tag.name, "")))
  {
    PruneAligned(k, pos + 1, exclude);
    var k' := Prune(k, pos + 1, exclude);
    assert Prune(Nil, pos + 2 + Size(k), exclude) == Nil;
    assert Prune(Elem(tag, k, Nil), pos, exclude) == Elem(tag, k', Nil);
    RenderingElement(tag, k', scope, rendered, depth, open, inner, below);
  }

  lemma {:induction false} RenderingElement(tag: Tag, k: Forest<Tag>, scope: Scope, rendered: Scope, depth: nat,
                                            open: string, inner: Scope, below: Scope)
    requires Aligned(tag) && AllAligned(k) && depth <= MAX_DEPTH
    requires inner == Inside(scope, tag.el.attrs) && below == RenderedBelow(Uses(tag, inner), rendered)
    requires open == OpenTag(tag.name, Uses(tag, inner), AttrPairs(tag, inner), rendered, "")
    ensures RenderingOf(Elem(tag, k, Nil), scope, rendered, depth) ==
            Wrote(open).Then(RenderingOf(k, inner, below, depth + 1)).Then(Wrote(CloseTag(tag.name, "")))
  {
    ElementParts(tag, k, scope, rendered, open, inner, below);
    assert Height<Tag>(Nil) == 0;
    assert Height(Elem(tag, k, Nil)) == 1 + Height(k);
    VerdictInside(Height(k), Canonical(k, inner, below, ""), depth, open, CloseTag(tag.name, ""));
  }

  lemma {:induction false} VerdictInside(height: nat, text: string, depth: nat, open: string, close: string)
    requires depth <= MAX_DEPTH
    ensures Verdict(1 + height, depth, open + text + close) ==
            Wrote(open).Then(Verdict(height, depth + 1, text)).Then(Wrote(close))
  {
  }

  lemma {:induction false} ElementParts(tag: Tag, k: Forest<Tag>, scope: Scope, rendered: Scope, open: string,
                                        inner: Scope, below: Scope)
    requires Aligned(tag) && AllAligned(k)
    requires inner == Inside(scope, tag.el.attrs) && below == RenderedBelow(Uses(tag, inner), rendered)
    requires open == OpenTag(tag.name, Uses(tag, inner), AttrPairs(tag, inner), rendered, "")
    ensures Canonical(Elem(tag, k, Nil), scope, rendered, "") ==
            open + Canonical(k, inner, below, "") + CloseTag(tag.name, "")
  {
    var close := CloseTag(tag.name, "");
    var body := Canonical(k, inner, below, "");
    CanonicalThen(k, inner, below, close);
    assert Canonical(Nil, scope, rendered, "") == "";
    assert Canonical(Elem(tag, k, Nil), scope, rendered, "") ==
           OpenTag(tag.name, Uses(tag, inner), AttrPairs(tag, inner), rendered, body + close);
    OpenAround(tag.name, Uses(tag, inner), AttrPairs(tag, inner), rendered, body, close);
  }

  lemma {:induction false} OpenAround(name: string, uses: map<string, string>, attrs: seq<Pair>, rendered: Scope,
                                      body: string, close: string)
    ensures OpenTag(name, uses, attrs, rendered, body + close) ==
            OpenTag(name, uses, attrs, rendered, "") + body + close
  {
    OpenTagThen(name, uses, attrs, rendered, "", body + close);
    assert "" + (body + close) == body + close;
    Regroup(OpenTag(name, uses, attrs, rendered, ""), body, close);
  }

  lemma {:induction false} ThenAssociates(a: Outcome, b: Outcome, c: Outcome)
    ensures a.Then(b).Then(c) == a.Then(b.Then(c))
  {
    if a.Wrote? && b.Wrote? && c.Wrote? { Regroup(a.text, b.text, c.text); }
  }

  lemma {:induction false} FromThen(a: Outcome, b: Outcome, out: string, deep: bool, out': string, deep': bool,
                                    out'': string, deep'': bool)
    requires a.From(out, deep, out', deep') && b.From(out', deep', out'', deep'')
    ensures a.Then(b).From(out, deep, out'', deep'')
  {
    if a.Wrote? && b.Wrote? { Regroup(out, a.text, b.text); }
  }

  /** The depth-limited walk: elements of `f` are `depth` levels below the start. */
  ghost function Limited(f: Forest<Tag>, pos: nat, scope: Scope, rendered: Scope, depth: nat,
                         exclude: set<nat>): Outcome
    requires AllAligned(f)
    decreases f, 0
  {
    match f
    case Nil => Wrote("")
    case Leaf(t, r) => Wrote(Escaped(Said(t), false)).Then(Limited(r, pos + 1, scope, rendered, depth, exclude))
    case Elem(tag, k, r) =>
      LimitedElement(tag, k, pos, scope, rendered, depth, exclude)
        .Then(Limited(r, pos + 2 + Size(k), scope, rendered, depth, exclude))
  }

  ghost function LimitedElement(tag: Tag, k: Forest<Tag>, pos: nat, scope: Scope, rendered: Scope, depth: nat,
                                exclude: set<nat>): Outcome
    requires Aligned(tag) && AllAligned(k)
    decreases k, 1
  {
    if pos in exclude then Wrote("")
    else if depth > MAX_DEPTH then TooDeep
    else
      var inner := Inside(scope, tag.el.attrs);
      Wrote(OpenTag(tag.name, Uses(tag, inner), AttrPairs(tag, inner), rendered, ""))
        .Then(Limited(k, pos + 1, inner, RenderedBelow(Uses(tag, inner), rendered), depth + 1, exclude))
        .Then(Wrote(CloseTag(tag.name, "")))
  }

  /** What the first node of a forest does. */
  ghost function FirstOutcome(f: Forest<Tag>, pos: nat, scope: Scope, rendered: Scope, depth: nat,
                              exclude: set<nat>): Outcome
    requires AllAligned(f) && !f.Nil?
  {
    if f.Elem? then LimitedElement(f.tag, f.kids, pos, scope, rendered, depth, exclude)
        else Wrote(Escaped(Said(f.text), false))
  }

  lemma {:induction false} Advance(done: Outcome, f: Forest<Tag>, pos: nat, scope: Scope, rendered: Scope, depth: nat,
                                   exclude: set<nat>, next: nat, all: Outcome)
    requires AllAligned(f) && !f.Nil? && pos + Size(f) == next + Size(f.rest)
             && done.Then(Limited(f, pos, scope, rendered, depth, exclude)) == all
    ensures done
            .Then(FirstOutcome(f, pos, scope, rendered, depth, exclude))
            .Then(Limited(f.rest, next, scope, rendered, depth, exclude)) == all
  {
    var rest := Limited(f.rest, next, scope, rendered, depth, exclude);
    assert Limited(f, pos, scope, rendered, depth, exclude) ==
        FirstOutcome(f, pos, scope, rendered, depth, exclude).Then(rest);
    ThenAssociates(done, FirstOutcome(f, pos, scope, rendered, depth, exclude), rest);
  }

  lemma {:induction false} LimitedRenders(f: Forest<Tag>, pos: nat, scope: Scope, rendered: Scope, depth: nat,
                                          exclude: set<nat>)
    requires AllAligned(f)
    ensures Limited(f, pos, scope, rendered, depth, exclude) == Rendering(f, pos, scope, rendered, depth, exclude)
    decreases f, 1
  {
    match f
    case Nil =>
    case Leaf(t, r) =>
      LimitedRenders(r, pos + 1, scope, rendered, depth, exclude);
      OutcomeLeaf(t, r, pos, scope, rendered, depth, exclude);
    case Elem(tag, k, r) => SiblingsRender(tag, k, r, pos, scope, rendered, depth, exclude);
  }

  lemma {:induction false} SiblingsRender(tag: Tag, k: Forest<Tag>, r: Forest<Tag>, pos: nat, scope: Scope,
                                          rendered: Scope, depth: nat, exclude: set<nat>)
    requires Aligned(tag) && AllAligned(k) && AllAligned(r)
    ensures Limited(Elem(tag, k, r), pos, scope, rendered, depth, exclude) ==
            Rendering(Elem(tag, k, r), pos, scope, rendered, depth, exclude)
    decreases Elem(tag, k, r), 0
  {
    ElementRenders(tag, k, pos, scope, rendered, depth, exclude);
    LimitedRenders(r, pos + 2 + Size(k), scope, rendered, depth, exclude);
    BothRender(tag, k, r, pos, scope, rendered, depth, exclude);
  }

  lemma {:induction false} BothRender(tag: Tag, k: Forest<Tag>, r: Forest<Tag>, pos: nat, scope: Scope,
                                      rendered: Scope, depth: nat, exclude: set<nat>)
    requires Aligned(tag) && AllAligned(k) && AllAligned(r)
    requires LimitedElement(tag, k, pos, scope, rendered, depth, exclude) ==
             Rendering(Elem(tag, k, Nil), pos, scope, rendered, depth, exclude)
    requires Limited(r, pos + 2 + Size(k), scope, rendered, depth, exclude) ==
             Rendering(r, pos + 2 + Size(k), scope, rendered, depth, exclude)
    ensures Limited(Elem(tag, k, r), pos, scope, rendered, depth, exclude) ==
            Rendering(Elem(tag, k, r), pos, scope, rendered, depth, exclude)
  {
    OutcomeSibling(tag, k, r, pos, scope, rendered, depth, exclude);
  }

  lemma {:induction false} ElementRenders(tag: Tag, k: Forest<Tag>, pos: nat, scope: Scope, rendered: Scope,
                                          depth: nat, exclude: set<nat>)
    requires Aligned(tag) && AllAligned(k)
    ensures LimitedElement(tag, k, pos, scope, rendered, depth, exclude) ==
            Rendering(Elem(tag, k, Nil), pos, scope, rendered, depth, exclude)
    decreases k, 2
  {
    if pos in exclude || depth > MAX_DEPTH {
      ElementSkipped(tag, k, pos, scope, rendered, depth, exclude);
    } else {
      var inner := Inside(scope, tag.el.attrs);
      var below := RenderedBelow(Uses(tag, inner), rendered);
      LimitedRenders(k, pos + 1, inner, below, depth + 1, exclude);
      InsideRenders(tag, k, pos, scope, rendered, depth, exclude,
        OpenTag(tag.name, Uses(tag, inner), AttrPairs(tag, inner), rendered, ""), inner, below);
    }
  }

  lemma {:induction false} ElementSkipped(tag: Tag, k: Forest<Tag>, pos: nat, scope: Scope, rendered: Scope,
                                          depth: nat, exclude: set<nat>)
    requires Aligned(tag) && AllAligned(k) && (pos in exclude || depth > MAX_DEPTH)
    ensures LimitedElement(tag, k, pos, scope, rendered, depth, exclude) ==
            Rendering(Elem(tag, k, Nil), pos, scope, rendered, depth, exclude)
  {
    OutcomeExcluded(tag, k, pos, scope, rendered, depth, exclude);
  }

  lemma {:induction false} InsideRenders(tag: Tag, k: Forest<Tag>, pos: nat, scope: Scope, rendered: Scope, depth: nat,
                                         exclude: set<nat>, open: string, inner: Scope, below: Scope)
    requires Aligned(tag) && AllAligned(k) && pos !in exclude && depth <= MAX_DEPTH
    requires inner == Inside(scope, tag.el.attrs) && below == RenderedBelow(Uses(tag, inner), rendered)
    requires open == OpenTag(tag.name, Uses(tag, inner), AttrPairs(tag, inner), rendered, "")
    requires Limited(k, pos + 1, inner, below, depth + 1, exclude) ==
             Rendering(k, pos + 1, inner, below, depth + 1, exclude)
    ensures LimitedElement(tag, k, pos, scope, rendered, depth, exclude) ==
            Rendering(Elem(tag, k, Nil), pos, scope, rendered, depth, exclude)
  {
    OutcomeElement(tag, k, pos, scope, rendered, depth, exclude, open, inner, below);
  }

  /** The limited walk refuses exactly when an element that is not excluded lies more than 256 levels
      below the start, and otherwise writes the unlimited canonical text without the excluded parts. */
  lemma {:induction false} LimitedRefines(f: Forest<Tag>, pos: nat, scope: Scope, rendered: Scope, exclude: set<nat>)
    requires AllAligned(f)
    ensures AllAligned(Prune(f, pos, exclude))
    ensures
      var limited := Limited(f, pos, scope, rendered, 0, exclude);
      && (limited.TooDeep? <==> HasElementBelow(Prune(f, pos, exclude)))
      && (limited.Wrote? ==> limited.text == Canonical(Prune(f, pos, exclude), scope, rendered, ""))
  {
    LimitedRenders(f, pos, scope, rendered, 0, exclude);
    PruneAligned(f, pos, exclude);
    var g := Prune(f, pos, exclude);
    DeepestElement(g);
    assert Limited(f, pos, scope, rendered, 0, exclude).TooDeep? <==> Height(g) - 1 > MAX_DEPTH;
  }

  lemma {:induction false} DeepestElement(g: Forest<Tag>)
    ensures HasElementBelow(g) <==> Height(g) - 1 > MAX_DEPTH
  {
    if Height(g) - 1 > MAX_DEPTH { HeightIsDepth(g, Height(g) - 1); }
    if HasElementBelow(g) {
      var level: nat :| level > 256 && ElementAt(g, level);
      HeightIsDepth(g, level);
    }
  }

  lemma {:induction false} ElementApart(ts: seq<Token>, ends: map<nat, nat>, scopes: map<nat, Scope>,
                                        raw: map<nat, string>, tag: Tag, k: Forest<Tag>, r: Forest<Tag>, pos: nat,
                                        scope: Scope)
    requires Covers(ts, ends, scopes, Elem(tag, k, r), pos, scope) && RawNames(raw, Elem(tag, k, r), pos)
             && AllAligned(Elem(tag, k, r))
    ensures pos in ends && ends[pos] == pos + 1 + Size(k)
    ensures Covers(ts, ends, scopes, Elem(tag, k, Nil), pos, scope) && RawNames(raw, Elem(tag, k, Nil), pos)
            && AllAligned(Elem(tag, k, Nil))
    ensures Covers(ts, ends, scopes, r, pos + 2 + Size(k), scope) && RawNames(raw, r, pos + 2 + Size(k))
            && AllAligned(r)
  {
    CoversApart(ts, ends, scopes, tag, k, r, pos, scope);
  }

  lemma {:induction false} CoversApart(ts: seq<Token>, ends: map<nat, nat>, scopes: map<nat, Scope>, tag: Tag,
                                       k: Forest<Tag>, r: Forest<Tag>, pos: nat, scope: Scope)
    requires Covers(ts, ends, scopes, Elem(tag, k, r), pos, scope)
    ensures pos in ends && ends[pos] == pos + 1 + Size(k)
    ensures Covers(ts, ends, scopes, Elem(tag, k, Nil), pos, scope)
    ensures Covers(ts, ends, scopes, r, pos + 2 + Size(k), scope)
  {
  }

  lemma {:induction false} RestRead(ts: seq<Token>, ends: map<nat, nat>, scopes: map<nat, Scope>,
                                    raw: map<nat, string>, f: Forest<Tag>, pos: nat, scope: Scope, next: nat)
    requires Covers(ts, ends, scopes, f, pos, scope) && RawNames(raw, f, pos) && AllAligned(f) && !f.Nil?
             && pos + Size(f) == next + Size(f.rest)
    ensures Covers(ts, ends, scopes, f.rest, next, scope) && RawNames(raw, f.rest, next) && AllAligned(f.rest)
  {
  }

  class Renderer {
    const tokens: seq<Token>
    const matchEnd: map<nat, nat>
    const nsAtStart: map<nat, Scope>
    const raw: map<nat, string>
    const exclude: set<nat>
    var out: string
    var tooDeep: bool

    constructor (doc: XmlDoc, raw: map<nat, string>, exclude: set<nat>)
      ensures tokens == doc.tokens && matchEnd == doc.matchEnd && nsAtStart == doc.nsAtStart
      ensures this.raw == raw && this.exclude == exclude && out == "" && !tooDeep
    {
      tokens, matchEnd, nsAtStart := doc.tokens, doc.matchEnd, doc.nsAtStart;
      this.raw, this.exclude := raw, exclude;
      out, tooDeep := "", false;
    }

    ghost predicate Reads(f: Forest<Tag>, pos: nat, scope: Scope) {
      Covers(tokens, matchEnd, nsAtStart, f, pos, scope) && RawNames(raw, f, pos) && AllAligned(f)
    }

    /** Renders the element that starts at `start`, `depth` levels below where rendering began. */
    method Render(start: nat, end: nat, rendered: Scope, depth: nat, ghost n: Node)
      requires Reads(Tree(n), n.pos, n.scope) && start == n.pos && end == EndOf(n)
      modifies this
      ensures LimitedElement(n.tag, n.kids, n.pos, n.scope, rendered, depth, exclude)
              .From(old(out), old(tooDeep), out, tooDeep)
      decreases end - start, 0
    {
      assert out + "" == out;
      if start in exclude {
        return;
      }
      if depth > MAX_DEPTH {
        tooDeep := true;
        return;
      }
      var tagName, attrNames := QName.ReadNames(raw[start]);
      var tag := Tag(tokens[start].el, tagName, attrNames);
      var effective := Declare(nsAtStart[start], tag.el.attrs);
      var text, newRendered := WriteStartTag(tag, effective, rendered);
      ghost var open := Wrote(text);
      ghost var body := Limited(n.kids, start + 1, effective, newRendered, depth + 1, exclude);
      ghost var close := Wrote(CloseTag(tagName, ""));
      out := out + text;
      ghost var out1, deep1 := out, tooDeep;
      RenderChildren(start + 1, end, newRendered, depth, n.kids, effective);
      FromThen(open, body, old(out), old(tooDeep), out1, deep1, out, tooDeep);
      ghost var out2, deep2 := out, tooDeep;
      out := out + CloseTag(tagName, "");
      FromThen(open.Then(body), close, old(out), old(tooDeep), out2, deep2, out, tooDeep);
    }

    /** The loop of `render` over the children of one element. */
    method RenderChildren(start: nat, end: nat, rendered: Scope, depth: nat, ghost f: Forest<Tag>, ghost scope: Scope)
      requires Reads(f, start, scope) && end == start + Size(f)
      modifies this
      ensures Limited(f, start, scope, rendered, depth + 1, exclude).From(old(out), old(tooDeep), out, tooDeep)
      decreases end - start, 3
    {
      var i := start;
      ghost var todo := f;
      ghost var done := Wrote("");
      ghost var all := Limited(f, start, scope, rendered, depth + 1, exclude);
      NothingFirst(all);
      assert out + "" == out;
      while i < end
        invariant start <= i && i + Size(todo) == end && Reads(todo, i, scope)
        invariant done.Then(Limited(todo, i, scope, rendered, depth + 1, exclude)) == all
        invariant done.From(old(out), old(tooDeep), out, tooDeep)
        decreases end - i
      {
        ghost var out1, deep1, at := out, tooDeep, i;
        ghost var next;
        i, next := RenderToken(i, end, rendered, depth, todo, scope);
        RestRead(tokens, matchEnd, nsAtStart, raw, todo, at, scope, i);
        Advance(done, todo, at, scope, rendered, depth + 1, exclude, i, all);
        FromThen(done, next, old(out), old(tooDeep), out1, deep1, out, tooDeep);
        done, todo := done.Then(next), todo.rest;
      }
      ThenNothing(done);
    }

    /** One turn of that loop, at index `i`. */
    method RenderToken(i: nat, end: nat, rendered: Scope, depth: nat, ghost todo: Forest<Tag>, ghost scope: Scope)
      returns (j: nat, ghost next: Outcome)
      requires Reads(todo, i, scope) && i + Size(todo) == end && i < end
      modifies this
      ensures i < j && j + Size(todo.rest) == end && next == FirstOutcome(todo, i, scope, rendered, depth + 1, exclude)
      ensures next.From(old(out), old(tooDeep), out, tooDeep)
      decreases end - i, 2
    {
      if tokens[i].Start? {
        ElementApart(tokens, matchEnd, nsAtStart, raw, todo.tag, todo.kids, todo.rest, i, scope);
        j := matchEnd[i] + 1;
        next := RenderChild(i, j - 1, rendered, depth, todo.tag, todo.kids, scope);
      } else {
        j := i + 1;
        next := RenderLeaf(tokens[i], todo.text);
      }
    }

    method RenderChild(i: nat, end: nat, rendered: Scope, depth: nat, ghost tag: Tag, ghost kids: Forest<Tag>,
                       ghost scope: Scope)
      returns (ghost next: Outcome)
      requires Reads(Elem(tag, kids, Nil), i, scope) && end == i + 1 + Size(kids)
      modifies this
      ensures next == LimitedElement(tag, kids, i, scope, rendered, depth + 1, exclude)
      ensures next.From(old(out), old(tooDeep), out, tooDeep)
      decreases end - i, 1
    {
      next := LimitedElement(tag, kids, i, scope, rendered, depth + 1, exclude);
      assert out + "" == out;
      if i !in exclude {
        Render(i, end, rendered, depth + 1, Node(i, tag, kids, scope));
      }
    }

    method RenderLeaf(token: Token, ghost leaf: Option<string>) returns (ghost next: Outcome)
      requires token == LeafToken(leaf)
      modifies this
      ensures next == Wrote(Escaped(Said(leaf), false)) && next.From(old(out), old(tooDeep), out, tooDeep)
    {
      next := Wrote(Escaped(Said(leaf), false));
      assert out + "" == out;
      if token.CharData? {
        var text := EscapeLoop(token.text, false);
        out := out + text;
      }
    }
  }

  /** canonicalize: the canonical text of one element, or nothing when it nests too deeply. */
  method Canonicalize(doc: XmlDoc, raw: map<nat, string>, start: nat, end: nat, exclude: set<nat>, ghost n: Node)
    returns (r: Option<string>)
    requires CoversNode(doc.tokens, doc.matchEnd, doc.nsAtStart, n) && start == n.pos && end == EndOf(n)
    requires RawNames(raw, Tree(n), n.pos) && AllAligned(Tree(n))
    ensures r == CanonicalElement(n, exclude)
  {
    var c := new Renderer(doc, raw, exclude);
    c.Render(start, end, map[], 0, n);
    LimitedSingle(n, exclude);
    if c.tooDeep {
      return None;
    }
    return Some(c.out);
  }

  /** The canonical text of an element without its excluded parts, or nothing if it nests too deeply. */
  ghost function CanonicalElement(n: Node, exclude: set<nat>): Option<string>
    requires AllAligned(Tree(n))
  {
    PruneAligned(Tree(n), n.pos, exclude);
    var g := Prune(Tree(n), n.pos, exclude);
    if HasElementBelow(g) then None else Some(Canonical(g, n.scope, map[], ""))
  }

  lemma {:induction false} LimitedSingle(n: Node, exclude: set<nat>)
    requires AllAligned(Tree(n))
    ensures
      var limited := LimitedElement(n.tag, n.kids, n.pos, n.scope, map[], 0, exclude);
      CanonicalElement(n, exclude) == if limited.TooDeep? then None else Some("" + limited.text)
  {
    LimitedRefines(Tree(n), n.pos, n.scope, map[], exclude);
    var limited := LimitedElement(n.tag, n.kids, n.pos, n.scope, map[], 0, exclude);
    assert Limited(Nil, n.pos + 2 + Size(n.kids), n.scope, map[], 0, exclude) == Wrote("");
    if limited.Wrote? { assert limited.text + "" == limited.text == "" + limited.text; }
  }

  /** With nothing excluded: the canonical text, unless some element lies too deep. */
  lemma {:induction false} CanonicalWhole(n: Node)
    requires AllAligned(Tree(n))
    ensures CanonicalElement(n, {}) == if HasElementBelow(Tree(n)) then None
            else Some(Canonical(Tree(n), n.scope, map[], ""))
  {
    PruneAbove(Tree(n), n.pos, {});
  }
}
