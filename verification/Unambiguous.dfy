/** Canonical text determines its meaning. */
module Unambiguous {
  import opened Text
  import opened Order
  import opened Escape
  import opened Xml
  import opened Canon
  import opened QName

  predicate IsXmlns(name: string) { name == "xmlns" || "xmlns:" <= name }

  ghost predicate PlainNames(pairs: seq<Pair>) {
    forall i :: 0 <= i < |pairs| ==> IsName(pairs[i].name) && !IsXmlns(pairs[i].name)
  }

  /** Meanings of documents with XML names: text is merged, `uses` covers exactly the used prefixes. */
  ghost predicate Valid(m: Meaning) {
    match m
    case MNil => true
    case MText(t, r) => t != "" && !r.MText? && Valid(r)
    case MElem(name, uses, attrs, k, r) =>
      IsName(name) && PlainNames(attrs) && uses.Keys == Used(name, attrs) && Valid(k) && Valid(r)
  }

  // ---- a reader of canonical text ----

  /** What a reader of plain XML sees: start tags with their attributes, text, end tags that match. */
  datatype Shown =
    | SNil
    | SText(text: string, rest: Shown)
    | SElem(name: string, pairs: seq<Pair>, kids: Shown, rest: Shown)

  /** ` name="value"` as often as it occurs, and `>`. */
  function ReadPairs(s: string): (r: Option<(seq<Pair>, string)>)
    ensures r.Some? ==> |r.value.1| < |s|
    decreases |s|
  {
    if s == "" then None
    else if s[0] == '>' then Some(([], s[1..]))
    else if s[0] != ' ' then None
    else
      var (name, quoted) := Split(s[1..], {'='});
      if !("=\"" <= quoted) then None
      else
        var (value, after) := Split(quoted[2..], {'"'});
        if after == "" || Unescape(value).None? then None
        else
          var more := ReadPairs(after[1..]);
          if more.None? then None
          else Some(([Pair(name, Unescape(value).value)] + more.value.0, more.value.1))
  }

  /** Text, elements and their siblings, up to an end tag that nothing here has opened. */
  function ReadContent(s: string): (r: Option<(Shown, string)>)
    ensures r.Some? ==> |r.value.1| <= |s|
    decreases |s|
  {
    if s == "" || "</" <= s then Some((SNil, s))
    else if s[0] != '<' then
      var (text, after) := Split(s, {'<'});
      if Unescape(text).None? then None
      else
        var more := ReadContent(after);
        if more.None? then None else Some((SText(Unescape(text).value, more.value.0), more.value.1))
    else
      var (name, after) := Split(s[1..], {' ', '>'});
      var pairs := ReadPairs(after);
      if pairs.None? then None
      else
        var kids := ReadContent(pairs.value.1);
        var close := "</" + (name + ">");
        if kids.None? || !(close <= kids.value.1) then None
        else
          var more := ReadContent(kids.value.1[|close|..]);
          if more.None? then None
          else Some((SElem(name, pairs.value.0, kids.value.0, more.value.0), more.value.1))
  }

  /** The scope inside a tag, by its `xmlns` attributes. */
  function ShownScope(scope: Scope, pairs: seq<Pair>): Scope
    decreases |pairs|
  {
    if pairs == [] then scope
    else
      var n := pairs[0].name;
      var here := if n == "xmlns" then scope["" := pairs[0].value]
                  else if "xmlns:" <= n then scope[n[|"xmlns:"|..] := pairs[0].value] else scope;
      ShownScope(here, pairs[1..])
  }

  function PlainPairs(pairs: seq<Pair>): seq<Pair> {
    if pairs == [] then []
    else (if IsXmlns(pairs[0].name) then [] else [pairs[0]]) + PlainPairs(pairs[1..])
  }

  /** What the reader makes of it: prefixes are looked up, declarations are gone. */
  function Understood(w: Shown, scope: Scope): Meaning {
    match w
    case SNil => MNil
    case SText(t, r) => MText(t, Understood(r, scope))
    case SElem(name, pairs, k, r) =>
      var inner, attrs := ShownScope(scope, pairs), PlainPairs(pairs);
      MElem(name, map p | p in Used(name, attrs) :: Lookup(inner, p), attrs, Understood(k, inner),
            Understood(r, scope))
  }

  /** The meaning of a whole text, if it is well formed. */
  function ReadText(s: string, scope: Scope): Option<Meaning> {
    var r := ReadContent(s);
    if r.None? || r.value.1 != "" then None else Some(Understood(r.value.0, scope))
  }

  // ---- one start tag ----

  lemma {:induction false} PairRead(p: Pair, x: string)
    requires IsName(p.name)
    ensures ReadPairs(" " + (p.name + ("=\"" + (Escaped(p.value, true) + ("\"" + x))))) ==
            if ReadPairs(x).None? then None else Some(([p] + ReadPairs(x).value.0, ReadPairs(x).value.1))
  {
    var quoted := "=\"" + (Escaped(p.value, true) + ("\"" + x));
    assert (" " + (p.name + quoted))[1..] == p.name + quoted;
    assert Free(p.name, {'='});
    SplitIs(p.name, quoted, {'='});
    assert quoted[2..] == Escaped(p.value, true) + ("\"" + x);
    EscapedFree(p.value, true);
    assert Free(Escaped(p.value, true), {'"'});
    SplitIs(Escaped(p.value, true), "\"" + x, {'"'});
    assert ("\"" + x)[1..] == x;
    UnescapeEscaped(p.value, true);
  }

  lemma {:induction false} PairsRead(ps: seq<Pair>, x: string)
    requires forall i :: 0 <= i < |ps| ==> IsName(ps[i].name)
    ensures ReadPairs(PairsThen(ps, ">" + x)) == Some((ps, x))
  {
    if ps == [] {
      assert (">" + x)[1..] == x;
    } else {
      PairsRead(ps[1..], x);
      PairRead(ps[0], PairsThen(ps[1..], ">" + x));
      assert ps == [ps[0]] + ps[1..];
    }
  }

  lemma {:induction false} PairsHead(pairs: seq<Pair>, tail: string)
    ensures PairsThen(pairs, ">" + tail) != ""
    ensures PairsThen(pairs, ">" + tail)[0] == if pairs == [] then '>' else ' '
  {
  }

  lemma {:induction false} XmlnsNameIsName(p: string)
    requires p == "" || IsName(p)
    ensures IsName(XmlnsName(p)) && IsXmlns(XmlnsName(p))
  {
  }

  lemma {:induction false} DeclarationAt(prefixes: seq<string>, uses: map<string, string>, i: nat)
    requires (forall p :: p in prefixes ==> p in uses) && i < |prefixes|
    ensures |Declarations(prefixes, uses)| == |prefixes|
    ensures Declarations(prefixes, uses)[i] == Pair(XmlnsName(prefixes[i]), uses[prefixes[i]])
  {
    if |prefixes| > 1 { DeclarationAt(prefixes[1..], uses, if i > 0 then i - 1 else 0); }
  }

  lemma {:induction false} DeclarationNames(prefixes: seq<string>, uses: map<string, string>)
    requires forall p :: p in prefixes ==> p in uses && (p == "" || IsName(p))
    ensures |Declarations(prefixes, uses)| == |prefixes|
    ensures forall i :: 0 <= i < |prefixes| ==>
              var d := Declarations(prefixes, uses)[i];
              d == Pair(XmlnsName(prefixes[i]), uses[prefixes[i]]) && IsName(d.name) && IsXmlns(d.name)
  {
    var all := Declarations(prefixes, uses);
    if prefixes != [] { DeclarationAt(prefixes, uses, 0); }
    forall i | 0 <= i < |prefixes|
      ensures all[i] == Pair(XmlnsName(prefixes[i]), uses[prefixes[i]]) && IsName(all[i].name) && IsXmlns(all[i].name)
    {
      DeclarationAt(prefixes, uses, i);
      XmlnsNameIsName(prefixes[i]);
    }
  }

  lemma {:induction false} PrefixIsName(qn: string)
    requires IsName(qn)
    ensures Prefix(qn) == "" || IsName(Prefix(qn))
  {
  }

  lemma {:induction false} UsedPrefixesAreNames(pairs: seq<Pair>)
    requires PlainNames(pairs)
    ensures forall p :: p in UsedByAttrs(pairs) ==> IsName(p)
  {
    if pairs != [] {
      PrefixIsName(pairs[0].name);
      UsedPrefixesAreNames(pairs[1..]);
    }
  }

  ghost predicate TagOk(name: string, uses: map<string, string>, attrs: seq<Pair>) {
    IsName(name) && PlainNames(attrs) && uses.Keys == Used(name, attrs)
  }

  lemma {:induction false} DeclPairsNames(name: string, uses: map<string, string>, attrs: seq<Pair>, rendered: Scope)
    requires TagOk(name, uses, attrs)
    ensures forall p :: p in uses ==> p == "" || IsName(p)
    ensures forall i :: 0 <= i < |DeclPairs(uses, rendered)| ==>
              IsName(DeclPairs(uses, rendered)[i].name) && IsXmlns(DeclPairs(uses, rendered)[i].name)
  {
    PrefixIsName(name);
    UsedPrefixesAreNames(attrs);
    ListingIs(Needed(uses, rendered));
    DeclarationNames(Listing(Needed(uses, rendered)), uses);
  }

  lemma {:induction false} PlainStay(attrs: seq<Pair>)
    requires PlainNames(attrs)
    ensures PlainPairs(attrs) == attrs
  {
    if attrs != [] {
      PlainStay(attrs[1..]);
      assert attrs == [attrs[0]] + attrs[1..];
    }
  }

  lemma {:induction false} PlainAfter(decls: seq<Pair>, attrs: seq<Pair>)
    requires PlainNames(attrs) && forall i :: 0 <= i < |decls| ==> IsXmlns(decls[i].name)
    ensures PlainPairs(decls + attrs) == attrs
  {
    if decls == [] {
      assert decls + attrs == attrs;
      PlainStay(attrs);
    } else {
      assert (decls + attrs)[0] == decls[0] && (decls + attrs)[1..] == decls[1..] + attrs;
      PlainAfter(decls[1..], attrs);
    }
  }

  lemma {:induction false} FirstDeclared(p: string, uri: string, rest: seq<Pair>, scope: Scope)
    ensures ShownScope(scope, [Pair(XmlnsName(p), uri)] + rest) == ShownScope(scope[p := uri], rest)
  {
    assert p != "" ==> XmlnsName(p)[|"xmlns:"|..] == p && XmlnsName(p) != "xmlns";
    assert ([Pair(XmlnsName(p), uri)] + rest)[1..] == rest;
  }

  lemma {:induction false} ScopeAfter(prefixes: seq<string>, uses: map<string, string>, attrs: seq<Pair>, scope: Scope)
    requires PlainNames(attrs) && forall p :: p in prefixes ==> p in uses && (p == "" || IsName(p))
    ensures
      var inner := ShownScope(scope, Declarations(prefixes, uses) + attrs);
      && (forall p :: p in inner <==> p in scope || p in prefixes)
      && (forall p :: p in prefixes ==> inner[p] == uses[p])
      && (forall p :: p in scope && p !in prefixes ==> inner[p] == scope[p])
    decreases |prefixes| + |attrs|
  {
    if prefixes != [] {
      var p := prefixes[0];
      FirstDeclared(p, uses[p], Declarations(prefixes[1..], uses) + attrs, scope);
      assert Declarations(prefixes, uses) + attrs ==
          [Pair(XmlnsName(p), uses[p])] + (Declarations(prefixes[1..], uses) + attrs);
      ScopeAfter(prefixes[1..], uses, attrs, scope[p := uses[p]]);
      assert forall q :: q in prefixes <==> q == p || q in prefixes[1..];
    } else if attrs != [] {
      assert Declarations([], uses) + attrs == attrs;
      assert Declarations([], uses) + attrs[1..] == attrs[1..];
      ScopeAfter([], uses, attrs[1..], scope);
    }
  }

  lemma {:induction false} ScopePassedOn(uses: map<string, string>, rendered: Scope, prefixes: seq<string>,
                                         inner: Scope)
    requires forall p :: p in prefixes <==> p in Needed(uses, rendered)
    requires forall p :: p in inner <==> p in rendered || p in prefixes
    requires forall p :: p in prefixes ==> p in uses && inner[p] == uses[p]
    requires forall p :: p in rendered && p !in prefixes ==> inner[p] == rendered[p]
    ensures inner == RenderedBelow(uses, rendered)
    ensures forall p :: p in uses ==> Lookup(inner, p) == uses[p]
  {
    forall p | p in uses ensures Lookup(inner, p) == uses[p] {
      if p !in prefixes { assert p !in Needed(uses, rendered); }
    }
  }

  lemma {:induction false} DeclaredScope(name: string, uses: map<string, string>, attrs: seq<Pair>, rendered: Scope)
    requires TagOk(name, uses, attrs)
    ensures
      var inner := ShownScope(rendered, DeclPairs(uses, rendered) + attrs);
      inner == RenderedBelow(uses, rendered) && forall p :: p in uses ==> Lookup(inner, p) == uses[p]
  {
    DeclPairsNames(name, uses, attrs, rendered);
    var prefixes := Listing(Needed(uses, rendered));
    ListingIs(Needed(uses, rendered));
    ScopeAfter(prefixes, uses, attrs, rendered);
    ScopePassedOn(uses, rendered, prefixes, ShownScope(rendered, Declarations(prefixes, uses) + attrs));
  }

  /** A reader of the start tag, with the declarations of the output ancestors in force, sees the attributes,
      binds every used prefix as it is meant, and passes the output scope on. */
  lemma {:induction false} TagRead(name: string, uses: map<string, string>, attrs: seq<Pair>, rendered: Scope)
    requires TagOk(name, uses, attrs)
    ensures
      var pairs := DeclPairs(uses, rendered) + attrs;
      && (forall i :: 0 <= i < |pairs| ==> IsName(pairs[i].name))
      && PlainPairs(pairs) == attrs && ShownScope(rendered, pairs) == RenderedBelow(uses, rendered)
      && uses == map p | p in Used(name, attrs) :: Lookup(ShownScope(rendered, pairs), p)
  {
    DeclPairsNames(name, uses, attrs, rendered);
    PlainAfter(DeclPairs(uses, rendered), attrs);
    DeclaredScope(name, uses, attrs, rendered);
  }

  // ---- a whole meaning ----

  /** What may follow: nothing, or the end tag of the parent. */
  ghost predicate Tail(t: string) { t == "" || "</" <= t }

  lemma {:induction false} PrintHead(m: Meaning, rendered: Scope, tail: string)
    requires Valid(m)
    ensures m.MText? ==> Print(m, rendered, tail) != "" && Print(m, rendered, tail)[0] != '<'
    ensures m.MElem? ==>
            |Print(m, rendered, tail)| > 1 && Print(m, rendered, tail)[0] == '<' && Print(m, rendered, tail)[1] != '/'
  {
    if m.MText? {
      EscapedNonempty(m.text, false);
      EscapedFree(m.text, false);
    }
    if m.MElem? {
      assert Print(m, rendered, tail)[1] == m.name[0];
    }
  }

  /** What is read from an element, when its parts are read. */
  lemma {:induction false} ElementRead(name: string, pairs: seq<Pair>, body: string, k: Shown, next: string, r: Shown,
                                       tail: string)
    requires IsName(name) && forall i :: 0 <= i < |pairs| ==> IsName(pairs[i].name)
    requires ReadContent(body) == Some((k, CloseTag(name, next))) && ReadContent(next) == Some((r, tail))
    ensures ReadContent("<" + (name + PairsThen(pairs, ">" + body))) == Some((SElem(name, pairs, k, r), tail))
  {
    StartRead(name, pairs, body, "<" + (name + PairsThen(pairs, ">" + body)));
    EndRead(name, next);
  }

  /** What the reader sees of a start tag. */
  lemma {:induction false} StartRead(name: string, pairs: seq<Pair>, body: string, s: string)
    requires IsName(name) && forall i :: 0 <= i < |pairs| ==> IsName(pairs[i].name)
    requires s == "<" + (name + PairsThen(pairs, ">" + body))
    ensures s != "" && !("</" <= s) && s[0] == '<'
    ensures Split(s[1..], {' ', '>'}).0 == name && ReadPairs(Split(s[1..], {' ', '>'}).1) == Some((pairs, body))
  {
    var after := PairsThen(pairs, ">" + body);
    assert s[1..] == name + after;
    assert s[1] == name[0] && NameChar(s[1]);
    assert Free(name, {' ', '>'});
    PairsHead(pairs, body);
    SplitIs(name, after, {' ', '>'});
    PairsRead(pairs, body);
  }

  lemma {:induction false} EndRead(name: string, next: string)
    ensures
      var close := "</" + (name + ">");
      close <= CloseTag(name, next) && CloseTag(name, next)[|close|..] == next
  {
    var close := "</" + (name + ">");
    assert CloseTag(name, next) == close + next;
  }

  /** What is read from a printed meaning is the meaning: names, URIs, attributes and text, and the rest is left. */
  lemma {:induction false} PrintRead(m: Meaning, rendered: Scope, tail: string) returns (w: Shown)
    requires Valid(m) && Tail(tail)
    ensures ReadContent(Print(m, rendered, tail)) == Some((w, tail)) && Understood(w, rendered) == m
    decreases m
  {
    match m
    case MNil => w := SNil;
    case MText(t, r) =>
      var more := PrintRead(r, rendered, tail);
      TextRead(t, r, rendered, tail, more);
      w := SText(t, more);
    case MElem(name, uses, attrs, k, r) =>
      var below, next := RenderedBelow(uses, rendered), Print(r, rendered, tail);
      var pairs := DeclPairs(uses, rendered) + attrs;
      TagRead(name, uses, attrs, rendered);
      var kids := PrintRead(k, below, CloseTag(name, next));
      var more := PrintRead(r, rendered, tail);
      ElementRead(name, pairs, Print(k, below, CloseTag(name, next)), kids, next, more, tail);
      w := SElem(name, pairs, kids, more);
  }

  lemma {:induction false} TextRead(t: string, r: Meaning, rendered: Scope, tail: string, more: Shown)
    requires Valid(MText(t, r)) && Tail(tail) && ReadContent(Print(r, rendered, tail)) == Some((more, tail))
    ensures ReadContent(Print(MText(t, r), rendered, tail)) == Some((SText(t, more), tail))
  {
    PrintHead(MText(t, r), rendered, tail);
    PrintHead(r, rendered, tail);
    EscapedFree(t, false);
    SplitIs(Escaped(t, false), Print(r, rendered, tail), {'<'});
    UnescapeEscaped(t, false);
  }

  lemma {:induction false} PrintUnambiguous(m: Meaning, x: string, n: Meaning, y: string, rendered: Scope)
    requires Valid(m) && Valid(n) && Tail(x) && Tail(y)
    requires Print(m, rendered, x) == Print(n, rendered, y)
    ensures m == n && x == y
  {
    var _ := PrintRead(m, rendered, x);
    var _ := PrintRead(n, rendered, y);
  }

  // ---- meanings of trees ----

  /** Names are XML names, and only declarations are spelled `xmlns`. */
  ghost predicate TagNamed(tag: Tag) {
    && Aligned(tag) && IsName(tag.name)
    && forall i :: 0 <= i < |tag.attrNames| ==>
         IsName(tag.attrNames[i]) && (IsXmlns(tag.attrNames[i]) ==> IsDeclaration(tag.el.attrs[i]))
  }

  ghost predicate WellNamed(f: Forest<Tag>)
    ensures WellNamed(f) ==> AllAligned(f)
  {
    match f
    case Nil => true
    case Leaf(_, r) => WellNamed(r)
    case Elem(tag, k, r) => TagNamed(tag) && WellNamed(k) && WellNamed(r)
  }

  /** Only declarations are spelled `xmlns`, so no item of an attribute is. */
  lemma {:induction false} ItemNames(attrs: seq<Attr>, names: seq<string>, scope: Scope)
    requires |attrs| == |names|
    requires forall i :: 0 <= i < |names| ==> IsName(names[i]) && (IsXmlns(names[i]) ==> IsDeclaration(attrs[i]))
    ensures forall x :: x in Items(attrs, names, scope) ==> IsName(x.name) && !IsXmlns(x.name)
  {
    if attrs != [] { ItemNames(attrs[1..], names[1..], scope); }
  }

  /** The prefixes of the names of items. */
  function ItemPrefixes(xs: seq<Item>): set<string> { set x | x in xs && Prefix(x.name) != "" :: Prefix(x.name) }

  lemma {:induction false} PrefixesOfFirst(x: Item, xs: seq<Item>)
    ensures ItemPrefixes([x] + xs) == (if Prefix(x.name) == "" then {} else {Prefix(x.name)}) + ItemPrefixes(xs)
  {
    var all := [x] + xs;
    assert all[0] == x;
    forall y | y in xs ensures y in all {
      var i :| 0 <= i < |xs| && xs[i] == y;
      assert all[i + 1] == y;
    }
  }

  lemma {:induction false} PlainPrefixesOf(attrs: seq<Attr>, names: seq<string>, scope: Scope)
    requires |attrs| == |names|
    ensures ItemPrefixes(Items(attrs, names, scope)) == PlainPrefixes(attrs, names)
  {
    if attrs != [] {
      PlainPrefixesOf(attrs[1..], names[1..], scope);
      PrefixesOfFirst(AttrItem(names[0], attrs[0].value, scope), Items(attrs[1..], names[1..], scope));
    }
  }

  lemma {:induction false} UsedPrefixesOf(xs: seq<Item>)
    ensures UsedByAttrs(Pairs(xs)) == ItemPrefixes(xs)
  {
    if xs != [] {
      UsedPrefixesOf(xs[1..]);
      PrefixesOfFirst(xs[0], xs[1..]);
      assert xs == [xs[0]] + xs[1..];
    }
  }

  lemma {:induction false} SortedPrefixes(xs: seq<Item>)
    ensures ItemPrefixes(Sort(xs)) == ItemPrefixes(xs)
  {
    forall x ensures x in Sort(xs) <==> x in xs { MemberOfSorted(xs, x); }
  }

  /** Sorting does not change which prefixes are used. */
  lemma {:induction false} UsedBySorted(tag: Tag, inner: Scope)
    requires Aligned(tag)
    ensures Used(tag.name, AttrPairs(tag, inner)) == TagUses(tag)
  {
    var items := Items(tag.el.attrs, tag.attrNames, inner);
    PlainPrefixesOf(tag.el.attrs, tag.attrNames, inner);
    SortedPrefixes(items);
    UsedPrefixesOf(Sort(items));
  }

  lemma {:induction false} PairNames(xs: seq<Item>)
    requires forall x :: x in xs ==> IsName(x.name) && !IsXmlns(x.name)
    ensures PlainNames(Pairs(xs))
  {
    if xs != [] { PairNames(xs[1..]); }
  }

  lemma {:induction false} TagMeaning(tag: Tag, inner: Scope)
    requires TagNamed(tag)
    ensures TagOk(tag.name, Uses(tag, inner), AttrPairs(tag, inner))
  {
    UsedBySorted(tag, inner);
    var items := Items(tag.el.attrs, tag.attrNames, inner);
    ItemNames(tag.el.attrs, tag.attrNames, inner);
    forall x ensures x in Sort(items) <==> x in items { MemberOfSorted(items, x); }
    PairNames(Sort(items));
  }

  lemma {:induction false} MeaningValid(f: Forest<Tag>, scope: Scope)
    requires WellNamed(f)
    ensures Valid(MeaningOf(f, scope))
  {
    match f
    case Nil =>
    case Leaf(_, r) => MeaningValid(r, scope);
    case Elem(tag, k, r) =>
      var inner := Inside(scope, tag.el.attrs);
      TagMeaning(tag, inner);
      MeaningValid(k, inner);
      MeaningValid(r, scope);
  }

  /** An XML reader that knows nothing of canonicalization gets the meaning of the tree from its canonical text:
      names, the URIs the prefixes are bound to, attribute values and text, all as they were. */
  lemma {:induction false} CanonicalReadBack(f: Forest<Tag>, scope: Scope, rendered: Scope)
    requires WellNamed(f)
    ensures ReadText(Canonical(f, scope, rendered, ""), rendered) == Some(MeaningOf(f, scope))
  {
    CanonicalPrints(f, scope, rendered, "");
    MeaningValid(f, scope);
    var w := PrintRead(MeaningOf(f, scope), rendered, "");
  }

  /** Two trees have the same canonical text exactly when they mean the same. */
  lemma {:induction false} CanonicalTextIsMeaning(f: Forest<Tag>, scope: Scope, g: Forest<Tag>, scope': Scope,
                                                  rendered: Scope)
    requires WellNamed(f) && WellNamed(g)
    ensures Canonical(f, scope, rendered, "") == Canonical(g, scope', rendered, "") <==>
            MeaningOf(f, scope) == MeaningOf(g, scope')
  {
    CanonicalPrints(f, scope, rendered, "");
    CanonicalPrints(g, scope', rendered, "");
    CanonicalReadBack(f, scope, rendered);
    CanonicalReadBack(g, scope', rendered);
  }
}
