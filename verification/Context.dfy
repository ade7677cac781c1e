/** What canonical text depends on: free prefixes from outside, sets of attributes inside. */
module Context {
  import opened Text
  import opened Order
  import opened Xml
  import opened Canon
  import opened Unambiguous

  // ---- free prefixes ----

  function Declared(attrs: seq<Attr>): set<string> {
    if attrs == [] then {}
    else Declared(attrs[1..]) + if IsDeclaration(attrs[0]) then {DeclaredPrefix(attrs[0])} else {}
  }

  /** The prefixes a forest uses without declaring them. */
  ghost function FreePrefixes(f: Forest<Tag>): set<string>
    requires AllAligned(f)
  {
    match f
    case Nil => {}
    case Leaf(_, r) => FreePrefixes(r)
    case Elem(tag, k, r) => ((TagUses(tag) + FreePrefixes(k)) - Declared(tag.el.attrs)) + FreePrefixes(r)
  }

  ghost predicate Agree(s: Scope, s': Scope, prefixes: set<string>) {
    forall p :: p in prefixes ==> Lookup(s, p) == Lookup(s', p)
  }

  /** A tag's own declarations hide the scope around it; every other prefix shines through. */
  lemma {:induction false} InsideHides(s: Scope, s': Scope, attrs: seq<Attr>, p: string)
    ensures p in Declared(attrs) ==>
            p in Inside(s, attrs) && p in Inside(s', attrs) && Inside(s, attrs)[p] == Inside(s', attrs)[p]
    ensures p !in Declared(attrs) ==> Lookup(Inside(s, attrs), p) == Lookup(s, p) && (p in Inside(s, attrs) <==> p in s)
    decreases |attrs|
  {
    if attrs != [] {
      var a := attrs[0];
      if IsDeclaration(a) {
        var q := DeclaredPrefix(a);
        InsideHides(s[q := a.value], s'[q := a.value], attrs[1..], p);
        if p == q { InsideSame(s[q := a.value], s'[q := a.value], attrs[1..], p); }
      } else {
        InsideHides(s, s', attrs[1..], p);
      }
    }
  }

  lemma {:induction false} InsideSame(s: Scope, s': Scope, attrs: seq<Attr>, p: string)
    requires p in s && p in s' && s[p] == s'[p]
    ensures p in Inside(s, attrs) && p in Inside(s', attrs) && Inside(s, attrs)[p] == Inside(s', attrs)[p]
    decreases |attrs|
  {
    if attrs != [] {
      var a := attrs[0];
      if IsDeclaration(a) {
        InsideSame(s[DeclaredPrefix(a) := a.value], s'[DeclaredPrefix(a) := a.value], attrs[1..], p);
      } else {
        InsideSame(s, s', attrs[1..], p);
      }
    }
  }

  lemma {:induction false} ItemsAgree(attrs: seq<Attr>, names: seq<string>, s: Scope, s': Scope)
    requires |attrs| == |names| && Agree(s, s', PlainPrefixes(attrs, names))
    ensures Items(attrs, names, s) == Items(attrs, names, s')
  {
    if attrs != [] { ItemsAgree(attrs[1..], names[1..], s, s'); }
  }

  lemma {:induction false} InnerAgrees(s: Scope, s': Scope, attrs: seq<Attr>, prefixes: set<string>)
    requires Agree(s, s', prefixes - Declared(attrs))
    ensures Agree(Inside(s, attrs), Inside(s', attrs), prefixes)
  {
    forall p | p in prefixes ensures Lookup(Inside(s, attrs), p) == Lookup(Inside(s', attrs), p) {
      InsideHides(s, s', attrs, p);
      InsideHides(s', s, attrs, p);
    }
  }

  lemma {:induction false} TagAgrees(tag: Tag, inner: Scope, inner': Scope)
    requires Aligned(tag) && Agree(inner, inner', TagUses(tag))
    ensures Uses(tag, inner) == Uses(tag, inner') && AttrPairs(tag, inner) == AttrPairs(tag, inner')
  {
    ItemsAgree(tag.el.attrs, tag.attrNames, inner, inner');
  }

  /** Scopes that agree on the free prefixes give a forest the same meaning. */
  lemma {:induction false} MeaningOfFree(f: Forest<Tag>, s: Scope, s': Scope)
    requires AllAligned(f) && Agree(s, s', FreePrefixes(f))
    ensures MeaningOf(f, s) == MeaningOf(f, s')
  {
    match f
    case Nil =>
    case Leaf(_, r) => MeaningOfFree(r, s, s');
    case Elem(tag, k, r) =>
      var inner, inner' := Inside(s, tag.el.attrs), Inside(s', tag.el.attrs);
      InnerAgrees(s, s', tag.el.attrs, TagUses(tag) + FreePrefixes(k));
      TagAgrees(tag, inner, inner');
      MeaningOfFree(k, inner, inner');
      MeaningOfFree(r, s, s');
  }

  lemma {:induction false} SayInjective(t: string, m: Meaning, n: Meaning)
    requires Say(t, m) == Say(t, n)
    requires m.MText? ==> m.text != ""
    requires n.MText? ==> n.text != ""
    ensures m == n
  {
    if t != "" && m.MText? && n.MText? {
      DropPrefix(t, m.text, n.text);
    }
  }

  lemma {:induction false} NoEmptyText(f: Forest<Tag>, s: Scope)
    requires AllAligned(f)
    ensures MeaningOf(f, s).MText? ==> MeaningOf(f, s).text != ""
  {
    match f
    case Nil =>
    case Leaf(_, r) => NoEmptyText(r, s);
    case Elem(_, _, _) =>
  }

  /** And only such scopes do. */
  lemma {:induction false} FreeOfMeaning(f: Forest<Tag>, s: Scope, s': Scope)
    requires AllAligned(f) && MeaningOf(f, s) == MeaningOf(f, s')
    ensures Agree(s, s', FreePrefixes(f))
  {
    match f
    case Nil =>
    case Leaf(t, r) =>
      NoEmptyText(r, s);
      NoEmptyText(r, s');
      SayInjective(Said(t), MeaningOf(r, s), MeaningOf(r, s'));
      FreeOfMeaning(r, s, s');
    case Elem(tag, k, r) =>
      var inner, inner' := Inside(s, tag.el.attrs), Inside(s', tag.el.attrs);
      FreeOfMeaning(k, inner, inner');
      FreeOfMeaning(r, s, s');
      forall p | p in (TagUses(tag) + FreePrefixes(k)) - Declared(tag.el.attrs) ensures Lookup(s, p) == Lookup(s', p) {
        InsideHides(s, s', tag.el.attrs, p);
        InsideHides(s', s, tag.el.attrs, p);
        if p in TagUses(tag) { assert Uses(tag, inner)[p] == Uses(tag, inner')[p]; }
      }
  }

  /** Canonical text depends on the surrounding document exactly through the free prefixes. */
  lemma {:induction false} ContextThroughFreePrefixes(f: Forest<Tag>, s: Scope, s': Scope, rendered: Scope)
    requires WellNamed(f)
    ensures Canonical(f, s, rendered, "") == Canonical(f, s', rendered, "") <==> Agree(s, s', FreePrefixes(f))
  {
    CanonicalTextIsMeaning(f, s, f, s', rendered);
    if Agree(s, s', FreePrefixes(f)) { MeaningOfFree(f, s, s'); }
    if MeaningOf(f, s) == MeaningOf(f, s') { FreeOfMeaning(f, s, s'); }
  }

  // ---- order of attributes and declarations ----

  function Zip(attrs: seq<Attr>, names: seq<string>): seq<(Attr, string)>
    requires |attrs| == |names|
  {
    seq(|attrs|, i requires 0 <= i < |attrs| => (attrs[i], names[i]))
  }

  ghost predicate DistinctDeclarations(attrs: seq<Attr>) {
    forall i, j :: 0 <= i < j < |attrs| && IsDeclaration(attrs[i]) && IsDeclaration(attrs[j]) ==>
      DeclaredPrefix(attrs[i]) != DeclaredPrefix(attrs[j])
  }

  /** The two tags hold the same attributes, in any order, without repeated prefixes or names. */
  ghost predicate SameTag(t: Tag, u: Tag, inner: Scope, inner': Scope) {
    && Aligned(t) && Aligned(u) && t.name == u.name
    && (forall x :: x in Zip(t.el.attrs, t.attrNames) <==> x in Zip(u.el.attrs, u.attrNames))
    && DistinctDeclarations(t.el.attrs) && DistinctDeclarations(u.el.attrs)
    && DistinctKeys(Items(t.el.attrs, t.attrNames, inner)) && DistinctKeys(Items(u.el.attrs, u.attrNames, inner'))
  }

  ghost predicate Shuffled(f: Forest<Tag>, g: Forest<Tag>, scope: Scope) {
    match f
    case Nil => g.Nil?
    case Leaf(t, r) => g.Leaf? && g.text == t && Shuffled(r, g.rest, scope)
    case Elem(tag, k, r) =>
      && g.Elem? && SameTag(tag, g.tag, Inside(scope, tag.el.attrs), Inside(scope, g.tag.el.attrs))
      && Shuffled(k, g.kids, Inside(scope, tag.el.attrs)) && Shuffled(r, g.rest, scope)
  }

  /** With distinct prefixes the scope inside a tag is a matter of which declarations it has. */
  lemma {:induction false} InsideByMembers(s: Scope, attrs: seq<Attr>, p: string)
    requires DistinctDeclarations(attrs)
    ensures p in Inside(s, attrs) <==> p in s || exists a :: a in attrs && IsDeclaration(a) && DeclaredPrefix(a) == p
    ensures forall a :: a in attrs && IsDeclaration(a) && DeclaredPrefix(a) == p ==>
            p in Inside(s, attrs) && Inside(s, attrs)[p] == a.value
    ensures p in s && (forall a :: a in attrs && IsDeclaration(a) ==> DeclaredPrefix(a) != p) ==>
            Inside(s, attrs)[p] == s[p]
    decreases |attrs|
  {
    if attrs != [] {
      var a := attrs[0];
      var s2 := if IsDeclaration(a) then s[DeclaredPrefix(a) := a.value] else s;
      InsideByMembers(s2, attrs[1..], p);
      assert forall b :: b in attrs <==> b == a || b in attrs[1..];
      assert a in attrs;
      if IsDeclaration(a) {
        forall b | b in attrs[1..] && IsDeclaration(b) ensures DeclaredPrefix(b) != DeclaredPrefix(a) {
          var j :| 0 <= j < |attrs[1..]| && attrs[1..][j] == b;
          assert attrs[j + 1] == b;
        }
      }
    }
  }

  lemma {:induction false} ZipMembers(attrs: seq<Attr>, names: seq<string>, attrs': seq<Attr>, names': seq<string>)
    requires |attrs| == |names| && |attrs'| == |names'|
    requires forall x :: x in Zip(attrs, names) <==> x in Zip(attrs', names')
    ensures forall a :: a in attrs ==> a in attrs'
  {
    forall a | a in attrs ensures a in attrs' {
      var i :| 0 <= i < |attrs| && attrs[i] == a;
      var z, z' := Zip(attrs, names), Zip(attrs', names');
      assert z[i] in z;
      var j :| 0 <= j < |z'| && z'[j] == z[i];
      assert attrs'[j] == a;
    }
  }

  lemma {:induction false} ShuffledScope(s: Scope, t: Tag, u: Tag, inner: Scope, inner': Scope)
    requires SameTag(t, u, inner, inner')
    ensures Inside(s, t.el.attrs) == Inside(s, u.el.attrs)
  {
    ZipMembers(t.el.attrs, t.attrNames, u.el.attrs, u.attrNames);
    ZipMembers(u.el.attrs, u.attrNames, t.el.attrs, t.attrNames);
    var a, b := Inside(s, t.el.attrs), Inside(s, u.el.attrs);
    forall p ensures p in a <==> p in b
             ensures p in a ==> a[p] == b[p]
    {
      InsideByMembers(s, t.el.attrs, p);
      InsideByMembers(s, u.el.attrs, p);
    }
  }

  lemma {:induction false} ItemMembers(attrs: seq<Attr>, names: seq<string>, scope: Scope, x: Item)
    requires |attrs| == |names|
    ensures x in Items(attrs, names, scope) <==>
            exists z :: z in Zip(attrs, names) && !IsDeclaration(z.0) && x == AttrItem(z.1, z.0.value, scope)
  {
    var zip := Zip(attrs, names);
    if attrs != [] {
      ItemMembers(attrs[1..], names[1..], scope, x);
      assert zip == [(attrs[0], names[0])] + Zip(attrs[1..], names[1..]);
      assert zip[0] in zip;
      assert forall z :: z in zip <==> z == zip[0] || z in Zip(attrs[1..], names[1..]);
    }
  }

  lemma {:induction false} ShuffledTag(t: Tag, u: Tag, inner: Scope)
    requires SameTag(t, u, inner, inner)
    ensures AttrPairs(t, inner) == AttrPairs(u, inner) && TagUses(t) == TagUses(u)
  {
    forall x ensures x in Items(t.el.attrs, t.attrNames, inner) <==> x in Items(u.el.attrs, u.attrNames, inner) {
      ItemMembers(t.el.attrs, t.attrNames, inner, x);
      ItemMembers(u.el.attrs, u.attrNames, inner, x);
    }
    SortPermutation(Items(t.el.attrs, t.attrNames, inner), Items(u.el.attrs, u.attrNames, inner));
    UsedBySorted(t, inner);
    UsedBySorted(u, inner);
  }

  lemma {:induction false} ShuffledMeaning(f: Forest<Tag>, g: Forest<Tag>, scope: Scope)
    requires AllAligned(f) && AllAligned(g) && Shuffled(f, g, scope)
    ensures MeaningOf(f, scope) == MeaningOf(g, scope)
  {
    match f
    case Nil =>
    case Leaf(_, r) => ShuffledMeaning(r, g.rest, scope);
    case Elem(tag, k, r) =>
      var inner := Inside(scope, tag.el.attrs);
      ShuffledScope(scope, tag, g.tag, inner, Inside(scope, g.tag.el.attrs));
      ShuffledTag(tag, g.tag, inner);
      ShuffledMeaning(k, g.kids, inner);
      ShuffledMeaning(r, g.rest, scope);
  }

  /** Reordering attributes and declarations never changes canonical text. */
  lemma {:induction false} OrderIrrelevant(f: Forest<Tag>, g: Forest<Tag>, scope: Scope, rendered: Scope, tail: string)
    requires AllAligned(f) && AllAligned(g) && Shuffled(f, g, scope)
    ensures Canonical(f, scope, rendered, tail) == Canonical(g, scope, rendered, tail)
  {
    ShuffledMeaning(f, g, scope);
    CanonicalPrints(f, scope, rendered, tail);
    CanonicalPrints(g, scope, rendered, tail);
  }

  // ---- what order they come in ----

  /** A qualified name is split at its first colon. */
  lemma {:induction false} SplitsAtFirstColon(qn: string)
    ensures ':' !in qn ==> Prefix(qn) == "" && Local(qn) == qn
    ensures ':' in qn ==> qn == Prefix(qn) + ":" + Local(qn) && ':' !in Prefix(qn)
  {
    if qn != "" && qn[0] != ':' {
      SplitsAtFirstColon(qn[1..]);
      assert qn == [qn[0]] + qn[1..];
      if Colon(qn) < |qn| { assert qn[..Colon(qn)] == [qn[0]] + qn[1..][..Colon(qn[1..])]; }
    }
  }

  /** The namespace an attribute name has where `inner` is in force; without a prefix it has none. */
  function AttrSpace(name: string, inner: Scope): string {
    if Prefix(name) == "" then "" else Lookup(inner, Prefix(name))
  }

  lemma {:induction false} PairsAt(items: seq<Item>, i: nat)
    ensures |Pairs(items)| == |items|
    ensures i < |items| ==> Pairs(items)[i] == Pair(items[i].name, items[i].value)
  {
    if items != [] { PairsAt(items[1..], if i > 0 then i - 1 else 0); }
  }

  lemma {:induction false} SortedItem(tag: Tag, inner: Scope, x: Item)
    requires Aligned(tag)
    ensures x in Sort(Items(tag.el.attrs, tag.attrNames, inner)) <==>
            exists i :: 0 <= i < |tag.attrNames| && !IsDeclaration(tag.el.attrs[i])
                        && x == AttrItem(tag.attrNames[i], tag.el.attrs[i].value, inner)
  {
    var attrs, names := tag.el.attrs, tag.attrNames;
    MemberOfSorted(Items(attrs, names, inner), x);
    ItemMembers(attrs, names, inner, x);
    var zip := Zip(attrs, names);
    assert forall i :: 0 <= i < |zip| ==> zip[i] in zip && zip[i] == (attrs[i], names[i]);
  }

  /** A tag's attributes are written out with their own values, all but the declarations, in increasing order
      of namespace and then local name. */
  lemma {:induction false} AttributesInOrder(tag: Tag, inner: Scope)
    requires Aligned(tag) && DistinctKeys(Items(tag.el.attrs, tag.attrNames, inner))
    ensures forall x :: x in AttrPairs(tag, inner) <==>
              exists i :: 0 <= i < |tag.attrNames| && !IsDeclaration(tag.el.attrs[i])
                          && x == Pair(tag.attrNames[i], tag.el.attrs[i].value)
    ensures
      forall i, j :: 0 <= i < j < |AttrPairs(tag, inner)| ==>
        var a, b := AttrPairs(tag, inner)[i].name, AttrPairs(tag, inner)[j].name;
        || Less(AttrSpace(a, inner), AttrSpace(b, inner))
        || (AttrSpace(a, inner) == AttrSpace(b, inner) && Less(Local(a), Local(b)))
  {
    var sorted := Sort(Items(tag.el.attrs, tag.attrNames, inner));
    var pairs := AttrPairs(tag, inner);
    SortIncreasing(Items(tag.el.attrs, tag.attrNames, inner));
    PairsAt(sorted, 0);
    forall i | 0 <= i < |sorted|
      ensures pairs[i] == Pair(sorted[i].name, sorted[i].value)
      ensures sorted[i].major == AttrSpace(sorted[i].name, inner) && sorted[i].minor == Local(sorted[i].name)
    {
      PairsAt(sorted, i);
      assert sorted[i] in sorted;
      SortedItem(tag, inner, sorted[i]);
    }
    forall i, j | 0 <= i < j < |pairs|
      ensures var a, b := pairs[i].name, pairs[j].name;
              Less(AttrSpace(a, inner), AttrSpace(b, inner))
              || (AttrSpace(a, inner) == AttrSpace(b, inner) && Less(Local(a), Local(b)))
    {
      assert Before(sorted[i], sorted[j]);
    }
    PairMembers(tag, inner, sorted, pairs);
  }

  lemma {:induction false} PairMembers(tag: Tag, inner: Scope, sorted: seq<Item>, pairs: seq<Pair>)
    requires Aligned(tag) && sorted == Sort(Items(tag.el.attrs, tag.attrNames, inner)) && |pairs| == |sorted|
    requires forall i :: 0 <= i < |sorted| ==> pairs[i] == Pair(sorted[i].name, sorted[i].value)
    ensures forall x :: x in pairs <==>
              exists i :: 0 <= i < |tag.attrNames| && !IsDeclaration(tag.el.attrs[i])
                          && x == Pair(tag.attrNames[i], tag.el.attrs[i].value)
  {
    forall k | 0 <= k < |pairs|
      ensures exists i :: 0 <= i < |tag.attrNames| && !IsDeclaration(tag.el.attrs[i])
                          && pairs[k] == Pair(tag.attrNames[i], tag.el.attrs[i].value)
    {
      assert sorted[k] in sorted;
      SortedItem(tag, inner, sorted[k]);
    }
    forall i | 0 <= i < |tag.attrNames| && !IsDeclaration(tag.el.attrs[i])
      ensures Pair(tag.attrNames[i], tag.el.attrs[i].value) in pairs
    {
      var x := AttrItem(tag.attrNames[i], tag.el.attrs[i].value, inner);
      SortedItem(tag, inner, x);
      var k :| 0 <= k < |sorted| && sorted[k] == x;
      assert pairs[k] == Pair(x.name, x.value);
    }
  }
}
