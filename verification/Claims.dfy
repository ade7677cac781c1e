/** Everything an accepted assertion claims is determined by the bytes its signature covers. */
module Claims {
  import opened Text
  import opened Xml
  import opened Document
  import opened Canon
  import opened Canonicalizer
  import opened Unambiguous
  import opened Signature
  import opened Response

  // ---- reading a meaning instead of tokens ----

  /** An element of a meaning: its attributes and what is inside it. */
  datatype Sense = Sense(attrs: seq<Pair>, kids: Meaning)

  function PairValue(pairs: seq<Pair>, local: string): Option<string> {
    if pairs == [] then None
    else if Local(pairs[0].name) == local then Some(pairs[0].value)
    else PairValue(pairs[1..], local)
  }

  predicate Called(name: string, uses: map<string, string>, space: string, local: string) {
    Local(name) == local && Lookup(uses, Prefix(name)) == space
  }

  function FirstIn(m: Meaning, space: string, local: string): Option<Sense> {
    match m
    case MNil => None
    case MText(_, r) => FirstIn(r, space, local)
    case MElem(name, uses, attrs, k, r) =>
      if Called(name, uses, space, local) then Some(Sense(attrs, k)) else FirstIn(r, space, local)
  }

  function AllIn(m: Meaning, space: string, local: string): seq<Sense> {
    match m
    case MNil => []
    case MText(_, r) => AllIn(r, space, local)
    case MElem(name, uses, attrs, k, r) =>
      (if Called(name, uses, space, local) then [Sense(attrs, k)] else AllIn(k, space, local)) + AllIn(r, space, local)
  }

  function TextIn(m: Meaning): string {
    match m
    case MNil => ""
    case MText(t, r) => t + TextIn(r)
    case MElem(_, _, _, k, r) => TextIn(k) + TextIn(r)
  }

  function Words(s: Sense): string { TrimSpace(TextIn(s.kids)) }

  function IssuerIn(a: Sense): string {
    var n := FirstIn(a.kids, SAML, "Issuer");
    if n.Some? then Words(n.value) else ""
  }

  function SubjectIn(a: Sense): Option<Option<NameID>> {
    var s := FirstIn(a.kids, SAML, "Subject");
    if s.None? then None
    else
      var n := FirstIn(s.value.kids, SAML, "NameID");
      Some(if n.Some? then Some(NameID(Words(n.value), OrEmpty(PairValue(n.value.attrs, "Format")))) else None)
  }

  function ConfirmationIn(a: Sense): Option<Confirmation> {
    var s := FirstIn(a.kids, SAML, "Subject");
    if s.None? then None
    else
      var c := FirstIn(s.value.kids, SAML, "SubjectConfirmation");
      if c.None? then None
      else
        var d := FirstIn(c.value.kids, SAML, "SubjectConfirmationData");
        if d.None? then None
        else Some(Confirmation(PairValue(d.value.attrs, "Recipient"), PairValue(d.value.attrs, "InResponseTo"),
                               PairValue(d.value.attrs, "NotOnOrAfter")))
  }

  function AllWords(ss: seq<Sense>): seq<string> {
    if ss == [] then [] else [Words(ss[0])] + AllWords(ss[1..])
  }

  function ConditionsIn(a: Sense): Option<Conditions> {
    var c := FirstIn(a.kids, SAML, "Conditions");
    if c.None? then None
    else
      var r := FirstIn(c.value.kids, SAML, "AudienceRestriction");
      Some(Conditions(PairValue(c.value.attrs, "NotBefore"), PairValue(c.value.attrs, "NotOnOrAfter"),
                      if r.None? then None else Some(AllWords(AllIn(r.value.kids, SAML, "Audience")))))
  }

  function ClaimIn(s: Sense): Statement {
    var name := OrEmpty(PairValue(s.attrs, "Name"));
    Statement(if name == "" then OrEmpty(PairValue(s.attrs, "FriendlyName")) else name,
              AllWords(AllIn(s.kids, SAML, "AttributeValue")))
  }

  function ClaimsIn(ss: seq<Sense>): seq<Statement> {
    if ss == [] then [] else [ClaimIn(ss[0])] + ClaimsIn(ss[1..])
  }

  function AllClaimsIn(ss: seq<Sense>): seq<Statement> {
    if ss == [] then [] else ClaimsIn(AllIn(ss[0].kids, SAML, "Attribute")) + AllClaimsIn(ss[1..])
  }

  /** The reading of an assertion, from its meaning alone. */
  function ReadingIn(a: Sense): Reading {
    Reading(OrEmpty(PairValue(a.attrs, "ID")), IssuerIn(a), SubjectIn(a), ConfirmationIn(a), ConditionsIn(a),
            AllClaimsIn(AllIn(a.kids, SAML, "AttributeStatement")))
  }

  // ---- trees whose meaning shows what the searches see ----

  /** The namespaces and attribute names that are looked for. */
  datatype Vocabulary = Vocabulary(spaces: set<string>, attrs: set<string>)

  /** What is looked for in an assertion. */
  const READ := Vocabulary({SAML, DS},
                           {"ID", "Format", "Recipient", "InResponseTo", "NotOnOrAfter", "NotBefore", "Name",
                            "FriendlyName"})

  lemma {:induction false} ReadCovers()
    ensures SAML in READ.spaces && DS in READ.spaces && "Name" in READ.attrs && "FriendlyName" in READ.attrs
  {
  }

  /** The decoded tag and the written tag answer every question of the vocabulary alike. */
  ghost predicate Plain(tag: Tag, inner: Scope, v: Vocabulary) {
    && Aligned(tag) && tag.el.local == Local(tag.name)
    && (forall s :: s in v.spaces ==> (tag.el.space == s <==> Lookup(inner, Prefix(tag.name)) == s))
    && (forall l :: l in v.attrs ==> AttrValue(tag.el.attrs, l) == PairValue(AttrPairs(tag, inner), l))
  }

  ghost predicate Clean(f: Forest<Tag>, scope: Scope, v: Vocabulary)
    ensures Clean(f, scope, v) ==> AllAligned(f)
  {
    match f
    case Nil => true
    case Leaf(_, r) => Clean(r, scope, v)
    case Elem(tag, k, r) =>
      var inner := Inside(scope, tag.el.attrs);
      Plain(tag, inner, v) && Clean(k, inner, v) && Clean(r, scope, v)
  }

  /** `s` is the meaning of the node `n`. */
  ghost predicate Shows(n: Node, s: Sense, v: Vocabulary) {
    && Plain(n.tag, Inner(n), v) && Clean(n.kids, Inner(n), v)
    && s == Sense(AttrPairs(n.tag, Inner(n)), MeaningOf(n.kids, Inner(n)))
  }

  ghost predicate ShowsIf(n: Option<Node>, s: Option<Sense>, v: Vocabulary) {
    n.Some? == s.Some? && (n.Some? ==> Shows(n.value, s.value, v))
  }

  ghost predicate ShowsAll(ns: seq<Node>, ss: seq<Sense>, v: Vocabulary) {
    |ns| == |ss| && forall i :: 0 <= i < |ns| ==> Shows(ns[i], ss[i], v)
  }

  lemma {:induction false} SayIsQuiet(text: string, m: Meaning, space: string, local: string)
    ensures FirstIn(Say(text, m), space, local) == FirstIn(m, space, local)
    ensures AllIn(Say(text, m), space, local) == AllIn(m, space, local)
    ensures TextIn(Say(text, m)) == text + TextIn(m)
  {
    if text != "" && m.MText? { Regroup(text, m.text, TextIn(m.rest)); }
  }

  lemma {:induction false} TextShown(f: Forest<Tag>, scope: Scope)
    requires AllAligned(f)
    ensures TextIn(MeaningOf(f, scope)) == TextOf(f)
  {
    match f
    case Nil =>
    case Leaf(t, r) =>
      TextShown(r, scope);
      SayIsQuiet(Said(t), MeaningOf(r, scope), "", "");
    case Elem(tag, k, r) =>
      TextShown(k, Inside(scope, tag.el.attrs));
      TextShown(r, scope);
  }

  lemma {:induction false} TagCalled(tag: Tag, inner: Scope, v: Vocabulary, space: string, local: string)
    requires Plain(tag, inner, v) && space in v.spaces
    ensures Called(tag.name, Uses(tag, inner), space, local) <==> Named(tag.el, space, local)
  {
    assert Lookup(Uses(tag, inner), Prefix(tag.name)) == Lookup(inner, Prefix(tag.name));
  }

  lemma {:induction false} ElementShown(tag: Tag, k: Forest<Tag>, r: Forest<Tag>, pos: nat, scope: Scope, v: Vocabulary)
    requires Clean(Elem(tag, k, r), scope, v)
    ensures
      var inner := Inside(scope, tag.el.attrs);
      Shows(Node(pos, tag, k, scope), Sense(AttrPairs(tag, inner), MeaningOf(k, inner)), v)
  {
  }

  lemma {:induction false} FirstShown(f: Forest<Tag>, pos: nat, scope: Scope, v: Vocabulary, space: string,
                                      local: string)
    requires Clean(f, scope, v) && space in v.spaces
    ensures ShowsIf(FirstChild(f, pos, scope, space, local), FirstIn(MeaningOf(f, scope), space, local), v)
  {
    match f
    case Nil =>
    case Leaf(t, r) =>
      FirstShown(r, pos + 1, scope, v, space, local);
      SayIsQuiet(Said(t), MeaningOf(r, scope), space, local);
    case Elem(tag, k, r) =>
      TagCalled(tag, Inside(scope, tag.el.attrs), v, space, local);
      ElementShown(tag, k, r, pos, scope, v);
      FirstShown(r, pos + 2 + Size(k), scope, v, space, local);
  }

  lemma {:induction false} ChildShown(n: Node, s: Sense, v: Vocabulary, space: string, local: string)
    requires Shows(n, s, v) && space in v.spaces
    ensures ShowsIf(Child(n, space, local), FirstIn(s.kids, space, local), v)
  {
    FirstShown(n.kids, n.pos + 1, Inner(n), v, space, local);
  }

  lemma {:induction false} ShowsJoin(ns: seq<Node>, ss: seq<Sense>, ns': seq<Node>, ss': seq<Sense>, v: Vocabulary)
    requires ShowsAll(ns, ss, v) && ShowsAll(ns', ss', v)
    ensures ShowsAll(ns + ns', ss + ss', v)
  {
    var all, all' := ns + ns', ss + ss';
    forall i | 0 <= i < |all| ensures Shows(all[i], all'[i], v) {
      if i < |ns| { assert all[i] == ns[i] && all'[i] == ss[i]; }
      else { assert all[i] == ns'[i - |ns|] && all'[i] == ss'[i - |ns|]; }
    }
  }

  lemma {:induction false} ShowsOne(n: Node, s: Sense, v: Vocabulary)
    requires Shows(n, s, v)
    ensures ShowsAll([n], [s], v)
  {
  }

  lemma {:induction false} AllShown(f: Forest<Tag>, pos: nat, scope: Scope, v: Vocabulary, space: string, local: string)
    requires Clean(f, scope, v) && space in v.spaces && space != ""
    ensures ShowsAll(Outermost(f, pos, scope, space, local), AllIn(MeaningOf(f, scope), space, local), v)
  {
    match f
    case Nil =>
    case Leaf(t, r) =>
      AllShown(r, pos + 1, scope, v, space, local);
      SayIsQuiet(Said(t), MeaningOf(r, scope), space, local);
    case Elem(tag, k, r) =>
      AllShown(k, pos + 1, Inside(scope, tag.el.attrs), v, space, local);
      AllShown(r, pos + 2 + Size(k), scope, v, space, local);
      AllShownHere(tag, k, r, pos, scope, v, space, local,
        Outermost(k, pos + 1, Inside(scope, tag.el.attrs), space, local),
        AllIn(MeaningOf(k, Inside(scope, tag.el.attrs)), space, local),
        Outermost(r, pos + 2 + Size(k), scope, space, local), AllIn(MeaningOf(r, scope), space, local));
  }

  lemma {:induction false} AllShownHere(tag: Tag, k: Forest<Tag>, r: Forest<Tag>, pos: nat, scope: Scope,
                                        v: Vocabulary, space: string, local: string, below: seq<Node>,
                                        below': seq<Sense>, after: seq<Node>, after': seq<Sense>)
    requires Clean(Elem(tag, k, r), scope, v) && space in v.spaces && space != ""
    requires ShowsAll(below, below', v) && ShowsAll(after, after', v)
    ensures
      var inner := Inside(scope, tag.el.attrs);
      ShowsAll((if NamedLoosely(tag.el, space, local) then [Node(pos, tag, k, scope)] else below) + after,
               (if Called(tag.name, Uses(tag, inner), space, local)
                then [Sense(AttrPairs(tag, inner), MeaningOf(k, inner))] else below') + after', v)
  {
    var inner := Inside(scope, tag.el.attrs);
    var n, s := Node(pos, tag, k, scope), Sense(AttrPairs(tag, inner), MeaningOf(k, inner));
    ElementShown(tag, k, r, pos, scope, v);
    ShowsOne(n, s, v);
    TagCalled(tag, inner, v, space, local);
    ShowsJoin([n], [s], after, after', v);
    ShowsJoin(below, below', after, after', v);
  }

  lemma {:induction false} DescendantsShown(n: Node, s: Sense, v: Vocabulary, space: string, local: string)
    requires Shows(n, s, v) && space in v.spaces && space != ""
    ensures ShowsAll(Descendants(n, space, local), AllIn(s.kids, space, local), v)
  {
    AllShown(n.kids, n.pos + 1, Inner(n), v, space, local);
  }

  lemma {:induction false} WordsShown(n: Node, s: Sense, v: Vocabulary)
    requires Shows(n, s, v)
    ensures TrimmedText(n) == Words(s)
  {
    TextShown(n.kids, Inner(n));
  }

  lemma {:induction false} AllWordsShown(ns: seq<Node>, ss: seq<Sense>, v: Vocabulary)
    requires ShowsAll(ns, ss, v)
    ensures Texts(ns) == AllWords(ss)
  {
    if ns != [] {
      WordsShown(ns[0], ss[0], v);
      AllWordsShown(ns[1..], ss[1..], v);
    }
  }

  lemma {:induction false} ClaimsShown(ns: seq<Node>, ss: seq<Sense>, v: Vocabulary)
    requires ShowsAll(ns, ss, v) && v == READ
    ensures Response.AttributesIn(ns) == ClaimsIn(ss)
  {
    if ns != [] {
      ReadCovers();
      Namespaces();
      DescendantsShown(ns[0], ss[0], v, SAML, "AttributeValue");
      AllWordsShown(Descendants(ns[0], SAML, "AttributeValue"), AllIn(ss[0].kids, SAML, "AttributeValue"), v);
      ClaimsShown(ns[1..], ss[1..], v);
    }
  }

  lemma {:induction false} AllClaimsShown(ns: seq<Node>, ss: seq<Sense>, v: Vocabulary)
    requires ShowsAll(ns, ss, v) && v == READ
    ensures Statements(ns) == AllClaimsIn(ss)
  {
    if ns != [] {
      ReadCovers();
      Namespaces();
      DescendantsShown(ns[0], ss[0], v, SAML, "Attribute");
      ClaimsShown(Descendants(ns[0], SAML, "Attribute"), AllIn(ss[0].kids, SAML, "Attribute"), v);
      AllClaimsShown(ns[1..], ss[1..], v);
    }
  }

  lemma {:induction false} StatementsJoin(ns: seq<Node>, ms: seq<Node>)
    ensures Statements(ns + ms) == Statements(ns) + Statements(ms)
  {
    if ns == [] { assert ns + ms == ms; }
    else {
      assert (ns + ms)[1..] == ns[1..] + ms;
      StatementsJoin(ns[1..], ms);
      Regroup(Response.AttributesIn(Descendants(ns[0], SAML, "Attribute")), Statements(ns[1..]), Statements(ms));
    }
  }

  lemma {:induction false} AllClaimsJoin(ss: seq<Sense>, ts: seq<Sense>)
    ensures AllClaimsIn(ss + ts) == AllClaimsIn(ss) + AllClaimsIn(ts)
  {
    if ss == [] { assert ss + ts == ts; }
    else {
      assert (ss + ts)[1..] == ss[1..] + ts;
      AllClaimsJoin(ss[1..], ts);
      Regroup(ClaimsIn(AllIn(ss[0].kids, SAML, "Attribute")), AllClaimsIn(ss[1..]), AllClaimsIn(ts));
    }
  }

  // ---- leaving out the enveloped signature ----

  /** `f` without its first element of a given name. */
  function WithoutFirst(f: Forest<Tag>, space: string, local: string): Forest<Tag> {
    match f
    case Nil => Nil
    case Leaf(t, r) => Leaf(t, WithoutFirst(r, space, local))
    case Elem(tag, k, r) => if Named(tag.el, space, local) then r else Elem(tag, k, WithoutFirst(r, space, local))
  }

  lemma {:induction false} PruneNothing(f: Forest<Tag>, pos: nat, p: nat)
    requires p < pos || pos + Size(f) <= p
    ensures Prune(f, pos, {p}) == f
  {
    match f
    case Nil =>
    case Leaf(_, r) => PruneNothing(r, pos + 1, p);
    case Elem(_, k, r) => PruneNothing(k, pos + 1, p); PruneNothing(r, pos + 2 + Size(k), p);
  }

  lemma {:induction false} PruneFirst(f: Forest<Tag>, pos: nat, scope: Scope, space: string, local: string)
    requires FirstChild(f, pos, scope, space, local).Some?
    ensures pos <= FirstChild(f, pos, scope, space, local).value.pos
    ensures Prune(f, pos, {FirstChild(f, pos, scope, space, local).value.pos}) == WithoutFirst(f, space, local)
  {
    match f
    case Leaf(_, r) => PruneFirst(r, pos + 1, scope, space, local);
    case Elem(tag, k, r) =>
      var after := pos + 2 + Size(k);
      if Named(tag.el, space, local) {
        PruneNothing(r, after, pos);
      } else {
        PruneFirst(r, after, scope, space, local);
        PruneNothing(k, pos + 1, FirstChild(r, after, scope, space, local).value.pos);
      }
  }

  /** A node without its index. */
  function Placeless(n: Option<Node>): Option<Node> {
    if n.Some? then Some(Node(0, n.value.tag, n.value.kids, n.value.scope)) else None
  }

  lemma {:induction false} FirstMoved(f: Forest<Tag>, pos: nat, pos': nat, scope: Scope, space: string, local: string)
    ensures Placeless(FirstChild(f, pos, scope, space, local)) == Placeless(FirstChild(f, pos', scope, space, local))
  {
    match f
    case Nil =>
    case Leaf(_, r) => FirstMoved(r, pos + 1, pos' + 1, scope, space, local);
    case Elem(_, k, r) => FirstMoved(r, pos + 2 + Size(k), pos' + 2 + Size(k), scope, space, local);
  }

  /** Leaving out the signature leaves the first child of another namespace in place. */
  lemma {:induction false} FirstWithout(f: Forest<Tag>, pos: nat, pos': nat, scope: Scope, gone: string, name: string,
                                        space: string, local: string)
    requires space != gone
    ensures Placeless(FirstChild(f, pos, scope, space, local)) ==
            Placeless(FirstChild(WithoutFirst(f, gone, name), pos', scope, space, local))
  {
    match f
    case Nil =>
    case Leaf(_, r) => FirstWithout(r, pos + 1, pos' + 1, scope, gone, name, space, local);
    case Elem(tag, k, r) =>
      if Named(tag.el, gone, name) {
        FirstMoved(r, pos + 2 + Size(k), pos', scope, space, local);
      } else {
        FirstWithout(r, pos + 2 + Size(k), pos' + 2 + Size(k), scope, gone, name, space, local);
      }
  }

  lemma {:induction false} CleanWithout(f: Forest<Tag>, scope: Scope, v: Vocabulary, gone: string, name: string)
    requires Clean(f, scope, v)
    ensures Clean(WithoutFirst(f, gone, name), scope, v)
  {
    match f
    case Nil =>
    case Leaf(_, r) => CleanWithout(r, scope, v, gone, name);
    case Elem(_, _, r) => CleanWithout(r, scope, v, gone, name);
  }

  // ---- what is read around the signature, and inside it ----

  function Join(f: Forest<Tag>, g: Forest<Tag>): Forest<Tag> {
    match f
    case Nil => g
    case Leaf(t, r) => Leaf(t, Join(r, g))
    case Elem(tag, k, r) => Elem(tag, k, Join(r, g))
  }

  lemma {:induction false} SplitAtFirst(f: Forest<Tag>, pos: nat, scope: Scope, space: string, local: string)
    returns (before: Forest<Tag>, after: Forest<Tag>)
    requires FirstChild(f, pos, scope, space, local).Some?
    ensures
      var n := FirstChild(f, pos, scope, space, local).value;
      && f == Join(before, Elem(n.tag, n.kids, after)) && WithoutFirst(f, space, local) == Join(before, after)
      && n.pos == pos + Size(before) && n.scope == scope && Named(n.tag.el, space, local)
  {
    match f
    case Leaf(t, r) =>
      before, after := SplitAtFirst(r, pos + 1, scope, space, local);
      before := Leaf(t, before);
    case Elem(tag, k, r) =>
      if Named(tag.el, space, local) {
        before, after := Nil, r;
      } else {
        before, after := SplitAtFirst(r, pos + 2 + Size(k), scope, space, local);
        before := Elem(tag, k, before);
      }
  }

  lemma {:induction false} CleanJoin(f: Forest<Tag>, g: Forest<Tag>, scope: Scope, v: Vocabulary)
    ensures Clean(Join(f, g), scope, v) <==> Clean(f, scope, v) && Clean(g, scope, v)
  {
    match f
    case Nil =>
    case Leaf(_, r) => CleanJoin(r, g, scope, v);
    case Elem(_, _, r) => CleanJoin(r, g, scope, v);
  }

  lemma {:induction false} OutermostJoin(f: Forest<Tag>, g: Forest<Tag>, pos: nat, scope: Scope, space: string,
                                         local: string)
    ensures Outermost(Join(f, g), pos, scope, space, local) ==
            Outermost(f, pos, scope, space, local) + Outermost(g, pos + Size(f), scope, space, local)
  {
    match f
    case Nil =>
    case Leaf(_, r) => OutermostJoin(r, g, pos + 1, scope, space, local);
    case Elem(tag, k, r) =>
      var after := pos + 2 + Size(k);
      OutermostJoin(r, g, after, scope, space, local);
      Regroup(if NamedLoosely(tag.el, space, local) then [Node(pos, tag, k, scope)]
              else Outermost(k, pos + 1, Inside(scope, tag.el.attrs), space, local),
              Outermost(r, after, scope, space, local), Outermost(g, after + Size(r), scope, space, local));
  }

  lemma {:induction false} AllInJoin(f: Forest<Tag>, g: Forest<Tag>, scope: Scope, space: string, local: string)
    requires AllAligned(f) && AllAligned(g) && AllAligned(Join(f, g))
    ensures AllIn(MeaningOf(Join(f, g), scope), space, local) ==
            AllIn(MeaningOf(f, scope), space, local) + AllIn(MeaningOf(g, scope), space, local)
  {
    match f
    case Nil =>
    case Leaf(t, r) =>
      AllInJoin(r, g, scope, space, local);
      SayIsQuiet(Said(t), MeaningOf(r, scope), space, local);
      SayIsQuiet(Said(t), MeaningOf(Join(r, g), scope), space, local);
    case Elem(tag, k, r) =>
      AllInJoin(r, g, scope, space, local);
      var inner := Inside(scope, tag.el.attrs);
      var kids := MeaningOf(k, inner);
      Regroup(if Called(tag.name, Uses(tag, inner), space, local) then [Sense(AttrPairs(tag, inner), kids)]
              else AllIn(kids, space, local),
              AllIn(MeaningOf(r, scope), space, local), AllIn(MeaningOf(g, scope), space, local));
  }

  lemma {:induction false} OutermostInside(n: Node, after: Forest<Tag>, space: string, local: string)
    requires n.tag.el.space != space && space != ""
    ensures Outermost(Elem(n.tag, n.kids, after), n.pos, n.scope, space, local) ==
            Descendants(n, space, local) + Outermost(after, n.pos + 2 + Size(n.kids), n.scope, space, local)
  {
  }

  // ---- the reading of an assertion is in its signed meaning ----

  ghost predicate CleanNode(n: Node, v: Vocabulary)
    ensures CleanNode(n, v) ==> AllAligned(Tree(n))
  {
    Clean(Tree(n), n.scope, v)
  }

  /** The meaning of an assertion without its signature. */
  ghost function SignedSense(a: Node, v: Vocabulary): Sense
    requires CleanNode(a, v)
  {
    CleanWithout(a.kids, Inner(a), v, DS, "Signature");
    Sense(AttrPairs(a.tag, Inner(a)), MeaningOf(WithoutFirst(a.kids, DS, "Signature"), Inner(a)))
  }

  lemma {:induction false} Namespaces()
    ensures SAML != DS && SAML != "" && DS != ""
  {
    assert SAML[0] == 'u' && DS[0] == 'h';
  }

  lemma {:induction false} ShowsAnywhere(n: Option<Node>, n': Option<Node>, s: Option<Sense>, v: Vocabulary)
    requires ShowsIf(n, s, v) && Placeless(n) == Placeless(n')
    ensures ShowsIf(n', s, v)
  {
  }

  lemma {:induction false} SignedChild(a: Node, v: Vocabulary, space: string, local: string)
    requires CleanNode(a, v) && space in v.spaces && space != DS
    ensures ShowsIf(Child(a, space, local), FirstIn(SignedSense(a, v).kids, space, local), v)
  {
    CleanWithout(a.kids, Inner(a), v, DS, "Signature");
    var rest := WithoutFirst(a.kids, DS, "Signature");
    FirstShown(rest, 0, Inner(a), v, space, local);
    FirstWithout(a.kids, a.pos + 1, 0, Inner(a), DS, "Signature", space, local);
    ShowsAnywhere(FirstChild(rest, 0, Inner(a), space, local), Child(a, space, local),
                  FirstIn(MeaningOf(rest, Inner(a)), space, local), v);
  }

  lemma {:induction false} AttributeShown(n: Node, s: Sense, v: Vocabulary, local: string)
    requires Shows(n, s, v) && local in v.attrs
    ensures AttributeOf(n, local) == PairValue(s.attrs, local)
  {
  }

  /** Nodes and senses whose children of one name show each other are read alike there. */
  lemma {:induction false} IssuerShown(a: Node, s: Sense)
    requires ShowsIf(Child(a, SAML, "Issuer"), FirstIn(s.kids, SAML, "Issuer"), READ)
    ensures ReadIssuer(a) == IssuerIn(s)
  {
    var n := Child(a, SAML, "Issuer");
    if n.Some? { WordsShown(n.value, FirstIn(s.kids, SAML, "Issuer").value, READ); }
  }

  lemma {:induction false} SubjectShown(a: Node, s: Sense)
    requires ShowsIf(Child(a, SAML, "Subject"), FirstIn(s.kids, SAML, "Subject"), READ)
    ensures ReadSubject(a) == SubjectIn(s)
  {
    var u, u' := Child(a, SAML, "Subject"), FirstIn(s.kids, SAML, "Subject");
    if u.Some? {
      ChildShown(u.value, u'.value, READ, SAML, "NameID");
      var n, n' := Child(u.value, SAML, "NameID"), FirstIn(u'.value.kids, SAML, "NameID");
      if n.Some? {
        WordsShown(n.value, n'.value, READ);
        AttributeShown(n.value, n'.value, READ, "Format");
      }
    }
  }

  lemma {:induction false} ConfirmationShown(a: Node, s: Sense)
    requires ShowsIf(Child(a, SAML, "Subject"), FirstIn(s.kids, SAML, "Subject"), READ)
    ensures ReadConfirmation(a) == ConfirmationIn(s)
  {
    var u, u' := Child(a, SAML, "Subject"), FirstIn(s.kids, SAML, "Subject");
    if u.Some? {
      ChildShown(u.value, u'.value, READ, SAML, "SubjectConfirmation");
      var c, c' := Child(u.value, SAML, "SubjectConfirmation"), FirstIn(u'.value.kids, SAML, "SubjectConfirmation");
      if c.Some? {
        ChildShown(c.value, c'.value, READ, SAML, "SubjectConfirmationData");
        var d, d' := Child(c.value, SAML, "SubjectConfirmationData"),
            FirstIn(c'.value.kids, SAML, "SubjectConfirmationData");
        if d.Some? {
          AttributeShown(d.value, d'.value, READ, "Recipient");
          AttributeShown(d.value, d'.value, READ, "InResponseTo");
          AttributeShown(d.value, d'.value, READ, "NotOnOrAfter");
        }
      }
    }
  }

  lemma {:induction false} ConditionsShown(a: Node, s: Sense)
    requires ShowsIf(Child(a, SAML, "Conditions"), FirstIn(s.kids, SAML, "Conditions"), READ)
    ensures ReadConditions(a) == ConditionsIn(s)
  {
    Namespaces();
    var c, c' := Child(a, SAML, "Conditions"), FirstIn(s.kids, SAML, "Conditions");
    if c.Some? {
      AttributeShown(c.value, c'.value, READ, "NotBefore");
      AttributeShown(c.value, c'.value, READ, "NotOnOrAfter");
      ChildShown(c.value, c'.value, READ, SAML, "AudienceRestriction");
      var r, r' := Child(c.value, SAML, "AudienceRestriction"), FirstIn(c'.value.kids, SAML, "AudienceRestriction");
      if r.Some? {
        DescendantsShown(r.value, r'.value, READ, SAML, "Audience");
        AllWordsShown(Descendants(r.value, SAML, "Audience"), AllIn(r'.value.kids, SAML, "Audience"), READ);
      }
    }
  }

  /** The fields other than the attributes. */
  lemma {:induction false} FieldsShown(a: Node, s: Sense)
    requires AttributeOf(a, "ID") == PairValue(s.attrs, "ID")
    requires ShowsIf(Child(a, SAML, "Issuer"), FirstIn(s.kids, SAML, "Issuer"), READ)
    requires ShowsIf(Child(a, SAML, "Subject"), FirstIn(s.kids, SAML, "Subject"), READ)
    requires ShowsIf(Child(a, SAML, "Conditions"), FirstIn(s.kids, SAML, "Conditions"), READ)
    ensures Read(a).(attributes := []) == ReadingIn(s).(attributes := [])
  {
    IssuerShown(a, s);
    SubjectShown(a, s);
    ConfirmationShown(a, s);
    ConditionsShown(a, s);
  }

  /** What is read from an element is what its meaning says. */
  lemma {:induction false} ReadingShown(a: Node, s: Sense)
    requires Shows(a, s, READ)
    ensures Read(a) == ReadingIn(s)
  {
    Namespaces();
    ReadCovers();
    AttributeShown(a, s, READ, "ID");
    ChildShown(a, s, READ, SAML, "Issuer");
    ChildShown(a, s, READ, SAML, "Subject");
    ChildShown(a, s, READ, SAML, "Conditions");
    FieldsShown(a, s);
    DescendantsShown(a, s, READ, SAML, "AttributeStatement");
    AllClaimsShown(Descendants(a, SAML, "AttributeStatement"), AllIn(s.kids, SAML, "AttributeStatement"), READ);
  }

  lemma {:induction false} SplitClean(a: Node, v: Vocabulary, sig: Node)
    returns (before: Forest<Tag>, after: Forest<Tag>)
    requires CleanNode(a, v) && Child(a, DS, "Signature") == Some(sig)
    ensures a.kids == Join(before, Elem(sig.tag, sig.kids, after))
            && WithoutFirst(a.kids, DS, "Signature") == Join(before, after)
    ensures sig.pos == a.pos + 1 + Size(before) && sig.scope == Inner(a) && sig.tag.el.space == DS
    ensures Clean(before, Inner(a), v) && Clean(after, Inner(a), v) && AllAligned(Join(before, after))
  {
    before, after := SplitAtFirst(a.kids, a.pos + 1, Inner(a), DS, "Signature");
    CleanJoin(before, Elem(sig.tag, sig.kids, after), Inner(a), v);
    CleanJoin(before, after, Inner(a), v);
  }

  lemma {:induction false} OutermostAround(before: Forest<Tag>, n: Node, after: Forest<Tag>, pos: nat, space: string,
                                           local: string)
    requires n.pos == pos + Size(before) && n.tag.el.space != space && space != ""
    ensures Outermost(Join(before, Elem(n.tag, n.kids, after)), pos, n.scope, space, local) ==
            Outermost(before, pos, n.scope, space, local)
            + (Descendants(n, space, local) + Outermost(after, n.pos + 2 + Size(n.kids), n.scope, space, local))
  {
    OutermostJoin(before, Elem(n.tag, n.kids, after), pos, n.scope, space, local);
    OutermostInside(n, after, space, local);
  }

  lemma {:induction false} ShownApart(before: Forest<Tag>, pos: nat, after: Forest<Tag>, next: nat, scope: Scope,
                                      v: Vocabulary, space: string, local: string)
    requires Clean(before, scope, v) && Clean(after, scope, v) && space in v.spaces && space != ""
    ensures ShowsAll(Outermost(before, pos, scope, space, local), AllIn(MeaningOf(before, scope), space, local), v)
    ensures ShowsAll(Outermost(after, next, scope, space, local), AllIn(MeaningOf(after, scope), space, local), v)
  {
    AllShown(before, pos, scope, v, space, local);
    AllShown(after, next, scope, v, space, local);
  }

  lemma {:induction false} FoundAround(before: Forest<Tag>, n: Node, after: Forest<Tag>, pos: nat, next: nat,
                                       space: string, local: string)
    returns (xs: seq<Node>, ys: seq<Node>, ss: seq<Sense>, ts: seq<Sense>)
    requires n.pos == pos + Size(before) && n.tag.el.space != space && space != "" && next == n.pos + 2 + Size(n.kids)
    requires AllAligned(before) && AllAligned(after) && AllAligned(Join(before, after))
    ensures xs == Outermost(before, pos, n.scope, space, local) && ss == AllIn(MeaningOf(before, n.scope), space, local)
    ensures ys == Outermost(after, next, n.scope, space, local) && ts == AllIn(MeaningOf(after, n.scope), space, local)
    ensures Outermost(Join(before, Elem(n.tag, n.kids, after)), pos, n.scope, space, local) ==
            xs + (Descendants(n, space, local) + ys)
    ensures AllIn(MeaningOf(Join(before, after), n.scope), space, local) == ss + ts
  {
    OutermostAround(before, n, after, pos, space, local);
    AllInJoin(before, after, n.scope, space, local);
    xs, ys := Outermost(before, pos, n.scope, space, local), Outermost(after, next, n.scope, space, local);
    ss, ts := AllIn(MeaningOf(before, n.scope), space, local), AllIn(MeaningOf(after, n.scope), space, local);
  }

  /** What is found below an assertion: outside its signature what its signed meaning shows, and between that
      what the signature holds. */
  lemma {:induction false} FoundAroundSignature(a: Node, v: Vocabulary, space: string, local: string, sig: Node)
    returns (xs: seq<Node>, ys: seq<Node>, ss: seq<Sense>, ts: seq<Sense>)
    requires CleanNode(a, v) && Child(a, DS, "Signature") == Some(sig) && space in v.spaces && space != DS
             && space != ""
    ensures Descendants(a, space, local) == xs + (Descendants(sig, space, local) + ys) && ShowsAll(xs, ss, v)
            && ShowsAll(ys, ts, v)
    ensures AllIn(SignedSense(a, v).kids, space, local) == ss + ts
  {
    var before, after := SplitClean(a, v, sig);
    var rest := WithoutFirst(a.kids, DS, "Signature");
    xs, ys, ss, ts := FoundApart(before, sig, after, a.kids, rest, a.pos + 1, v, space, local);
    SenseKids(a, v, rest);
  }

  lemma {:induction false} SenseKids(a: Node, v: Vocabulary, rest: Forest<Tag>)
    requires CleanNode(a, v) && WithoutFirst(a.kids, DS, "Signature") == rest && AllAligned(rest)
    ensures SignedSense(a, v).kids == MeaningOf(rest, Inner(a))
  {
  }

  lemma {:induction false} FoundApart(before: Forest<Tag>, n: Node, after: Forest<Tag>, kids: Forest<Tag>,
                                      rest: Forest<Tag>, pos: nat, v: Vocabulary, space: string, local: string)
    returns (xs: seq<Node>, ys: seq<Node>, ss: seq<Sense>, ts: seq<Sense>)
    requires kids == Join(before, Elem(n.tag, n.kids, after)) && rest == Join(before, after) && AllAligned(rest)
    requires n.pos == pos + Size(before) && n.tag.el.space != space && space != "" && space in v.spaces
    requires Clean(before, n.scope, v) && Clean(after, n.scope, v)
    ensures Outermost(kids, pos, n.scope, space, local) == xs + (Descendants(n, space, local) + ys)
    ensures ShowsAll(xs, ss, v) && ShowsAll(ys, ts, v) && AllIn(MeaningOf(rest, n.scope), space, local) == ss + ts
  {
    var next := n.pos + 2 + Size(n.kids);
    ShownApart(before, pos, after, next, n.scope, v, space, local);
    xs, ys, ss, ts := FoundAround(before, n, after, pos, next, space, local);
  }

  lemma {:induction false} StatementsAround(xs: seq<Node>, inside: seq<Node>, ys: seq<Node>, ss: seq<Sense>,
                                            ts: seq<Sense>, v: Vocabulary)
    requires ShowsAll(xs, ss, v) && ShowsAll(ys, ts, v) && v == READ
    ensures Statements(xs + (inside + ys)) == AllClaimsIn(ss + ts) <==> Statements(inside) == []
  {
    StatementsJoin(xs, inside + ys);
    StatementsJoin(inside, ys);
    AllClaimsJoin(ss, ts);
    AllClaimsShown(xs, ss, v);
    AllClaimsShown(ys, ts, v);
    Between(Statements(xs), Statements(inside), Statements(ys));
  }

  lemma {:induction false} Between<T>(x: seq<T>, inside: seq<T>, y: seq<T>)
    ensures x + (inside + y) == x + y <==> inside == []
  {
    assert inside == [] ==> inside + y == y;
    assert |x + (inside + y)| == |x + y| + |inside|;
  }

  /** The attributes are those of the signed content exactly when the signature itself holds none:
      the search for attribute statements also looks inside it. */
  lemma {:induction false} SignedAttributes(a: Node, sig: Node)
    requires CleanNode(a, READ) && Child(a, DS, "Signature") == Some(sig)
    ensures Read(a).attributes == ReadingIn(SignedSense(a, READ)).attributes <==>
            Statements(Descendants(sig, SAML, "AttributeStatement")) == []
  {
    Namespaces();
    var xs, ys, ss, ts := FoundAroundSignature(a, READ, SAML, "AttributeStatement", sig);
    StatementsAround(xs, Descendants(sig, SAML, "AttributeStatement"), ys, ss, ts, READ);
  }

  // ---- signed bytes determine the claims ----

  lemma {:induction false} WellNamedWithout(f: Forest<Tag>, space: string, local: string)
    requires WellNamed(f)
    ensures WellNamed(WithoutFirst(f, space, local))
  {
    match f
    case Nil =>
    case Leaf(_, r) => WellNamedWithout(r, space, local);
    case Elem(_, _, r) => WellNamedWithout(r, space, local);
  }

  /** The assertion without its signature: what the digest is taken of. */
  function Unsigned(a: Node): Forest<Tag> { Elem(a.tag, WithoutFirst(a.kids, DS, "Signature"), Nil) }

  lemma {:induction false} PrunedIsUnsigned(a: Node, sig: Node)
    requires Child(a, DS, "Signature") == Some(sig)
    ensures Prune(Tree(a), a.pos, {sig.pos}) == Unsigned(a)
  {
    PruneFirst(a.kids, a.pos + 1, Inner(a), DS, "Signature");
    assert Prune(Nil, EndOf(a) + 1, {sig.pos}) == Nil;
  }

  lemma {:induction false} DigestedText(a: Node, sig: Node)
    requires AllAligned(Tree(a)) && AllAligned(Unsigned(a)) && Child(a, DS, "Signature") == Some(sig)
             && CanonicalElement(a, {sig.pos}).Some?
    ensures CanonicalElement(a, {sig.pos}).value == Canonical(Unsigned(a), a.scope, map[], "")
  {
    PrunedIsUnsigned(a, sig);
  }

  lemma {:induction false} UnsignedSense(a: Node, v: Vocabulary)
    requires CleanNode(a, v) && WellNamed(Tree(a))
    ensures WellNamed(Unsigned(a))
    ensures
      var m := MeaningOf(Unsigned(a), a.scope);
      m.MElem? && SignedSense(a, v) == Sense(m.attrs, m.kids)
  {
    WellNamedWithout(a.kids, DS, "Signature");
    CleanWithout(a.kids, Inner(a), v, DS, "Signature");
  }

  lemma {:induction false} SameBytesSameSense(a: Node, sig: Node, b: Node, sig': Node, v: Vocabulary)
    requires CleanNode(a, v) && CleanNode(b, v) && WellNamed(Tree(a)) && WellNamed(Tree(b))
    requires Child(a, DS, "Signature") == Some(sig) && Child(b, DS, "Signature") == Some(sig')
    requires CanonicalElement(a, {sig.pos}).Some? && CanonicalElement(a, {sig.pos}) == CanonicalElement(b, {sig'.pos})
    ensures SignedSense(a, v) == SignedSense(b, v)
  {
    UnsignedSense(a, v);
    UnsignedSense(b, v);
    DigestedText(a, sig);
    DigestedText(b, sig');
    CanonicalTextIsMeaning(Unsigned(a), a.scope, Unsigned(b), b.scope, map[]);
  }

  lemma {:induction false} SignedReading(a: Node)
    requires CleanNode(a, READ)
    ensures Read(a).(attributes := []) == ReadingIn(SignedSense(a, READ)).(attributes := [])
  {
    Namespaces();
    AttributeShown(a, Sense(AttrPairs(a.tag, Inner(a)), MeaningOf(a.kids, Inner(a))), READ, "ID");
    SignedChild(a, READ, SAML, "Issuer");
    SignedChild(a, READ, SAML, "Subject");
    SignedChild(a, READ, SAML, "Conditions");
    FieldsShown(a, SignedSense(a, READ));
  }

  /** Two assertions with the same digested bytes are read alike. */
  lemma {:induction false} SameBytesSameReading(a: Node, sig: Node, b: Node, sig': Node)
    requires CleanNode(a, READ) && CleanNode(b, READ) && WellNamed(Tree(a)) && WellNamed(Tree(b))
    requires Child(a, DS, "Signature") == Some(sig) && Child(b, DS, "Signature") == Some(sig')
    requires CanonicalElement(a, {sig.pos}).Some? && CanonicalElement(a, {sig.pos}) == CanonicalElement(b, {sig'.pos})
    ensures Read(a).(attributes := []) == Read(b).(attributes := [])
    ensures Statements(Descendants(sig, SAML, "AttributeStatement")) == []
            && Statements(Descendants(sig', SAML, "AttributeStatement")) == []
            ==> Read(a) == Read(b)
  {
    SameBytesSameSense(a, sig, b, sig', READ);
    SignedReading(a);
    SignedReading(b);
    SignedAttributes(a, sig);
    SignedAttributes(b, sig');
  }

  lemma {:induction false} ShownIsClean(n: Node, s: Sense, v: Vocabulary)
    requires Shows(n, s, v)
    ensures CleanNode(n, v)
  {
  }

  lemma {:induction false} OutermostNamed(f: Forest<Tag>, pos: nat, scope: Scope, space: string, local: string, i: nat)
    requires WellNamed(f) && i < |Outermost(f, pos, scope, space, local)|
    ensures WellNamed(Tree(Outermost(f, pos, scope, space, local)[i]))
  {
    match f
    case Leaf(_, r) => OutermostNamed(r, pos + 1, scope, space, local, i);
    case Elem(tag, k, r) =>
      var inner := Inside(scope, tag.el.attrs);
      var here := if NamedLoosely(tag.el, space, local) then [Node(pos, tag, k, scope)]
          else Outermost(k, pos + 1, inner, space, local);
      if i >= |here| {
        OutermostNamed(r, pos + 2 + Size(k), scope, space, local, i - |here|);
      } else if !NamedLoosely(tag.el, space, local) {
        OutermostNamed(k, pos + 1, inner, space, local, i);
      }
  }

  lemma {:induction false} RootClean(f: Forest<Tag>, pos: nat, v: Vocabulary)
    requires Clean(f, map[], v) && WellNamed(f)
    ensures Root(f, pos).Some? ==> CleanNode(Root(f, pos).value, v) && WellNamed(Tree(Root(f, pos).value))
  {
    if f.Leaf? { RootClean(f.rest, pos + 1, v); }
  }

  /** In a clean document every element found is clean. */
  lemma {:induction false} FoundClean(n: Node, v: Vocabulary, space: string, local: string, i: nat)
    requires CleanNode(n, v) && WellNamed(Tree(n)) && space in v.spaces && space != ""
             && i < |Descendants(n, space, local)|
    ensures CleanNode(Descendants(n, space, local)[i], v) && WellNamed(Tree(Descendants(n, space, local)[i]))
  {
    AllShown(n.kids, n.pos + 1, Inner(n), v, space, local);
    ShownIsClean(Descendants(n, space, local)[i], AllIn(MeaningOf(n.kids, Inner(n)), space, local)[i], v);
    OutermostNamed(n.kids, n.pos + 1, Inner(n), space, local, i);
  }

  lemma {:induction false} VerifiedClean(c: Crypto, cert: Certificate, f: Forest<Tag>, v: Vocabulary)
    requires Clean(f, map[], v) && WellNamed(f) && SAML in v.spaces && Verify(c, cert, f).Verified?
    ensures CleanNode(Verify(c, cert, f).assertion, v) && WellNamed(Tree(Verify(c, cert, f).assertion))
  {
    Namespaces();
    RootClean(f, 0, v);
    FoundClean(Root(f, 0).value, v, SAML, "Assertion", 0);
  }

  /** The assertion of an accepted response, with the signature on it. */
  ghost predicate SignedAssertion(c: Crypto, cert: Certificate, s: Settings, f: Forest<Tag>, a: Node, sig: Node) {
    && Clean(f, map[], READ) && WellNamed(f) && ParseAndVerify(c, cert, s, f).Claims?
    && Verify(c, cert, f).Verified? && Verify(c, cert, f).assertion == a && Child(a, DS, "Signature") == Some(sig)
  }

  /** Two accepted responses whose assertions have the same digested bytes make the same claims,
      whatever surrounds the assertions and whatever else their signatures say. */
  lemma {:induction false} SameBytesSameClaims(c: Crypto, cert: Certificate, s: Settings, f: Forest<Tag>, a: Node,
                                               sig: Node, c': Crypto, cert': Certificate, s': Settings, g: Forest<Tag>,
                                               b: Node, sig': Node)
    requires SignedAssertion(c, cert, s, f, a, sig) && SignedAssertion(c', cert', s', g, b, sig')
             && s.parseTime == s'.parseTime
    requires AllAligned(Tree(a)) && AllAligned(Tree(b))
    requires CanonicalElement(a, {sig.pos}).Some? && CanonicalElement(a, {sig.pos}) == CanonicalElement(b, {sig'.pos})
    ensures
      var x, y := ParseAndVerify(c, cert, s, f).assertion, ParseAndVerify(c', cert', s', g).assertion;
      && x.(attributes := map[]) == y.(attributes := map[])
      && (Statements(Descendants(sig, SAML, "AttributeStatement")) == []
          && Statements(Descendants(sig', SAML, "AttributeStatement")) == []
          ==> x == y)
  {
    VerifiedClean(c, cert, f, READ);
    VerifiedClean(c', cert', g, READ);
    SameBytesSameReading(a, sig, b, sig');
    JudgedAlike(s, Read(a), s', Read(b));
  }

  lemma {:induction false} JudgedAlike(s: Settings, r: Reading, s': Settings, r': Reading)
    requires r.(attributes := []) == r'.(attributes := []) && s.parseTime == s'.parseTime
    requires Judge(s, r).Claims? && Judge(s', r').Claims?
    ensures Judge(s, r).assertion.(attributes := map[]) == Judge(s', r').assertion.(attributes := map[])
    ensures r == r' ==> Judge(s, r).assertion == Judge(s', r').assertion
  {
  }

  // ---- the signed SignedInfo determines the digested bytes ----

  ghost function SenseOf(n: Node): Sense
    requires AllAligned(Tree(n))
  {
    Sense(AttrPairs(n.tag, Inner(n)), MeaningOf(n.kids, Inner(n)))
  }

  lemma {:induction false} SameTextSameSense(n: Node, n': Node)
    requires WellNamed(Tree(n)) && WellNamed(Tree(n'))
    requires CanonicalElement(n, {}).Some? && CanonicalElement(n, {}) == CanonicalElement(n', {})
    ensures SenseOf(n) == SenseOf(n')
  {
    CanonicalWhole(n);
    CanonicalWhole(n');
    CanonicalTextIsMeaning(Tree(n), n.scope, Tree(n'), n'.scope, map[]);
  }

  /** The digest a SignedInfo announces is in its meaning. */
  ghost function DigestIn(info: Sense): Option<string> {
    var ref := FirstIn(info.kids, DS, "Reference");
    if ref.None? then None
    else
      var value := FirstIn(ref.value.kids, DS, "DigestValue");
      if value.None? then None else Some(Words(value.value))
  }

  lemma {:induction false} DigestShown(info: Node, v: Vocabulary, ref: Node, value: Node)
    requires CleanNode(info, v) && DS in v.spaces
    requires Child(info, DS, "Reference") == Some(ref) && Child(ref, DS, "DigestValue") == Some(value)
    ensures DigestIn(SenseOf(info)) == Some(TrimmedText(value))
  {
    var s := SenseOf(info);
    ChildShown(info, s, v, DS, "Reference");
    var r := FirstIn(s.kids, DS, "Reference").value;
    ChildShown(ref, r, v, DS, "DigestValue");
    WordsShown(value, FirstIn(r.kids, DS, "DigestValue").value, v);
  }

  /** A signature that holds announces the digest of the element it is in. */
  lemma {:induction false} AnnouncedDigest(c: Crypto, cert: Certificate, a: Node, sig: Node, info: Node, v: Vocabulary)
    requires AllAligned(Tree(a)) && AllAligned(Tree(sig)) && EnvelopedError(c, cert, a, sig).None?
    requires Child(sig, DS, "SignedInfo") == Some(info) && CleanNode(info, v) && DS in v.spaces
    ensures CanonicalElement(a, {sig.pos}).Some? && CanonicalElement(info, {}).Some?
    ensures DigestIn(SenseOf(info)).Some?
    ensures c.decode(DigestIn(SenseOf(info)).value) == Some(c.hash(CanonicalElement(a, {sig.pos}).value))
  {
    var ref := Child(info, DS, "Reference").value;
    assert DigestError(c, a, sig, ref).None? && ValueError(c, cert, sig, info).None?;
    DigestShown(info, v, ref, Child(ref, DS, "DigestValue").value);
  }

  /** If two signatures hold, their SignedInfo elements have the same canonical bytes and the digest has
      no collision on what they digest, then they digest the same bytes. */
  lemma {:induction false} SignedInfoDeterminesBytes(c: Crypto, cert: Certificate, cert': Certificate, a: Node,
                                                     sig: Node, info: Node, b: Node, sig': Node, info': Node,
                                                     v: Vocabulary)
    requires AllAligned(Tree(a)) && AllAligned(Tree(sig)) && EnvelopedError(c, cert, a, sig).None?
    requires AllAligned(Tree(b)) && AllAligned(Tree(sig')) && EnvelopedError(c, cert', b, sig').None?
    requires Child(sig, DS, "SignedInfo") == Some(info) && Child(sig', DS, "SignedInfo") == Some(info')
    requires CleanNode(info, v) && CleanNode(info', v) && DS in v.spaces && WellNamed(Tree(info))
             && WellNamed(Tree(info'))
    requires CanonicalElement(info, {}) == CanonicalElement(info', {})
    requires
      forall x, y ::
        CanonicalElement(a, {sig.pos}) == Some(x) && CanonicalElement(b, {sig'.pos}) == Some(y)
        && c.hash(x) == c.hash(y) ==>
        x == y
    ensures CanonicalElement(a, {sig.pos}).Some? && CanonicalElement(a, {sig.pos}) == CanonicalElement(b, {sig'.pos})
  {
    AnnouncedDigest(c, cert, a, sig, info, v);
    AnnouncedDigest(c, cert', b, sig', info', v);
    SameTextSameSense(info, info');
  }

  // ---- from SignedInfo to the claims ----

  lemma {:induction false} FirstNamed(f: Forest<Tag>, pos: nat, scope: Scope, space: string, local: string)
    requires WellNamed(f)
    ensures FirstChild(f, pos, scope, space, local).Some? ==>
            WellNamed(Tree(FirstChild(f, pos, scope, space, local).value))
  {
    match f
    case Nil =>
    case Leaf(_, r) => FirstNamed(r, pos + 1, scope, space, local);
    case Elem(_, k, r) => FirstNamed(r, pos + 2 + Size(k), scope, space, local);
  }

  lemma {:induction false} ChildClean(n: Node, v: Vocabulary, space: string, local: string)
    requires CleanNode(n, v) && WellNamed(Tree(n)) && space in v.spaces && Child(n, space, local).Some?
    ensures CleanNode(Child(n, space, local).value, v) && WellNamed(Tree(Child(n, space, local).value))
  {
    FirstShown(n.kids, n.pos + 1, Inner(n), v, space, local);
    ShownIsClean(Child(n, space, local).value, FirstIn(MeaningOf(n.kids, Inner(n)), space, local).value, v);
    FirstNamed(n.kids, n.pos + 1, Inner(n), space, local);
  }

  /** The signature on a verified assertion holds. */
  lemma {:induction false} VerifiedSignature(c: Crypto, cert: Certificate, f: Forest<Tag>, a: Node, sig: Node)
    requires AllAligned(f) && Verify(c, cert, f).Verified? && Verify(c, cert, f).assertion == a
             && Child(a, DS, "Signature") == Some(sig)
    ensures AllAligned(Tree(a)) && AllAligned(Tree(sig)) && EnvelopedError(c, cert, a, sig).None?
  {
    var root := Root(f, 0).value;
    RootAligned(f, 0);
    DescendantsAligned(root, SAML, "Assertion");
    ChildAligned(a, DS, "Signature");
    assert Signatures(c, cert, root, a).Verified?;
  }

  /** The bytes the signature is made over are equal, and the digest has no collision on what it is taken of. */
  ghost predicate SameSignedInfo(c: Crypto, a: Node, sig: Node, b: Node, sig': Node)
    requires AllAligned(Tree(a)) && AllAligned(Tree(b)) && AllAligned(Tree(sig)) && AllAligned(Tree(sig'))
  {
    ChildAligned(sig, DS, "SignedInfo");
    ChildAligned(sig', DS, "SignedInfo");
    var info, info' := Child(sig, DS, "SignedInfo"), Child(sig', DS, "SignedInfo");
    && info.Some? && info'.Some? && CanonicalElement(info.value, {}) == CanonicalElement(info'.value, {})
    && forall x, y ::
      CanonicalElement(a, {sig.pos}) == Some(x) && CanonicalElement(b, {sig'.pos}) == Some(y) && c.hash(x) == c.hash(y)
      ==> x == y
  }

  lemma {:induction false} SameInfoSameBytes(c: Crypto, cert: Certificate, s: Settings, f: Forest<Tag>, a: Node,
                                             sig: Node, cert': Certificate, s': Settings, g: Forest<Tag>, b: Node,
                                             sig': Node)
    requires SignedAssertion(c, cert, s, f, a, sig) && SignedAssertion(c, cert', s', g, b, sig')
    requires AllAligned(Tree(a)) && AllAligned(Tree(b)) && AllAligned(Tree(sig)) && AllAligned(Tree(sig'))
    requires SameSignedInfo(c, a, sig, b, sig')
    ensures CanonicalElement(a, {sig.pos}).Some? && CanonicalElement(a, {sig.pos}) == CanonicalElement(b, {sig'.pos})
  {
    var info, info' := Child(sig, DS, "SignedInfo").value, Child(sig', DS, "SignedInfo").value;
    VerifiedSignature(c, cert, f, a, sig);
    VerifiedSignature(c, cert', g, b, sig');
    InfoClean(c, cert, f, a, sig, info);
    InfoClean(c, cert', g, b, sig', info');
    SignedInfoDeterminesBytes(c, cert, cert', a, sig, info, b, sig', info', READ);
  }

  lemma {:induction false} InfoClean(c: Crypto, cert: Certificate, f: Forest<Tag>, a: Node, sig: Node, info: Node)
    requires Clean(f, map[], READ) && WellNamed(f) && Verify(c, cert, f).Verified? && Verify(c, cert, f).assertion == a
    requires Child(a, DS, "Signature") == Some(sig) && Child(sig, DS, "SignedInfo") == Some(info)
    ensures CleanNode(info, READ) && WellNamed(Tree(info))
  {
    VerifiedClean(c, cert, f, READ);
    ChildClean(a, READ, DS, "Signature");
    ChildClean(sig, READ, DS, "SignedInfo");
  }

  /** End to end: two accepted responses whose assertions are signed over the same SignedInfo bytes make the
      same claims, unless the digest collides. */
  lemma {:induction false} SameInfoSameClaims(c: Crypto, cert: Certificate, s: Settings, f: Forest<Tag>, a: Node,
                                              sig: Node, cert': Certificate, s': Settings, g: Forest<Tag>, b: Node,
                                              sig': Node)
    requires SignedAssertion(c, cert, s, f, a, sig) && SignedAssertion(c, cert', s', g, b, sig')
             && s.parseTime == s'.parseTime
    requires AllAligned(Tree(a)) && AllAligned(Tree(b)) && AllAligned(Tree(sig)) && AllAligned(Tree(sig'))
    requires SameSignedInfo(c, a, sig, b, sig')
    ensures
      var x, y := ParseAndVerify(c, cert, s, f).assertion, ParseAndVerify(c, cert', s', g).assertion;
      && x.(attributes := map[]) == y.(attributes := map[])
      && (Statements(Descendants(sig, SAML, "AttributeStatement")) == []
          && Statements(Descendants(sig', SAML, "AttributeStatement")) == []
          ==> x == y)
  {
    SameInfoSameBytes(c, cert, s, f, a, sig, cert', s', g, b, sig');
    SameBytesSameClaims(c, cert, s, f, a, sig, c, cert', s', g, b, sig');
  }
}
