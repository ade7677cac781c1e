/** From the text of start tags to the names the canonicalizer reads. */
module RawText {
  import opened Xml
  import opened Canon
  import opened Canonicalizer
  import opened Decode
  import QName

  /** `s` is a well-formed start tag for `w`: its name, and its attributes' names in order. */
  ghost predicate WritesTag(s: string, w: WTag) {
    exists attrs, gap, close :: QName.TagText(s, w.name, attrs, gap, close)
        && QName.NamesOf(attrs) == AttrNames(w.attrs)
  }

  ghost predicate HasText(raw: map<nat, string>, pos: nat, w: WTag) { pos in raw && WritesTag(raw[pos], w) }

  /** How many start tags of the written forest have no well-formed text captured. */
  ghost function Unwritten(raw: map<nat, string>, w: Forest<WTag>, pos: nat): nat {
    match w
    case Nil => 0
    case Leaf(_, r) => Unwritten(raw, r, pos + 1)
    case Elem(tag, k, r) =>
      (if HasText(raw, pos, tag) then 0 else 1) + Unwritten(raw, k, pos + 1) + Unwritten(raw, r, pos + 2 + Size(k))
  }

  ghost predicate RawTexts(raw: map<nat, string>, w: Forest<WTag>, pos: nat) { Unwritten(raw, w, pos) == 0 }

  /** At every index of the decoded attributes the scanned names have the name of that very attribute. */
  lemma {:induction false} NamesAligned(s: string, w: WTag, inner: Scope)
    requires WritesTag(s, w)
    ensures '<' in s && QName.TagName(s) == w.name && QName.AttrNames(s) == AttrNames(w.attrs)
    ensures |QName.AttrNames(s)| == |DecodeTag(w, inner).el.attrs| == |w.attrs|
    ensures forall i :: 0 <= i < |w.attrs| ==>
              QName.AttrNames(s)[i] == w.attrs[i].name
                  && DecodeTag(w, inner).el.attrs[i] == DecodeAttr(w.attrs[i], inner)
  {
    var attrs, gap, close :| QName.TagText(s, w.name, attrs, gap, close) && QName.NamesOf(attrs) == AttrNames(w.attrs);
    QName.NamesRecovered(s, w.name, attrs, gap, close);
    DecodedShape(w.attrs, inner);
  }

  lemma {:induction false} DecodedSize(w: Forest<WTag>, scope: Scope)
    ensures Size(DecodeForest(w, scope)) == Size(w)
  {
    match w
    case Nil =>
    case Leaf(_, r) => DecodedSize(r, scope);
    case Elem(tag, k, r) => DecodedSize(k, WInside(scope, tag.attrs)); DecodedSize(r, scope);
  }

  lemma {:induction false} ElementRaw(raw: map<nat, string>, tag: Tag, k: Forest<Tag>, r: Forest<Tag>, pos: nat,
                                      next: nat)
    requires pos in raw && '<' in raw[pos] && QName.TagName(raw[pos]) == tag.name
             && QName.AttrNames(raw[pos]) == tag.attrNames
    requires RawNames(raw, k, pos + 1) && RawNames(raw, r, next) && next == pos + 2 + Size(k)
    ensures RawNames(raw, Elem(tag, k, r), pos)
  {
  }

  lemma {:induction false} DecodedNamed(raw: map<nat, string>, pos: nat, tag: WTag, k: Forest<WTag>, r: Forest<WTag>,
                                        scope: Scope, inner: Scope)
    returns (t: Tag)
    requires HasText(raw, pos, tag) && inner == WInside(scope, tag.attrs)
    ensures DecodeForest(Elem(tag, k, r), scope) == Elem(t, DecodeForest(k, inner), DecodeForest(r, scope))
    ensures pos in raw && '<' in raw[pos] && QName.TagName(raw[pos]) == t.name
            && QName.AttrNames(raw[pos]) == t.attrNames
  {
    NamesAligned(raw[pos], tag, inner);
    t := DecodeTag(tag, inner);
  }

  lemma {:induction false} TextsNamed(raw: map<nat, string>, w: Forest<WTag>, scope: Scope, pos: nat)
    requires RawTexts(raw, w, pos)
    ensures RawNames(raw, DecodeForest(w, scope), pos)
    decreases w
  {
    match w
    case Nil =>
    case Leaf(_, r) => TextsNamed(raw, r, scope, pos + 1);
    case Elem(tag, k, r) =>
      TextsNamed(raw, k, WInside(scope, tag.attrs), pos + 1);
      TextsNamed(raw, r, scope, pos + 2 + Size(k));
      ElementNamed(raw, tag, k, r, scope, WInside(scope, tag.attrs), pos, pos + 2 + Size(k));
  }

  lemma {:induction false} ElementNamed(raw: map<nat, string>, tag: WTag, k: Forest<WTag>, r: Forest<WTag>,
                                        scope: Scope, inner: Scope, pos: nat, next: nat)
    requires HasText(raw, pos, tag) && inner == WInside(scope, tag.attrs) && next == pos + 2 + Size(k)
    requires RawNames(raw, DecodeForest(k, inner), pos + 1) && RawNames(raw, DecodeForest(r, scope), next)
    ensures RawNames(raw, DecodeForest(Elem(tag, k, r), scope), pos)
  {
    var t := DecodedNamed(raw, pos, tag, k, r, scope, inner);
    DecodedSize(k, inner);
    ElementRaw(raw, t, DecodeForest(k, inner), DecodeForest(r, scope), pos, next);
  }

  /** A document whose start tags are well formed meets the canonicalizer's conditions. */
  lemma {:induction false} RawTextsSuffice(raw: map<nat, string>, w: Forest<WTag>, scope: Scope, pos: nat)
    requires RawTexts(raw, w, pos)
    ensures RawNames(raw, DecodeForest(w, scope), pos) && AllAligned(DecodeForest(w, scope))
  {
    TextsNamed(raw, w, scope, pos);
    DecodedAligned(w, scope);
  }
}
