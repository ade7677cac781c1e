/** Literal names, read back from the source text of a start tag. */
module QName {
  import opened Text

  /** What ends each part of a start tag. */
  datatype Stop = Char(c: char) | TagNameEnd | AttrNameEnd {
    predicate At(x: char) {
      match this
      case Char(c) => x == c
      case TagNameEnd => IsSpace(x) || x == '>' || x == '/'
      case AttrNameEnd => IsSpace(x) || x == '='
    }
  }

  /** The first index from `i` on that holds a stop character, or the end of the text. */
  function Scan(s: string, i: nat, stop: Stop): (j: nat)
    ensures i <= j && (i <= |s| ==> j <= |s|)
    decreases |s| - i
  {
    if i < |s| && !stop.At(s[i]) then Scan(s, i + 1, stop) else i
  }

  function SkipSpace(s: string, i: nat): (j: nat)
    ensures i <= j && (i <= |s| ==> j <= |s|)
    decreases |s| - i
  {
    if i < |s| && IsSpace(s[i]) then SkipSpace(s, i + 1) else i
  }

  function TagName(s: string): string
    requires '<' in s
  {
    var i := Scan(s, 0, Char('<')) + 1;
    ScanFinds(s, 0, '<');
    s[i..Scan(s, i, TagNameEnd)]
  }

  function AttrNames(s: string): seq<string> {
    AttrNamesFrom(s, Scan(s, Scan(s, 0, Char('<')) + 1, TagNameEnd))
  }

  function AttrNamesFrom(s: string, i: nat): seq<string>
    decreases |s| - i
  {
    match NextAttr(s, i)
    case None => []
    case Some((name, None)) => [name]
    case Some((name, Some(j))) => [name] + AttrNamesFrom(s, j)
  }

  /** The next attribute's name, and where its value ends if it has a quoted one. */
  function NextAttr(s: string, i: nat): (r: Option<(string, Option<nat>)>)
    ensures r.Some? && r.value.1.Some? ==> i < |s| && i < r.value.1.value
  {
    var a := SkipSpace(s, i);
    if a >= |s| || s[a] == '/' || s[a] == '>' then None
    else
      var b := Scan(s, a, AttrNameEnd);
      var v := SkipSpace(s, Scan(s, b, Char('=')) + 1);
      Some((s[a..b], if v >= |s| || (s[v] != '"' && s[v] != '\'') then None else Some(Scan(s, v + 1, Char(s[v])) + 1)))
  }

  lemma {:induction false} ScanFinds(s: string, i: nat, c: char)
    requires i <= |s| && c in s[i..]
    ensures Scan(s, i, Char(c)) < |s| && s[Scan(s, i, Char(c))] == c
    decreases |s| - i
  {
    if s[i] != c { assert s[i..] == [s[i]] + s[i + 1..]; ScanFinds(s, i + 1, c); }
  }

  method ScanLoop(s: string, start: nat, stop: Stop) returns (i: nat)
    ensures i == Scan(s, start, stop)
  {
    i := start;
    while i < |s| && !stop.At(s[i])
      invariant Scan(s, i, stop) == Scan(s, start, stop)
    {
      i := i + 1;
    }
  }

  method SkipLoop(s: string, start: nat) returns (i: nat)
    ensures i == SkipSpace(s, start)
  {
    i := start;
    while i < |s| && IsSpace(s[i])
      invariant SkipSpace(s, i) == SkipSpace(s, start)
    {
      i := i + 1;
    }
  }

  method ReadAttr(s: string, start: nat) returns (r: Option<(string, Option<nat>)>)
    ensures r == NextAttr(s, start)
  {
    var i := SkipLoop(s, start);
    if i >= |s| || s[i] == '/' || s[i] == '>' {
      return None;
    }
    var nstart := i;
    i := ScanLoop(s, i, AttrNameEnd);
    var name := s[nstart..i];
    i := ScanLoop(s, i, Char('='));
    i := SkipLoop(s, i + 1);
    if i >= |s| {
      return Some((name, None));
    }
    var quote := s[i];
    if quote != '"' && quote != '\'' {
      return Some((name, None));
    }
    i := ScanLoop(s, i + 1, Char(quote));
    return Some((name, Some(i + 1)));
  }

  lemma {:induction false} NamesNext(names: seq<string>, s: string, i: nat, name: string, next: nat)
    requires NextAttr(s, i) == Some((name, Some(next)))
    ensures names + AttrNamesFrom(s, i) == (names + [name]) + AttrNamesFrom(s, next)
  {
    assert AttrNamesFrom(s, i) == [name] + AttrNamesFrom(s, next);
    Regroup(names, [name], AttrNamesFrom(s, next));
  }

  /** qname: the tag name and the attribute names of a captured start tag, in document order. */
  method ReadNames(s: string) returns (tagName: string, attrNames: seq<string>)
    requires '<' in s
    ensures tagName == TagName(s) && attrNames == AttrNames(s)
  {
    var i := ScanLoop(s, 0, Char('<'));
    ScanFinds(s, 0, '<');
    var start := i + 1;
    i := ScanLoop(s, start, TagNameEnd);
    tagName := s[start..i];
    attrNames := [];
    while i < |s|
      invariant attrNames + AttrNamesFrom(s, i) == AttrNames(s)
    {
      var attr := ReadAttr(s, i);
      match attr
      case None => return;
      case Some((name, None)) =>
        attrNames := attrNames + [name];
        return;
      case Some((name, Some(next))) =>
        NamesNext(attrNames, s, i, name, next);
        attrNames := attrNames + [name];
        i := next;
    }
  }

  // ---- well-formed start tags ----

  /** One attribute as written: white space before it and around `=`, either quote, any value
      without that quote. */
  datatype Written = Written(gap: string, name: string, left: string, right: string, quote: char, value: string)

  predicate AllSpace(s: string) { forall i :: 0 <= i < |s| ==> IsSpace(s[i]) }

  predicate NameChar(c: char) {
    !IsSpace(c) && c != '=' && c != '>' && c != '/' && c != '<' && c != '"' && c != '\'' && c != '&'
  }

  predicate IsName(s: string) { s != "" && forall i :: 0 <= i < |s| ==> NameChar(s[i]) }

  predicate WellWritten(a: Written) {
    && a.gap != "" && AllSpace(a.gap) && AllSpace(a.left) && AllSpace(a.right)
    && IsName(a.name) && (a.quote == '"' || a.quote == '\'') && a.quote !in a.value
  }

  /** `t` stands in `s` at index `i`. */
  ghost predicate Has(s: string, i: nat, t: string) {
    i + |t| <= |s| && forall k :: 0 <= k < |t| ==> s[i + k] == t[k]
  }

  function Width(a: Written): nat { |a.gap| + |a.name| + |a.left| + 1 + |a.right| + 1 + |a.value| + 1 }

  ghost predicate AttrAt(s: string, i: nat, a: Written) {
    var name := i + |a.gap|;
    var left := name + |a.name|;
    var eq := left + |a.left|;
    var open := eq + 1 + |a.right|;
    var close := open + 1 + |a.value|;
    && close < |s|
    && Has(s, i, a.gap) && Has(s, name, a.name) && Has(s, left, a.left) && s[eq] == '='
    && Has(s, eq + 1, a.right) && s[open] == a.quote && Has(s, open + 1, a.value) && s[close] == a.quote
  }

  /** The attributes, then white space, then `>` or `/>`, from index `i` to the end. */
  ghost predicate AttrsAt(s: string, i: nat, attrs: seq<Written>, gap: string, close: string)
    decreases |attrs|
  {
    if attrs == [] then Has(s, i, gap) && Has(s, i + |gap|, close) && i + |gap| + |close| == |s|
    else AttrAt(s, i, attrs[0]) && AttrsAt(s, i + Width(attrs[0]), attrs[1..], gap, close)
  }

  /** `s` is a well-formed start tag with this name and these attributes. */
  ghost predicate TagText(s: string, name: string, attrs: seq<Written>, gap: string, close: string) {
    && s != "" && s[0] == '<' && IsName(name) && Has(s, 1, name)
    && AttrsAt(s, 1 + |name|, attrs, gap, close)
    && (forall k :: 0 <= k < |attrs| ==> WellWritten(attrs[k]))
    && AllSpace(gap) && (close == ">" || close == "/>")
  }

  function NamesOf(attrs: seq<Written>): seq<string> {
    if attrs == [] then [] else [attrs[0].name] + NamesOf(attrs[1..])
  }

  lemma {:induction false} ScanOver(s: string, i: nat, n: nat, stop: Stop)
    requires i + n < |s| && stop.At(s[i + n])
    requires forall k :: i <= k < i + n ==> !stop.At(s[k])
    ensures Scan(s, i, stop) == i + n
    decreases n
  {
    if n > 0 { ScanOver(s, i + 1, n - 1, stop); }
  }

  lemma {:induction false} SkipOver(s: string, i: nat, n: nat)
    requires i + n < |s| && !IsSpace(s[i + n])
    requires forall k :: i <= k < i + n ==> IsSpace(s[k])
    ensures SkipSpace(s, i) == i + n
    decreases n
  {
    if n > 0 { SkipOver(s, i + 1, n - 1); }
  }

  /** Every character of a text standing in `s` is one of its own. */
  lemma {:induction false} CharsOf(s: string, i: nat, t: string)
    requires Has(s, i, t)
    ensures forall k :: i <= k < i + |t| ==> s[k] == t[k - i]
    ensures s[i..i + |t|] == t
  {
    forall k | i <= k < i + |t| ensures s[k] == t[k - i] { assert s[i + (k - i)] == t[k - i]; }
  }

  lemma {:induction false} GapRead(s: string, i: nat, gap: string, name: string)
    requires Has(s, i, gap) && Has(s, i + |gap|, name) && AllSpace(gap) && IsName(name)
    ensures SkipSpace(s, i) == i + |gap| && NameChar(s[i + |gap|])
  {
    CharsOf(s, i, gap);
    assert s[i + |gap| + 0] == name[0];
    SkipOver(s, i, |gap|);
  }

  lemma {:induction false} NameRead(s: string, i: nat, name: string, left: string)
    requires Has(s, i, name) && Has(s, i + |name|, left) && i + |name| + |left| < |s| && s[i + |name| + |left|] == '='
    requires IsName(name) && AllSpace(left)
    ensures Scan(s, i, AttrNameEnd) == i + |name| && s[i..i + |name|] == name
    ensures Scan(s, i + |name|, Char('=')) == i + |name| + |left|
  {
    CharsOf(s, i, name);
    CharsOf(s, i + |name|, left);
    ScanOver(s, i, |name|, AttrNameEnd);
    ScanOver(s, i + |name|, |left|, Char('='));
  }

  lemma {:induction false} AttrParts(s: string, i: nat, name: nat, left: nat, eq: nat, open: nat, close: nat)
    requires SkipSpace(s, i) == name < |s| && s[name] != '/' && s[name] != '>'
    requires Scan(s, name, AttrNameEnd) == left && Scan(s, left, Char('=')) == eq
    requires SkipSpace(s, eq + 1) == open < |s| && (s[open] == '"' || s[open] == '\'')
    requires Scan(s, open + 1, Char(s[open])) == close
    ensures name <= left <= |s| && NextAttr(s, i) == Some((s[name..left], Some(close + 1)))
  {
  }

  /** One attribute is read and passed, whatever its value holds. */
  lemma {:induction false} AttrRead(s: string, i: nat, a: Written)
    requires AttrAt(s, i, a) && WellWritten(a)
    ensures NextAttr(s, i) == Some((a.name, Some(i + Width(a))))
  {
    var name := i + |a.gap|;
    var left := name + |a.name|;
    var eq := left + |a.left|;
    var open := eq + 1 + |a.right|;
    AttrReadAt(s, i, a, name, left, eq, open, open + 1 + |a.value|);
  }

  lemma {:induction false} AttrReadAt(s: string, i: nat, a: Written, name: nat, left: nat, eq: nat, open: nat,
                                      close: nat)
    requires WellWritten(a) && name == i + |a.gap| && left == name + |a.name| && eq == left + |a.left|
    requires open == eq + 1 + |a.right| && close == open + 1 + |a.value| < |s|
    requires Has(s, i, a.gap) && Has(s, name, a.name) && Has(s, left, a.left) && s[eq] == '='
    requires Has(s, eq + 1, a.right) && s[open] == a.quote && Has(s, open + 1, a.value) && s[close] == a.quote
    ensures NextAttr(s, i) == Some((a.name, Some(close + 1)))
  {
    GapRead(s, i, a.gap, a.name);
    NameRead(s, name, a.name, a.left);
    ValueRead(s, eq, a);
    AttrParts(s, i, name, left, eq, open, close);
  }

  lemma {:induction false} ValueRead(s: string, eq: nat, a: Written)
    requires WellWritten(a) && eq + |a.right| + |a.value| + 2 < |s|
    requires var open := eq + 1 + |a.right|;
      && Has(s, eq + 1, a.right) && s[open] == a.quote && Has(s, open + 1, a.value)
      && s[open + 1 + |a.value|] == a.quote
    ensures SkipSpace(s, eq + 1) == eq + 1 + |a.right|
    ensures Scan(s, eq + 1 + |a.right| + 1, Char(a.quote)) == eq + 1 + |a.right| + 1 + |a.value|
  {
    var open := eq + 1 + |a.right|;
    CharsOf(s, eq + 1, a.right);
    SkipOver(s, eq + 1, |a.right|);
    CharsOf(s, open + 1, a.value);
    ScanOver(s, open + 1, |a.value|, Char(a.quote));
  }

  lemma {:induction false} AttrsRead(s: string, i: nat, attrs: seq<Written>, gap: string, close: string)
    requires AttrsAt(s, i, attrs, gap, close)
    requires forall k :: 0 <= k < |attrs| ==> WellWritten(attrs[k])
    requires AllSpace(gap) && (close == ">" || close == "/>")
    ensures AttrNamesFrom(s, i) == NamesOf(attrs)
    decreases |attrs|
  {
    if attrs == [] {
      CharsOf(s, i, gap);
      CharsOf(s, i + |gap|, close);
      assert s[i + |gap|] == close[0];
      SkipOver(s, i, |gap|);
    } else {
      AttrRead(s, i, attrs[0]);
      AttrsRead(s, i + Width(attrs[0]), attrs[1..], gap, close);
    }
  }

  lemma {:induction false} AttrsStart(s: string, i: nat, attrs: seq<Written>, gap: string, close: string)
    requires AttrsAt(s, i, attrs, gap, close)
    requires forall k :: 0 <= k < |attrs| ==> WellWritten(attrs[k])
    requires AllSpace(gap) && (close == ">" || close == "/>")
    ensures i < |s| && TagNameEnd.At(s[i])
  {
    if attrs != [] {
      assert s[i + 0] == attrs[0].gap[0];
    } else if gap != "" {
      assert s[i + 0] == gap[0];
    } else {
      assert s[i + 0] == close[0];
    }
  }

  /** qname recovers the names of every well-formed start tag, in order. */
  lemma {:induction false} NamesRecovered(s: string, name: string, attrs: seq<Written>, gap: string, close: string)
    requires TagText(s, name, attrs, gap, close)
    ensures '<' in s
    ensures TagName(s) == name
    ensures AttrNames(s) == NamesOf(attrs)
  {
    assert s[0] == '<';
    CharsOf(s, 1, name);
    AttrsStart(s, 1 + |name|, attrs, gap, close);
    ScanOver(s, 1, |name|, TagNameEnd);
    AttrsRead(s, 1 + |name|, attrs, gap, close);
  }
}
