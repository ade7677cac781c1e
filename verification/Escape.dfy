/** Character escaping in canonical output. */
module Escape {
  import opened Text

  /** escapeAttr's and escapeText's treatment of one character. */
  function Code(c: char, attr: bool): string {
    if c == '&' then "&amp;"
    else if c == '<' then "&lt;"
    else if c == '\r' then "&#xD;"
    else if attr && c == '"' then "&quot;"
    else if attr && c == '\t' then "&#x9;"
    else if attr && c == '\n' then "&#xA;"
    else if !attr && c == '>' then "&gt;"
    else [c]
  }

  function Escaped(s: string, attr: bool): string {
    if s == "" then "" else Code(s[0], attr) + Escaped(s[1..], attr)
  }

  method EscapeLoop(s: string, attr: bool) returns (b: string)
    ensures b == Escaped(s, attr) && Unescape(b) == Some(s)
  {
    UnescapeEscaped(s, attr);
    b := "";
    for i := 0 to |s|
      invariant b + Escaped(s[i..], attr) == Escaped(s, attr)
    {
      assert s[i..][0] == s[i] && s[i..][1..] == s[i + 1..];
      b := b + Code(s[i], attr);
    }
  }

  lemma {:induction false} EscapedConcat(a: string, b: string, attr: bool)
    ensures Escaped(a + b, attr) == Escaped(a, attr) + Escaped(b, attr)
  {
    if a == "" {
      assert a + b == b;
    } else {
      assert (a + b)[1..] == a[1..] + b;
      EscapedConcat(a[1..], b, attr);
    }
  }

  /** Markup never appears in escaped text. */
  lemma {:induction false} EscapedFree(s: string, attr: bool)
    ensures Free(Escaped(s, attr), if attr then {'"', '<'} else {'<'})
  {
    if s != "" { EscapedFree(s[1..], attr); }
  }

  lemma {:induction false} EscapedNonempty(s: string, attr: bool)
    ensures s != "" ==> Escaped(s, attr) != ""
  {
  }

  // ---- reading escaped text ----

  /** What the references of canonical text stand for: XML's own entities, and three characters by number. */
  function Referred(name: string): Option<char> {
    match name
    case "amp" => Some('&')
    case "lt" => Some('<')
    case "gt" => Some('>')
    case "quot" => Some('"')
    case "#x9" => Some(9 as char)
    case "#xA" => Some(10 as char)
    case "#xD" => Some(13 as char)
    case _ => None
  }

  /** An XML reader: `&name;` stands for a character, anything else for itself. */
  function Unescape(s: string): Option<string>
    decreases |s|
  {
    if s == "" then Some("")
    else if s[0] != '&' then
      var rest := Unescape(s[1..]);
      if rest.None? then None else Some([s[0]] + rest.value)
    else
      var (name, after) := Split(s[1..], {';'});
      if after == "" || Referred(name).None? then None
      else
        var rest := Unescape(after[1..]);
        if rest.None? then None else Some([Referred(name).value] + rest.value)
  }

  /** The characters the two writers have a case for. */
  function Special(attr: bool): set<char> {
    if attr then {'&', '<', '"', '\t', '\n', '\r'} else {'&', '<', '>', '\r'}
  }

  /** One character is written as itself, or, exactly if it is special, as the reference that stands for it. */
  lemma {:induction false} ReferencesExactly(c: char, attr: bool) returns (name: string)
    ensures c !in Special(attr) ==> Escaped([c], attr) == [c]
    ensures c in Special(attr) ==>
              Escaped([c], attr) == "&" + name + ";" && Referred(name) == Some(c) && Free(name, {';'})
  {
    name := if c == '&' then "amp" else if c == '<' then "lt" else if c == '>' then "gt" else if c == '"' then "quot"
            else if c == '\t' then "#x9" else if c == '\n' then "#xA" else "#xD";
    assert [c][1..] == "" && Escaped("", attr) == "";
    assert Escaped([c], attr) == Code(c, attr);
  }

  lemma {:induction false} UnescapeReference(name: string, c: char, rest: string)
    requires Free(name, {';'}) && Referred(name) == Some(c)
    ensures Unescape("&" + name + ";" + rest) ==
            if Unescape(rest).None? then None else Some([c] + Unescape(rest).value)
  {
    var s := "&" + name + ";" + rest;
    assert s[1..] == name + (";" + rest);
    SplitIs(name, ";" + rest, {';'});
  }

  /** Reading undoes escaping. */
  lemma {:induction false} UnescapeEscaped(s: string, attr: bool)
    ensures Unescape(Escaped(s, attr)) == Some(s)
  {
    if s != "" {
      var c, rest := s[0], Escaped(s[1..], attr);
      UnescapeEscaped(s[1..], attr);
      EscapedConcat([c], s[1..], attr);
      assert s == [c] + s[1..];
      var name := ReferencesExactly(c, attr);
      if c in Special(attr) { UnescapeReference(name, c, rest); } else { assert ([c] + rest)[1..] == rest; }
    }
  }

  lemma {:induction false} EscapedInjective(s: string, t: string, attr: bool)
    requires Escaped(s, attr) == Escaped(t, attr)
    ensures s == t
  {
    UnescapeEscaped(s, attr);
    UnescapeEscaped(t, attr);
  }
}
