/** Keywords and operators may be written in any letter case. */
module FilterCase {
  import opened Text
  import opened FilterLexer
  import opened FilterParser
  import opened FilterGrammar
  import opened FilterRoundTrip

  // ---- the same text in another letter case ----

  /** One letter is the capital of the other. */
  predicate Capital(small: char, big: char) { 'a' <= small <= 'z' && small as int == big as int + 32 }

  predicate SameButCase(c: char, d: char) { c == d || Capital(c, d) || Capital(d, c) }

  ghost predicate OtherCase(w: string, t: string) {
    |w| == |t| && forall i :: 0 <= i < |w| ==> SameButCase(w[i], t[i])
  }

  predicate Keyword(t: Token) { t.kind in {And, Or, Not, Present, Op, Bool, Null} }

  /** `w` is the text of the token, in any letter case if it is a keyword or an operator. */
  ghost predicate Respelled(t: Token, w: string) {
    if Keyword(t) then OtherCase(w, t.text) else w == Spelling(t)
  }

  ghost predicate Respells(ts: seq<Token>, ws: seq<string>) {
    |ws| == |ts| && forall i :: 0 <= i < |ts| ==> Respelled(ts[i], ws[i])
  }

  // ---- how it is read ----

  /** The parser sees no difference between these tokens. */
  predicate Alike(al: Alphabet, t: Token, u: Token) {
    && t.kind == u.kind
    && (t.kind in {Attr, Str, Number, Op} ==> t.text == u.text)
    && (t.kind == Bool ==> Lower(al, t.text) == Lower(al, u.text))
  }

  ghost predicate AllAlike(al: Alphabet, ts: seq<Token>, us: seq<Token>) {
    |us| == |ts| && forall i :: 0 <= i < |ts| ==> Alike(al, ts[i], us[i])
  }

  lemma {:induction false} CaseGone(al: Alphabet, w: string, t: string)
    requires Ascii(al) && OtherCase(w, t)
    ensures Lower(al, w) == Lower(al, t)
  {
    if w != "" {
      assert SameButCase(w[0], t[0]);
      forall i | 0 <= i < |w[1..]| ensures SameButCase(w[1..][i], t[1..][i]) { assert SameButCase(w[i + 1], t[i + 1]); }
      CaseGone(al, w[1..], t[1..]);
    }
  }

  lemma {:induction false} CaseKeepsWords(al: Alphabet, w: string, t: string)
    requires Ascii(al) && OtherCase(w, t) && IsWord(al, t)
    ensures IsWord(al, w)
  {
    forall i | 0 <= i < |w| ensures WordTail(al, w[i]) && (al.isDigit(w[i]) <==> al.isDigit(t[i])) {
      assert SameButCase(w[i], t[i]) && WordTail(al, t[i]);
    }
    assert SameButCase(w[0], t[0]);
  }

  /** The text is read as a token that is like `t`. */
  ghost predicate ReadLike(al: Alphabet, w: string, t: Token, u: Token) { ReadAs(al, w, u) && Alike(al, t, u) }

  /** A token's text in another case is read as a token that is alike. */
  lemma {:induction false} CaseRead(al: Alphabet, t: Token, w: string) returns (u: Token)
    requires Ascii(al) && Printable(al, t) && Respelled(t, w)
    ensures ReadLike(al, w, t, u)
  {
    if Keyword(t) {
      CaseGone(al, w, t.text);
      CaseKeepsWords(al, w, t.text);
      u := Classify(al, w);
    } else {
      u := t;
    }
  }

  lemma {:induction false} AllRead(al: Alphabet, ts: seq<Token>, ws: seq<string>) returns (us: seq<Token>)
    requires Ascii(al) && Respells(ts, ws) && AllPrintable(al, ts)
    ensures |us| == |ts| && forall i :: 0 <= i < |ts| ==> ReadLike(al, ws[i], ts[i], us[i])
  {
    us := [];
    for n := 0 to |ts|
      invariant |us| == n && forall i :: 0 <= i < n ==> ReadLike(al, ws[i], ts[i], us[i])
    {
      PrintableAt(al, ts, n);
      assert Respelled(ts[n], ws[n]);
      var u := CaseRead(al, ts[n], ws[n]);
      us := us + [u];
    }
  }

  // ---- how it is parsed ----

  lemma {:induction false} TermAlike(al: Alphabet, ts: seq<Token>, us: seq<Token>, pos: nat, depth: nat)
    requires EndsOnce(ts) && EndsOnce(us) && AllAlike(al, ts, us) && pos < |ts|
    ensures Term(al, us, pos, depth) == Term(al, ts, pos, depth)
    decreases |ts| - pos, 0
  {
    assert Alike(al, ts[pos], us[pos]);
    match ts[pos].kind
    case Not =>
      assert Alike(al, ts[pos + 1], us[pos + 1]);
      if ts[pos + 1].kind == LParen { GroupAlike(al, ts, us, pos + 2, depth); }
    case LParen => GroupAlike(al, ts, us, pos + 1, depth);
    case Attr =>
      assert Alike(al, ts[pos + 1], us[pos + 1]);
      if ts[pos + 1].kind == Op { assert Alike(al, ts[pos + 2], us[pos + 2]); }
    case _ =>
  }

  lemma {:induction false} GroupAlike(al: Alphabet, ts: seq<Token>, us: seq<Token>, pos: nat, depth: nat)
    requires EndsOnce(ts) && EndsOnce(us) && AllAlike(al, ts, us) && pos < |ts|
    ensures Grouped(al, us, pos, depth) == Grouped(al, ts, pos, depth)
    decreases |ts| - pos, 3
  {
    if depth + 1 <= MAX_DEPTH {
      OrAlike(al, ts, us, pos, depth + 1);
      var inner := Disjunction(al, ts, pos, depth + 1);
      if inner.Ok? { assert Alike(al, ts[inner.next], us[inner.next]); }
    }
  }

  lemma {:induction false} MoreTermsAlike(al: Alphabet, ts: seq<Token>, us: seq<Token>, pos: nat, depth: nat)
    requires EndsOnce(ts) && EndsOnce(us) && AllAlike(al, ts, us) && pos < |ts|
    ensures MoreTerms(al, us, pos, depth) == MoreTerms(al, ts, pos, depth)
    decreases |ts| - pos, 0
  {
    assert Alike(al, ts[pos], us[pos]);
    if ts[pos].kind == And {
      TermAlike(al, ts, us, pos + 1, depth);
      var t := Term(al, ts, pos + 1, depth);
      if t.Ok? { MoreTermsAlike(al, ts, us, t.next, depth); }
    }
  }

  lemma {:induction false} AndAlike(al: Alphabet, ts: seq<Token>, us: seq<Token>, pos: nat, depth: nat)
    requires EndsOnce(ts) && EndsOnce(us) && AllAlike(al, ts, us) && pos < |ts|
    ensures Conjunction(al, us, pos, depth) == Conjunction(al, ts, pos, depth)
    decreases |ts| - pos, 1
  {
    TermAlike(al, ts, us, pos, depth);
    var t := Term(al, ts, pos, depth);
    if t.Ok? { MoreTermsAlike(al, ts, us, t.next, depth); }
  }

  lemma {:induction false} MoreAndsAlike(al: Alphabet, ts: seq<Token>, us: seq<Token>, pos: nat, depth: nat)
    requires EndsOnce(ts) && EndsOnce(us) && AllAlike(al, ts, us) && pos < |ts|
    ensures MoreConjunctions(al, us, pos, depth) == MoreConjunctions(al, ts, pos, depth)
    decreases |ts| - pos, 0
  {
    assert Alike(al, ts[pos], us[pos]);
    if ts[pos].kind == Or {
      AndAlike(al, ts, us, pos + 1, depth);
      var c := Conjunction(al, ts, pos + 1, depth);
      if c.Ok? { MoreAndsAlike(al, ts, us, c.next, depth); }
    }
  }

  lemma {:induction false} OrAlike(al: Alphabet, ts: seq<Token>, us: seq<Token>, pos: nat, depth: nat)
    requires EndsOnce(ts) && EndsOnce(us) && AllAlike(al, ts, us) && pos < |ts|
    ensures Disjunction(al, us, pos, depth) == Disjunction(al, ts, pos, depth)
    decreases |ts| - pos, 2
  {
    AndAlike(al, ts, us, pos, depth);
    var c := Conjunction(al, ts, pos, depth);
    if c.Ok? { MoreAndsAlike(al, ts, us, c.next, depth); }
  }

  lemma {:induction false} ParsedAlike(al: Alphabet, ts: seq<Token>, us: seq<Token>)
    requires EndsOnce(ts) && EndsOnce(us) && AllAlike(al, ts, us)
    ensures ParseTokens(al, us) == ParseTokens(al, ts)
  {
    OrAlike(al, ts, us, 0, 0);
    var o := Disjunction(al, ts, 0, 0);
    if o.Ok? { assert Alike(al, ts[o.next], us[o.next]); }
  }

  // ---- texts ----

  lemma {:induction false} JoinedNotBlank(al: Alphabet, ws: seq<string>, t: Token)
    requires ws != [] && ReadAs(al, ws[0], t)
    ensures TrimSpace(Joined(ws)) != ""
  {
    assert ws[0] != "" && !IsWhite(ws[0][0]);
    TrimRightKeeps(Joined(ws));
  }

  lemma {:induction false} JoinedParse(al: Alphabet, ws: seq<string>, us: seq<Token>)
    requires Ascii(al) && us != [] && |ws| == |us| && forall k :: 0 <= k < |us| ==> ReadAs(al, ws[k], us[k])
    ensures EndsOnce(us + [END]) && ParseText(al, Joined(ws)) == ParseTokens(al, us + [END])
  {
    JoinedNotBlank(al, ws, us[0]);
    assert Joined(ws)[0..] == Joined(ws);
    LexJoined(al, Joined(ws), 0, ws, us);
    LexShape(al, Joined(ws), 0);
  }

  /** A filter text means the same, or is refused for the same reason, whatever the letter case of its keywords
      and operators. */
  lemma {:induction false} AnyCase(al: Alphabet, ts: seq<Token>, ws: seq<string>)
    requires Ascii(al) && ts != [] && AllPrintable(al, ts) && Respells(ts, ws)
    ensures ParseText(al, Joined(ws)) == ParseText(al, Spell(ts))
  {
    var us := AllRead(al, ts, ws);
    assert forall k :: 0 <= k < |ts| ==> ReadLike(al, ws[k], ts[k], us[k]);
    JoinedParse(al, ws, us);
    SpellJoins(ts);
    forall k | 0 <= k < |ts| ensures ReadAs(al, Spellings(ts)[k], ts[k]) { PrintableAt(al, ts, k); }
    JoinedParse(al, Spellings(ts), ts);
    var ended, other := ts + [END], us + [END];
    forall i | 0 <= i < |ended| ensures Alike(al, ended[i], other[i]) {
      if i < |ts| { assert ended[i] == ts[i] && other[i] == us[i]; }
    }
    ParsedAlike(al, ended, other);
  }

  /** A printed tree is parsed back whatever the letter case its keywords and operators are given, if and only if
      its parentheses nest at most 128 deep. */
  lemma {:induction false} PrintThenParseAnyCase(al: Alphabet, show: real -> string, f: Filter, ws: seq<string>)
    requires Ascii(al) && ShowsNumbers(al, show) && Writable(al, show, f)
    requires Respells(OrTokens(Top(al, show, f)), ws)
    ensures ParseText(al, Joined(ws)) == Parsed(Some(f)) <==> Nesting(al, show, f) <= 128
  {
    TopPrintable(al, show, f);
    AnyCase(al, OrTokens(Top(al, show, f)), ws);
    PrintThenParse(al, show, f);
  }
}
