/** Printing a filter tree and reading it back. */
module FilterRoundTrip {
  import opened Text
  import opened FilterLexer
  import opened FilterParser
  import opened FilterGrammar

  // ---- trees that have a text ----

  predicate AttrWord(al: Alphabet, a: string) { IsWord(al, a) && Classify(al, a) == Token(Attr, a) }

  /** `show` writes a number the tokenizer and the number parser read back. */
  predicate ShowsNumber(al: Alphabet, show: real -> string, n: real) {
    IsNumeral(al, show(n)) && al.parseNumber(show(n)) == Some(n)
  }

  /** `and` and `or` join at least two filters, and attributes are words that are no keywords. */
  predicate Writable(al: Alphabet, show: real -> string, f: Filter)
    decreases f
  {
    match f
    case AndF(cs) => |cs| >= 2 && AllWritable(al, show, cs)
    case OrF(cs) => |cs| >= 2 && AllWritable(al, show, cs)
    case NotF(c) => Writable(al, show, c)
    case PresentF(a) => AttrWord(al, a)
    case CompareF(a, op, v) => AttrWord(al, a) && IsOp(op) && (v.NumV? ==> ShowsNumber(al, show, v.n))
  }

  predicate AllWritable(al: Alphabet, show: real -> string, fs: seq<Filter>)
    decreases fs
  {
    fs == [] || (Writable(al, show, fs[0]) && AllWritable(al, show, fs[1..]))
  }

  function LiteralToken(show: real -> string, v: Value): Token {
    match v
    case StrV(s) => Token(Str, s)
    case NumV(n) => Token(Number, show(n))
    case BoolV(b) => Token(Bool, if b then "true" else "false")
    case NullV => Token(Null, "null")
  }

  // ---- the sentence for a tree, with the parentheses it needs and no more ----

  function Top(al: Alphabet, show: real -> string, f: Filter): Ors
    requires Writable(al, show, f)
    decreases f, 2
  {
    if f.OrF? then OrList(al, show, f.children) else LastOr(Conj(al, show, f))
  }

  function Conj(al: Alphabet, show: real -> string, f: Filter): Ands
    requires Writable(al, show, f)
    decreases f, 1
  {
    if f.AndF? then AndList(al, show, f.children) else LastAnd(Atom(al, show, f))
  }

  function Atom(al: Alphabet, show: real -> string, f: Filter): Phrase
    requires Writable(al, show, f)
    decreases f, 0
  {
    match f
    case OrF(cs) => Group(OrList(al, show, cs))
    case AndF(cs) => Group(LastOr(AndList(al, show, cs)))
    case NotF(c) => NotGroup(Top(al, show, c))
    case PresentF(a) => Has(a)
    case CompareF(a, op, v) => Compares(a, op, LiteralToken(show, v))
  }

  function OrList(al: Alphabet, show: real -> string, fs: seq<Filter>): Ors
    requires fs != [] && AllWritable(al, show, fs)
    decreases fs, 0
  {
    var a := Conj(al, show, fs[0]);
    if |fs| == 1 then LastOr(a) else MoreOr(a, OrList(al, show, fs[1..]))
  }

  function AndList(al: Alphabet, show: real -> string, fs: seq<Filter>): Ands
    requires fs != [] && AllWritable(al, show, fs)
    decreases fs, 0
  {
    var t := Atom(al, show, fs[0]);
    if |fs| == 1 then LastAnd(t) else MoreAnd(t, AndList(al, show, fs[1..]))
  }

  /** How deeply parentheses must nest to write the tree. */
  function Nesting(al: Alphabet, show: real -> string, f: Filter): nat
    requires Writable(al, show, f)
  {
    OrDepth(Top(al, show, f))
  }

  // ---- the sentence stands for the tree ----

  lemma {:induction false} LiteralBack(al: Alphabet, show: real -> string, v: Value)
    requires Ascii(al) && (v.NumV? ==> ShowsNumber(al, show, v.n))
    ensures Literal(al, LiteralToken(show, v)) == Some(v)
  {
    LettersLower(al, "true");
    LettersLower(al, "false");
  }

  lemma {:induction false} TopBack(al: Alphabet, show: real -> string, f: Filter)
    requires Ascii(al) && Writable(al, show, f)
    ensures OrValued(al, Top(al, show, f)) && OrTree(al, Top(al, show, f)) == f
    decreases f, 2
  {
    if f.OrF? { OrListBack(al, show, f.children); } else { ConjBack(al, show, f); }
  }

  lemma {:induction false} ConjBack(al: Alphabet, show: real -> string, f: Filter)
    requires Ascii(al) && Writable(al, show, f)
    ensures AndValued(al, Conj(al, show, f)) && AndTree(al, Conj(al, show, f)) == f
    decreases f, 1
  {
    if f.AndF? { AndListBack(al, show, f.children); } else { AtomBack(al, show, f); }
  }

  lemma {:induction false} AtomBack(al: Alphabet, show: real -> string, f: Filter)
    requires Ascii(al) && Writable(al, show, f)
    ensures PhraseValued(al, Atom(al, show, f)) && PhraseTree(al, Atom(al, show, f)) == f
    decreases f, 0
  {
    match f
    case OrF(cs) => OrListBack(al, show, cs);
    case AndF(cs) => AndListBack(al, show, cs);
    case NotF(c) => TopBack(al, show, c);
    case PresentF(_) =>
    case CompareF(_, _, v) => LiteralBack(al, show, v);
  }

  lemma {:induction false} OrListBack(al: Alphabet, show: real -> string, fs: seq<Filter>)
    requires Ascii(al) && fs != [] && AllWritable(al, show, fs)
    ensures
      var s := OrList(al, show, fs);
      && OrValued(al, s) && OrTrees(al, s) == fs && (|fs| >= 2 ==> OrTree(al, s) == OrF(fs))
    decreases fs, 0
  {
    ConjBack(al, show, fs[0]);
    if |fs| == 1 { assert fs == [fs[0]]; }
    else {
      OrListBack(al, show, fs[1..]);
      OrOneMore(al, fs[0], Conj(al, show, fs[0]), fs[1..], OrList(al, show, fs[1..]), fs);
    }
  }

  lemma {:induction false} OrOneMore(al: Alphabet, f: Filter, a: Ands, rest: seq<Filter>, r: Ors, fs: seq<Filter>)
    requires AndValued(al, a) && AndTree(al, a) == f && OrValued(al, r) && OrTrees(al, r) == rest
    requires |fs| >= 2 && f == fs[0] && rest == fs[1..]
    ensures OrValued(al, MoreOr(a, r)) && OrTrees(al, MoreOr(a, r)) == fs && OrTree(al, MoreOr(a, r)) == OrF(fs)
  {
    assert fs == [f] + rest;
  }

  lemma {:induction false} AndListBack(al: Alphabet, show: real -> string, fs: seq<Filter>)
    requires Ascii(al) && fs != [] && AllWritable(al, show, fs)
    ensures
      var s := AndList(al, show, fs);
      && AndValued(al, s) && AndTrees(al, s) == fs && (|fs| >= 2 ==> AndTree(al, s) == AndF(fs))
    decreases fs, 0
  {
    AtomBack(al, show, fs[0]);
    if |fs| == 1 { assert fs == [fs[0]]; }
    else {
      AndListBack(al, show, fs[1..]);
      AndOneMore(al, fs[0], Atom(al, show, fs[0]), fs[1..], AndList(al, show, fs[1..]), fs);
    }
  }

  lemma {:induction false} AndOneMore(al: Alphabet, f: Filter, a: Phrase, rest: seq<Filter>, r: Ands, fs: seq<Filter>)
    requires PhraseValued(al, a) && PhraseTree(al, a) == f && AndValued(al, r) && AndTrees(al, r) == rest
    requires |fs| >= 2 && f == fs[0] && rest == fs[1..]
    ensures AndValued(al, MoreAnd(a, r)) && AndTrees(al, MoreAnd(a, r)) == fs && AndTree(al, MoreAnd(a, r)) == AndF(fs)
  {
    assert fs == [f] + rest;
  }

  // ---- the tokens of a sentence ----

  const AND := Token(And, "and")
  const OR := Token(Or, "or")
  const NOT := Token(Not, "not")
  const PR := Token(Present, "pr")
  const OPEN := Token(LParen, "(")
  const CLOSE := Token(RParen, ")")

  function OrTokens(s: Ors): (ts: seq<Token>)
    ensures |ts| == OrWidth(s)
  {
    match s
    case LastOr(a) => AndTokens(a)
    case MoreOr(a, r) => AndTokens(a) + ([OR] + OrTokens(r))
  }

  function AndTokens(s: Ands): (ts: seq<Token>)
    ensures |ts| == AndWidth(s)
  {
    match s
    case LastAnd(t) => PhraseTokens(t)
    case MoreAnd(t, r) => PhraseTokens(t) + ([AND] + AndTokens(r))
  }

  function PhraseTokens(t: Phrase): (ts: seq<Token>)
    ensures |ts| == PhraseWidth(t)
  {
    match t
    case Group(b) => [OPEN] + (OrTokens(b) + [CLOSE])
    case NotGroup(b) => [NOT] + ([OPEN] + (OrTokens(b) + [CLOSE]))
    case Has(a) => [Token(Attr, a)] + [PR]
    case Compares(a, op, lit) => [Token(Attr, a)] + ([Token(Op, op)] + [lit])
  }

  /** `ts` has `part` at `pos`. */
  ghost predicate Sits(ts: seq<Token>, pos: nat, part: seq<Token>) {
    pos + |part| <= |ts| && forall i :: 0 <= i < |part| ==> part[i] == ts[pos + i]
  }

  lemma {:induction false} SitsApart(ts: seq<Token>, pos: nat, a: seq<Token>, b: seq<Token>)
    requires Sits(ts, pos, a + b)
    ensures Sits(ts, pos, a) && Sits(ts, pos + |a|, b)
  {
    assert forall i :: 0 <= i < |a| ==> a[i] == (a + b)[i];
    assert forall i :: 0 <= i < |b| ==> b[i] == (a + b)[|a| + i];
  }

  lemma {:induction false} SitsFirst(ts: seq<Token>, pos: nat, t: Token, b: seq<Token>)
    requires Sits(ts, pos, [t] + b)
    ensures pos < |ts| && ts[pos] == t && Sits(ts, pos + 1, b)
  {
    SitsApart(ts, pos, [t], b);
    assert [t][0] == t;
  }

  lemma {:induction false} SitsAround(ts: seq<Token>, pos: nat, a: seq<Token>, t: Token, b: seq<Token>)
    requires Sits(ts, pos, a + ([t] + b))
    ensures Sits(ts, pos, a) && pos + |a| < |ts| && ts[pos + |a|] == t && Sits(ts, pos + |a| + 1, b)
  {
    SitsApart(ts, pos, a, [t] + b);
    SitsFirst(ts, pos + |a|, t, b);
  }

  lemma {:induction false} OrSits(ts: seq<Token>, pos: nat, s: Ors)
    requires Sits(ts, pos, OrTokens(s))
    ensures OrAt(ts, pos, s)
    decreases s, 0
  {
    match s
    case LastOr(a) => AndSits(ts, pos, a);
    case MoreOr(a, r) =>
      SitsAround(ts, pos, AndTokens(a), OR, OrTokens(r));
      AndSits(ts, pos, a);
      OrSits(ts, pos + AndWidth(a) + 1, r);
  }

  lemma {:induction false} AndSits(ts: seq<Token>, pos: nat, s: Ands)
    requires Sits(ts, pos, AndTokens(s))
    ensures AndAt(ts, pos, s)
    decreases s, 0
  {
    match s
    case LastAnd(t) => PhraseSits(ts, pos, t);
    case MoreAnd(t, r) =>
      SitsAround(ts, pos, PhraseTokens(t), AND, AndTokens(r));
      PhraseSits(ts, pos, t);
      AndSits(ts, pos + PhraseWidth(t) + 1, r);
  }

  lemma {:induction false} PhraseSits(ts: seq<Token>, pos: nat, t: Phrase)
    requires Sits(ts, pos, PhraseTokens(t))
    ensures PhraseAt(ts, pos, t)
    decreases t, 0
  {
    match t
    case Group(b) =>
      SitsFirst(ts, pos, OPEN, OrTokens(b) + [CLOSE]);
      BodySits(ts, pos + 1, b);
    case NotGroup(b) =>
      SitsFirst(ts, pos, NOT, [OPEN] + (OrTokens(b) + [CLOSE]));
      SitsFirst(ts, pos + 1, OPEN, OrTokens(b) + [CLOSE]);
      BodySits(ts, pos + 2, b);
    case Has(_) =>
      assert ts[pos + 0] == PhraseTokens(t)[0] && ts[pos + 1] == PhraseTokens(t)[1];
    case Compares(_, _, _) =>
      assert ts[pos + 0] == PhraseTokens(t)[0] && ts[pos + 1] == PhraseTokens(t)[1]
          && ts[pos + 2] == PhraseTokens(t)[2];
  }

  lemma {:induction false} BodySits(ts: seq<Token>, pos: nat, b: Ors)
    requires Sits(ts, pos, OrTokens(b) + [CLOSE])
    ensures OrAt(ts, pos, b) && KindAt(ts, pos + OrWidth(b), RParen)
    decreases b, 1
  {
    SitsApart(ts, pos, OrTokens(b), [CLOSE]);
    OrSits(ts, pos, b);
    assert [CLOSE][0] == CLOSE;
  }

  // ---- every token of a written tree has a text ----

  lemma {:induction false} KeywordPrintable(al: Alphabet, t: Token)
    requires Ascii(al) && t in {AND, OR, NOT, PR, Token(Bool, "true"), Token(Bool, "false"), Token(Null, "null")}
    ensures Printable(al, t)
  {
    assert Letters(t.text);
    LettersAreWords(al, t.text);
  }

  lemma {:induction false} OnePrintable(al: Alphabet, t: Token)
    requires Printable(al, t)
    ensures AllPrintable(al, [t])
  {
    assert [t][1..] == [];
  }

  lemma {:induction false} LiteralPrintable(al: Alphabet, show: real -> string, v: Value)
    requires Ascii(al) && (v.NumV? ==> ShowsNumber(al, show, v.n))
    ensures Printable(al, LiteralToken(show, v))
  {
    if v.BoolV? || v.NullV? { KeywordPrintable(al, LiteralToken(show, v)); }
  }

  lemma {:induction false} TopPrintable(al: Alphabet, show: real -> string, f: Filter)
    requires Ascii(al) && Writable(al, show, f)
    ensures AllPrintable(al, OrTokens(Top(al, show, f)))
    decreases f, 2
  {
    if f.OrF? { OrListPrintable(al, show, f.children); } else { ConjPrintable(al, show, f); }
  }

  lemma {:induction false} ConjPrintable(al: Alphabet, show: real -> string, f: Filter)
    requires Ascii(al) && Writable(al, show, f)
    ensures AllPrintable(al, AndTokens(Conj(al, show, f)))
    decreases f, 1
  {
    if f.AndF? { AndListPrintable(al, show, f.children); } else { AtomPrintable(al, show, f); }
  }

  lemma {:induction false} GroupPrintable(al: Alphabet, b: Ors)
    requires Ascii(al) && AllPrintable(al, OrTokens(b))
    ensures AllPrintable(al, PhraseTokens(Group(b))) && AllPrintable(al, PhraseTokens(NotGroup(b)))
  {
    OnePrintable(al, CLOSE);
    JoinPrintable(al, OrTokens(b), [CLOSE]);
    PrefixPrintable(al, OPEN, OrTokens(b) + [CLOSE]);
    KeywordPrintable(al, NOT);
    PrefixPrintable(al, NOT, [OPEN] + (OrTokens(b) + [CLOSE]));
  }

  lemma {:induction false} AtomPrintable(al: Alphabet, show: real -> string, f: Filter)
    requires Ascii(al) && Writable(al, show, f)
    ensures AllPrintable(al, PhraseTokens(Atom(al, show, f)))
    decreases f, 0
  {
    match f
    case OrF(cs) =>
      OrListPrintable(al, show, cs);
      GroupPrintable(al, OrList(al, show, cs));
    case AndF(cs) =>
      AndListPrintable(al, show, cs);
      GroupPrintable(al, LastOr(AndList(al, show, cs)));
    case NotF(c) =>
      TopPrintable(al, show, c);
      GroupPrintable(al, Top(al, show, c));
    case PresentF(a) =>
      KeywordPrintable(al, PR);
      OnePrintable(al, PR);
      PrefixPrintable(al, Token(Attr, a), [PR]);
    case CompareF(a, op, v) =>
      LiteralPrintable(al, show, v);
      OperatorsAreWords(al, op);
      var lit := LiteralToken(show, v);
      OnePrintable(al, lit);
      PrefixPrintable(al, Token(Op, op), [lit]);
      PrefixPrintable(al, Token(Attr, a), [Token(Op, op)] + [lit]);
  }

  lemma {:induction false} MorePrintable(al: Alphabet, a: seq<Token>, keyword: Token, b: seq<Token>)
    requires Ascii(al) && AllPrintable(al, a) && AllPrintable(al, b) && keyword in {AND, OR}
    ensures AllPrintable(al, a + ([keyword] + b))
  {
    KeywordPrintable(al, keyword);
    OnePrintable(al, keyword);
    JoinPrintable(al, [keyword], b);
    JoinPrintable(al, a, [keyword] + b);
  }

  lemma {:induction false} OrListPrintable(al: Alphabet, show: real -> string, fs: seq<Filter>)
    requires Ascii(al) && fs != [] && AllWritable(al, show, fs)
    ensures AllPrintable(al, OrTokens(OrList(al, show, fs)))
    decreases fs, 0
  {
    ConjPrintable(al, show, fs[0]);
    if |fs| > 1 {
      OrListPrintable(al, show, fs[1..]);
      MorePrintable(al, AndTokens(Conj(al, show, fs[0])), OR, OrTokens(OrList(al, show, fs[1..])));
    }
  }

  lemma {:induction false} AndListPrintable(al: Alphabet, show: real -> string, fs: seq<Filter>)
    requires Ascii(al) && fs != [] && AllWritable(al, show, fs)
    ensures AllPrintable(al, AndTokens(AndList(al, show, fs)))
    decreases fs, 0
  {
    AtomPrintable(al, show, fs[0]);
    if |fs| > 1 {
      AndListPrintable(al, show, fs[1..]);
      MorePrintable(al, PhraseTokens(Atom(al, show, fs[0])), AND, AndTokens(AndList(al, show, fs[1..])));
    }
  }

  // ---- what the parser finds can be written, in no more parentheses ----

  /** `show` writes every number that has a numeral. */
  ghost predicate ShowsNumbers(al: Alphabet, show: real -> string) {
    forall t :: IsNumeral(al, t) && al.parseNumber(t).Some? ==> ShowsNumber(al, show, al.parseNumber(t).value)
  }

  /** The token is the end marker or has a text, and its number can be shown. */
  predicate Readable(al: Alphabet, show: real -> string, t: Token) {
    || t.kind == EOF
    || (Printable(al, t) && (t.kind == Number && al.parseNumber(t.text).Some? ==>
                             ShowsNumber(al, show, al.parseNumber(t.text).value)))
  }

  function Unreadable(al: Alphabet, show: real -> string, ts: seq<Token>): nat {
    if ts == [] then 0 else (if Readable(al, show, ts[0]) then 0 else 1) + Unreadable(al, show, ts[1..])
  }

  lemma {:induction false} ReadableAt(al: Alphabet, show: real -> string, ts: seq<Token>, i: nat)
    requires Unreadable(al, show, ts) == 0 && i < |ts|
    ensures Readable(al, show, ts[i])
  {
    if i > 0 { ReadableAt(al, show, ts[1..], i - 1); }
  }

  lemma {:induction false} AllReadable(al: Alphabet, show: real -> string, ts: seq<Token>)
    requires forall i :: 0 <= i < |ts| ==> Readable(al, show, ts[i])
    ensures Unreadable(al, show, ts) == 0
  {
    if ts != [] { AllReadable(al, show, ts[1..]); }
  }

  /** The tree of a sentence can be written, in no more parentheses than the sentence has. */
  ghost predicate OrFits(al: Alphabet, show: real -> string, s: Ors) {
    && OrValued(al, s) && AllWritable(al, show, OrTrees(al, s)) && Writable(al, show, OrTree(al, s))
    && Nesting(al, show, OrTree(al, s)) <= OrDepth(s) && OrDepth(OrList(al, show, OrTrees(al, s))) <= OrDepth(s)
  }

  ghost predicate AndFits(al: Alphabet, show: real -> string, s: Ands) {
    && AndValued(al, s) && AllWritable(al, show, AndTrees(al, s)) && Writable(al, show, AndTree(al, s))
    && AndDepth(Conj(al, show, AndTree(al, s))) <= AndDepth(s)
    && AndDepth(AndList(al, show, AndTrees(al, s))) <= AndDepth(s)
  }

  ghost predicate PhraseFits(al: Alphabet, show: real -> string, t: Phrase) {
    PhraseValued(al, t) && Writable(al, show, PhraseTree(al, t))
        && PhraseDepth(Atom(al, show, PhraseTree(al, t))) <= PhraseDepth(t)
  }

  lemma {:induction false} LastOrFits(al: Alphabet, show: real -> string, a: Ands)
    requires AndFits(al, show, a)
    ensures OrFits(al, show, LastOr(a))
  {
    LevelsOf(al, show, AndTree(al, a));
  }

  lemma {:induction false} MoreOrFits(al: Alphabet, show: real -> string, a: Ands, r: Ors)
    requires AndFits(al, show, a) && OrFits(al, show, r)
    ensures OrFits(al, show, MoreOr(a, r))
  {
    var fs := [AndTree(al, a)] + OrTrees(al, r);
    assert fs[0] == AndTree(al, a) && fs[1..] == OrTrees(al, r);
    assert OrList(al, show, fs) == MoreOr(Conj(al, show, fs[0]), OrList(al, show, fs[1..]));
  }

  lemma {:induction false} LastAndFits(al: Alphabet, show: real -> string, t: Phrase)
    requires PhraseFits(al, show, t)
    ensures AndFits(al, show, LastAnd(t))
  {
    LevelsOf(al, show, PhraseTree(al, t));
  }

  lemma {:induction false} MoreAndFits(al: Alphabet, show: real -> string, t: Phrase, r: Ands)
    requires PhraseFits(al, show, t) && AndFits(al, show, r)
    ensures AndFits(al, show, MoreAnd(t, r))
  {
    var fs := [PhraseTree(al, t)] + AndTrees(al, r);
    assert fs[0] == PhraseTree(al, t) && fs[1..] == AndTrees(al, r);
    assert AndList(al, show, fs) == MoreAnd(Atom(al, show, fs[0]), AndList(al, show, fs[1..]));
  }

  lemma {:induction false} GroupFits(al: Alphabet, show: real -> string, b: Ors)
    requires OrFits(al, show, b)
    ensures PhraseFits(al, show, Group(b)) && PhraseFits(al, show, NotGroup(b))
  {
    LevelsOf(al, show, OrTree(al, b));
  }

  lemma {:induction false} OrWritable(al: Alphabet, show: real -> string, ts: seq<Token>, pos: nat, s: Ors)
    requires Unreadable(al, show, ts) == 0 && OrAt(ts, pos, s) && OrValued(al, s)
    ensures OrFits(al, show, s)
    decreases s
  {
    AndWritable(al, show, ts, pos, s.head);
    if s.LastOr? {
      LastOrFits(al, show, s.head);
    } else {
      OrWritable(al, show, ts, pos + AndWidth(s.head) + 1, s.tail);
      MoreOrFits(al, show, s.head, s.tail);
    }
  }

  lemma {:induction false} AndWritable(al: Alphabet, show: real -> string, ts: seq<Token>, pos: nat, s: Ands)
    requires Unreadable(al, show, ts) == 0 && AndAt(ts, pos, s) && AndValued(al, s)
    ensures AndFits(al, show, s)
    decreases s
  {
    PhraseWritable(al, show, ts, pos, s.term);
    if s.LastAnd? {
      LastAndFits(al, show, s.term);
    } else {
      AndWritable(al, show, ts, pos + PhraseWidth(s.term) + 1, s.tail);
      MoreAndFits(al, show, s.term, s.tail);
    }
  }

  lemma {:induction false} PhraseWritable(al: Alphabet, show: real -> string, ts: seq<Token>, pos: nat, t: Phrase)
    requires Unreadable(al, show, ts) == 0 && PhraseAt(ts, pos, t) && PhraseValued(al, t)
    ensures PhraseFits(al, show, t)
    decreases t
  {
    match t
    case Group(b) =>
      OrWritable(al, show, ts, pos + 1, b);
      GroupFits(al, show, b);
    case NotGroup(b) =>
      OrWritable(al, show, ts, pos + 2, b);
      GroupFits(al, show, b);
    case Has(_) => ReadableAt(al, show, ts, pos);
    case Compares(attr, op, lit) =>
      ReadableAt(al, show, ts, pos);
      ReadableAt(al, show, ts, pos + 1);
      ReadableAt(al, show, ts, pos + 2);
      ComparesFits(al, show, attr, op, lit);
  }

  lemma {:induction false} ComparesFits(al: Alphabet, show: real -> string, attr: string, op: string, lit: Token)
    requires Literal(al, lit).Some? && Readable(al, show, lit)
    requires Printable(al, Token(Attr, attr)) && Printable(al, Token(Op, op))
    ensures PhraseFits(al, show, Compares(attr, op, lit))
  {
  }

  /** A tree needs at most one more pair of parentheses inside a bigger one than by itself. */
  lemma {:induction false} LevelsOf(al: Alphabet, show: real -> string, f: Filter)
    requires Writable(al, show, f)
    ensures OrDepth(Top(al, show, f)) <= AndDepth(Conj(al, show, f)) <= PhraseDepth(Atom(al, show, f))
    ensures PhraseDepth(Atom(al, show, f)) <= 1 + OrDepth(Top(al, show, f))
  {
  }

  // ---- round trips ----

  /** The text of a tree. */
  function Print(al: Alphabet, show: real -> string, f: Filter): string
    requires Writable(al, show, f)
  {
    Spell(OrTokens(Top(al, show, f)))
  }

  lemma {:induction false} TrimRightKeeps(s: string)
    requires s != "" && !IsWhite(s[0])
    ensures TrimRight(s) != ""
  {
    if IsWhite(s[|s| - 1]) { TrimRightKeeps(s[..|s| - 1]); }
  }

  lemma {:induction false} PrintedNotBlank(al: Alphabet, ts: seq<Token>)
    requires ts != [] && AllPrintable(al, ts)
    ensures TrimSpace(Spell(ts)) != ""
  {
    PrintableAt(al, ts, 0);
    assert Spelling(ts[0]) != "" && !IsWhite(Spelling(ts[0])[0]);
    TrimRightKeeps(Spell(ts));
  }

  /** The tokens of the printed text. */
  lemma {:induction false} PrintedTokens(al: Alphabet, show: real -> string, f: Filter)
    requires Ascii(al) && Writable(al, show, f)
    ensures
      var ts := OrTokens(Top(al, show, f)) + [END];
      EndsOnce(ts) && ParseText(al, Print(al, show, f)) == ParseTokens(al, ts) && forall i :: 0 <= i < |ts| - 1 ==>
          Printable(al, ts[i])
  {
    var ts := OrTokens(Top(al, show, f));
    TopPrintable(al, show, f);
    forall i | 0 <= i < |ts| ensures Printable(al, ts[i]) { PrintableAt(al, ts, i); }
    PrintedNotBlank(al, ts);
    var r := Spell(ts);
    assert r[0..] == r;
    LexSpell(al, r, 0, ts);
  }

  lemma {:induction false} TokensDerive(al: Alphabet, s: Ors)
    requires OrValued(al, s) && OrDepth(s) <= 128
    ensures Derives(al, OrTokens(s) + [END], s)
  {
    var ts := OrTokens(s) + [END];
    assert forall i :: 0 <= i < |OrTokens(s)| ==> OrTokens(s)[i] == ts[0 + i];
    OrSits(ts, 0, s);
  }

  /** Printing any writable tree and parsing the text gives back exactly that tree, if and only if its
      parentheses nest at most 128 deep. */
  lemma {:induction false} PrintThenParse(al: Alphabet, show: real -> string, f: Filter)
    requires Ascii(al) && ShowsNumbers(al, show) && Writable(al, show, f)
    ensures ParseText(al, Print(al, show, f)) == Parsed(Some(f)) <==> Nesting(al, show, f) <= 128
  {
    var s := Top(al, show, f);
    var ts := OrTokens(s) + [END];
    PrintedTokens(al, show, f);
    TopBack(al, show, f);
    AcceptsExactly(al, ts, f);
    if Nesting(al, show, f) <= 128 {
      TokensDerive(al, s);
    }
    if ParseTokens(al, ts) == Parsed(Some(f)) {
      var s' :| Derives(al, ts, s') && OrTree(al, s') == f;
      AllReadable(al, show, ts);
      OrWritable(al, show, ts, 0, s');
    }
  }

  lemma {:induction false} FoundWritable(al: Alphabet, show: real -> string, ts: seq<Token>, f: Filter)
    requires ShowsNumbers(al, show) && EndsOnce(ts) && ParseTokens(al, ts) == Parsed(Some(f))
    requires forall i :: 0 <= i < |ts| - 1 ==> Printable(al, ts[i])
    ensures Writable(al, show, f) && Nesting(al, show, f) <= 128
  {
    AcceptsExactly(al, ts, f);
    var s :| Derives(al, ts, s) && OrTree(al, s) == f;
    AllReadable(al, show, ts);
    OrWritable(al, show, ts, 0, s);
  }

  /** Every accepted text gives a writable tree nesting at most 128 deep, and its printed form is
      accepted with the same tree. */
  lemma {:induction false} ParseThenPrint(al: Alphabet, show: real -> string, input: string, f: Filter)
    requires Ascii(al) && ShowsNumbers(al, show) && ParseText(al, input) == Parsed(Some(f))
    ensures Writable(al, show, f) && Nesting(al, show, f) <= 128
    ensures ParseText(al, Print(al, show, f)) == Parsed(Some(f))
  {
    LexShape(al, input, 0);
    LexPrintable(al, input, 0);
    FoundWritable(al, show, Lex(al, input, 0).tokens, f);
    PrintThenParse(al, show, f);
  }
}
