/** The grammar of filters, independent of the parser: the parser accepts exactly its sentences. */
module FilterGrammar {
  import opened Text
  import opened FilterLexer
  import opened FilterParser

  // ---- sentences ----

  /** filter := andExpr ( "or" andExpr )* */
  datatype Ors = LastOr(head: Ands) | MoreOr(head: Ands, tail: Ors)

  /** andExpr := term ( "and" term )* */
  datatype Ands = LastAnd(term: Phrase) | MoreAnd(term: Phrase, tail: Ands)

  /** term := "(" filter ")" | "not" "(" filter ")" | ATTR "pr" | ATTR OP value */
  datatype Phrase =
    | Group(body: Ors)
    | NotGroup(body: Ors)
    | Has(attr: string)
    | Compares(attr: string, op: string, literal: Token)

  function OrWidth(s: Ors): (n: nat)
    ensures n > 0
  {
    match s case LastOr(a) => AndWidth(a) case MoreOr(a, r) => AndWidth(a) + 1 + OrWidth(r)
  }

  function AndWidth(s: Ands): (n: nat)
    ensures n > 0
  {
    match s case LastAnd(t) => PhraseWidth(t) case MoreAnd(t, r) => PhraseWidth(t) + 1 + AndWidth(r)
  }

  function PhraseWidth(t: Phrase): (n: nat)
    ensures n > 0
  {
    match t
    case Group(b) => OrWidth(b) + 2
    case NotGroup(b) => OrWidth(b) + 3
    case Has(_) => 2
    case Compares(_, _, _) => 3
  }

  predicate KindAt(ts: seq<Token>, pos: nat, kind: Kind) { pos < |ts| && ts[pos].kind == kind }

  /** The tokens from `pos` on spell the sentence. */
  predicate OrAt(ts: seq<Token>, pos: nat, s: Ors)
    decreases s
  {
    match s
    case LastOr(a) => AndAt(ts, pos, a)
    case MoreOr(a, r) => AndAt(ts, pos, a) && KindAt(ts, pos + AndWidth(a), Or) && OrAt(ts, pos + AndWidth(a) + 1, r)
  }

  predicate AndAt(ts: seq<Token>, pos: nat, s: Ands)
    decreases s
  {
    match s
    case LastAnd(t) => PhraseAt(ts, pos, t)
    case MoreAnd(t, r) =>
      PhraseAt(ts, pos, t) && KindAt(ts, pos + PhraseWidth(t), And) && AndAt(ts, pos + PhraseWidth(t) + 1, r)
  }

  predicate PhraseAt(ts: seq<Token>, pos: nat, t: Phrase)
    decreases t
  {
    match t
    case Group(b) => KindAt(ts, pos, LParen) && OrAt(ts, pos + 1, b) && KindAt(ts, pos + 1 + OrWidth(b), RParen)
    case NotGroup(b) =>
      KindAt(ts, pos, Not) && KindAt(ts, pos + 1, LParen) && OrAt(ts, pos + 2, b)
          && KindAt(ts, pos + 2 + OrWidth(b), RParen)
    case Has(attr) => pos + 1 < |ts| && ts[pos] == Token(Attr, attr) && ts[pos + 1].kind == Present
    case Compares(attr, op, lit) =>
      pos + 2 < |ts| && ts[pos] == Token(Attr, attr) && ts[pos + 1] == Token(Op, op) && ts[pos + 2] == lit
  }

  function Max(a: nat, b: nat): nat { if a < b then b else a }

  /** How deeply parentheses nest. */
  function OrDepth(s: Ors): nat {
    match s case LastOr(a) => AndDepth(a) case MoreOr(a, r) => Max(AndDepth(a), OrDepth(r))
  }

  function AndDepth(s: Ands): nat {
    match s case LastAnd(t) => PhraseDepth(t) case MoreAnd(t, r) => Max(PhraseDepth(t), AndDepth(r))
  }

  function PhraseDepth(t: Phrase): nat {
    match t case Group(b) => 1 + OrDepth(b) case NotGroup(b) => 1 + OrDepth(b) case _ => 0
  }

  /** Every literal has a value. */
  predicate OrValued(al: Alphabet, s: Ors) {
    AndValued(al, s.head) && (s.MoreOr? ==> OrValued(al, s.tail))
  }

  predicate AndValued(al: Alphabet, s: Ands) {
    PhraseValued(al, s.term) && (s.MoreAnd? ==> AndValued(al, s.tail))
  }

  predicate PhraseValued(al: Alphabet, t: Phrase) {
    match t case Group(b) => OrValued(al, b) case NotGroup(b) => OrValued(al, b) case Has(_) => true
    case Compares(_, _, lit) => Literal(al, lit).Some?
  }

  // ---- the tree a sentence stands for: parentheses gone, single-element lists collapsed ----

  function OrTrees(al: Alphabet, s: Ors): (fs: seq<Filter>)
    requires OrValued(al, s)
    ensures fs != [] && (|fs| == 1 <==> s.LastOr?)
  {
    match s case LastOr(a) => [AndTree(al, a)] case MoreOr(a, r) => [AndTree(al, a)] + OrTrees(al, r)
  }

  function OrTree(al: Alphabet, s: Ors): Filter
    requires OrValued(al, s)
  {
    match s case LastOr(a) => AndTree(al, a) case MoreOr(a, r) => OrF([AndTree(al, a)] + OrTrees(al, r))
  }

  function AndTrees(al: Alphabet, s: Ands): (fs: seq<Filter>)
    requires AndValued(al, s)
    ensures fs != [] && (|fs| == 1 <==> s.LastAnd?)
  {
    match s case LastAnd(t) => [PhraseTree(al, t)] case MoreAnd(t, r) => [PhraseTree(al, t)] + AndTrees(al, r)
  }

  function AndTree(al: Alphabet, s: Ands): Filter
    requires AndValued(al, s)
  {
    match s case LastAnd(t) => PhraseTree(al, t) case MoreAnd(t, r) => AndF([PhraseTree(al, t)] + AndTrees(al, r))
  }

  function PhraseTree(al: Alphabet, t: Phrase): Filter
    requires PhraseValued(al, t)
  {
    match t
    case Group(b) => OrTree(al, b)
    case NotGroup(b) => NotF(OrTree(al, b))
    case Has(attr) => PresentF(attr)
    case Compares(attr, op, lit) => CompareF(attr, op, Literal(al, lit).value)
  }

  // ---- the parser finds every sentence ----

  lemma {:induction false} FindsOr(al: Alphabet, ts: seq<Token>, pos: nat, depth: nat, s: Ors)
    requires EndsOnce(ts) && OrAt(ts, pos, s) && OrValued(al, s) && depth + OrDepth(s) <= MAX_DEPTH
    requires pos + OrWidth(s) < |ts| && ts[pos + OrWidth(s)].kind !in {And, Or}
    ensures Disjunction(al, ts, pos, depth) == Ok(OrTree(al, s), pos + OrWidth(s))
    decreases s, 1
  {
    FindsAnd(al, ts, pos, depth, s.head);
    if s.MoreOr? { FindsMoreOr(al, ts, pos + AndWidth(s.head), depth, s.tail); }
  }

  lemma {:induction false} FindsMoreOr(al: Alphabet, ts: seq<Token>, pos: nat, depth: nat, s: Ors)
    requires EndsOnce(ts) && KindAt(ts, pos, Or) && OrAt(ts, pos + 1, s) && OrValued(al, s)
             && depth + OrDepth(s) <= MAX_DEPTH
    requires pos + 1 + OrWidth(s) < |ts| && ts[pos + 1 + OrWidth(s)].kind !in {And, Or}
    ensures MoreConjunctions(al, ts, pos, depth) == Ok(OrTrees(al, s), pos + 1 + OrWidth(s))
    decreases s, 0
  {
    FindsAnd(al, ts, pos + 1, depth, s.head);
    assert [AndTree(al, s.head)] + [] == [AndTree(al, s.head)];
    if s.MoreOr? { FindsMoreOr(al, ts, pos + 1 + AndWidth(s.head), depth, s.tail); }
  }

  lemma {:induction false} FindsAnd(al: Alphabet, ts: seq<Token>, pos: nat, depth: nat, s: Ands)
    requires EndsOnce(ts) && AndAt(ts, pos, s) && AndValued(al, s) && depth + AndDepth(s) <= MAX_DEPTH
    requires pos + AndWidth(s) < |ts| && ts[pos + AndWidth(s)].kind != And
    ensures Conjunction(al, ts, pos, depth) == Ok(AndTree(al, s), pos + AndWidth(s))
    decreases s, 1
  {
    FindsPhrase(al, ts, pos, depth, s.term);
    if s.MoreAnd? { FindsMoreAnd(al, ts, pos + PhraseWidth(s.term), depth, s.tail); }
  }

  lemma {:induction false} FindsMoreAnd(al: Alphabet, ts: seq<Token>, pos: nat, depth: nat, s: Ands)
    requires EndsOnce(ts) && KindAt(ts, pos, And) && AndAt(ts, pos + 1, s) && AndValued(al, s)
             && depth + AndDepth(s) <= MAX_DEPTH
    requires pos + 1 + AndWidth(s) < |ts| && ts[pos + 1 + AndWidth(s)].kind != And
    ensures MoreTerms(al, ts, pos, depth) == Ok(AndTrees(al, s), pos + 1 + AndWidth(s))
    decreases s, 0
  {
    FindsPhrase(al, ts, pos + 1, depth, s.term);
    assert [PhraseTree(al, s.term)] + [] == [PhraseTree(al, s.term)];
    if s.MoreAnd? { FindsMoreAnd(al, ts, pos + 1 + PhraseWidth(s.term), depth, s.tail); }
  }

  lemma {:induction false} FindsPhrase(al: Alphabet, ts: seq<Token>, pos: nat, depth: nat, t: Phrase)
    requires EndsOnce(ts) && PhraseAt(ts, pos, t) && PhraseValued(al, t) && depth + PhraseDepth(t) <= MAX_DEPTH
    requires pos + PhraseWidth(t) < |ts|
    ensures Term(al, ts, pos, depth) == Ok(PhraseTree(al, t), pos + PhraseWidth(t))
    decreases t
  {
    match t
    case Group(b) => FindsOr(al, ts, pos + 1, depth + 1, b);
    case NotGroup(b) => FindsOr(al, ts, pos + 2, depth + 1, b);
    case Has(_) =>
    case Compares(_, _, _) =>
  }

  // ---- whatever the parser finds is a sentence ----

  ghost predicate IsOr(al: Alphabet, ts: seq<Token>, pos: nat, depth: nat, s: Ors) {
    OrAt(ts, pos, s) && OrValued(al, s) && depth + OrDepth(s) <= MAX_DEPTH
  }

  ghost predicate IsAnd(al: Alphabet, ts: seq<Token>, pos: nat, depth: nat, s: Ands) {
    AndAt(ts, pos, s) && AndValued(al, s) && depth + AndDepth(s) <= MAX_DEPTH
  }

  ghost predicate IsPhrase(al: Alphabet, ts: seq<Token>, pos: nat, depth: nat, t: Phrase) {
    PhraseAt(ts, pos, t) && PhraseValued(al, t) && depth + PhraseDepth(t) <= MAX_DEPTH
  }

  lemma {:induction false} OrFound(al: Alphabet, ts: seq<Token>, pos: nat, depth: nat) returns (s: Ors)
    requires EndsOnce(ts) && pos < |ts| && depth <= MAX_DEPTH && Disjunction(al, ts, pos, depth).Ok?
    ensures IsOr(al, ts, pos, depth, s) && Disjunction(al, ts, pos, depth) == Ok(OrTree(al, s), pos + OrWidth(s))
    decreases |ts| - pos, 2
  {
    var a := AndFound(al, ts, pos, depth);
    var next := pos + AndWidth(a);
    s := LastOr(a);
    if ts[next].kind == Or {
      var r := MoreOrFound(al, ts, next, depth);
      s := MoreOr(a, r);
    }
  }

  lemma {:induction false} MoreOrFound(al: Alphabet, ts: seq<Token>, pos: nat, depth: nat) returns (s: Ors)
    requires EndsOnce(ts) && KindAt(ts, pos, Or) && depth <= MAX_DEPTH && MoreConjunctions(al, ts, pos, depth).Ok?
    ensures IsOr(al, ts, pos + 1, depth, s)
            && MoreConjunctions(al, ts, pos, depth) == Ok(OrTrees(al, s), pos + 1 + OrWidth(s))
    decreases |ts| - pos, 0
  {
    var a := AndFound(al, ts, pos + 1, depth);
    var next := pos + 1 + AndWidth(a);
    assert [AndTree(al, a)] + [] == [AndTree(al, a)];
    s := LastOr(a);
    if ts[next].kind == Or {
      var r := MoreOrFound(al, ts, next, depth);
      s := MoreOr(a, r);
    }
  }

  lemma {:induction false} AndFound(al: Alphabet, ts: seq<Token>, pos: nat, depth: nat) returns (s: Ands)
    requires EndsOnce(ts) && pos < |ts| && depth <= MAX_DEPTH && Conjunction(al, ts, pos, depth).Ok?
    ensures IsAnd(al, ts, pos, depth, s) && Conjunction(al, ts, pos, depth) == Ok(AndTree(al, s), pos + AndWidth(s))
    decreases |ts| - pos, 1
  {
    var t := PhraseFound(al, ts, pos, depth);
    var next := pos + PhraseWidth(t);
    s := LastAnd(t);
    if ts[next].kind == And {
      var r := MoreAndFound(al, ts, next, depth);
      s := MoreAnd(t, r);
    }
  }

  lemma {:induction false} MoreAndFound(al: Alphabet, ts: seq<Token>, pos: nat, depth: nat) returns (s: Ands)
    requires EndsOnce(ts) && KindAt(ts, pos, And) && depth <= MAX_DEPTH && MoreTerms(al, ts, pos, depth).Ok?
    ensures IsAnd(al, ts, pos + 1, depth, s)
            && MoreTerms(al, ts, pos, depth) == Ok(AndTrees(al, s), pos + 1 + AndWidth(s))
    decreases |ts| - pos, 0
  {
    var t := PhraseFound(al, ts, pos + 1, depth);
    var next := pos + 1 + PhraseWidth(t);
    assert [PhraseTree(al, t)] + [] == [PhraseTree(al, t)];
    s := LastAnd(t);
    if ts[next].kind == And {
      var r := MoreAndFound(al, ts, next, depth);
      s := MoreAnd(t, r);
    }
  }

  lemma {:induction false} PhraseFound(al: Alphabet, ts: seq<Token>, pos: nat, depth: nat) returns (t: Phrase)
    requires EndsOnce(ts) && pos < |ts| && depth <= MAX_DEPTH && Term(al, ts, pos, depth).Ok?
    ensures IsPhrase(al, ts, pos, depth, t) && Term(al, ts, pos, depth) == Ok(PhraseTree(al, t), pos + PhraseWidth(t))
    decreases |ts| - pos, 0
  {
    match ts[pos].kind
    case Not =>
      var b := OrFound(al, ts, pos + 2, depth + 1);
      t := NotGroup(b);
    case LParen =>
      var b := OrFound(al, ts, pos + 1, depth + 1);
      t := Group(b);
    case Attr =>
      t := if ts[pos + 1].kind == Present then Has(ts[pos].text)
          else Compares(ts[pos].text, ts[pos + 1].text, ts[pos + 2]);
  }

  /** A sentence of the grammar that fills the token list. */
  ghost predicate Derives(al: Alphabet, ts: seq<Token>, s: Ors) {
    OrAt(ts, 0, s) && OrWidth(s) == |ts| - 1 && OrValued(al, s) && OrDepth(s) <= 128
  }

  /** The parser accepts exactly the sentences whose parentheses nest at most 128 deep, and gives their tree. */
  lemma {:induction false} AcceptsExactly(al: Alphabet, ts: seq<Token>, f: Filter)
    requires EndsOnce(ts)
    ensures ParseTokens(al, ts) == Parsed(Some(f)) <==> exists s :: Derives(al, ts, s) && OrTree(al, s) == f
  {
    if ParseTokens(al, ts) == Parsed(Some(f)) {
      var s := OrFound(al, ts, 0, 0);
      assert Derives(al, ts, s) && OrTree(al, s) == f;
    }
    forall s | Derives(al, ts, s) && OrTree(al, s) == f ensures ParseTokens(al, ts) == Parsed(Some(f)) {
      FindsOr(al, ts, 0, 0, s);
    }
  }
}
