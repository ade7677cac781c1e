/** The recursive-descent parser of SCIM filters, with its mutable position and depth. */
module FilterParser {
  import opened Text
  import opened FilterLexer

  datatype Value = StrV(s: string) | NumV(n: real) | BoolV(b: bool) | NullV

  datatype Filter =
    | AndF(children: seq<Filter>)
    | OrF(children: seq<Filter>)
    | NotF(child: Filter)
    | PresentF(attr: string)
    | CompareF(attr: string, op: string, value: Value)

  datatype ParseError =
    | ExpectedOpenParen | NestingExceeded | ExpectedCloseParen | ExpectedOperator | UnexpectedToken
    | InvalidNumber | ExpectedValue | TrailingToken | Lexical(error: LexError)

  const MAX_DEPTH: nat := 128

  // ---- what the parser reads, as a function of token list, position and depth ----

  datatype Outcome<T> = Ok(value: T, next: nat) | Bad(error: ParseError)

  /** The value a comparison token stands for. */
  function Literal(al: Alphabet, t: Token): Option<Value> {
    match t.kind
    case Str => Some(StrV(t.text))
    case Number => var n := al.parseNumber(t.text); if n.Some? then Some(NumV(n.value)) else None
    case Bool => Some(BoolV(Lower(al, t.text) == "true"))
    case Null => Some(NullV)
    case _ => None
  }

  function CompValue(al: Alphabet, ts: seq<Token>, pos: nat): (o: Outcome<Value>)
    requires EndsOnce(ts) && pos < |ts|
    ensures o.Ok? ==> o.next == pos + 1 < |ts|
  {
    var v := Literal(al, ts[pos]);
    if v.Some? then Ok(v.value, pos + 1) else Bad(if ts[pos].kind == Number then InvalidNumber else ExpectedValue)
  }

  /** A filter in parentheses, from just after the opening one. */
  function Grouped(al: Alphabet, ts: seq<Token>, pos: nat, depth: nat): (o: Outcome<Filter>)
    requires EndsOnce(ts) && pos < |ts|
    ensures o.Ok? ==> pos < o.next < |ts|
    decreases |ts| - pos, 3
  {
    if depth + 1 > MAX_DEPTH then Bad(NestingExceeded)
    else
      var inner := Disjunction(al, ts, pos, depth + 1);
      if inner.Bad? then inner
      else if ts[inner.next].kind != RParen then Bad(ExpectedCloseParen)
      else Ok(inner.value, inner.next + 1)
  }

  function Comparison(al: Alphabet, ts: seq<Token>, pos: nat): (o: Outcome<Filter>)
    requires EndsOnce(ts) && pos < |ts| && ts[pos].kind == Attr
    ensures o.Ok? ==> pos < o.next < |ts|
  {
    if ts[pos + 1].kind == Present then Ok(PresentF(ts[pos].text), pos + 2)
    else if ts[pos + 1].kind == Op then
      var v := CompValue(al, ts, pos + 2);
      if v.Bad? then Bad(v.error) else Ok(CompareF(ts[pos].text, ts[pos + 1].text, v.value), v.next)
    else Bad(ExpectedOperator)
  }

  function Term(al: Alphabet, ts: seq<Token>, pos: nat, depth: nat): (o: Outcome<Filter>)
    requires EndsOnce(ts) && pos < |ts|
    ensures o.Ok? ==> pos < o.next < |ts|
    decreases |ts| - pos, 0
  {
    match ts[pos].kind
    case Not =>
      if ts[pos + 1].kind != LParen then Bad(ExpectedOpenParen)
      else
        var inner := Grouped(al, ts, pos + 2, depth);
        if inner.Bad? then inner else Ok(NotF(inner.value), inner.next)
    case LParen => Grouped(al, ts, pos + 1, depth)
    case Attr => Comparison(al, ts, pos)
    case _ => Bad(UnexpectedToken)
  }

  /** The terms after further `and`s. */
  function MoreTerms(al: Alphabet, ts: seq<Token>, pos: nat, depth: nat): (o: Outcome<seq<Filter>>)
    requires EndsOnce(ts) && pos < |ts|
    ensures o.Ok? ==> pos <= o.next < |ts|
    decreases |ts| - pos, 0
  {
    if ts[pos].kind != And then Ok([], pos)
    else
      var t := Term(al, ts, pos + 1, depth);
      if t.Bad? then Bad(t.error)
      else
        var rest := MoreTerms(al, ts, t.next, depth);
        if rest.Bad? then rest else Ok([t.value] + rest.value, rest.next)
  }

  function Conjunction(al: Alphabet, ts: seq<Token>, pos: nat, depth: nat): (o: Outcome<Filter>)
    requires EndsOnce(ts) && pos < |ts|
    ensures o.Ok? ==> pos < o.next < |ts|
    decreases |ts| - pos, 1
  {
    var t := Term(al, ts, pos, depth);
    if t.Bad? then t
    else
      var rest := MoreTerms(al, ts, t.next, depth);
      if rest.Bad? then Bad(rest.error) else Ok(AsAnd([t.value] + rest.value), rest.next)
  }

  function MoreConjunctions(al: Alphabet, ts: seq<Token>, pos: nat, depth: nat): (o: Outcome<seq<Filter>>)
    requires EndsOnce(ts) && pos < |ts|
    ensures o.Ok? ==> pos <= o.next < |ts|
    decreases |ts| - pos, 0
  {
    if ts[pos].kind != Or then Ok([], pos)
    else
      var c := Conjunction(al, ts, pos + 1, depth);
      if c.Bad? then Bad(c.error)
      else
        var rest := MoreConjunctions(al, ts, c.next, depth);
        if rest.Bad? then rest else Ok([c.value] + rest.value, rest.next)
  }

  function Disjunction(al: Alphabet, ts: seq<Token>, pos: nat, depth: nat): (o: Outcome<Filter>)
    requires EndsOnce(ts) && pos < |ts|
    ensures o.Ok? ==> pos < o.next < |ts|
    decreases |ts| - pos, 2
  {
    var c := Conjunction(al, ts, pos, depth);
    if c.Bad? then c
    else
      var rest := MoreConjunctions(al, ts, c.next, depth);
      if rest.Bad? then Bad(rest.error) else Ok(AsOr([c.value] + rest.value), rest.next)
  }

  function AsAnd(fs: seq<Filter>): Filter
    requires fs != []
  {
    if |fs| == 1 then fs[0] else AndF(fs)
  }

  function AsOr(fs: seq<Filter>): Filter
    requires fs != []
  {
    if |fs| == 1 then fs[0] else OrF(fs)
  }

  datatype Parse = Parsed(filter: Option<Filter>) | Refused(error: ParseError)

  function ParseTokens(al: Alphabet, ts: seq<Token>): Parse
    requires EndsOnce(ts)
  {
    var o := Disjunction(al, ts, 0, 0);
    if o.Bad? then Refused(o.error)
    else if ts[o.next].kind != EOF then Refused(TrailingToken)
    else Parsed(Some(o.value))
  }

  /** What ParseFilter gives for a text. */
  function ParseText(al: Alphabet, input: string): Parse {
    if TrimSpace(input) == "" then Parsed(None)
    else
      var lexed := Lex(al, input, 0);
      if lexed.Failed? then Refused(Lexical(lexed.error))
      else LexShape(al, input, 0); ParseTokens(al, lexed.tokens)
  }

  /** `done`, then what the rest of the loop reads. */
  function Onto(done: seq<Filter>, rest: Outcome<seq<Filter>>): Outcome<seq<Filter>> {
    if rest.Bad? then rest else Ok(done + rest.value, rest.next)
  }

  // ---- the parser itself ----

  class Parser {
    const al: Alphabet
    const toks: seq<Token>
    var pos: nat
    var depth: nat

    constructor (al: Alphabet, toks: seq<Token>)
      ensures this.al == al && this.toks == toks && pos == 0 && depth == 0
    {
      this.al := al;
      this.toks := toks;
      pos := 0;
      depth := 0;
    }

    /** The position is on a token. */
    ghost predicate Valid()
      reads this
    {
      EndsOnce(toks) && pos < |toks|
    }

    function Peek(): (t: Token)
      requires Valid()
      reads this
      ensures t in toks
    {
      toks[pos]
    }

    /** May leave the last token, the end marker, behind. */
    method Next() returns (t: Token)
      requires Valid()
      modifies this
      ensures t == toks[old(pos)] && pos == old(pos) + 1 && depth == old(depth)
      ensures t.kind != EOF ==> Valid()
    {
      t := toks[pos];
      pos := pos + 1;
    }

    method ParseCompValue() returns (r: Outcome<Value>)
      requires Valid()
      modifies this
      ensures r == CompValue(al, toks, old(pos)) && pos == old(pos) + 1 && depth == old(depth)
    {
      var t := Next();
      match t.kind
      case Str => return Ok(StrV(t.text), pos);
      case Number =>
        var n := al.parseNumber(t.text);
        if n.None? { return Bad(InvalidNumber); }
        return Ok(NumV(n.value), pos);
      case Bool => return Ok(BoolV(Lower(al, t.text) == "true"), pos);
      case Null => return Ok(NullV, pos);
      case _ => return Bad(ExpectedValue);
    }

    /** The part `not (` and `(` share, from just after the parenthesis. */
    method ParseGroup() returns (r: Outcome<Filter>)
      requires Valid()
      modifies this
      ensures r == Grouped(al, toks, old(pos), old(depth)) && pos <= |toks| && depth >= old(depth)
      ensures r.Ok? ==> pos == r.next && depth == old(depth)
      decreases |toks| - pos, 3
    {
      depth := depth + 1;
      if depth > MAX_DEPTH { return Bad(NestingExceeded); }
      var inner := ParseOr();
      depth := depth - 1;
      if inner.Bad? { return inner; }
      if Peek().kind != RParen { return Bad(ExpectedCloseParen); }
      var _ := Next();
      return Ok(inner.value, pos);
    }

    method ParseTerm() returns (r: Outcome<Filter>)
      requires Valid()
      modifies this
      ensures r == Term(al, toks, old(pos), old(depth)) && pos <= |toks| && depth >= old(depth)
      ensures r.Ok? ==> pos == r.next && depth == old(depth)
      decreases |toks| - pos, 0
    {
      match Peek().kind
      case Not =>
        var _ := Next();
        if Peek().kind != LParen { return Bad(ExpectedOpenParen); }
        var _ := Next();
        var inner := ParseGroup();
        if inner.Bad? { return inner; }
        return Ok(NotF(inner.value), inner.next);
      case LParen =>
        var _ := Next();
        r := ParseGroup();
      case Attr =>
        var attr := Next();
        match Peek().kind {
          case Present =>
            var _ := Next();
            return Ok(PresentF(attr.text), pos);
          case Op =>
            var op := Next();
            var v := ParseCompValue();
            if v.Bad? { return Bad(v.error); }
            return Ok(CompareF(attr.text, op.text, v.value), pos);
          case _ => return Bad(ExpectedOperator);
        }
      case _ => return Bad(UnexpectedToken);
    }

    method ParseAnd() returns (r: Outcome<Filter>)
      requires Valid()
      modifies this
      ensures r == Conjunction(al, toks, old(pos), old(depth)) && pos <= |toks| && depth >= old(depth)
      ensures r.Ok? ==> pos == r.next && depth == old(depth)
      decreases |toks| - pos, 1
    {
      var left := ParseTerm();
      if left.Bad? { return left; }
      var children := [left.value];
      ghost var more := MoreTerms(al, toks, pos, depth);
      while Peek().kind == And
        invariant Valid() && depth == old(depth) && left.next <= pos && |children| >= 1 && children[0] == left.value
        invariant Onto([left.value], more) == Onto(children, MoreTerms(al, toks, pos, depth))
        decreases |toks| - pos
      {
        var _ := Next();
        var right := ParseTerm();
        if right.Bad? { return right; }
        ghost var rest := MoreTerms(al, toks, pos, depth);
        if rest.Ok? { Regroup(children, [right.value], rest.value); }
        children := children + [right.value];
      }
      assert children + [] == children;
      assert more.Ok? && [left.value] + more.value == children;
      return Ok(if |children| == 1 then left.value else AndF(children), pos);
    }

    method ParseOr() returns (r: Outcome<Filter>)
      requires Valid()
      modifies this
      ensures r == Disjunction(al, toks, old(pos), old(depth)) && pos <= |toks| && depth >= old(depth)
      ensures r.Ok? ==> pos == r.next && depth == old(depth)
      decreases |toks| - pos, 2
    {
      var left := ParseAnd();
      if left.Bad? { return left; }
      var children := [left.value];
      ghost var more := MoreConjunctions(al, toks, pos, depth);
      while Peek().kind == Or
        invariant Valid() && depth == old(depth) && left.next <= pos && |children| >= 1 && children[0] == left.value
        invariant Onto([left.value], more) == Onto(children, MoreConjunctions(al, toks, pos, depth))
        decreases |toks| - pos
      {
        var _ := Next();
        var right := ParseAnd();
        if right.Bad? { return right; }
        ghost var rest := MoreConjunctions(al, toks, pos, depth);
        if rest.Ok? { Regroup(children, [right.value], rest.value); }
        children := children + [right.value];
      }
      assert children + [] == children;
      assert more.Ok? && [left.value] + more.value == children;
      return Ok(if |children| == 1 then left.value else OrF(children), pos);
    }
  }

  /** Total on every input: it ends, and never looks past the token list. */
  method ParseFilter(al: Alphabet, input: string) returns (r: Parse)
    ensures r == ParseText(al, input)
  {
    if TrimSpace(input) == "" { return Parsed(None); }
    var lexed := Tokenize(al, input);
    if lexed.Failed? { return Refused(Lexical(lexed.error)); }
    LexShape(al, input, 0);
    var p := new Parser(al, lexed.tokens);
    var o := p.ParseOr();
    if o.Bad? { return Refused(o.error); }
    if p.Peek().kind != EOF { return Refused(TrailingToken); }
    return Parsed(Some(o.value));
  }
}
