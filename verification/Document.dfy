/** The indexed document: filling its tables, and the searches that read them. */
module Document {
  import opened Text
  import opened Xml

  /** The indices of an element's start and end tag. */
  datatype Span = Span(start: nat, end: nat)

  /** An open element: its start, and the scope around it. */
  datatype Frame = Frame(start: nat, scope: Scope)

  /** An element in its place: index of its start tag, and the scope its ancestors declare. */
  datatype Node = Node(pos: nat, tag: Tag, kids: Forest<Tag>, scope: Scope)

  function EndOf(n: Node): nat { n.pos + 1 + Size(n.kids) }

  function Inner(n: Node): Scope { Inside(n.scope, n.tag.el.attrs) }

  function Tree(n: Node): Forest<Tag> { Elem(n.tag, n.kids, Nil) }

  ghost predicate CoversNode(ts: seq<Token>, ends: map<nat, nat>, scopes: map<nat, Scope>, n: Node) {
    Covers(ts, ends, scopes, Tree(n), n.pos, n.scope)
  }

  lemma {:induction false} KidsCovered(ts: seq<Token>, ends: map<nat, nat>, scopes: map<nat, Scope>, n: Node)
    requires CoversNode(ts, ends, scopes, n)
    ensures Covers(ts, ends, scopes, n.kids, n.pos + 1, Inner(n))
  {
  }

  // ---- what the searches look for ----

  predicate Named(el: StartElement, space: string, local: string) {
    el.local == local && el.space == space
  }

  predicate NamedLoosely(el: StartElement, space: string, local: string) {
    el.local == local && (space == "" || el.space == space)
  }

  /** The first child with a given name. */
  function FirstChild(f: Forest<Tag>, pos: nat, scope: Scope, space: string, local: string): Option<Node> {
    match f
    case Nil => None
    case Leaf(_, r) => FirstChild(r, pos + 1, scope, space, local)
    case Elem(tag, k, r) =>
      if Named(tag.el, space, local) then Some(Node(pos, tag, k, scope))
      else FirstChild(r, pos + 2 + Size(k), scope, space, local)
  }

  function Child(n: Node, space: string, local: string): Option<Node> {
    FirstChild(n.kids, n.pos + 1, Inner(n), space, local)
  }

  /** The matching descendants that have no matching ancestor, in document order. */
  function Outermost(f: Forest<Tag>, pos: nat, scope: Scope, space: string, local: string): seq<Node> {
    match f
    case Nil => []
    case Leaf(_, r) => Outermost(r, pos + 1, scope, space, local)
    case Elem(tag, k, r) =>
      (if NamedLoosely(tag.el, space, local) then [Node(pos, tag, k, scope)]
       else Outermost(k, pos + 1, Inside(scope, tag.el.attrs), space, local))
      + Outermost(r, pos + 2 + Size(k), scope, space, local)
  }

  function Descendants(n: Node, space: string, local: string): seq<Node> {
    Outermost(n.kids, n.pos + 1, Inner(n), space, local)
  }

  /** All character data below, in order. */
  function TextOf(f: Forest<Tag>): string {
    match f
    case Nil => ""
    case Leaf(t, r) => Said(t) + TextOf(r)
    case Elem(_, k, r) => TextOf(k) + TextOf(r)
  }

  /** The first top-level element. */
  function Root(f: Forest<Tag>, pos: nat): Option<Node> {
    match f
    case Nil => None
    case Leaf(_, r) => Root(r, pos + 1)
    case Elem(tag, k, _) => Some(Node(pos, tag, k, map[]))
  }

  /** The first attribute with a given local name, declarations included. */
  function AttrValue(attrs: seq<Attr>, local: string): Option<string> {
    if attrs == [] then None
    else if attrs[0].local == local then Some(attrs[0].value)
    else AttrValue(attrs[1..], local)
  }

  // ---- one pass over the tokens ----

  /** The elements open just before index `i`, outermost first, each with the scope around it. */
  function OpenAt(f: Forest<Tag>, pos: nat, scope: Scope, i: nat): seq<Frame> {
    match f
    case Nil => []
    case Leaf(_, r) => OpenAt(r, pos + 1, scope, i)
    case Elem(tag, k, r) =>
      var e := pos + 1 + Size(k);
      if i <= pos then []
      else if i <= e then [Frame(pos, scope)] + OpenAt(k, pos + 1, Inside(scope, tag.el.attrs), i)
      else OpenAt(r, e + 1, scope, i)
  }

  /** The scope in force just before index `i`. */
  function CurrentAt(f: Forest<Tag>, pos: nat, scope: Scope, i: nat): Scope {
    match f
    case Nil => scope
    case Leaf(_, r) => CurrentAt(r, pos + 1, scope, i)
    case Elem(tag, k, r) =>
      var e := pos + 1 + Size(k);
      if i <= pos then scope
      else if i <= e then CurrentAt(k, pos + 1, Inside(scope, tag.el.attrs), i)
      else CurrentAt(r, e + 1, scope, i)
  }

  lemma {:induction false} OutsideIsPlain(f: Forest<Tag>, pos: nat, scope: Scope, i: nat)
    requires i <= pos || pos + Size(f) <= i
    ensures OpenAt(f, pos, scope, i) == [] && CurrentAt(f, pos, scope, i) == scope
  {
    match f
    case Nil =>
    case Leaf(_, r) => OutsideIsPlain(r, pos + 1, scope, i);
    case Elem(_, k, r) => OutsideIsPlain(r, pos + 2 + Size(k), scope, i);
  }

  lemma {:induction false} StepStart(f: Forest<Tag>, pos: nat, scope: Scope, i: nat)
    requires pos <= i < pos + Size(f) && TokenAt(f, pos, i).Start?
    ensures ScopeAt(f, pos, scope, i) == Some(CurrentAt(f, pos, scope, i))
    ensures OpenAt(f, pos, scope, i + 1) == OpenAt(f, pos, scope, i) + [Frame(i, CurrentAt(f, pos, scope, i))]
    ensures CurrentAt(f, pos, scope, i + 1) == Inside(CurrentAt(f, pos, scope, i), TokenAt(f, pos, i).el.attrs)
  {
    match f
    case Leaf(_, r) => StepStart(r, pos + 1, scope, i);
    case Elem(tag, k, r) =>
      var e := pos + 1 + Size(k);
      var inner := Inside(scope, tag.el.attrs);
      if i == pos {
        OutsideIsPlain(k, pos + 1, inner, i + 1);
      } else if i < e {
        StepStart(k, pos + 1, inner, i);
      } else {
        OutsideIsPlain(r, e + 1, scope, e + 1);
        StepStart(r, e + 1, scope, i);
      }
  }

  lemma {:induction false} StepEnd(f: Forest<Tag>, pos: nat, scope: Scope, i: nat) returns (start: nat)
    requires pos <= i < pos + Size(f) && TokenAt(f, pos, i).End?
    ensures OpenAt(f, pos, scope, i) == OpenAt(f, pos, scope, i + 1) + [Frame(start, CurrentAt(f, pos, scope, i + 1))]
    ensures EndAt(f, pos, start) == Some(i)
  {
    match f
    case Leaf(_, r) => start := StepEnd(r, pos + 1, scope, i);
    case Elem(tag, k, r) =>
      var e := pos + 1 + Size(k);
      var inner := Inside(scope, tag.el.attrs);
      if i < e {
        start := StepEnd(k, pos + 1, inner, i);
        EndInRange(k, pos + 1, start);
      } else if i == e {
        start := pos;
        OutsideIsPlain(k, pos + 1, inner, i);
        OutsideIsPlain(r, e + 1, scope, i + 1);
      } else {
        start := StepEnd(r, e + 1, scope, i);
        EndInRange(r, e + 1, start);
      }
  }

  lemma {:induction false} StepText(f: Forest<Tag>, pos: nat, scope: Scope, i: nat)
    requires pos <= i < pos + Size(f) && !TokenAt(f, pos, i).Start? && !TokenAt(f, pos, i).End?
    ensures OpenAt(f, pos, scope, i + 1) == OpenAt(f, pos, scope, i)
    ensures CurrentAt(f, pos, scope, i + 1) == CurrentAt(f, pos, scope, i)
  {
    match f
    case Leaf(_, r) =>
      if i == pos { OutsideIsPlain(r, pos + 1, scope, i); OutsideIsPlain(r, pos + 1, scope, i + 1); }
      else { StepText(r, pos + 1, scope, i); }
    case Elem(tag, k, r) =>
      var e := pos + 1 + Size(k);
      if i < e { StepText(k, pos + 1, Inside(scope, tag.el.attrs), i); }
      else { StepText(r, e + 1, scope, i); }
  }

  /** Elements are nested or disjoint, so no two share an end tag. */
  lemma {:induction false} NestedOrDisjoint(ts: seq<Token>, f: Forest<Tag>, pos: nat, i: nat, j: nat)
    requires Laid(ts, f, pos) && i < j && EndAt(f, pos, i).Some? && EndAt(f, pos, j).Some?
    ensures EndAt(f, pos, i).value < j || EndAt(f, pos, j).value < EndAt(f, pos, i).value
  {
    match f
    case Leaf(_, r) => NestedOrDisjoint(ts, r, pos + 1, i, j);
    case Elem(_, k, r) =>
      var e := pos + 1 + Size(k);
      EntriesAtStarts(ts, k, pos + 1, map[], i);
      EntriesAtStarts(ts, k, pos + 1, map[], j);
      EntriesAtStarts(ts, r, e + 1, map[], i);
      EntriesAtStarts(ts, r, e + 1, map[], j);
      if i > e { NestedOrDisjoint(ts, r, e + 1, i, j); }
      if i > pos && j < e { NestedOrDisjoint(ts, k, pos + 1, i, j); }
  }

  /** The ends of the elements closed before index `i`. */
  function EndsBefore(f: Forest<Tag>, i: nat): map<nat, nat> {
    map k: nat | k < Size(f) && EndAt(f, 0, k).Some? && EndAt(f, 0, k).value < i :: EndAt(f, 0, k).value
  }

  /** The scopes of the elements started before index `i`. */
  function ScopesBefore(f: Forest<Tag>, i: nat): map<nat, Scope> {
    map k: nat | k < i && ScopeAt(f, 0, map[], k).Some? :: ScopeAt(f, 0, map[], k).value
  }

  lemma {:induction false} EndsStep(ts: seq<Token>, f: Forest<Tag>, i: nat, start: nat)
    requires Laid(ts, f, 0) && EndAt(f, 0, start) == Some(i)
    ensures EndsBefore(f, i + 1) == EndsBefore(f, i)[start := i]
  {
    EntriesAtStarts(ts, f, 0, map[], start);
    forall k: nat | EndAt(f, 0, k) == Some(i) ensures k == start {
      EntriesAtStarts(ts, f, 0, map[], k);
      if k < start { NestedOrDisjoint(ts, f, 0, k, start); }
      if start < k { NestedOrDisjoint(ts, f, 0, start, k); }
    }
  }

  lemma {:induction false} EndsStay(ts: seq<Token>, f: Forest<Tag>, i: nat)
    requires Laid(ts, f, 0) && i < Size(f) <= |ts| && !ts[i].End?
    ensures EndsBefore(f, i + 1) == EndsBefore(f, i)
  {
    forall k: nat ensures EndAt(f, 0, k) != Some(i) { EntriesAtStarts(ts, f, 0, map[], k); }
  }

  lemma {:induction false} ScopesStep(ts: seq<Token>, f: Forest<Tag>, i: nat)
    requires Laid(ts, f, 0) && i < Size(f) <= |ts|
    ensures ScopesBefore(f, i + 1) ==
              if ts[i].Start? then ScopesBefore(f, i)[i := CurrentAt(f, 0, map[], i)] else ScopesBefore(f, i)
  {
    EntriesAtStarts(ts, f, 0, map[], i);
    LaidAt(ts, f, 0, i);
    if ts[i].Start? { StepStart(f, 0, map[], i); }
  }

  lemma {:induction false} TablesCover(ts: seq<Token>, f: Forest<Tag>)
    requires Laid(ts, f, 0) && Size(f) == |ts|
    ensures Covers(ts, EndsBefore(f, |ts|), ScopesBefore(f, |ts|), f, 0, map[])
  {
    forall i: nat
      ensures EndAt(f, 0, i).Some? <==> ScopeAt(f, 0, map[], i).Some?
      ensures EndAt(f, 0, i).Some? ==> i < EndAt(f, 0, i).value < |ts|
    {
      EntriesAtStarts(ts, f, 0, map[], i);
    }
    TreeCovers(ts, EndsBefore(f, |ts|), ScopesBefore(f, |ts|), f, 0, map[]);
  }

  method Declare(cur: Scope, attrs: seq<Attr>) returns (next: Scope)
    ensures next == Inside(cur, attrs)
  {
    next := cur;
    for k := 0 to |attrs|
      invariant Inside(next, attrs[k..]) == Inside(cur, attrs)
    {
      var a := attrs[k];
      assert attrs[k..][0] == a && attrs[k..][1..] == attrs[k + 1..];
      if a.space == "xmlns" {
        next := next[a.local := a.value];
      } else if a.space == "" && a.local == "xmlns" {
        next := next["" := a.value];
      }
    }
  }

  class XmlDoc {
    const tokens: seq<Token>
    var matchEnd: map<nat, nat>
    var nsAtStart: map<nat, Scope>

    constructor (tokens: seq<Token>)
      ensures this.tokens == tokens && matchEnd == map[] && nsAtStart == map[]
    {
      this.tokens := tokens;
      matchEnd := map[];
      nsAtStart := map[];
    }

    /** Fills both tables with one pass and an explicit stack. */
    method Index(ghost f: Forest<Tag>)
      requires matchEnd == map[] && nsAtStart == map[]
      requires Laid(tokens, f, 0) && Size(f) == |tokens|
      modifies this
      ensures Covers(tokens, matchEnd, nsAtStart, f, 0, map[])
    {
      var stack: seq<Frame> := [];
      var cur: Scope := map[];
      OutsideIsPlain(f, 0, map[], 0);
      for i := 0 to |tokens|
        invariant stack == OpenAt(f, 0, map[], i) && cur == CurrentAt(f, 0, map[], i)
        invariant matchEnd == EndsBefore(f, i) && nsAtStart == ScopesBefore(f, i)
      {
        ScopesStep(tokens, f, i);
        LaidAt(tokens, f, 0, i);
        match tokens[i]
        case Start(el) =>
          StepStart(f, 0, map[], i);
          EndsStay(tokens, f, i);
          nsAtStart := nsAtStart[i := cur];
          var next := Declare(cur, el.attrs);
          stack := stack + [Frame(i, cur)];
          cur := next;
        case End =>
          ghost var start := StepEnd(f, 0, map[], i);
          if |stack| > 0 {
            var frame := stack[|stack| - 1];
            EndsStep(tokens, f, i, frame.start);
            stack := stack[..|stack| - 1];
            matchEnd := matchEnd[frame.start := i];
            cur := frame.scope;
          }
        case _ =>
          StepText(f, 0, map[], i);
          EndsStay(tokens, f, i);
      }
      TablesCover(tokens, f);
    }

    /** rootRange: the first start tag that has an end. */
    method RootRange(ghost f: Forest<Tag>) returns (start: nat, end: nat, ok: bool)
      requires Covers(tokens, matchEnd, nsAtStart, f, 0, map[]) && Size(f) == |tokens|
      ensures ok == Root(f, 0).Some?
      ensures ok ==> start == Root(f, 0).value.pos && end == EndOf(Root(f, 0).value)
      ensures ok ==> CoversNode(tokens, matchEnd, nsAtStart, Root(f, 0).value)
    {
      ghost var todo := f;
      for i := 0 to |tokens|
        invariant Covers(tokens, matchEnd, nsAtStart, todo, i, map[])
        invariant i + Size(todo) == |tokens| && Root(todo, i) == Root(f, 0)
      {
        if tokens[i].Start? {
          if i in matchEnd {
            return i, matchEnd[i], true;
          }
        }
        todo := todo.rest;
      }
      return 0, 0, false;
    }

    method FindDirectChild(start: nat, end: nat, space: string, local: string, ghost n: Node)
      returns (s: nat, e: nat, ok: bool)
      requires CoversNode(tokens, matchEnd, nsAtStart, n) && start == n.pos && end == EndOf(n)
      ensures ok == Child(n, space, local).Some?
      ensures ok ==> s == Child(n, space, local).value.pos && e == EndOf(Child(n, space, local).value)
      ensures ok ==> CoversNode(tokens, matchEnd, nsAtStart, Child(n, space, local).value)
    {
      var i := start + 1;
      ghost var todo := n.kids;
      while i < end
        invariant Covers(tokens, matchEnd, nsAtStart, todo, i, Inner(n)) && i + Size(todo) == end
        invariant FirstChild(todo, i, Inner(n), space, local) == Child(n, space, local)
      {
        if !tokens[i].Start? {
          todo := todo.rest;
          i := i + 1;
          continue;
        }
        var el := tokens[i].el;
        e := matchEnd[i];
        if el.local == local && el.space == space {
          return i, e, true;
        }
        todo := todo.rest;
        i := e + 1;
      }
      return 0, 0, false;
    }

    method FindAllDescendants(start: nat, end: nat, space: string, local: string, ghost n: Node)
      returns (out: seq<Span>)
      requires CoversNode(tokens, matchEnd, nsAtStart, n) && start == n.pos && end == EndOf(n)
      ensures out == Spans(Descendants(n, space, local))
    {
      ghost var kids, inner, all := n.kids, Inner(n), Spans(Descendants(n, space, local));
      SearchStart(tokens, matchEnd, nsAtStart, n, space, local);
      ghost var rest := all;
      out := [];
      var i: nat := start + 1;
      while i < end
        invariant start < i <= end && out + rest == all && rest == SpansFrom(kids, start + 1, inner, space, local, i)
      {
        rest := SearchTurn(tokens, matchEnd, nsAtStart, kids, start + 1, inner, space, local, i, out, rest);
        if tokens[i].Start? && NamedLoosely(tokens[i].el, space, local) {
          out := out + [Span(i, matchEnd[i])];
          i := matchEnd[i] + 1;
        } else {
          i := i + 1;
        }
      }
      SearchEnd(kids, start + 1, inner, space, local, out, rest);
    }

    /** elementText: the character data between two indices. */
    method ElementText(start: nat, end: nat, ghost n: Node) returns (text: string)
      requires CoversNode(tokens, matchEnd, nsAtStart, n) && start == n.pos && end == EndOf(n)
      ensures text == TextOf(n.kids)
    {
      ghost var kids := n.kids;
      KidsCovered(tokens, matchEnd, nsAtStart, n);
      TextFromStart(kids, start + 1, start + 1);
      text := "";
      for i := start + 1 to end
        invariant text + TextFrom(kids, start + 1, i) == TextOf(kids)
      {
        TextTurn(tokens, matchEnd, nsAtStart, kids, start + 1, Inner(n), i);
        if tokens[i].CharData? {
          Regroup(text, tokens[i].text, TextFrom(kids, start + 1, i + 1));
          text := text + tokens[i].text;
        }
      }
      TextFromEnd(kids, start + 1, end);
    }
  }

  method AttrLookup(el: StartElement, local: string) returns (value: string, ok: bool)
    ensures ok == AttrValue(el.attrs, local).Some?
    ensures value == if ok then AttrValue(el.attrs, local).value else ""
  {
    for i := 0 to |el.attrs|
      invariant AttrValue(el.attrs[i..], local) == AttrValue(el.attrs, local)
    {
      assert el.attrs[i..][0] == el.attrs[i] && el.attrs[i..][1..] == el.attrs[i + 1..];
      if el.attrs[i].local == local {
        return el.attrs[i].value, true;
      }
    }
    return "", false;
  }

  function Spans(ns: seq<Node>): seq<Span> {
    if ns == [] then [] else [Span(ns[0].pos, EndOf(ns[0]))] + Spans(ns[1..])
  }

  // ---- the part of a search that lies from an index on ----

  ghost function OutermostFrom(f: Forest<Tag>, pos: nat, scope: Scope, space: string, local: string,
                               i: nat): seq<Node> {
    match f
    case Nil => []
    case Leaf(_, r) => OutermostFrom(r, pos + 1, scope, space, local, i)
    case Elem(tag, k, r) =>
      var e := pos + 1 + Size(k);
      if i <= pos then Outermost(f, pos, scope, space, local)
      else if i <= e then OutermostFrom(k, pos + 1, Inside(scope, tag.el.attrs), space, local, i)
                          + Outermost(r, e + 1, scope, space, local)
      else OutermostFrom(r, e + 1, scope, space, local, i)
  }

  lemma {:induction false} OutermostFromStart(f: Forest<Tag>, pos: nat, scope: Scope, space: string, local: string,
                                              i: nat)
    requires i <= pos
    ensures OutermostFrom(f, pos, scope, space, local, i) == Outermost(f, pos, scope, space, local)
  {
    match f
    case Nil =>
    case Leaf(_, r) => OutermostFromStart(r, pos + 1, scope, space, local, i);
    case Elem(_, _, _) =>
  }

  lemma {:induction false} OutermostFromEnd(f: Forest<Tag>, pos: nat, scope: Scope, space: string, local: string,
                                            i: nat)
    requires pos + Size(f) <= i
    ensures OutermostFrom(f, pos, scope, space, local, i) == []
  {
    match f
    case Nil =>
    case Leaf(_, r) => OutermostFromEnd(r, pos + 1, scope, space, local, i);
    case Elem(_, k, r) => OutermostFromEnd(r, pos + 2 + Size(k), scope, space, local, i);
  }

  /** One turn of the search: a match is reported and jumped over, anything else is stepped into. */
  ghost predicate Steps(f: Forest<Tag>, pos: nat, scope: Scope, space: string, local: string, i: nat)
    requires pos <= i < pos + Size(f)
  {
    var here, t := OutermostFrom(f, pos, scope, space, local, i), TokenAt(f, pos, i);
    if t.Start? && NamedLoosely(t.el, space, local)
    then here != [] && here[0].pos == i && EndAt(f, pos, i) == Some(EndOf(here[0]))
         && here[1..] == OutermostFrom(f, pos, scope, space, local, EndOf(here[0]) + 1)
    else here == OutermostFrom(f, pos, scope, space, local, i + 1)
  }

  lemma {:induction false} FromStep(f: Forest<Tag>, pos: nat, scope: Scope, space: string, local: string, i: nat)
    requires pos <= i < pos + Size(f)
    ensures Steps(f, pos, scope, space, local, i)
  {
    match f
    case Leaf(_, r) =>
      if i > pos { FromStep(r, pos + 1, scope, space, local, i); }
      else {
        OutermostFromStart(r, pos + 1, scope, space, local, i);
        OutermostFromStart(r, pos + 1, scope, space, local, i + 1);
      }
    case Elem(tag, k, r) =>
      var e := pos + 1 + Size(k);
      if i == pos || i == e {
        FromTag(tag, k, r, pos, scope, space, local, i);
      } else if i < e {
        FromStep(k, pos + 1, Inside(scope, tag.el.attrs), space, local, i);
        FromInside(tag, k, r, pos, scope, space, local, i);
      } else {
        FromStep(r, e + 1, scope, space, local, i);
        FromAfter(tag, k, r, pos, scope, space, local, i);
      }
  }

  lemma {:induction false} FromTag(tag: Tag, k: Forest<Tag>, r: Forest<Tag>, pos: nat, scope: Scope, space: string,
                                   local: string, i: nat)
    requires i == pos || i == pos + 1 + Size(k)
    ensures Steps(Elem(tag, k, r), pos, scope, space, local, i)
  {
    var e, inner := pos + 1 + Size(k), Inside(scope, tag.el.attrs);
    OutermostFromStart(r, e + 1, scope, space, local, e + 1);
    if i == pos {
      OutermostFromStart(k, pos + 1, inner, space, local, i + 1);
    } else {
      OutermostFromEnd(k, pos + 1, inner, space, local, i);
      assert [] + Outermost(r, e + 1, scope, space, local) == Outermost(r, e + 1, scope, space, local);
    }
  }

  lemma {:induction false} FromInside(tag: Tag, k: Forest<Tag>, r: Forest<Tag>, pos: nat, scope: Scope, space: string,
                                      local: string, i: nat)
    requires pos < i < pos + 1 + Size(k) && Steps(k, pos + 1, Inside(scope, tag.el.attrs), space, local, i)
    ensures Steps(Elem(tag, k, r), pos, scope, space, local, i)
  {
    EndInRange(k, pos + 1, i);
    var below := OutermostFrom(k, pos + 1, Inside(scope, tag.el.attrs), space, local, i);
    var tail := Outermost(r, pos + 2 + Size(k), scope, space, local);
    if below != [] { assert (below + tail)[0] == below[0] && (below + tail)[1..] == below[1..] + tail; }
  }

  lemma {:induction false} FromAfter(tag: Tag, k: Forest<Tag>, r: Forest<Tag>, pos: nat, scope: Scope, space: string,
                                     local: string, i: nat)
    requires pos + 1 + Size(k) < i < pos + 2 + Size(k) + Size(r) && Steps(r, pos + 2 + Size(k), scope, space, local, i)
    ensures Steps(Elem(tag, k, r), pos, scope, space, local, i)
  {
    EndInRange(r, pos + 2 + Size(k), i);
  }

  ghost function SpansFrom(f: Forest<Tag>, pos: nat, scope: Scope, space: string, local: string, i: nat): seq<Span> {
    Spans(OutermostFrom(f, pos, scope, space, local, i))
  }

  /** What is not a match is stepped over. */
  lemma {:induction false} SearchMiss(ts: seq<Token>, ends: map<nat, nat>, scopes: map<nat, Scope>, f: Forest<Tag>,
                                      pos: nat, scope: Scope, space: string, local: string, i: nat)
    requires Covers(ts, ends, scopes, f, pos, scope) && pos <= i < pos + Size(f) && i < |ts|
    requires !(ts[i].Start? && NamedLoosely(ts[i].el, space, local))
    ensures SpansFrom(f, pos, scope, space, local, i) == SpansFrom(f, pos, scope, space, local, i + 1)
  {
    CoversAt(ts, ends, scopes, f, pos, scope, i);
    FromStep(f, pos, scope, space, local, i);
  }

  /** And a match is reported and jumped over. */
  lemma {:induction false} SearchHit(ts: seq<Token>, ends: map<nat, nat>, scopes: map<nat, Scope>, f: Forest<Tag>,
                                     pos: nat, scope: Scope, space: string, local: string, i: nat, out: seq<Span>,
                                     here: seq<Span>) returns (rest: seq<Span>)
    requires Covers(ts, ends, scopes, f, pos, scope) && pos <= i < pos + Size(f) && i < |ts|
    requires ts[i].Start? && NamedLoosely(ts[i].el, space, local) && here == SpansFrom(f, pos, scope, space, local, i)
    ensures i in ends && rest == SpansFrom(f, pos, scope, space, local, ends[i] + 1)
    ensures out + here == (out + [Span(i, ends[i])]) + rest
  {
    CoversAt(ts, ends, scopes, f, pos, scope, i);
    FromStep(f, pos, scope, space, local, i);
    rest := SpansFrom(f, pos, scope, space, local, ends[i] + 1);
    assert here == [Span(i, ends[i])] + rest;
    Regroup(out, [Span(i, ends[i])], rest);
  }

  lemma {:induction false} SearchStart(ts: seq<Token>, ends: map<nat, nat>, scopes: map<nat, Scope>, n: Node,
                                       space: string, local: string)
    requires CoversNode(ts, ends, scopes, n)
    ensures Covers(ts, ends, scopes, n.kids, n.pos + 1, Inner(n))
    ensures SpansFrom(n.kids, n.pos + 1, Inner(n), space, local, n.pos + 1) == Spans(Descendants(n, space, local))
  {
    KidsCovered(ts, ends, scopes, n);
    OutermostFromStart(n.kids, n.pos + 1, Inner(n), space, local, n.pos + 1);
  }

  lemma {:induction false} SearchEnd(f: Forest<Tag>, pos: nat, scope: Scope, space: string, local: string,
                                     out: seq<Span>, rest: seq<Span>)
    requires rest == SpansFrom(f, pos, scope, space, local, pos + Size(f))
    ensures out + rest == out
  {
    OutermostFromEnd(f, pos, scope, space, local, pos + Size(f));
  }

  /** One turn in terms of the tokens and the table of ends. */
  lemma {:induction false} SearchTurn(ts: seq<Token>, ends: map<nat, nat>, scopes: map<nat, Scope>, f: Forest<Tag>,
                                      pos: nat, scope: Scope, space: string, local: string, i: nat, out: seq<Span>,
                                      here: seq<Span>) returns (rest: seq<Span>)
    requires Covers(ts, ends, scopes, f, pos, scope) && pos <= i < pos + Size(f)
             && here == SpansFrom(f, pos, scope, space, local, i)
    ensures i < |ts|
    ensures
      if ts[i].Start? && NamedLoosely(ts[i].el, space, local)
      then i in ends && i < ends[i] < pos + Size(f) && rest == SpansFrom(f, pos, scope, space, local, ends[i] + 1)
           && out + here == (out + [Span(i, ends[i])]) + rest
      else rest == here == SpansFrom(f, pos, scope, space, local, i + 1)
  {
    CoversAt(ts, ends, scopes, f, pos, scope, i);
    if ts[i].Start? && NamedLoosely(ts[i].el, space, local) {
      rest := SearchHit(ts, ends, scopes, f, pos, scope, space, local, i, out, here);
    } else {
      SearchMiss(ts, ends, scopes, f, pos, scope, space, local, i);
      rest := here;
    }
  }

  ghost function TextFrom(f: Forest<Tag>, pos: nat, i: nat): string {
    match f
    case Nil => ""
    case Leaf(_, r) => if i <= pos then TextOf(f) else TextFrom(r, pos + 1, i)
    case Elem(_, k, r) =>
      var e := pos + 1 + Size(k);
      if i <= e then TextFrom(k, pos + 1, i) + TextOf(r) else TextFrom(r, e + 1, i)
  }

  lemma {:induction false} TextFromStart(f: Forest<Tag>, pos: nat, i: nat)
    requires i <= pos
    ensures TextFrom(f, pos, i) == TextOf(f)
  {
    match f
    case Nil =>
    case Leaf(_, _) =>
    case Elem(_, k, _) => TextFromStart(k, pos + 1, i);
  }

  lemma {:induction false} TextFromEnd(f: Forest<Tag>, pos: nat, i: nat)
    requires pos + Size(f) <= i
    ensures TextFrom(f, pos, i) == ""
  {
    match f
    case Nil =>
    case Leaf(_, r) => TextFromEnd(r, pos + 1, i);
    case Elem(_, k, r) => TextFromEnd(r, pos + 2 + Size(k), i);
  }

  lemma {:induction false} TextStep(f: Forest<Tag>, pos: nat, i: nat)
    requires pos <= i < pos + Size(f)
    ensures TextFrom(f, pos, i) ==
            (if TokenAt(f, pos, i).CharData? then TokenAt(f, pos, i).text else "") + TextFrom(f, pos, i + 1)
  {
    match f
    case Leaf(_, r) =>
      if i > pos { TextStep(r, pos + 1, i); } else { TextFromStart(r, pos + 1, i + 1); }
    case Elem(tag, k, r) =>
      var e := pos + 1 + Size(k);
      if i == pos || i == e {
        TextAtTag(tag, k, r, pos, i);
      } else if i < e {
        TextStep(k, pos + 1, i);
        TextInside(tag, k, r, pos, i, if TokenAt(k, pos + 1, i).CharData? then TokenAt(k, pos + 1, i).text else "");
      } else {
        TextStep(r, e + 1, i);
      }
  }

  lemma {:induction false} TextAtTag(tag: Tag, k: Forest<Tag>, r: Forest<Tag>, pos: nat, i: nat)
    requires i == pos || i == pos + 1 + Size(k)
    ensures TextFrom(Elem(tag, k, r), pos, i) == "" + TextFrom(Elem(tag, k, r), pos, i + 1)
  {
    if i == pos {
      TextFromStart(k, pos + 1, i);
      TextFromStart(k, pos + 1, i + 1);
    } else {
      TextFromEnd(k, pos + 1, i);
      TextFromStart(r, i + 1, i + 1);
    }
  }

  lemma {:induction false} TextInside(tag: Tag, k: Forest<Tag>, r: Forest<Tag>, pos: nat, i: nat, said: string)
    requires pos < i < pos + 1 + Size(k) && TextFrom(k, pos + 1, i) == said + TextFrom(k, pos + 1, i + 1)
    ensures TextFrom(Elem(tag, k, r), pos, i) == said + TextFrom(Elem(tag, k, r), pos, i + 1)
  {
    Regroup(said, TextFrom(k, pos + 1, i + 1), TextOf(r));
  }

  lemma {:induction false} TextTurn(ts: seq<Token>, ends: map<nat, nat>, scopes: map<nat, Scope>, f: Forest<Tag>,
                                    pos: nat, scope: Scope, i: nat)
    requires Covers(ts, ends, scopes, f, pos, scope) && pos <= i < pos + Size(f)
    ensures i < |ts|
    ensures ts[i].CharData? ==> TextFrom(f, pos, i) == ts[i].text + TextFrom(f, pos, i + 1)
    ensures !ts[i].CharData? ==> TextFrom(f, pos, i) == TextFrom(f, pos, i + 1)
  {
    CoversAt(ts, ends, scopes, f, pos, scope, i);
    TextStep(f, pos, i);
    assert "" + TextFrom(f, pos, i + 1) == TextFrom(f, pos, i + 1);
  }
}
