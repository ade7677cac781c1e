/** Attribute-based policies: validation, evaluation, and what a decision depends on. */
module Abac {
  import opened Text

  datatype Value = VStr(s: string) | VNum(n: real) | VBool(b: bool) | VList(items: seq<Value>) | VNull | VOther

  /** One node as it is written: several groups may be set at once. */
  datatype Condition = Condition(
    all: seq<Condition>, any: seq<Condition>, not: Option<Condition>, attr: string, op: string, value: Value)

  datatype Policy = Policy(id: string, effect: string, resource: string, condition: Condition, reason: string)

  /** The attributes in force, and the library's answers: printing a value, the named predicates, and the
      CIDR, regular-expression and substring tests. */
  datatype Context = Context(
    attrs: string -> Option<Value>,
    written: Value -> string,
    named: Value -> bool,
    test: (string, Value, Value) -> bool)

  // ---- leaves ----

  predicate ValuesEqual(ctx: Context, a: Value, b: Value) {
    if a.VStr? && b.VStr? then a.s == b.s
    else if a.VNum? && b.VNum? then a.n == b.n
    else if a.VBool? && b.VBool? then a.b == b.b
    else ctx.written(a) == ctx.written(b)
  }

  predicate Empty(v: Value) { v.VNull? || (v.VStr? && v.s == "") }

  predicate SomeEqual(ctx: Context, a: Value, items: seq<Value>) {
    exists i :: 0 <= i < |items| && ValuesEqual(ctx, a, items[i])
  }

  predicate NumericCompare(op: string, a: Value, b: Value) {
    a.VNum? && b.VNum? &&
    if op == "gt" then a.n > b.n else if op == "ge" then a.n >= b.n else if op == "lt" then a.n < b.n else a.n <= b.n
  }

  /** An attribute that is missing satisfies only `ne`. */
  predicate EvalLeaf(c: Condition, ctx: Context) {
    if c.op == "is" then ctx.named(c.value)
    else
      var actual := ctx.attrs(c.attr);
      if c.op == "ne" || c.op == "!=" then actual.None? || !ValuesEqual(ctx, actual.value, c.value)
      else if actual.None? then false
      else if c.op == "eq" || c.op == "==" then ValuesEqual(ctx, actual.value, c.value)
      else if c.op == "pr" || c.op == "exists" then !Empty(actual.value)
      else if c.op == "in" then c.value.VList? && SomeEqual(ctx, actual.value, c.value.items)
      else if c.op == "contains" && actual.value.VList? then SomeEqual(ctx, c.value, actual.value.items)
      else if c.op in ["gt", "ge", "lt", "le"] then NumericCompare(c.op, actual.value, c.value)
      else if c.op in ["matches", "regex", "contains"] then ctx.test(c.op, actual.value, c.value)
      else false
  }

  // ---- what single tests mean ----

  /** Numbers are compared as numbers, by all six operators. */
  lemma {:induction false} NumbersCompare(c: Condition, ctx: Context, x: real, y: real)
    requires ctx.attrs(c.attr) == Some(VNum(x)) && c.value == VNum(y)
    ensures EvalLeaf(c.(op := "gt"), ctx) <==> x > y
    ensures EvalLeaf(c.(op := "ge"), ctx) <==> x >= y
    ensures EvalLeaf(c.(op := "lt"), ctx) <==> x < y
    ensures EvalLeaf(c.(op := "le"), ctx) <==> x <= y
    ensures EvalLeaf(c.(op := "eq"), ctx) <==> x == y
    ensures EvalLeaf(c.(op := "ne"), ctx) <==> x != y
  {
  }

  /** Two texts, numbers or truth values are equal exactly when they are the same; everything else is compared as
      it is written. `==` and `!=` are other spellings. */
  lemma {:induction false} EqualityOf(c: Condition, ctx: Context, v: Value)
    requires ctx.attrs(c.attr) == Some(v)
    ensures EvalLeaf(c.(op := "eq"), ctx) <==>
            if (v.VStr? && c.value.VStr?) || (v.VNum? && c.value.VNum?) || (v.VBool? && c.value.VBool?)
            then v == c.value else ctx.written(v) == ctx.written(c.value)
    ensures EvalLeaf(c.(op := "=="), ctx) <==> EvalLeaf(c.(op := "eq"), ctx)
    ensures EvalLeaf(c.(op := "!="), ctx) <==> EvalLeaf(c.(op := "ne"), ctx)
  {
  }

  /** Anything else is neither greater nor less. */
  lemma {:induction false} OthersDoNotCompare(c: Condition, ctx: Context)
    requires !(ctx.attrs(c.attr).Some? && ctx.attrs(c.attr).value.VNum? && c.value.VNum?)
    requires c.op in {"gt", "ge", "lt", "le"}
    ensures !EvalLeaf(c, ctx)
  {
  }

  /** A missing attribute fails every test but inequality; one that is there is present unless it is null or "". */
  lemma {:induction false} PresenceOf(c: Condition, ctx: Context)
    ensures ctx.attrs(c.attr).None? && c.op != "is" ==> (EvalLeaf(c, ctx) <==> c.op in {"ne", "!="})
    ensures c.op in {"pr", "exists"} ==>
              (EvalLeaf(c, ctx) <==>
               var v := ctx.attrs(c.attr); v.Some? && !v.value.VNull? && (v.value.VStr? ==> v.value.s != ""))
  {
  }

  /** `in` holds exactly when equality with some item does, `contains` when some item of a list equals the value. */
  lemma {:induction false} MembershipIsEquality(c: Condition, ctx: Context, items: seq<Value>)
    ensures EvalLeaf(c.(op := "in", value := VList(items)), ctx) <==>
            exists i :: 0 <= i < |items| && EvalLeaf(c.(op := "eq", value := items[i]), ctx)
    ensures ctx.attrs(c.attr) == Some(VList(items)) ==>
              (EvalLeaf(c.(op := "contains"), ctx) <==>
               exists i :: 0 <= i < |items| && ValuesEqual(ctx, c.value, items[i]))
  {
    var actual := ctx.attrs(c.attr);
    if actual.Some? {
      forall i | 0 <= i < |items|
        ensures EvalLeaf(c.(op := "eq", value := items[i]), ctx) <==> ValuesEqual(ctx, actual.value, items[i])
      {
      }
      assert EvalLeaf(c.(op := "in", value := VList(items)), ctx) <==> SomeEqual(ctx, actual.value, items);
    }
  }

  // ---- conditions ----

  /** The first group set, in the order all, any, not, decides; the others are not read. */
  predicate Eval(c: Condition, ctx: Context)
    decreases c, 1
  {
    if c.all != [] then EvalAll(c.all, ctx)
    else if c.any != [] then EvalAny(c.any, ctx)
    else if c.not.Some? then !Eval(c.not.value, ctx)
    else EvalLeaf(c, ctx)
  }

  predicate EvalAll(cs: seq<Condition>, ctx: Context)
    decreases cs, 0
  {
    cs == [] || (Eval(cs[0], ctx) && EvalAll(cs[1..], ctx))
  }

  predicate EvalAny(cs: seq<Condition>, ctx: Context)
    decreases cs, 0
  {
    cs != [] && (Eval(cs[0], ctx) || EvalAny(cs[1..], ctx))
  }

  predicate IsLeaf(c: Condition) { c.attr != "" || c.op != "" }

  function Groups(c: Condition): nat {
    (if c.all != [] then 1 else 0) + (if c.any != [] then 1 else 0) + (if c.not.Some? then 1 else 0)
  }

  /** What the parser accepts: a group or a complete leaf, never both; more than one group is let through. */
  predicate Valid(c: Condition)
    decreases c, 1
  {
    && (Groups(c) > 0 <==> !IsLeaf(c))
    && (IsLeaf(c) ==> c.attr != "" && c.op != "")
    && AllValid(c.all) && AllValid(c.any) && (c.not.Some? ==> Valid(c.not.value))
  }

  predicate AllValid(cs: seq<Condition>)
    decreases cs, 0
  {
    cs == [] || (Valid(cs[0]) && AllValid(cs[1..]))
  }

  // ---- validity, node by node ----

  /** All nodes of a condition. */
  ghost function Nodes(c: Condition): set<Condition>
    decreases c, 1
  {
    {c} + AllNodes(c.all) + AllNodes(c.any) + if c.not.Some? then Nodes(c.not.value) else {}
  }

  ghost function AllNodes(cs: seq<Condition>): set<Condition>
    decreases cs, 0
  {
    if cs == [] then {} else Nodes(cs[0]) + AllNodes(cs[1..])
  }

  /** A group, or an attribute with an operator, and not both. */
  predicate ProperNode(c: Condition) {
    && (c.all != [] || c.any != [] || c.not.Some? <==> c.attr == "" && c.op == "")
    && (c.attr == "" <==> c.op == "")
  }

  /** A condition is accepted exactly when every node in it is proper. */
  lemma {:induction false} ValidExactly(c: Condition)
    ensures Valid(c) <==> forall n :: n in Nodes(c) ==> ProperNode(n)
    decreases c, 1
  {
    AllValidExactly(c.all);
    AllValidExactly(c.any);
    if c.not.Some? { ValidExactly(c.not.value); }
    assert c in Nodes(c);
    assert ProperNode(c) <==> (Groups(c) > 0 <==> !IsLeaf(c)) && (IsLeaf(c) ==> c.attr != "" && c.op != "");
  }

  lemma {:induction false} AllValidExactly(cs: seq<Condition>)
    ensures AllValid(cs) <==> forall n :: n in AllNodes(cs) ==> ProperNode(n)
    decreases cs, 0
  {
    if cs != [] {
      ValidExactly(cs[0]);
      AllValidExactly(cs[1..]);
    }
  }

  // ---- at most one group per node: the Boolean meaning ----

  predicate OneGroup(c: Condition)
    decreases c, 1
  {
    Groups(c) <= 1 && AllOneGroup(c.all) && AllOneGroup(c.any) && (c.not.Some? ==> OneGroup(c.not.value))
  }

  predicate AllOneGroup(cs: seq<Condition>)
    decreases cs, 0
  {
    cs == [] || (OneGroup(cs[0]) && AllOneGroup(cs[1..]))
  }

  datatype Formula = And(parts: seq<Formula>) | Or(parts: seq<Formula>) | Not(part: Formula) | Atom(leaf: Condition)

  /** Truth, by quantifiers. */
  ghost predicate True(f: Formula, ctx: Context) {
    match f
    case And(ps) => forall i :: 0 <= i < |ps| ==> True(ps[i], ctx)
    case Or(ps) => exists i :: 0 <= i < |ps| && True(ps[i], ctx)
    case Not(p) => !True(p, ctx)
    case Atom(c) => EvalLeaf(c, ctx)
  }

  /** All groups of a node, read together: the meaning a reader of the policy would expect. */
  function FormulaOf(c: Condition): Formula
    decreases c, 1
  {
    var groups := (if c.all != [] then [And(FormulasOf(c.all))] else [])
                + (if c.any != [] then [Or(FormulasOf(c.any))] else [])
                + (if c.not.Some? then [Not(FormulaOf(c.not.value))] else []);
    if groups == [] then Atom(c) else And(groups)
  }

  function FormulasOf(cs: seq<Condition>): (fs: seq<Formula>)
    ensures |fs| == |cs|
    decreases cs, 0
  {
    if cs == [] then [] else [FormulaOf(cs[0])] + FormulasOf(cs[1..])
  }

  lemma {:induction false} TrueOne(f: Formula, ctx: Context)
    ensures True(And([f]), ctx) <==> True(f, ctx)
  {
    assert [f][0] == f;
  }

  lemma {:induction false} TrueAnd(f: Formula, fs: seq<Formula>, ctx: Context)
    ensures True(And([f] + fs), ctx) <==> True(f, ctx) && True(And(fs), ctx)
  {
    var all := [f] + fs;
    assert all[0] == f && forall i :: 0 <= i < |fs| ==> all[i + 1] == fs[i];
    if True(And(fs), ctx) && True(f, ctx) {
      forall i | 0 <= i < |all| ensures True(all[i], ctx) { if i > 0 { assert all[i] == fs[i - 1]; } }
    }
    if True(And(all), ctx) {
      forall i | 0 <= i < |fs| ensures True(fs[i], ctx) { assert True(all[i + 1], ctx); }
    }
  }

  lemma {:induction false} TrueOr(f: Formula, fs: seq<Formula>, ctx: Context)
    ensures True(Or([f] + fs), ctx) <==> True(f, ctx) || True(Or(fs), ctx)
  {
    var all := [f] + fs;
    assert all[0] == f && forall i :: 0 <= i < |fs| ==> all[i + 1] == fs[i];
    if True(Or(fs), ctx) {
      var i :| 0 <= i < |fs| && True(fs[i], ctx);
      assert True(all[i + 1], ctx);
    }
    if True(Or(all), ctx) {
      var i :| 0 <= i < |all| && True(all[i], ctx);
      if i > 0 { assert all[i] == fs[i - 1]; }
    }
  }

  lemma {:induction false} TrueMore(f: Formula, fs: seq<Formula>, ctx: Context)
    ensures True(And([f] + fs), ctx) <==> True(f, ctx) && True(And(fs), ctx)
    ensures True(Or([f] + fs), ctx) <==> True(f, ctx) || True(Or(fs), ctx)
  {
    TrueAnd(f, fs, ctx);
    TrueOr(f, fs, ctx);
  }

  /** With at most one group per node, evaluation is the Boolean meaning. */
  lemma {:induction false} EvalIsTruth(c: Condition, ctx: Context)
    requires OneGroup(c)
    ensures Eval(c, ctx) <==> True(FormulaOf(c), ctx)
    decreases c, 1
  {
    if c.all != [] {
      EvalAllIsTruth(c.all, ctx);
      TrueOne(And(FormulasOf(c.all)), ctx);
      assert FormulaOf(c) == And([And(FormulasOf(c.all))]);
    } else if c.any != [] {
      EvalAllIsTruth(c.any, ctx);
      TrueOne(Or(FormulasOf(c.any)), ctx);
      assert FormulaOf(c) == And([Or(FormulasOf(c.any))]);
    } else if c.not.Some? {
      EvalIsTruth(c.not.value, ctx);
      TrueOne(Not(FormulaOf(c.not.value)), ctx);
      assert FormulaOf(c) == And([Not(FormulaOf(c.not.value))]);
    }
  }

  lemma {:induction false} EvalAllIsTruth(cs: seq<Condition>, ctx: Context)
    requires AllOneGroup(cs)
    ensures EvalAll(cs, ctx) <==> True(And(FormulasOf(cs)), ctx)
    ensures EvalAny(cs, ctx) <==> True(Or(FormulasOf(cs)), ctx)
    decreases cs, 0
  {
    if cs != [] {
      EvalIsTruth(cs[0], ctx);
      EvalAllIsTruth(cs[1..], ctx);
      TrueMore(FormulaOf(cs[0]), FormulasOf(cs[1..]), ctx);
    }
  }

  // ---- several groups in a node ----

  const NONE := Condition([], [], None, "", "", VNull)

  /** The condition without the groups that are not read. */
  function FirstGroups(c: Condition): Condition
    decreases c, 1
  {
    if c.all != [] then c.(all := AllFirstGroups(c.all), any := [], not := None)
    else if c.any != [] then c.(any := AllFirstGroups(c.any), not := None)
    else if c.not.Some? then c.(not := Some(FirstGroups(c.not.value)))
    else c
  }

  function AllFirstGroups(cs: seq<Condition>): (r: seq<Condition>)
    ensures |r| == |cs|
    decreases cs, 0
  {
    if cs == [] then [] else [FirstGroups(cs[0])] + AllFirstGroups(cs[1..])
  }

  /** Whatever the parser accepts evaluates as if only the first group of each node had been written. */
  lemma {:induction false} OnlyFirstGroups(c: Condition, ctx: Context)
    ensures Eval(FirstGroups(c), ctx) == Eval(c, ctx) && OneGroup(FirstGroups(c))
            && (Valid(c) ==> Valid(FirstGroups(c)))
    decreases c, 1
  {
    if c.all != [] { AllOnlyFirstGroups(c.all, ctx); }
    else if c.any != [] { AllOnlyFirstGroups(c.any, ctx); }
    else if c.not.Some? { OnlyFirstGroups(c.not.value, ctx); }
  }

  lemma {:induction false} AllOnlyFirstGroups(cs: seq<Condition>, ctx: Context)
    ensures
      var r := AllFirstGroups(cs);
      EvalAll(r, ctx) == EvalAll(cs, ctx) && EvalAny(r, ctx) == EvalAny(cs, ctx) && AllOneGroup(r)
          && (AllValid(cs) ==> AllValid(r))
    decreases cs, 0
  {
    if cs != [] {
      OnlyFirstGroups(cs[0], ctx);
      AllOnlyFirstGroups(cs[1..], ctx);
    }
  }

  /** A valid condition with two groups can be satisfied although one of the groups is false. */
  lemma {:induction false} SecondGroupIgnored(ctx: Context)
    ensures exists c :: Valid(c) && Eval(c, ctx) && !True(FormulaOf(c), ctx)
  {
    var no := Condition([], [], None, "a", "unknown", VNull);
    var yes := Condition([], [], Some(no), "", "", VNull);
    var c := Condition([yes], [no], None, "", "", VNull);
    assert !EvalLeaf(no, ctx);
    assert AllValid([]);
    assert [yes][1..] == [] && [no][1..] == [];
    assert Valid(no) && Valid(yes) && AllValid([yes]) && AllValid([no]) && Valid(c);
    assert Eval(yes, ctx) && EvalAll([], ctx) && EvalAll([yes], ctx) && Eval(c, ctx);
    var formulas := FormulasOf([no]);
    assert formulas == [Atom(no)] by { assert FormulaOf(no) == Atom(no); }
    assert !True(Or(formulas), ctx);
    var both := [And(FormulasOf([yes]))] + [Or(formulas)];
    assert FormulaOf(c) == And(both + []) && both + [] == both;
    assert both[1] == Or(formulas);
  }

  // ---- pushing negation inward ----

  predicate Swaps(op: string) { op in ["eq", "ne", "==", "!="] }

  function Opposite(op: string): string {
    if op == "eq" then "ne" else if op == "ne" then "eq" else if op == "==" then "!=" else "=="
  }

  /** `c`, or its negation, with `not` only in front of leaves other than equality tests. */
  function Push(c: Condition, negate: bool): Condition
    decreases c, 1
  {
    if c.all != [] then (if negate then NONE.(any := PushAll(c.all, true)) else NONE.(all := PushAll(c.all, false)))
    else if c.any != [] then (if negate then NONE.(all := PushAll(c.any, true))
                              else NONE.(any := PushAll(c.any, false)))
    else if c.not.Some? then Push(c.not.value, !negate)
    else if !negate then c
    else if Swaps(c.op) then c.(op := Opposite(c.op))
    else NONE.(not := Some(c))
  }

  function PushAll(cs: seq<Condition>, negate: bool): (r: seq<Condition>)
    ensures |r| == |cs|
    decreases cs, 0
  {
    if cs == [] then [] else [Push(cs[0], negate)] + PushAll(cs[1..], negate)
  }

  predicate Pushed(c: Condition)
    decreases c, 1
  {
    AllPushed(c.all) && AllPushed(c.any) && (c.not.Some? ==> Groups(c.not.value) == 0 && !Swaps(c.not.value.op))
  }

  predicate AllPushed(cs: seq<Condition>)
    decreases cs, 0
  {
    cs == [] || (Pushed(cs[0]) && AllPushed(cs[1..]))
  }

  lemma {:induction false} SwapNegates(c: Condition, ctx: Context)
    requires Groups(c) == 0 && Swaps(c.op)
    ensures EvalLeaf(c.(op := Opposite(c.op)), ctx) == !EvalLeaf(c, ctx)
  {
  }

  /** Pushing `not` inward, with all/any and eq/ne exchanged, changes no decision and keeps a valid policy valid. */
  lemma {:induction false} PushPreserves(c: Condition, negate: bool, ctx: Context)
    ensures
      var p := Push(c, negate);
      && Eval(p, ctx) == (Eval(c, ctx) != negate)
      && Pushed(p) && (Valid(c) ==> Valid(p))
    decreases c, 1
  {
    if c.all != [] { PushAllPreserves(c.all, negate, ctx); }
    else if c.any != [] { PushAllPreserves(c.any, negate, ctx); }
    else if c.not.Some? { PushPreserves(c.not.value, !negate, ctx); }
    else if negate && Swaps(c.op) { SwapNegates(c, ctx); }
  }

  lemma {:induction false} PushAllPreserves(cs: seq<Condition>, negate: bool, ctx: Context)
    ensures
      var r := PushAll(cs, negate);
      && (negate ==> EvalAny(r, ctx) == !EvalAll(cs, ctx) && EvalAll(r, ctx) == !EvalAny(cs, ctx))
      && (!negate ==> EvalAll(r, ctx) == EvalAll(cs, ctx) && EvalAny(r, ctx) == EvalAny(cs, ctx))
      && AllPushed(r) && (AllValid(cs) ==> AllValid(r))
    decreases cs, 0
  {
    if cs != [] {
      PushPreserves(cs[0], negate, ctx);
      PushAllPreserves(cs[1..], negate, ctx);
    }
  }

  // ---- policies ----

  predicate HasSuffix(s: string, c: char) { s != "" && s[|s| - 1] == c }

  predicate ResourceMatches(pattern: string, resource: string) {
    if HasSuffix(pattern, '*') then pattern[..|pattern| - 1] <= resource else pattern == resource
  }

  /** A pattern that ends in a star stands for every resource that begins with the rest of it, any other pattern for
      itself. */
  lemma {:induction false} PatternStandsFor(pattern: string, resource: string)
    ensures ResourceMatches(pattern, resource) <==>
            pattern == resource || exists start, rest :: pattern == start + "*" && resource == start + rest
  {
    if HasSuffix(pattern, '*') {
      var start := pattern[..|pattern| - 1];
      assert pattern == start + "*";
      if start <= resource { assert resource == start + resource[|start|..]; }
    }
  }

  predicate Applies(p: Policy, resource: string, ctx: Context) {
    ResourceMatches(p.resource, resource) && Eval(p.condition, ctx)
  }

  predicate Acceptable(p: Policy) {
    (p.effect == "Allow" || p.effect == "Deny") && p.resource != "" && Valid(p.condition)
  }

  predicate Accepted(ps: seq<Policy>) { forall i :: 0 <= i < |ps| ==> Acceptable(ps[i]) }

  datatype PolicyError = BadEffect | NoResource | BadCondition

  /** The checks of ParsePolicySet, policy by policy. */
  method CheckPolicies(ps: seq<Policy>) returns (e: Option<(nat, PolicyError)>)
    ensures e.None? <==> Accepted(ps)
    ensures e.Some? ==> e.value.0 < |ps| && !Acceptable(ps[e.value.0]) && Accepted(ps[..e.value.0])
  {
    for i := 0 to |ps|
      invariant Accepted(ps[..i])
    {
      if ps[i].effect != "Allow" && ps[i].effect != "Deny" { return Some((i, BadEffect)); }
      if ps[i].resource == "" { return Some((i, NoResource)); }
      if !Valid(ps[i].condition) { return Some((i, BadCondition)); }
      assert ps[..i + 1] == ps[..i] + [ps[i]];
    }
    assert ps[..|ps|] == ps;
    return None;
  }

  datatype Decision = Decision(allow: bool, policy: string, reason: string)

  function ReasonOr(reason: string, fallback: string): string { if reason != "" then reason else fallback }

  ghost predicate FirstWith(ps: seq<Policy>, effect: string, resource: string, ctx: Context, i: nat) {
    && i < |ps| && Applies(ps[i], resource, ctx) && ps[i].effect == effect
    && forall j :: 0 <= j < i ==> !(Applies(ps[j], resource, ctx) && ps[j].effect == effect)
  }

  ghost predicate Grants(ps: seq<Policy>, resource: string, ctx: Context) {
    && (exists p :: p in ps && p.effect == "Allow" && Applies(p, resource, ctx))
    && (forall p :: p in ps && p.effect == "Deny" ==> !Applies(p, resource, ctx))
  }

  /** Deny overrides, silence denies, and the decision names the first policy that made it. */
  method Evaluate(ps: seq<Policy>, resource: string, ctx: Context) returns (d: Decision)
    requires Accepted(ps)
    ensures d.allow <==> Grants(ps, resource, ctx)
    ensures d.allow ==> exists i: nat :: FirstWith(ps, "Allow", resource, ctx, i) && d.policy == ps[i].id
    ensures !d.allow ==>
      || (exists i: nat :: FirstWith(ps, "Deny", resource, ctx, i) && d.policy == ps[i].id)
      || (d.policy == "" && forall p :: p in ps ==> !Applies(p, resource, ctx))
    ensures d.reason != ""
  {
    var sawAllow, allowPolicy := false, 0;
    for i := 0 to |ps|
      invariant forall j :: 0 <= j < i ==> ps[j].effect == "Deny" ==> !Applies(ps[j], resource, ctx)
      invariant sawAllow ==> FirstWith(ps, "Allow", resource, ctx, allowPolicy)
      invariant !sawAllow ==> forall j :: 0 <= j < i ==> !Applies(ps[j], resource, ctx)
    {
      var p := ps[i];
      if !ResourceMatches(p.resource, resource) { continue; }
      if !Eval(p.condition, ctx) { continue; }
      if p.effect == "Deny" {
        assert FirstWith(ps, "Deny", resource, ctx, i);
        return Decision(false, p.id, ReasonOr(p.reason, "explicit deny policy matched"));
      }
      if !sawAllow { sawAllow, allowPolicy := true, i; }
    }
    if sawAllow {
      assert ps[allowPolicy] in ps;
      return Decision(true, ps[allowPolicy].id, ReasonOr(ps[allowPolicy].reason, "allow policy matched"));
    }
    return Decision(false, "", "no policy granted access (default deny)");
  }

  /** The effect depends only on which policies there are, not on their order or number. */
  lemma {:induction false} OrderIrrelevant(ps: seq<Policy>, qs: seq<Policy>, resource: string, ctx: Context)
    requires forall p :: p in ps <==> p in qs
    ensures Grants(ps, resource, ctx) <==> Grants(qs, resource, ctx)
  {
    if Grants(ps, resource, ctx) {
      var p :| p in ps && p.effect == "Allow" && Applies(p, resource, ctx);
      assert p in qs;
    }
    if Grants(qs, resource, ctx) {
      var q :| q in qs && q.effect == "Allow" && Applies(q, resource, ctx);
      assert q in ps;
    }
  }

  /** Adding Deny policies anywhere never creates an Allow, and revokes one exactly when some added policy applies. */
  lemma {:induction false} AddedDenials(ps: seq<Policy>, qs: seq<Policy>, resource: string, ctx: Context)
    requires forall p :: p in ps ==> p in qs
    requires forall p :: p in qs && p !in ps ==> p.effect == "Deny"
    ensures Grants(qs, resource, ctx) <==>
            Grants(ps, resource, ctx) && forall p :: p in qs && p !in ps ==> !Applies(p, resource, ctx)
  {
    if Grants(qs, resource, ctx) {
      var p :| p in qs && p.effect == "Allow" && Applies(p, resource, ctx);
      assert p in ps;
    }
    if Grants(ps, resource, ctx) {
      var p :| p in ps && p.effect == "Allow" && Applies(p, resource, ctx);
      assert p in qs;
    }
  }
}
