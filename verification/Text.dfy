/** Strings as Go sees them after decoding: order, sorted listings, delimiters. */
module Text {

  datatype Option<+T> = None | Some(value: T)

  /** Go's `<` on strings: lexicographic. */
  predicate Less(a: string, b: string) {
    if b == "" then false
    else if a == "" then true
    else a[0] < b[0] || (a[0] == b[0] && Less(a[1..], b[1..]))
  }

  lemma {:induction false} LessIrreflexive(a: string)
    ensures !Less(a, a)
  {
    if a != "" { LessIrreflexive(a[1..]); }
  }

  lemma {:induction false} LessTransitive(a: string, b: string, c: string)
    requires Less(a, b) && Less(b, c)
    ensures Less(a, c)
  {
    if a != "" && a[0] == b[0] && b[0] == c[0] { LessTransitive(a[1..], b[1..], c[1..]); }
  }

  lemma {:induction false} LessTotal(a: string, b: string)
    ensures a == b || Less(a, b) || Less(b, a)
  {
    if a != "" && b != "" && a[0] == b[0] {
      LessTotal(a[1..], b[1..]);
      assert a == [a[0]] + a[1..] && b == [b[0]] + b[1..];
    }
  }

  // ---- splitting at the first delimiter ----

  predicate Free(s: string, stop: set<char>) { forall i :: 0 <= i < |s| ==> s[i] !in stop }

  predicate StartsIn(s: string, stop: set<char>) { s != "" && s[0] in stop }

  /** Two texts that agree and whose heads avoid the delimiters agree on heads and on tails. */
  lemma {:induction false} SplitAtDelimiter(a: string, x: string, b: string, y: string, stop: set<char>)
    requires a + x == b + y
    requires Free(a, stop) && Free(b, stop)
    requires x == "" || StartsIn(x, stop)
    requires y == "" || StartsIn(y, stop)
    ensures a == b && x == y
  {
    var s := a + x;
    assert forall i :: 0 <= i < |a| ==> s[i] == a[i];
    assert forall i :: 0 <= i < |b| ==> s[i] == b[i];
    assert |a| < |s| ==> s[|a|] == x[0];
    assert |b| < |s| ==> s[|b|] == y[0];
    assert (a + x)[..|a|] == a && (b + y)[..|b|] == b;
    assert (a + x)[|a|..] == x && (b + y)[|b|..] == y;
  }

  /** A text up to its first delimiter, and the rest. */
  function Split(s: string, stop: set<char>): (r: (string, string))
    ensures r.0 + r.1 == s && Free(r.0, stop) && (r.1 == "" || StartsIn(r.1, stop))
  {
    if s == "" || s[0] in stop then ("", s)
    else
      var (head, tail) := Split(s[1..], stop);
      ([s[0]] + head, tail)
  }

  lemma {:induction false} SplitIs(a: string, x: string, stop: set<char>)
    requires Free(a, stop) && (x == "" || StartsIn(x, stop))
    ensures Split(a + x, stop) == (a, x)
  {
    var (head, tail) := Split(a + x, stop);
    SplitAtDelimiter(a, x, head, tail, stop);
  }

  lemma {:induction false} DropPrefix(p: string, x: string, y: string)
    requires p + x == p + y
    ensures x == y
  {
    assert (p + x)[|p|..] == x && (p + y)[|p|..] == y;
  }

  lemma {:induction false} Regroup<T>(a: seq<T>, b: seq<T>, c: seq<T>)
    ensures a + b + c == a + (b + c)
  {
  }

  // ---- trimming ----

  /** The white space XML allows between the parts of a tag. */
  predicate IsSpace(c: char) { c == ' ' || c == '\t' || c == '\n' || c == '\r' }

  /** unicode.IsSpace. */
  predicate IsWhite(c: char) {
    || '\t' <= c <= '\r' || c == ' ' || c == '\U{85}' || c == '\U{a0}' || c == '\U{1680}'
        || '\U{2000}' <= c <= '\U{200a}'
    || c == '\U{2028}' || c == '\U{2029}' || c == '\U{202f}' || c == '\U{205f}' || c == '\U{3000}'
  }

  function TrimLeft(s: string): string {
    if s != "" && IsWhite(s[0]) then TrimLeft(s[1..]) else s
  }

  function TrimRight(s: string): string {
    if s != "" && IsWhite(s[|s| - 1]) then TrimRight(s[..|s| - 1]) else s
  }

  /** strings.TrimSpace. */
  function TrimSpace(s: string): string { TrimRight(TrimLeft(s)) }

  predicate AllWhite(s: string) { forall i :: 0 <= i < |s| ==> IsWhite(s[i]) }

  /** `s` is `t` with white space around it, and `t` neither begins nor ends with white space. */
  predicate Frames(s: string, before: string, t: string, after: string) {
    && s == before + t + after && AllWhite(before) && AllWhite(after)
    && (t != "" ==> !IsWhite(t[0]) && !IsWhite(t[|t| - 1]))
  }

  lemma {:induction false} TrimLeftOf(w: string, x: string)
    requires AllWhite(w) && (x != "" ==> !IsWhite(x[0]))
    ensures TrimLeft(w + x) == x
  {
    if w == "" { assert w + x == x; }
    else {
      assert (w + x)[1..] == w[1..] + x;
      TrimLeftOf(w[1..], x);
    }
  }

  lemma {:induction false} TrimRightOf(x: string, w: string)
    requires AllWhite(w) && (x != "" ==> !IsWhite(x[|x| - 1]))
    ensures TrimRight(x + w) == x
  {
    if w == "" { assert x + w == x; }
    else {
      var n := |w| - 1;
      assert (x + w)[..|x + w| - 1] == x + w[..n];
      TrimRightOf(x, w[..n]);
    }
  }

  lemma {:induction false} LeftTrimmed(s: string) returns (before: string)
    ensures s == before + TrimLeft(s) && AllWhite(before)
    ensures TrimLeft(s) != "" ==> !IsWhite(TrimLeft(s)[0])
  {
    before := "";
    if s != "" && IsWhite(s[0]) {
      var more := LeftTrimmed(s[1..]);
      before := [s[0]] + more;
      Regroup([s[0]], more, TrimLeft(s));
    } else { assert s == "" + s; }
  }

  lemma {:induction false} RightTrimmed(s: string) returns (after: string)
    ensures s == TrimRight(s) + after && AllWhite(after)
    ensures TrimRight(s) != "" ==> !IsWhite(TrimRight(s)[|TrimRight(s)| - 1])
  {
    after := "";
    if s != "" && IsWhite(s[|s| - 1]) {
      var more := RightTrimmed(s[..|s| - 1]);
      after := more + [s[|s| - 1]];
      Regroup(TrimRight(s), more, [s[|s| - 1]]);
    } else { assert s == s + ""; }
  }

  lemma {:induction false} TrimmedOff(s: string) returns (before: string, after: string)
    ensures Frames(s, before, TrimSpace(s), after)
  {
    before := LeftTrimmed(s);
    after := RightTrimmed(TrimLeft(s));
    Regroup(before, TrimSpace(s), after);
    if TrimSpace(s) != "" { assert TrimSpace(s)[0] == TrimLeft(s)[0]; }
  }

  /** Trimming takes all white space off both ends, and nothing else. */
  lemma {:induction false} TrimsExactly(s: string, t: string)
    ensures TrimSpace(s) == t <==> exists before, after :: Frames(s, before, t, after)
  {
    var b, a := TrimmedOff(s);
    forall before, after | Frames(s, before, t, after) ensures TrimSpace(s) == t {
      Regroup(before, t, after);
      if t == "" {
        assert s == s + "" && AllWhite(s);
        TrimLeftOf(s, "");
      } else {
        TrimLeftOf(before, t + after);
        TrimRightOf(t, after);
      }
    }
  }

  function TrimPrefix(s: string, p: string): string {
    if p <= s then s[|p|..] else s
  }
}
