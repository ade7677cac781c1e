/** The two orders the canonicalizer sorts by, and why the sorting algorithm does not matter. */
module Order {
  import opened Text

  /** What one `name="value"` of a start tag is sorted and written by.
      A namespace declaration sorts by prefix, an attribute by namespace URI and then local name. */
  datatype Item = Item(major: string, minor: string, name: string, value: string)

  predicate Before(a: Item, b: Item) {
    if a.major != b.major then Less(a.major, b.major) else Less(a.minor, b.minor)
  }

  function Insert(x: Item, ys: seq<Item>): seq<Item> {
    if ys == [] then [x]
    else if Before(x, ys[0]) then [x] + ys
    else [ys[0]] + Insert(x, ys[1..])
  }

  /** A stable sort by `Before`. */
  function Sort(xs: seq<Item>): seq<Item> {
    if xs == [] then [] else Insert(xs[|xs| - 1], Sort(xs[..|xs| - 1]))
  }

  ghost predicate DistinctKeys(xs: seq<Item>) {
    forall i, j :: 0 <= i < j < |xs| ==> xs[i].major != xs[j].major || xs[i].minor != xs[j].minor
  }

  ghost predicate Increasing(xs: seq<Item>) {
    forall i, j :: 0 <= i < j < |xs| ==> Before(xs[i], xs[j])
  }

  lemma {:induction false} BeforeOrder(a: Item, b: Item, c: Item)
    ensures !Before(a, a)
    ensures Before(a, b) && Before(b, c) ==> Before(a, c)
    ensures a.major != b.major || a.minor != b.minor ==> Before(a, b) || Before(b, a)
    ensures !(Before(a, b) && Before(b, a))
  {
    LessIrreflexive(a.major); LessIrreflexive(a.minor);
    LessTotal(a.major, b.major); LessTotal(a.minor, b.minor);
    if Before(a, b) && Before(b, c) {
      if a.major != b.major && b.major != c.major { LessTransitive(a.major, b.major, c.major); }
      if a.major == b.major == c.major { LessTransitive(a.minor, b.minor, c.minor); }
      LessIrreflexive(c.major);
      if a.major == c.major && a.major != b.major { LessTransitive(a.major, b.major, c.major); }
    }
    if Less(a.major, b.major) && Less(b.major, a.major) { LessTransitive(a.major, b.major, a.major); }
    if Less(a.minor, b.minor) && Less(b.minor, a.minor) { LessTransitive(a.minor, b.minor, a.minor); }
  }

  lemma {:induction false} InsertPermutes(x: Item, ys: seq<Item>)
    ensures multiset(Insert(x, ys)) == multiset(ys) + multiset{x}
  {
    if ys != [] {
      assert ys == [ys[0]] + ys[1..];
      if !Before(x, ys[0]) { InsertPermutes(x, ys[1..]); }
    }
  }

  lemma {:induction false} SortPermutes(xs: seq<Item>)
    ensures multiset(Sort(xs)) == multiset(xs)
    ensures |Sort(xs)| == |xs|
  {
    if xs != [] {
      var last := |xs| - 1;
      assert xs == xs[..last] + [xs[last]];
      SortPermutes(xs[..last]);
      InsertPermutes(xs[last], Sort(xs[..last]));
      assert |multiset(Sort(xs))| == |multiset(xs)|;
    }
  }

  lemma {:induction false} MemberOfSorted(xs: seq<Item>, x: Item)
    ensures x in Sort(xs) <==> x in xs
  {
    SortPermutes(xs);
    assert x in Sort(xs) <==> x in multiset(Sort(xs));
    assert x in xs <==> x in multiset(xs);
  }

  lemma {:induction false} InsertIncreasing(x: Item, ys: seq<Item>)
    requires Increasing(ys)
    requires forall y :: y in ys ==> y.major != x.major || y.minor != x.minor
    ensures Increasing(Insert(x, ys))
  {
    var r := Insert(x, ys);
    if ys != [] {
      BeforeOrder(x, ys[0], x);
      if Before(x, ys[0]) {
        forall j | 0 < j < |r| ensures Before(r[0], r[j]) {
          if j > 1 { BeforeOrder(x, ys[0], ys[j - 1]); }
        }
      } else {
        InsertIncreasing(x, ys[1..]);
        InsertPermutes(x, ys[1..]);
        var t := Insert(x, ys[1..]);
        forall j | 0 <= j < |t| ensures Before(ys[0], t[j]) {
          assert t[j] in multiset(t);
          assert t[j] == x || t[j] in ys[1..];
        }
      }
    }
  }

  lemma {:induction false} SortIncreasing(xs: seq<Item>)
    requires DistinctKeys(xs)
    ensures Increasing(Sort(xs))
  {
    if xs != [] {
      var last := |xs| - 1;
      SortIncreasing(xs[..last]);
      forall y | y in Sort(xs[..last])
        ensures y.major != xs[last].major || y.minor != xs[last].minor
      {
        MemberOfSorted(xs[..last], y);
      }
      InsertIncreasing(xs[last], Sort(xs[..last]));
    }
  }

  /** Whatever algorithm produced them, two increasing listings of the same items are equal. */
  lemma {:induction false} IncreasingUnique(a: seq<Item>, b: seq<Item>)
    requires Increasing(a) && Increasing(b)
    requires forall x :: x in a <==> x in b
    ensures a == b
  {
    assert a != [] ==> a[0] in b;
    assert b != [] ==> b[0] in a;
    if a != [] {
      BeforeOrder(a[0], b[0], a[0]);
      assert a[0] == b[0];
      forall x ensures x in a[1..] <==> x in b[1..] {
        BeforeOrder(a[0], a[0], a[0]);
        assert x in a <==> x == a[0] || x in a[1..];
        assert x in b <==> x == b[0] || x in b[1..];
      }
      IncreasingUnique(a[1..], b[1..]);
      assert a == [a[0]] + a[1..] && b == [b[0]] + b[1..];
    }
  }

  /** Sorting depends only on which items there are, once no two share a key. */
  lemma {:induction false} SortPermutation(xs: seq<Item>, ys: seq<Item>)
    requires DistinctKeys(xs) && DistinctKeys(ys)
    requires forall x :: x in xs <==> x in ys
    ensures Sort(xs) == Sort(ys)
  {
    SortIncreasing(xs);
    SortIncreasing(ys);
    forall x ensures x in Sort(xs) <==> x in Sort(ys) {
      MemberOfSorted(xs, x);
      MemberOfSorted(ys, x);
    }
    IncreasingUnique(Sort(xs), Sort(ys));
  }

  // ---- the increasing listing of a set of prefixes ----

  ghost predicate Least(m: string, s: set<string>) {
    m in s && forall x :: x in s ==> x == m || Less(m, x)
  }

  lemma {:induction false} LeastExists(s: set<string>)
    requires s != {}
    ensures exists m :: Least(m, s)
    decreases |s|
  {
    var x :| x in s;
    if s == {x} {
      assert Least(x, s);
    } else {
      LeastExists(s - {x});
      var m :| Least(m, s - {x});
      LessTotal(m, x);
      if Less(m, x) {
        assert Least(m, s);
      } else {
        forall y | y in s ensures y == x || Less(x, y) {
          if y != x && y != m { LessTransitive(x, m, y); }
        }
        assert Least(x, s);
      }
    }
  }

  /** The members of a set of strings in increasing order. */
  ghost function Listing(s: set<string>): seq<string>
    decreases |s|
  {
    if s == {} then [] else
      LeastExists(s);
      var m :| Least(m, s);
      [m] + Listing(s - {m})
  }

  lemma {:induction false} ListingIs(s: set<string>)
    ensures forall x :: x in Listing(s) <==> x in s
    ensures forall i, j :: 0 <= i < j < |Listing(s)| ==> Less(Listing(s)[i], Listing(s)[j])
    decreases |s|
  {
    if s != {} {
      var m := ListingHead(s);
      ListingIs(s - {m});
      LeastFirst(m, s, Listing(s - {m}), Listing(s));
    }
  }

  lemma {:induction false} ListingHead(s: set<string>) returns (m: string)
    requires s != {}
    ensures Least(m, s) && Listing(s) == [m] + Listing(s - {m})
  {
    LeastExists(s);
    m := Listing(s)[0];
  }

  lemma {:induction false} LeastFirst(m: string, s: set<string>, rest: seq<string>, all: seq<string>)
    requires Least(m, s) && all == [m] + rest && forall x :: x in rest <==> x in s - {m}
    requires forall i, j :: 0 <= i < j < |rest| ==> Less(rest[i], rest[j])
    ensures forall x :: x in all <==> x in s
    ensures forall i, j :: 0 <= i < j < |all| ==> Less(all[i], all[j])
  {
    forall i, j | 0 <= i < j < |all| ensures Less(all[i], all[j]) {
      assert all[j] == rest[j - 1] && rest[j - 1] in rest;
      if i > 0 { assert all[i] == rest[i - 1]; }
    }
  }

  lemma {:induction false} ListingUnique(xs: seq<string>, s: set<string>)
    requires forall i, j :: 0 <= i < j < |xs| ==> Less(xs[i], xs[j])
    requires forall x :: x in xs <==> x in s
    ensures xs == Listing(s)
    decreases |xs|
  {
    var l := Listing(s);
    ListingIs(s);
    var a := seq(|xs|, i requires 0 <= i < |xs| => Item(xs[i], "", "", ""));
    var b := seq(|l|, i requires 0 <= i < |l| => Item(l[i], "", "", ""));
    forall i, j | 0 <= i < j < |a| ensures Before(a[i], a[j]) { LessIrreflexive(xs[i]); }
    forall i, j | 0 <= i < j < |b| ensures Before(b[i], b[j]) { LessIrreflexive(l[i]); }
    forall x ensures x in a <==> x in b {
      if x in a {
        var i :| 0 <= i < |a| && a[i] == x;
        assert xs[i] in s;
        var j :| 0 <= j < |l| && l[j] == xs[i];
        assert b[j] == x;
      }
      if x in b {
        var i :| 0 <= i < |b| && b[i] == x;
        assert l[i] in s;
        var j :| 0 <= j < |xs| && xs[j] == l[i];
        assert a[j] == x;
      }
    }
    IncreasingUnique(a, b);
    forall i | 0 <= i < |xs| ensures xs[i] == l[i] { assert a[i].major == b[i].major; }
  }
}
