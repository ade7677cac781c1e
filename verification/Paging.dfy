/** Listing users: filter, then one page. */
module Paging {
  import opened Text
  import opened FilterLexer
  import opened FilterParser

  predicate Keeps<U(!new)>(f: Option<Filter>, eval: (Filter, U) -> bool, u: U) { f.None? || eval(f.value, u) }

  /** The users that match, in list order. */
  function Matched<U(!new)>(all: seq<U>, f: Option<Filter>, eval: (Filter, U) -> bool): (r: seq<U>)
    ensures forall u :: u in r <==> u in all && Keeps(f, eval, u)
  {
    if all == [] then []
    else if Keeps(f, eval, all[0]) then [all[0]] + Matched(all[1..], f, eval)
    else Matched(all[1..], f, eval)
  }

  predicate Hits<U(!new)>(all: seq<U>, i: nat, f: Option<Filter>, eval: (Filter, U) -> bool) {
    i < |all| && (f.None? || eval(f.value, all[i]))
  }

  /** `out` is what is at the places `at`, which are increasing. */
  ghost predicate Picks<U>(at: seq<nat>, all: seq<U>, n: nat, out: seq<U>) {
    && |at| == |out|
    && (forall k :: 0 <= k < |at| ==> n <= at[k] < |all| && out[k] == all[at[k]])
    && (forall j, k :: 0 <= j < k < |at| ==> at[j] < at[k])
  }

  /** And they are the places of the list, from `n` on, whose entries match. */
  ghost predicate Selects<U(!new)>(at: seq<nat>, all: seq<U>, n: nat, f: Option<Filter>, eval: (Filter, U) -> bool,
                                   out: seq<U>) {
    Picks(at, all, n, out) && forall i :: n <= i < |all| ==> (i in at <==> Hits(all, i, f, eval))
  }

  lemma {:induction false} OneMorePicked<U>(at: seq<nat>, all: seq<U>, n: nat, out: seq<U>)
    requires n < |all| && Picks(at, all, n + 1, out)
    ensures Picks([n] + at, all, n, [all[n]] + out)
  {
  }

  lemma {:induction false} OneMoreSelected<U(!new)>(at: seq<nat>, all: seq<U>, n: nat, f: Option<Filter>,
                                                    eval: (Filter, U) -> bool, out: seq<U>)
    requires n < |all| && Selects(at, all, n + 1, f, eval, out)
    ensures Hits(all, n, f, eval) ==> Selects([n] + at, all, n, f, eval, [all[n]] + out)
    ensures !Hits(all, n, f, eval) ==> Selects(at, all, n, f, eval, out)
  {
    OneMorePicked(at, all, n, out);
    forall i | n <= i < |all| ensures i in [n] + at <==> i == n || i in at {}
    assert n !in at;
  }

  lemma {:induction false} MatchedFrom<U(!new)>(all: seq<U>, n: nat, f: Option<Filter>, eval: (Filter, U) -> bool)
    returns (at: seq<nat>)
    requires n <= |all|
    ensures Selects(at, all, n, f, eval, Matched(all[n..], f, eval))
    decreases |all| - n
  {
    at := [];
    if n < |all| {
      assert all[n..][0] == all[n] && all[n..][1..] == all[n + 1..];
      var later := MatchedFrom(all, n + 1, f, eval);
      OneMoreSelected(later, all, n, f, eval, Matched(all[n + 1..], f, eval));
      at := if Hits(all, n, f, eval) then [n] + later else later;
    }
  }

  /** The matching users are a selection of the list: in its order, each entry once, and all that match. */
  lemma {:induction false} MatchedInOrder<U(!new)>(all: seq<U>, f: Option<Filter>, eval: (Filter, U) -> bool)
    returns (at: seq<nat>)
    ensures Selects(at, all, 0, f, eval, Matched(all, f, eval))
  {
    assert all[0..] == all;
    at := MatchedFrom(all, 0, f, eval);
  }

  /** Query parameters as read by strconv.Atoi; nothing when absent or no number. */
  method ParsePaging(start: Option<int>, count: Option<int>) returns (startIndex: nat, size: nat)
    ensures startIndex == (if start.Some? && start.value >= 1 then start.value else 1)
    ensures size == Min(if count.Some? && count.value >= 0 then count.value else 100, 500)
  {
    startIndex, size := 1, 100;
    if start.Some? {
      if start.value >= 1 { startIndex := start.value; }
    }
    if count.Some? {
      if count.value >= 0 { size := count.value; }
    }
    if size > 500 { size := 500; }
  }

  function Min(a: nat, b: nat): nat { if a < b then a else b }

  datatype Listing<U> = Listing(total: nat, startIndex: nat, users: seq<U>) | BadFilter(error: ParseError)

  function Slice<U>(s: seq<U>, lo: nat, size: nat): seq<U> {
    if lo < |s| then s[lo..Min(lo + size, |s|)] else []
  }

  method FilterUsers<U(!new)>(all: seq<U>, f: Option<Filter>, eval: (Filter, U) -> bool) returns (matched: seq<U>)
    ensures matched == Matched(all, f, eval)
  {
    matched := [];
    for i := 0 to |all|
      invariant matched + Matched(all[i..], f, eval) == Matched(all, f, eval)
    {
      assert all[i..][0] == all[i] && all[i..][1..] == all[i + 1..];
      if f.None? || eval(f.value, all[i]) {
        Regroup(matched, [all[i]], Matched(all[i + 1..], f, eval));
        matched := matched + [all[i]];
      }
    }
  }

  method TakePage<U>(matched: seq<U>, lo: nat, size: nat) returns (users: seq<U>)
    ensures users == Slice(matched, lo, size)
  {
    users := [];
    if lo < |matched| {
      var hi := lo + size;
      if hi > |matched| { hi := |matched|; }
      for i := lo to hi
        invariant users == matched[lo..i]
      {
        users := users + [matched[i]];
      }
    }
  }

  method ListUsers<U(!new)>(al: Alphabet, filter: string, eval: (Filter, U) -> bool, all: seq<U>, start: Option<int>,
                            count: Option<int>)
    returns (r: Listing<U>)
    ensures r == PageOf(al, filter, eval, all, start, count)
  {
    var parsed := ParseFilter(al, filter);
    if parsed.Refused? { return BadFilter(parsed.error); }
    var matched := FilterUsers(all, parsed.filter, eval);
    var startIndex, size := ParsePaging(start, count);
    var users := TakePage(matched, startIndex - 1, size);
    return Listing(|matched|, startIndex, users);
  }

  function PageOf<U(!new)>(al: Alphabet, filter: string, eval: (Filter, U) -> bool, all: seq<U>, start: Option<int>,
                           count: Option<int>): Listing<U> {
    var parsed := ParseText(al, filter);
    if parsed.Refused? then BadFilter(parsed.error)
    else
      var matched := Matched(all, parsed.filter, eval);
      var startIndex := if start.Some? && start.value >= 1 then start.value else 1;
      Listing(|matched|, startIndex,
              Slice(matched, startIndex - 1, Min(if count.Some? && count.value >= 0 then count.value else 100, 500)))
  }

  /** The first `n` pages of `size` users, one after the other. */
  function Pages<U(!new)>(al: Alphabet, filter: string, eval: (Filter, U) -> bool, all: seq<U>, size: nat,
                          n: nat): seq<U>
    requires ParseText(al, filter).Parsed?
  {
    if n == 0 then []
    else
      Pages(al, filter, eval, all, size, n - 1)
      + PageOf(al, filter, eval, all, Some(1 + (n - 1) * size), Some(size)).users
  }

  lemma {:induction false} SliceNext<U>(s: seq<U>, lo: nat, size: nat)
    ensures s[..Min(lo, |s|)] + Slice(s, lo, size) == s[..Min(lo + size, |s|)]
  {
  }

  lemma {:induction false} PageIsSlice<U(!new)>(al: Alphabet, filter: string, eval: (Filter, U) -> bool, all: seq<U>,
                                                lo: nat, size: nat)
    requires size <= 500 && ParseText(al, filter).Parsed?
    ensures
      var matched := Matched(all, ParseText(al, filter).filter, eval);
      PageOf(al, filter, eval, all, Some(1 + lo), Some(size)) == Listing(|matched|, 1 + lo, Slice(matched, lo, size))
  {
  }

  lemma {:induction false} PageAdded<U(!new)>(al: Alphabet, filter: string, eval: (Filter, U) -> bool, all: seq<U>,
                                              size: nat, n: nat, lo: nat, matched: seq<U>)
    requires 0 < size <= 500 && n > 0 && ParseText(al, filter).Parsed? && lo == (n - 1) * size
    requires matched == Matched(all, ParseText(al, filter).filter, eval)
    requires Pages(al, filter, eval, all, size, n - 1) == matched[..Min(lo, |matched|)]
    ensures Pages(al, filter, eval, all, size, n) == matched[..Min(lo + size, |matched|)]
  {
    PageIsSlice(al, filter, eval, all, lo, size);
    SliceNext(matched, lo, size);
  }

  lemma {:induction false} OneMore(n: nat, size: nat)
    requires n > 0
    ensures n * size == (n - 1) * size + size
  {
  }

  lemma {:induction false} PagesPrefix<U(!new)>(al: Alphabet, filter: string, eval: (Filter, U) -> bool, all: seq<U>,
                                                size: nat, n: nat, end: nat, matched: seq<U>)
    requires 0 < size <= 500 && end == n * size && ParseText(al, filter).Parsed?
    requires matched == Matched(all, ParseText(al, filter).filter, eval)
    ensures Pages(al, filter, eval, all, size, n) == matched[..Min(end, |matched|)]
  {
    if n > 0 {
      OneMore(n, size);
      PagesPrefix(al, filter, eval, all, size, n - 1, end - size, matched);
      PageAdded(al, filter, eval, all, size, n, end - size, matched);
    }
  }

  lemma {:induction false} PagesEnd<U(!new)>(al: Alphabet, filter: string, eval: (Filter, U) -> bool, all: seq<U>,
                                             size: nat, n: nat, end: nat, matched: seq<U>)
    requires 0 < size <= 500 && end == n * size && ParseText(al, filter).Parsed?
    requires matched == Matched(all, ParseText(al, filter).filter, eval)
    ensures Pages(al, filter, eval, all, size, n) == matched[..Min(end, |matched|)]
    ensures end >= |matched| ==> Pages(al, filter, eval, all, size, n) == matched
    ensures PageOf(al, filter, eval, all, Some(1 + end), Some(size)).total == |matched|
  {
    PagesPrefix(al, filter, eval, all, size, n, end, matched);
    PageIsSlice(al, filter, eval, all, end, size);
    assert matched[..|matched|] == matched;
  }

  /** Pages of any size up to 500, read one after the other, give exactly the matching users in list order,
      each page with the same total. */
  lemma {:induction false} PagesConcatenate<U(!new)>(al: Alphabet, filter: string, eval: (Filter, U) -> bool,
                                                     all: seq<U>, size: nat, n: nat)
    requires 1 <= size <= 500 && ParseText(al, filter).Parsed?
    ensures
      var matched := Matched(all, ParseText(al, filter).filter, eval);
      && Pages(al, filter, eval, all, size, n) == matched[..Min(n * size, |matched|)]
      && (n * size >= |matched| ==> Pages(al, filter, eval, all, size, n) == matched)
      && PageOf(al, filter, eval, all, Some(1 + n * size), Some(size)).total == |matched|
  {
    var matched := Matched(all, ParseText(al, filter).filter, eval);
    PagesEnd(al, filter, eval, all, size, n, n * size, matched);
  }
}
