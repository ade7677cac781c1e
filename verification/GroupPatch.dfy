/** SCIM PATCH on a group: the operations as they edit the member list, and what they do to the member set. */
module GroupPatch {
  import opened Text

  datatype Json = JString(s: string) | JArray(items: seq<Json>) | JObject(fields: map<string, Json>) | JOther

  datatype PatchOp = PatchOp(op: string, path: string, value: Json)

  datatype Group = Group(id: string, tenant: string, externalID: string, displayName: string, members: seq<string>,
                         version: nat)

  /** strings.ToLower. */
  datatype Library = Library(lower: string -> string)

  const ENTERPRISE := "urn:ietf:params:scim:schemas:extension:enterprise:2.0:User:"
  const ENTERPRISE_LOWER := "urn:ietf:params:scim:schemas:extension:enterprise:2.0:user:"

  // ---- paths ----

  function Close(p: string, i: nat): (k: nat)
    requires i <= |p|
    ensures i <= k <= |p| && (k < |p| ==> p[k] == ']') && forall n :: i <= n < k ==> p[n] != ']'
    decreases |p| - i
  {
    if i < |p| && p[i] != ']' then Close(p, i + 1) else i
  }

  /** Removes every `[...]`. */
  function StripBrackets(p: string): string
    decreases |p|
  {
    if p == "" then ""
    else if p[0] == '[' && Close(p, 1) < |p| then StripBrackets(p[Close(p, 1) + 1..])
    else [p[0]] + StripBrackets(p[1..])
  }

  function Normalize(lib: Library, p: string): string {
    lib.lower(TrimSpace(TrimPrefix(TrimPrefix(StripBrackets(p), ENTERPRISE), ENTERPRISE_LOWER)))
  }

  // ---- the identifier in a path ----

  /** What `\s` matches. */
  predicate IsBlank(c: char) { c in {'\t', '\n', '\r', ' ', '\U{0c}'} }

  function SkipBlank(p: string, i: nat): (k: nat)
    ensures i <= k && (i <= |p| ==> k <= |p|)
    decreases |p| - i
  {
    if i < |p| && IsBlank(p[i]) then SkipBlank(p, i + 1) else i
  }

  function Quote(p: string, i: nat): (k: nat)
    requires i <= |p|
    ensures i <= k <= |p|
    decreases |p| - i
  {
    if i < |p| && p[i] != '"' then Quote(p, i + 1) else i
  }

  /** What the expression captures of a quoted identifier at index `i`. */
  function Quoted(p: string, i: nat): string {
    if i >= |p| || p[i] != '"' then ""
    else
      var end := Quote(p, i + 1);
      if end == |p| then "" else p[i + 1..end]
  }

  predicate At(p: string, i: nat, t: string) { i + |t| <= |p| && p[i..i + |t|] == t }

  /** What it captures at index `i`: `value`, `eq` and a quoted identifier with white space between them. */
  function CapturedAt(p: string, i: nat): string
  {
    if !At(p, i, "value") then ""
    else
      var blank := i + |"value"|;
      var eq := SkipBlank(p, blank);
      if eq == blank || !At(p, eq, "eq") then ""
      else
        var next := eq + |"eq"|;
        if SkipBlank(p, next) == next then "" else Quoted(p, SkipBlank(p, next))
  }

  /** The first match of `value\s+eq\s+"([^"]+)"` from index `i` on. */
  function Bracketed(p: string, i: nat): string
    decreases |p| - i
  {
    if i >= |p| then "" else if CapturedAt(p, i) != "" then CapturedAt(p, i) else Bracketed(p, i + 1)
  }

  // ---- identifiers in a value ----

  function ItemID(item: Json): seq<string> {
    match item
    case JObject(fields) => if "value" in fields && fields["value"].JString? then [fields["value"].s] else []
    case JString(s) => [s]
    case _ => []
  }

  function ItemIDs(items: seq<Json>): seq<string> {
    if items == [] then [] else ItemID(items[0]) + ItemIDs(items[1..])
  }

  function MemberIDs(value: Json): seq<string> {
    if value.JArray? then ItemIDs(value.items) else ItemID(value)
  }

  /** The value, or an item of it, is this identifier or an object with it. */
  predicate Gives(item: Json, id: string) {
    item == JString(id) || (item.JObject? && "value" in item.fields && item.fields["value"] == JString(id))
  }

  predicate NamesMember(value: Json, id: string) {
    if value.JArray? then exists i :: 0 <= i < |value.items| && Gives(value.items[i], id) else Gives(value, id)
  }

  lemma {:induction false} ItemIDsAre(items: seq<Json>, id: string)
    ensures id in ItemIDs(items) <==> exists i :: 0 <= i < |items| && Gives(items[i], id)
  {
    if items != [] {
      ItemIDsAre(items[1..], id);
      assert forall i :: 0 < i < |items| ==> items[i] == items[1..][i - 1];
      assert id in ItemID(items[0]) <==> Gives(items[0], id);
    }
  }

  /** Exactly the identifiers that the value names are read from it. */
  lemma {:induction false} MemberIDsAre(value: Json, id: string)
    ensures id in MemberIDs(value) <==> NamesMember(value, id)
  {
    if value.JArray? { ItemIDsAre(value.items, id); }
  }

  method ExtractMemberIDs(value: Json) returns (out: seq<string>)
    ensures out == MemberIDs(value)
  {
    if !value.JArray? {
      return ItemID(value);
    }
    out := [];
    for i := 0 to |value.items|
      invariant out + ItemIDs(value.items[i..]) == ItemIDs(value.items)
    {
      var item := value.items[i];
      assert value.items[i..][1..] == value.items[i + 1..];
      Regroup(out, ItemID(item), ItemIDs(value.items[i + 1..]));
      if item.JObject? {
        if "value" in item.fields && item.fields["value"].JString? { out := out + [item.fields["value"].s]; }
      } else if item.JString? {
        out := out + [item.s];
      }
    }
  }

  // ---- member lists ----

  function AsSet(list: seq<string>): set<string> { set x | x in list }

  lemma {:induction false} AsSetJoin(a: seq<string>, b: seq<string>)
    ensures AsSet(a + b) == AsSet(a) + AsSet(b)
  {
    assert forall x :: x in a + b <==> x in a || x in b;
  }

  predicate Distinct(list: seq<string>) { forall i, j :: 0 <= i < j < |list| ==> list[i] != list[j] }

  method ContainsStr(list: seq<string>, s: string) returns (found: bool)
    ensures found <==> s in list
  {
    for i := 0 to |list|
      invariant s !in list[..i]
    {
      if list[i] == s {
        return true;
      }
    }
    return false;
  }

  /** Keeps the order, adds nothing twice. */
  method AddMembers(list: seq<string>, ids: seq<string>) returns (out: seq<string>)
    ensures list <= out && AsSet(out) == AsSet(list) + AsSet(ids)
    ensures Distinct(list) ==> Distinct(out)
  {
    out := list;
    for i := 0 to |ids|
      invariant list <= out && AsSet(out) == AsSet(list) + AsSet(ids[..i])
      invariant Distinct(list) ==> Distinct(out)
    {
      var there := ContainsStr(out, ids[i]);
      assert ids[..i + 1] == ids[..i] + [ids[i]];
      AsSetJoin(ids[..i], [ids[i]]);
      AsSetJoin(out, [ids[i]]);
      if !there {
        out := out + [ids[i]];
      }
    }
    assert ids[..|ids|] == ids;
  }

  /** The listed identifiers that are not to be removed, in order. */
  function Without(list: seq<string>, gone: set<string>): (r: seq<string>)
    ensures AsSet(r) == AsSet(list) - gone
  {
    if list == [] then []
    else
      var rest := Without(list[1..], gone);
      assert list == [list[0]] + list[1..];
      AsSetJoin([list[0]], list[1..]);
      AsSetJoin([list[0]], rest);
      if list[0] in gone then rest else [list[0]] + rest
  }

  method RemoveAll(list: seq<string>, remove: seq<string>) returns (out: seq<string>)
    ensures out == Without(list, AsSet(remove))
  {
    var gone := {};
    for i := 0 to |remove|
      invariant gone == AsSet(remove[..i])
    {
      assert remove[..i + 1] == remove[..i] + [remove[i]];
      gone := gone + {remove[i]};
    }
    assert remove[..|remove|] == remove;
    out := [];
    for i := 0 to |list|
      invariant out + Without(list[i..], gone) == Without(list, gone)
    {
      assert list[i..][1..] == list[i + 1..];
      if list[i] !in gone {
        Regroup(out, [list[i]], Without(list[i + 1..], gone));
        out := out + [list[i]];
      }
    }
  }

  // ---- what an operation does to a set of members ----

  /** `members` and the empty path name the whole list. */
  predicate NamesAll(lib: Library, op: PatchOp) {
    Normalize(lib, op.path) == "members" || Normalize(lib, op.path) == ""
  }

  predicate Supported(lib: Library, op: PatchOp) { lib.lower(op.op) in ["add", "remove", "replace"] }

  function RemoveOn(lib: Library, s: set<string>, op: PatchOp): set<string> {
    var ids := AsSet(MemberIDs(op.value));
    if NamesAll(lib, op) then (if ids == {} then {} else s - ids)
    else if Bracketed(op.path, 0) != "" then s - {Bracketed(op.path, 0)} else s
  }

  function PatchOn(lib: Library, s: set<string>, op: PatchOp): set<string> {
    var verb := lib.lower(op.op);
    if verb == "add" then s + AsSet(MemberIDs(op.value))
    else if verb == "remove" then RemoveOn(lib, s, op)
    else if verb == "replace" && Normalize(lib, op.path) != "displayname" then AsSet(MemberIDs(op.value))
    else s
  }

  function PatchAllOn(lib: Library, s: set<string>, ops: seq<PatchOp>): set<string>
    decreases |ops|
  {
    if ops == [] then s else PatchAllOn(lib, PatchOn(lib, s, ops[0]), ops[1..])
  }

  function NameOn(lib: Library, name: string, op: PatchOp): string {
    if lib.lower(op.op) == "replace" && Normalize(lib, op.path) == "displayname"
    then (if op.value.JString? then op.value.s else "") else name
  }

  function NameAllOn(lib: Library, name: string, ops: seq<PatchOp>): string
    decreases |ops|
  {
    if ops == [] then name else NameAllOn(lib, NameOn(lib, name, ops[0]), ops[1..])
  }

  // ---- what an operation does to one user ----

  /** Who is a member after an operation: added if named, removed if named or if nobody is, replaced by who is
      named; a name is not a member list. */
  lemma {:induction false} MemberAfter(lib: Library, s: set<string>, op: PatchOp, id: string)
    ensures lib.lower(op.op) == "add" ==> (id in PatchOn(lib, s, op) <==> id in s || NamesMember(op.value, id))
    ensures lib.lower(op.op) == "remove" && Normalize(lib, op.path) in {"members", ""} ==>
              (id in PatchOn(lib, s, op) <==>
               id in s && !NamesMember(op.value, id) && exists x :: NamesMember(op.value, x))
    ensures lib.lower(op.op) == "remove" && Normalize(lib, op.path) !in {"members", ""} ==>
              (id in PatchOn(lib, s, op) <==> id in s && (id == "" || id != Bracketed(op.path, 0)))
    ensures lib.lower(op.op) == "replace" && Normalize(lib, op.path) == "displayname" ==>
              (id in PatchOn(lib, s, op) <==> id in s)
    ensures lib.lower(op.op) == "replace" && Normalize(lib, op.path) != "displayname" ==>
              (id in PatchOn(lib, s, op) <==> NamesMember(op.value, id))
  {
    MemberIDsAre(op.value, id);
    if MemberIDs(op.value) != [] {
      var x := MemberIDs(op.value)[0];
      assert x in AsSet(MemberIDs(op.value));
      MemberIDsAre(op.value, x);
    } else {
      forall x ensures !NamesMember(op.value, x) { MemberIDsAre(op.value, x); }
    }
  }

  predicate OfEnterprise(path: string) {
    || "urn:ietf:params:scim:schemas:extension:enterprise:2.0:User:" <= path
    || "urn:ietf:params:scim:schemas:extension:enterprise:2.0:user:" <= path
  }

  /** A path is read without its filter, the prefix of the enterprise schema, white space around it, and the case of
      its letters. */
  lemma {:induction false} PathRead(lib: Library, prefix: string, before: string, attr: string, after: string,
                                    filter: string)
    requires prefix in {"", "urn:ietf:params:scim:schemas:extension:enterprise:2.0:User:",
                        "urn:ietf:params:scim:schemas:extension:enterprise:2.0:user:"}
    requires '[' !in prefix + (before + attr + after) && ']' !in filter
    requires !OfEnterprise(before + attr + after)
    requires Frames(before + attr + after, before, attr, after)
    ensures Normalize(lib, prefix + (before + attr + after)) == lib.lower(attr)
    ensures Normalize(lib, prefix + (before + attr + after) + ("[" + filter + "]")) == lib.lower(attr)
  {
    var plain := before + attr + after;
    var path := prefix + plain;
    StripPlain(path, "");
    StripPlain(path, "[" + filter + "]");
    StripFilter(filter);
    assert path + "" == path;
    PrefixTrimmed(prefix, plain);
    TrimsExactly(plain, attr);
  }

  lemma {:induction false} PrefixTrimmed(prefix: string, plain: string)
    requires prefix in {"", ENTERPRISE, ENTERPRISE_LOWER} && !OfEnterprise(plain)
    ensures TrimPrefix(TrimPrefix(prefix + plain, ENTERPRISE), ENTERPRISE_LOWER) == plain
  {
    var path := prefix + plain;
    assert |ENTERPRISE| == 59 && |ENTERPRISE_LOWER| == 59;
    assert ENTERPRISE[54] == 'U' && ENTERPRISE_LOWER[54] == 'u';
    if prefix == "" { assert path == plain; }
    else if prefix == ENTERPRISE { assert path[59..] == plain; }
    else {
      assert path[54] == 'u';
      assert path[59..] == plain;
    }
  }

  /** A group is renamed by replacing displayName, with the text given or else with nothing, and not otherwise. */
  lemma {:induction false} NameAfter(lib: Library, name: string, op: PatchOp, attr: string)
    requires op.path == attr && '[' !in attr && !OfEnterprise(attr) && Frames(attr, "", attr, "")
    ensures NameOn(lib, name, op) ==
            if lib.lower(op.op) == "replace" && lib.lower(attr) == "displayname"
            then (match op.value case JString(s) => s case _ => "") else name
  {
    assert "" + attr + "" == attr && "" + ("" + attr + "") == attr;
    PathRead(lib, "", "", attr, "", "");
  }

  /** Operations take effect one after the other. */
  lemma {:induction false} PatchesInOrder(lib: Library, s: set<string>, name: string, first: seq<PatchOp>,
                                          later: seq<PatchOp>)
    ensures PatchAllOn(lib, s, first + later) == PatchAllOn(lib, PatchAllOn(lib, s, first), later)
    ensures NameAllOn(lib, name, first + later) == NameAllOn(lib, NameAllOn(lib, name, first), later)
    decreases |first|
  {
    if first == [] {
      assert first + later == later;
    } else {
      assert (first + later)[0] == first[0] && (first + later)[1..] == first[1..] + later;
      PatchesInOrder(lib, PatchOn(lib, s, first[0]), NameOn(lib, name, first[0]), first[1..], later);
    }
  }

  method PatchRemove(lib: Library, g: Group, op: PatchOp) returns (members: seq<string>)
    ensures AsSet(members) == RemoveOn(lib, AsSet(g.members), op)
  {
    members := g.members;
    var path := Normalize(lib, op.path);
    if path == "members" || path == "" {
      var ids := ExtractMemberIDs(op.value);
      if |ids| == 0 {
        return [];
      }
      assert ids[0] in AsSet(ids);
      members := RemoveAll(g.members, ids);
      return;
    }
    var id := Bracketed(op.path, 0);
    if id != "" {
      assert AsSet([id]) == {id};
      members := RemoveAll(g.members, [id]);
    }
  }

  /** applyGroupPatch: the set of members and the name change as the operations say; an unsupported
      operation, anywhere in the list, refuses the whole patch. */
  method ApplyGroupPatch(lib: Library, g: Group, ops: seq<PatchOp>) returns (r: Option<Group>)
    ensures r.Some? <==> forall i :: 0 <= i < |ops| ==> Supported(lib, ops[i])
    ensures r.Some? ==>
      && AsSet(r.value.members) == PatchAllOn(lib, AsSet(g.members), ops)
      && r.value.displayName == NameAllOn(lib, g.displayName, ops)
      && r.value == g.(members := r.value.members, displayName := r.value.displayName)
  {
    var out := g;
    for i := 0 to |ops|
      invariant forall k :: 0 <= k < i ==> Supported(lib, ops[k])
      invariant PatchAllOn(lib, AsSet(out.members), ops[i..]) == PatchAllOn(lib, AsSet(g.members), ops)
      invariant NameAllOn(lib, out.displayName, ops[i..]) == NameAllOn(lib, g.displayName, ops)
      invariant out == g.(members := out.members, displayName := out.displayName)
    {
      var op := ops[i];
      assert ops[i..][0] == op && ops[i..][1..] == ops[i + 1..];
      var verb := lib.lower(op.op);
      if verb == "add" {
        var ids := ExtractMemberIDs(op.value);
        var members := AddMembers(out.members, ids);
        out := out.(members := members);
      } else if verb == "remove" {
        var members := PatchRemove(lib, out, op);
        out := out.(members := members);
      } else if verb == "replace" {
        if Normalize(lib, op.path) == "displayname" {
          out := out.(displayName := if op.value.JString? then op.value.s else "");
        } else {
          var ids := ExtractMemberIDs(op.value);
          out := out.(members := ids);
        }
      } else {
        return None;
      }
    }
    return Some(out);
  }

  // ---- a path with a filter ----

  lemma {:induction false} StripPlain(a: string, rest: string)
    requires '[' !in a
    ensures StripBrackets(a + rest) == a + StripBrackets(rest)
  {
    if a == "" { assert a + rest == rest; }
    else {
      assert (a + rest)[1..] == a[1..] + rest;
      StripPlain(a[1..], rest);
    }
  }

  lemma {:induction false} StripFilter(filter: string)
    requires ']' !in filter
    ensures StripBrackets("[" + filter + "]") == ""
  {
    var p := "[" + filter + "]";
    assert forall n :: 1 <= n < |p| - 1 ==> p[n] == filter[n - 1];
    assert p[|p| - 1] == ']';
    assert Close(p, 1) == |p| - 1;
  }

  /** The path `members[...]` means the whole list: the filter is stripped before the path is looked at. */
  lemma {:induction false} FilterStripped(lib: Library, filter: string, op: PatchOp)
    requires ']' !in filter && op.path == "members[" + filter + "]" && lib.lower("members") == "members"
    ensures NamesAll(lib, op)
  {
    assert op.path == "members" + ("[" + filter + "]");
    StripPlain("members", "[" + filter + "]");
    StripFilter(filter);
    assert "members" + "" == "members";
    MembersTrimmed();
  }

  /** Removing `members[...]` without a value empties the group, whatever the filter selects. It removes
      what the filter names, and only that, exactly when there is no other member. */
  lemma {:induction false} FilteredRemoveClears(lib: Library, s: set<string>, filter: string, op: PatchOp)
    requires ']' !in filter && op.path == "members[" + filter + "]" && MemberIDs(op.value) == []
    requires lib.lower(op.op) == "remove" && lib.lower("members") == "members"
    ensures PatchOn(lib, s, op) == {}
    ensures PatchOn(lib, s, op) == s - {Bracketed(op.path, 0)} <==> s <= {Bracketed(op.path, 0)}
  {
    FilterStripped(lib, filter, op);
  }

  /** With values it removes those and ignores the filter: it removes what the filter names, and only that,
      exactly when the values and the filter name the same members of the group. */
  lemma {:induction false} FilteredRemoveOfValues(lib: Library, s: set<string>, filter: string, op: PatchOp)
    requires ']' !in filter && op.path == "members[" + filter + "]" && MemberIDs(op.value) != []
    requires lib.lower(op.op) == "remove" && lib.lower("members") == "members"
    ensures PatchOn(lib, s, op) == s - AsSet(MemberIDs(op.value))
    ensures PatchOn(lib, s, op) == s - {Bracketed(op.path, 0)} <==>
            s * AsSet(MemberIDs(op.value)) == s * {Bracketed(op.path, 0)}
  {
    FilterStripped(lib, filter, op);
    var ids, named := AsSet(MemberIDs(op.value)), {Bracketed(op.path, 0)};
    assert MemberIDs(op.value)[0] in ids;
    assert s - ids == s - (s * ids) && s - named == s - (s * named);
    if s - ids == s - named {
      assert s * ids == s - (s - ids) && s * named == s - (s - named);
    }
  }

  lemma {:induction false} QuoteEnds(p: string, i: nat, id: string)
    requires i + |id| < |p| && p[i + |id|] == '"' && '"' !in id
    requires forall k :: 0 <= k < |id| ==> p[i + k] == id[k]
    ensures Quote(p, i) == i + |id|
    decreases |id|
  {
    if id != "" {
      assert p[i + 0] == id[0];
      forall k | 0 <= k < |id[1..]| ensures p[i + 1 + k] == id[1..][k] { assert p[i + (k + 1)] == id[k + 1]; }
      QuoteEnds(p, i + 1, id[1..]);
    }
  }

  lemma {:induction false} OneBlank(p: string, i: nat)
    requires i + 1 < |p| && p[i] == ' ' && !IsBlank(p[i + 1])
    ensures SkipBlank(p, i) == i + 1
  {
  }

  lemma {:induction false} CapturedHere(p: string, i: nat, id: string)
    requires At(p, i, "value") && At(p, i + 6, "eq") && i + 9 < |p|
    requires p[i + 5] == ' ' && p[i + 8] == ' ' && p[i + 9] == '"' && Quoted(p, i + 9) == id
    ensures CapturedAt(p, i) == id
  {
    assert p[i + 6..i + 8][0] == 'e';
    OneBlank(p, i + 5);
    OneBlank(p, i + 8);
  }

  lemma {:induction false} StartsInV(p: string, i: nat)
    ensures At(p, i, "value") ==> p[i] == 'v'
  {
    if At(p, i, "value") { assert p[i..i + 5][0] == p[i]; }
  }

  lemma {:induction false} NotCaptured(p: string, i: nat, end: nat)
    requires i <= end < |p| && forall k :: i <= k < end ==> p[k] != 'v'
    ensures Bracketed(p, i) == Bracketed(p, end)
    decreases end - i
  {
    if i < end {
      StartsInV(p, i);
      NotCaptured(p, i + 1, end);
    }
  }

  /** The path that names one member. */
  function PathOf(id: string): string { "members[value eq \"" + (id + "\"]") }

  lemma {:induction false} PathParts(id: string, p: string)
    requires p == PathOf(id)
    ensures |p| == 20 + |id| && (forall k :: 0 <= k < 8 ==> p[k] != 'v')
    ensures p[8..13] == "value" && p[14..16] == "eq" && p[13] == ' ' && p[16] == ' ' && p[17] == '"'
    ensures p[18 + |id|] == '"' && p[18..18 + |id|] == id
  {
    var head := "members[value eq \"";
    assert |head| == 18 && p[..18] == head;
    forall k | 0 <= k < 18 ensures p[k] == head[k] { assert p[..18][k] == head[k]; }
    assert p[18..] == id + "\"]";
    assert p[18..][|id|] == '"' && p[18..][..|id|] == id;
  }

  lemma {:induction false} QuotedHere(p: string, i: nat, id: string)
    requires i < |p| && p[i] == '"' && '"' !in id
    requires i + 1 + |id| < |p| && p[i + 1..i + 1 + |id|] == id && p[i + 1 + |id|] == '"'
    ensures Quoted(p, i) == id
  {
    forall k | 0 <= k < |id| ensures p[i + 1 + k] == id[k] { assert p[i + 1..i + 1 + |id|][k] == id[k]; }
    QuoteEnds(p, i + 1, id);
  }

  /** The identifier is found in a path of the documented form. */
  lemma {:induction false} BracketedFound(p: string, id: string)
    requires p == PathOf(id) && id != "" && '"' !in id
    ensures Bracketed(p, 0) == id
  {
    PathParts(id, p);
    NotCaptured(p, 0, 8);
    QuotedHere(p, 17, id);
    CapturedHere(p, 8, id);
  }

  /** The documented request to remove one member, from a group in which there is another: both are removed. */
  lemma {:induction false} RemoveOneRemovesBoth(lib: Library, s: set<string>, id: string, other: string, op: PatchOp)
    requires id != "" && '"' !in id && ']' !in id && s == {id, other} && other != id
    requires op.path == PathOf(id) && MemberIDs(op.value) == []
    requires lib.lower(op.op) == "remove" && lib.lower("members") == "members"
    ensures Bracketed(op.path, 0) == id && s - {id} == {other} && PatchOn(lib, s, op) == {}
  {
    var filter := "value eq \"" + id + "\"";
    assert op.path == "members[" + filter + "]";
    FilteredRemoveClears(lib, s, filter, op);
    BracketedFound(op.path, id);
  }

  lemma {:induction false} MembersTrimmed()
    ensures TrimSpace(TrimPrefix(TrimPrefix("members", ENTERPRISE), ENTERPRISE_LOWER)) == "members"
  {
    var members := "members";
    assert members[0] == 'm';
    assert |ENTERPRISE| > |members| && |ENTERPRISE_LOWER| > |members|;
    assert !(ENTERPRISE <= members) && !(ENTERPRISE_LOWER <= members);
    assert TrimLeft("members") == "members";
    assert TrimRight("members") == "members";
  }
}
