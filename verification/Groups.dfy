/** The group tables, the calls that change them, and the map from group to set of users they refine. */
module Groups {
  import opened Text
  import opened Order
  import opened GroupPatch

  datatype GroupRow = GroupRow(tenant: string, externalID: string, displayName: string, version: nat)

  /** `groups` and `users` under their primary keys; `members` holds (group, user) pairs. */
  datatype Tables = Tables(groups: map<string, GroupRow>, members: set<(string, string)>, users: map<string, string>)

  datatype Outcome = Done | NotFound | Conflict | Rejected

  // ---- statements ----

  function MembersOf(members: set<(string, string)>, g: string): set<string> {
    set p | p in members && p.0 == g :: p.1
  }

  function DropGroup(members: set<(string, string)>, g: string): set<(string, string)> {
    set p | p in members && p.0 != g
  }

  function DropUser(members: set<(string, string)>, u: string): set<(string, string)> {
    set p | p in members && p.1 != u
  }

  function Rows(g: string, users: set<string>): set<(string, string)> {
    set u | u in users :: (g, u)
  }

  /** Another group of the tenant has the name. */
  predicate NameTaken(groups: map<string, GroupRow>, id: string, tenant: string, name: string) {
    exists g :: g in groups && g != id && groups[g].tenant == tenant && groups[g].displayName == name
  }

  predicate OwnedBy(groups: map<string, GroupRow>, id: string, tenant: string) {
    id in groups && groups[id].tenant == tenant
  }

  // ---- calls, as functions of the tables ----

  function RowOf(g: Group, version: nat): GroupRow { GroupRow(g.tenant, g.externalID, g.displayName, version) }

  function Roster(t: Tables, id: string, members: set<string>): set<(string, string)> {
    DropGroup(t.members, id) + Rows(id, members)
  }

  /** A group without an identifier gets a fresh one. */
  function WithId(g: Group, drawn: string): Group { if g.id == "" then g.(id := drawn) else g }

  function CreateOutcome(t: Tables, g: Group): Outcome {
    if g.id in t.groups || NameTaken(t.groups, g.id, g.tenant, g.displayName) then Conflict else Done
  }

  function AfterCreate(t: Tables, g: Group): Tables {
    if CreateOutcome(t, g) != Done then t
    else t.(groups := t.groups[g.id := RowOf(g, 1)], members := Roster(t, g.id, AsSet(g.members)))
  }

  function ReplaceOutcome(t: Tables, g: Group): Outcome {
    if !OwnedBy(t.groups, g.id, g.tenant) then NotFound
    else if NameTaken(t.groups, g.id, g.tenant, g.displayName) then Conflict
    else Done
  }

  function AfterReplace(t: Tables, g: Group): Tables {
    if ReplaceOutcome(t, g) != Done then t
    else t.(groups := t.groups[g.id := RowOf(g, g.version + 1)], members := Roster(t, g.id, AsSet(g.members)))
  }

  /** The group row goes if it is the tenant's; the membership rows go by group ID alone. */
  function AfterDelete(t: Tables, tenant: string, id: string): Tables {
    t.(groups := if OwnedBy(t.groups, id, tenant) then t.groups - {id} else t.groups,
       members := DropGroup(t.members, id))
  }

  function AfterDeleteUser(t: Tables, tenant: string, id: string): Tables {
    t.(users := if id in t.users && t.users[id] == tenant then t.users - {id} else t.users,
       members := DropUser(t.members, id))
  }

  // ---- the store ----

  class Directory {
    var t: Tables

    method ReplaceMembers(id: string, members: seq<string>)
      modifies this
      ensures t == old(t).(members := Roster(old(t), id, AsSet(members)))
    {
      t := t.(members := DropGroup(t.members, id));
      for i := 0 to |members|
        invariant t == old(t).(members := DropGroup(old(t.members), id) + Rows(id, AsSet(members[..i])))
      {
        assert members[..i + 1] == members[..i] + [members[i]];
        AsSetJoin(members[..i], [members[i]]);
        assert Rows(id, AsSet(members[..i + 1])) == Rows(id, AsSet(members[..i])) + {(id, members[i])};
        t := t.(members := t.members + {(id, members[i])});
      }
      assert members[..|members|] == members;
    }

    method CreateGroup(given: Group, drawn: string) returns (r: Outcome, g: Group)
      modifies this
      ensures g == WithId(given, drawn) && r == CreateOutcome(old(t), g) && t == AfterCreate(old(t), g)
    {
      g := given;
      if g.id == "" { g := g.(id := drawn); }
      if g.id in t.groups
        || exists k ::
          k in t.groups && k != g.id && t.groups[k].tenant == g.tenant && t.groups[k].displayName == g.displayName
      {
        return Conflict, g;
      }
      t := t.(groups := t.groups[g.id := GroupRow(g.tenant, g.externalID, g.displayName, 1)]);
      ReplaceMembers(g.id, g.members);
      return Done, g;
    }

    method ReplaceGroup(g: Group) returns (r: Outcome)
      modifies this
      ensures r == ReplaceOutcome(old(t), g) && t == AfterReplace(old(t), g)
    {
      if !(g.id in t.groups && t.groups[g.id].tenant == g.tenant) {
        return NotFound;
      }
      if exists k ::
          k in t.groups && k != g.id && t.groups[k].tenant == g.tenant && t.groups[k].displayName == g.displayName
      {
        return Conflict;
      }
      t := t.(groups := t.groups[g.id := GroupRow(g.tenant, g.externalID, g.displayName, g.version + 1)]);
      ReplaceMembers(g.id, g.members);
      return Done;
    }

    method DeleteGroup(tenant: string, id: string) returns (r: Outcome)
      modifies this
      ensures r == (if OwnedBy(old(t.groups), id, tenant) then Done else NotFound)
              && t == AfterDelete(old(t), tenant, id)
    {
      var owned := id in t.groups && t.groups[id].tenant == tenant;
      if owned { t := t.(groups := t.groups - {id}); }
      t := t.(members := DropGroup(t.members, id));
      return if owned then Done else NotFound;
    }

    method DeleteUser(tenant: string, id: string) returns (r: Outcome)
      modifies this
      ensures r == (if id in old(t.users) && old(t.users)[id] == tenant then Done else NotFound)
      ensures t == AfterDeleteUser(old(t), tenant, id)
    {
      var owned := id in t.users && t.users[id] == tenant;
      if owned { t := t.(users := t.users - {id}); }
      t := t.(members := DropUser(t.members, id));
      return if owned then Done else NotFound;
    }

    /** ORDER BY user_id. */
    method LoadMembers(id: string) returns (ids: seq<string>)
      ensures ids == Listing(MembersOf(t.members, id))
    {
      ids := SortedListing(MembersOf(t.members, id));
    }

    method GetGroup(tenant: string, id: string) returns (r: Option<Group>)
      ensures r == Fetched(t, tenant, id)
    {
      if !(id in t.groups && t.groups[id].tenant == tenant) {
        return None;
      }
      var row := t.groups[id];
      var members := LoadMembers(id);
      return Some(Group(id, row.tenant, row.externalID, row.displayName, members, row.version));
    }

    /** The join of both tables, in no particular order. */
    method GroupsForUser(tenant: string, user: string) returns (out: seq<string>)
      ensures forall g :: g in out <==> OwnedBy(t.groups, g, tenant) && (g, user) in t.members
      ensures Distinct(out)
    {
      out := [];
      var todo := t.groups.Keys;
      while todo != {}
        invariant todo <= t.groups.Keys && Distinct(out)
        invariant forall g :: g in out <==> OwnedBy(t.groups, g, tenant) && (g, user) in t.members && g !in todo
        decreases todo
      {
        var g :| g in todo;
        todo := todo - {g};
        if t.groups[g].tenant == tenant && (g, user) in t.members {
          out := out + [g];
        }
      }
    }

    /** The PATCH handler: fetch, patch the copy, write it back. */
    method PatchGroup(lib: Library, tenant: string, id: string, ops: seq<PatchOp>) returns (r: Outcome)
      modifies this
      ensures r == PatchOutcome(lib, old(t), tenant, id, ops) && t == AfterPatch(lib, old(t), tenant, id, ops)
    {
      var existing := GetGroup(tenant, id);
      if existing.None? { return NotFound; }
      var patched := ApplyGroupPatch(lib, existing.value, ops);
      if patched.None? { return Rejected; }
      PatchedReplaces(lib, t, tenant, id, ops, existing.value, patched.value);
      r := ReplaceGroup(patched.value);
    }
  }

  ghost function Fetched(t: Tables, tenant: string, id: string): Option<Group> {
    if !OwnedBy(t.groups, id, tenant) then None
    else
      var row := t.groups[id];
      Some(Group(id, row.tenant, row.externalID, row.displayName, Listing(MembersOf(t.members, id)), row.version))
  }

  predicate AllSupported(lib: Library, ops: seq<PatchOp>) { forall i :: 0 <= i < |ops| ==> Supported(lib, ops[i]) }

  function PatchOutcome(lib: Library, t: Tables, tenant: string, id: string, ops: seq<PatchOp>): Outcome {
    if !OwnedBy(t.groups, id, tenant) then NotFound
    else if !AllSupported(lib, ops) then Rejected
    else if NameTaken(t.groups, id, tenant, NameAllOn(lib, t.groups[id].displayName, ops)) then Conflict
    else Done
  }

  function AfterPatch(lib: Library, t: Tables, tenant: string, id: string, ops: seq<PatchOp>): Tables {
    if PatchOutcome(lib, t, tenant, id, ops) != Done then t
    else
      var row := t.groups[id];
      t.(groups := t.groups[id :=
                            row.(displayName := NameAllOn(lib, row.displayName, ops), version := row.version + 1)],
         members := Roster(t, id, PatchAllOn(lib, MembersOf(t.members, id), ops)))
  }

  lemma {:induction false} ListedAsSet(s: set<string>)
    ensures AsSet(Listing(s)) == s
  {
    ListingIs(s);
  }

  /** Writing the patched copy back is the patch. */
  lemma {:induction false} PatchedReplaces(lib: Library, t: Tables, tenant: string, id: string, ops: seq<PatchOp>,
                                           fetched: Group, g: Group)
    requires Fetched(t, tenant, id) == Some(fetched) && AllSupported(lib, ops)
    requires AsSet(g.members) == PatchAllOn(lib, AsSet(fetched.members), ops)
    requires g.displayName == NameAllOn(lib, fetched.displayName, ops)
    requires g == fetched.(members := g.members, displayName := g.displayName)
    ensures ReplaceOutcome(t, g) == PatchOutcome(lib, t, tenant, id, ops)
    ensures AfterReplace(t, g) == AfterPatch(lib, t, tenant, id, ops)
  {
    ListedAsSet(MembersOf(t.members, id));
  }

  method SortedListing(s: set<string>) returns (ids: seq<string>)
    ensures ids == Listing(s)
  {
    var items: seq<Item> := [];
    var todo := s;
    while todo != {}
      invariant todo <= s && DistinctKeys(items)
      invariant forall i :: 0 <= i < |items| ==>
                items[i] == Item(items[i].major, "", "", "") && items[i].major in s - todo
      invariant forall x :: x in s - todo ==> Item(x, "", "", "") in items
      decreases todo
    {
      var x :| x in todo;
      ghost var before := items;
      items := items + [Item(x, "", "", "")];
      assert items[|before|] in items;
      assert forall i :: 0 <= i < |before| ==> items[i] == before[i];
      todo := todo - {x};
    }
    var sorted := Sort(items);
    ids := seq(|sorted|, i requires 0 <= i < |sorted| => sorted[i].major);
    SortedMajors(items, sorted, ids, s);
  }

  lemma {:induction false} SortedMajors(items: seq<Item>, sorted: seq<Item>, ids: seq<string>, s: set<string>)
    requires DistinctKeys(items) && sorted == Sort(items) && |ids| == |sorted|
    requires forall i :: 0 <= i < |items| ==> items[i] == Item(items[i].major, "", "", "") && items[i].major in s
    requires forall x :: x in s ==> Item(x, "", "", "") in items
    requires forall i :: 0 <= i < |ids| ==> ids[i] == sorted[i].major
    ensures ids == Listing(s)
  {
    SortIncreasing(items);
    forall i | 0 <= i < |sorted| ensures sorted[i] == Item(ids[i], "", "", "") && ids[i] in s {
      assert sorted[i] in sorted;
      MemberOfSorted(items, sorted[i]);
    }
    forall x | x in s ensures x in ids {
      MemberOfSorted(items, Item(x, "", "", ""));
      var i :| 0 <= i < |sorted| && sorted[i] == Item(x, "", "", "");
      assert ids[i] == x;
    }
    forall i, j | 0 <= i < j < |ids| ensures Less(ids[i], ids[j]) {
      assert Before(sorted[i], sorted[j]);
      LessIrreflexive("");
    }
    ListingUnique(ids, s);
  }
}
