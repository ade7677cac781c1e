/** Every run of calls on the group tables. */
module GroupRuns {
  import opened Text
  import opened Order
  import opened GroupPatch
  import opened Groups

  datatype Call =
    | Create(given: Group, drawn: string)
    | Replace(g: Group)
    | Patch(tenant: string, id: string, ops: seq<PatchOp>)
    | Delete(tenant: string, id: string)
    | DeleteUser(tenant: string, id: string)

  function Do(lib: Library, t: Tables, c: Call): Tables {
    match c
    case Create(g, drawn) => AfterCreate(t, WithId(g, drawn))
    case Replace(g) => AfterReplace(t, g)
    case Patch(tenant, id, ops) => AfterPatch(lib, t, tenant, id, ops)
    case Delete(tenant, id) => AfterDelete(t, tenant, id)
    case DeleteUser(tenant, id) => AfterDeleteUser(t, tenant, id)
  }

  function Run(lib: Library, t: Tables, calls: seq<Call>): Tables {
    if calls == [] then t else Do(lib, Run(lib, t, calls[..|calls| - 1]), calls[|calls| - 1])
  }

  // ---- the abstract directory: who is in which group ----

  type Rosters = map<string, set<string>>

  function RostersOf(t: Tables): Rosters { map g | g in t.groups :: MembersOf(t.members, g) }

  /** What a call does to the map from group to users. `groups` decides only whether it is carried out. */
  function OnRosters(lib: Library, t: Tables, r: Rosters, c: Call): Rosters
    requires r.Keys == t.groups.Keys
  {
    match c
    case Create(given, drawn) =>
      var g := WithId(given, drawn);
      if CreateOutcome(t, g) == Done then r[g.id := AsSet(g.members)] else r
    case Replace(g) => if ReplaceOutcome(t, g) == Done then r[g.id := AsSet(g.members)] else r
    case Patch(tenant, id, ops) =>
      if PatchOutcome(lib, t, tenant, id, ops) == Done then r[id := PatchAllOn(lib, r[id], ops)] else r
    case Delete(tenant, id) =>
      if OwnedBy(t.groups, id, tenant) then r - {id} else if id in r then r[id := {}] else r
    case DeleteUser(_, id) => map g | g in r :: r[g] - {id}
  }

  lemma {:induction false} RosterMembers(t: Tables, id: string, users: set<string>, g: string)
    ensures MembersOf(Roster(t, id, users), g) == if g == id then users else MembersOf(t.members, g)
  {
    var m := Roster(t, id, users);
    assert forall u :: (g, u) in m <==> if g == id then u in users else (g, u) in t.members;
    MembersAre(m, g);
    MembersAre(t.members, g);
  }

  lemma {:induction false} MembersAre(members: set<(string, string)>, g: string)
    ensures forall u :: u in MembersOf(members, g) <==> (g, u) in members
  {
    forall u ensures u in MembersOf(members, g) <==> (g, u) in members {
      if (g, u) in members { assert (g, u).0 == g && (g, u).1 == u; }
    }
  }

  lemma {:induction false} DropMembers(t: Tables, id: string, g: string)
    ensures MembersOf(DropGroup(t.members, id), g) == if g == id then {} else MembersOf(t.members, g)
    ensures MembersOf(DropUser(t.members, id), g) == MembersOf(t.members, g) - {id}
  {
    MembersAre(t.members, g);
    MembersAre(DropGroup(t.members, id), g);
    MembersAre(DropUser(t.members, id), g);
  }

  /** The tables do to the rosters exactly what the abstract calls do: creating and replacing assigns, patching
      adds, subtracts or assigns in order, deleting drops by identifier. */
  lemma {:induction false} Refines(lib: Library, t: Tables, c: Call)
    ensures RostersOf(Do(lib, t, c)) == OnRosters(lib, t, RostersOf(t), c)
  {
    var t' := Do(lib, t, c);
    forall g | g in t'.groups
      ensures g in OnRosters(lib, t, RostersOf(t), c)
              && MembersOf(t'.members, g) == OnRosters(lib, t, RostersOf(t), c)[g]
    {
      match c
      case Create(n, drawn) => RosterMembers(t, WithId(n, drawn).id, AsSet(n.members), g);
      case Replace(n) => RosterMembers(t, n.id, AsSet(n.members), g);
      case Patch(_, id, ops) => RosterMembers(t, id, PatchAllOn(lib, MembersOf(t.members, id), ops), g);
      case Delete(_, id) => DropMembers(t, id, g);
      case DeleteUser(_, id) => DropMembers(t, id, g);
    }
  }

  // ---- what every run keeps ----

  ghost predicate RowsNameGroups(t: Tables) { forall p :: p in t.members ==> p.0 in t.groups }

  /** No two groups of a tenant have the same name. */
  ghost predicate NamesUnique(t: Tables) {
    forall g, h :: g in t.groups && h in t.groups && g != h && t.groups[g].tenant == t.groups[h].tenant ==>
      t.groups[g].displayName != t.groups[h].displayName
  }

  lemma {:induction false} StepKeepsRows(lib: Library, t: Tables, c: Call)
    requires RowsNameGroups(t)
    ensures RowsNameGroups(Do(lib, t, c))
  {
  }

  lemma {:induction false} AssignKeepsNames(t: Tables, id: string, row: GroupRow, t': Tables)
    requires NamesUnique(t) && t'.groups == t.groups[id := row] && !NameTaken(t.groups, id, row.tenant, row.displayName)
    ensures NamesUnique(t')
  {
  }

  lemma {:induction false} StepKeepsNames(lib: Library, t: Tables, c: Call)
    requires NamesUnique(t)
    ensures NamesUnique(Do(lib, t, c))
  {
    var t' := Do(lib, t, c);
    match c
    case Create(given, drawn) =>
      var g := WithId(given, drawn);
      if CreateOutcome(t, g) == Done { AssignKeepsNames(t, g.id, RowOf(g, 1), t'); }
    case Replace(g) => if ReplaceOutcome(t, g) == Done { AssignKeepsNames(t, g.id, RowOf(g, g.version + 1), t'); }
    case Patch(tenant, id, ops) =>
      if PatchOutcome(lib, t, tenant, id, ops) == Done { AssignKeepsNames(t, id, t'.groups[id], t'); }
    case Delete(_, _) =>
    case DeleteUser(_, _) =>
  }

  /** In every run each membership row names an existing group, names stay unique, and the rosters are the
      whole content of the membership table. */
  lemma {:induction false} RunKeeps(lib: Library, t: Tables, calls: seq<Call>)
    requires t.groups == map[] && t.members == {}
    ensures
      var end := Run(lib, t, calls);
      && RowsNameGroups(end) && NamesUnique(end)
      && forall g, u :: (g, u) in end.members <==> g in RostersOf(end) && u in RostersOf(end)[g]
  {
    if calls != [] {
      var n := |calls| - 1;
      RunKeeps(lib, t, calls[..n]);
      StepKeepsRows(lib, Run(lib, t, calls[..n]), calls[n]);
      StepKeepsNames(lib, Run(lib, t, calls[..n]), calls[n]);
    }
    RostersTell(Run(lib, t, calls));
  }

  lemma {:induction false} RostersTell(t: Tables)
    requires RowsNameGroups(t)
    ensures forall g, u :: (g, u) in t.members <==> g in RostersOf(t) && u in RostersOf(t)[g]
  {
    forall g, u ensures (g, u) in t.members <==> g in RostersOf(t) && u in RostersOf(t)[g] {
      MembersAre(t.members, g);
      if (g, u) in t.members { assert (g, u).0 == g; }
    }
  }

  // ---- failed calls ----

  ghost function OutcomeOf(lib: Library, t: Tables, c: Call): Outcome {
    match c
    case Create(g, drawn) => CreateOutcome(t, WithId(g, drawn))
    case Replace(g) => ReplaceOutcome(t, g)
    case Patch(tenant, id, ops) => PatchOutcome(lib, t, tenant, id, ops)
    case Delete(tenant, id) => if OwnedBy(t.groups, id, tenant) then Done else NotFound
    case DeleteUser(tenant, id) => if id in t.users && t.users[id] == tenant then Done else NotFound
  }

  /** A failed call changes nothing, except that a delete for the wrong tenant still drops the membership
      rows of the identifier: it changes nothing exactly when there are none. */
  lemma {:induction false} FailedCalls(lib: Library, t: Tables, c: Call)
    requires OutcomeOf(lib, t, c) != Done
    ensures
      Do(lib, t, c) == t <==>
        (c.Delete? ==> MembersOf(t.members, c.id) == {}) &&
        (c.DeleteUser? ==> forall p :: p in t.members ==> p.1 != c.id)
  {
    if c.Delete? {
      MembersAre(t.members, c.id);
      assert DropGroup(t.members, c.id) == t.members <==> forall p :: p in t.members ==> p.0 != c.id;
      assert (forall p :: p in t.members ==> p.0 != c.id) ==> MembersOf(t.members, c.id) == {};
      forall p | p in t.members && p.0 == c.id ensures p.1 in MembersOf(t.members, c.id) { assert p == (c.id, p.1); }
    }
    if c.DeleteUser? {
      assert DropUser(t.members, c.id) == t.members <==> forall p :: p in t.members ==> p.1 != c.id;
    }
  }

  /** Deleting a group as another tenant reports that it is not there, and empties it. */
  lemma {:induction false} ForeignDelete(lib: Library)
    ensures exists t: Tables, c: Call :: OutcomeOf(lib, t, c) == NotFound && Do(lib, t, c) != t
  {
    var t := Tables(map["g" := GroupRow("acme", "", "staff", 1)], {("g", "u")}, map[]);
    var c := Delete("other", "g");
    assert OutcomeOf(lib, t, c) == NotFound;
    assert ("g", "u") in t.members && ("g", "u") !in Do(lib, t, c).members;
  }

  // ---- the two ways of reading membership ----

  /** A group lists a user exactly when the user's groups list the group. */
  lemma {:induction false} Inverse(t: Tables, tenant: string, g: string, u: string)
    ensures OwnedBy(t.groups, g, tenant) && (g, u) in t.members <==>
            Fetched(t, tenant, g).Some? && u in Fetched(t, tenant, g).value.members
  {
    ListingIs(MembersOf(t.members, g));
    MembersAre(t.members, g);
  }

  // ---- when a call is refused ----

  /** A group is created or replaced exactly when two groups of a tenant do not come to share a name by it, nor two
      groups an identifier, and what is replaced is there. */
  lemma {:induction false} RefusedExactly(lib: Library, t: Tables, g: Group)
    requires NamesUnique(t)
    ensures CreateOutcome(t, g) == Done <==>
            g.id !in t.groups && NamesUnique(t.(groups := t.groups[g.id := RowOf(g, 1)]))
    ensures ReplaceOutcome(t, g) == NotFound <==> !(g.id in t.groups && t.groups[g.id].tenant == g.tenant)
    ensures ReplaceOutcome(t, g) != NotFound ==>
              (ReplaceOutcome(t, g) == Done <==>
               NamesUnique(t.(groups := t.groups[g.id := RowOf(g, g.version + 1)])))
  {
    ClashExactly(t, g, RowOf(g, 1));
    ClashExactly(t, g, RowOf(g, g.version + 1));
  }

  lemma {:induction false} ClashExactly(t: Tables, g: Group, row: GroupRow)
    requires NamesUnique(t) && row.tenant == g.tenant && row.displayName == g.displayName
    ensures NameTaken(t.groups, g.id, g.tenant, g.displayName) <==>
            !NamesUnique(t.(groups := t.groups[g.id := row]))
  {
    var t' := t.(groups := t.groups[g.id := row]);
    if NameTaken(t.groups, g.id, g.tenant, g.displayName) {
      var k :| k in t.groups && k != g.id && t.groups[k].tenant == g.tenant && t.groups[k].displayName == g.displayName;
      assert k in t'.groups && t'.groups[k] == t.groups[k] && t'.groups[g.id] == row;
    } else {
      AssignKeepsNames(t, g.id, row, t');
    }
  }

  /** What was written is what is fetched, with the members in order and each once. */
  lemma {:induction false} WrittenThenFetched(t: Tables, g: Group)
    ensures CreateOutcome(t, g) == Done ==>
              Fetched(AfterCreate(t, g), g.tenant, g.id) ==
              Some(g.(members := Listing(AsSet(g.members)), version := 1))
    ensures ReplaceOutcome(t, g) == Done ==>
              Fetched(AfterReplace(t, g), g.tenant, g.id) ==
              Some(g.(members := Listing(AsSet(g.members)), version := g.version + 1))
  {
    RosterMembers(t, g.id, AsSet(g.members), g.id);
  }

  /** Who a call is about. */
  function Subject(c: Call): string {
    match c
    case Create(g, drawn) => if g.id == "" then drawn else g.id
    case Replace(g) => g.id
    case Patch(_, id, _) => id
    case Delete(_, id) => id
    case DeleteUser(_, id) => id
  }

  /** A call touches no other group's row and no other user's, and no membership but those of its subject. */
  lemma {:induction false} OthersUntouched(lib: Library, t: Tables, c: Call, id: string, user: string)
    ensures id != Subject(c) || c.DeleteUser? ==>
              (id in Do(lib, t, c).groups <==> id in t.groups)
              && (id in t.groups ==> Do(lib, t, c).groups[id] == t.groups[id])
    ensures id != Subject(c) || !c.DeleteUser? ==>
              (id in Do(lib, t, c).users <==> id in t.users)
              && (id in t.users ==> Do(lib, t, c).users[id] == t.users[id])
    ensures (if c.DeleteUser? then user else id) != Subject(c) ==>
              ((id, user) in Do(lib, t, c).members <==> (id, user) in t.members)
  {
  }
}
