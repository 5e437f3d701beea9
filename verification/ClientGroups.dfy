/**
  Membership of client groups: src/models/ClientGroup.js and the hook of src/routes/clientGroups.js
  that follows the choice of a primary (the group's billing owner).
*/
module ClientGroups {
  import opened Wrappers

  type ClientId = nat
  type GroupId = nat
  type OrgId = nat

  datatype Client = Client(org: OrgId, deleted: bool, group: Option<GroupId>)
  datatype Group = Group(org: OrgId, primary: Option<ClientId>)
  datatype Tables = Tables(clients: map<ClientId, Client>, groups: map<GroupId, Group>)

  /** [...new Set(ids)] of the positive integers among the ids. */
  function Wanted(ids: seq<int>): set<ClientId> {
    set n | n in ids && n > 0
  }

  // ---------------------------------------------------------------------------
  // Statements
  // ---------------------------------------------------------------------------

  /** Clients the first UPDATE of addMembers moves. */
  predicate Moves(c: Client, org: OrgId, g: GroupId) {
    c.org == org && !c.deleted && c.group != Some(g)
  }

  function Moved(t: Tables, g: GroupId, ids: set<ClientId>, org: OrgId): set<ClientId> {
    set c | c in t.clients && c in ids && Moves(t.clients[c], org, g)
  }

  function AddMembers(t: Tables, g: GroupId, ids: set<ClientId>, org: OrgId): Tables {
    Tables(
      map c | c in t.clients :: if c in Moved(t, g, ids, org) then t.clients[c].(group := Some(g)) else t.clients[c],
      map h | h in t.groups ::
        var group := t.groups[h];
        if group.org == org && h != g && group.primary.Some? && group.primary.value in ids then group.(primary := None) else group)
  }

  predicate Removable(t: Tables, g: GroupId, c: ClientId, org: OrgId) {
    c in t.clients && t.clients[c].group == Some(g) && t.clients[c].org == org && !t.clients[c].deleted
  }

  function RemoveMember(t: Tables, g: GroupId, c: ClientId, org: OrgId): Tables {
    if !Removable(t, g, c, org) then t
    else
      Tables(
        t.clients[c := t.clients[c].(group := None)],
        map h | h in t.groups ::
          var group := t.groups[h];
          if h == g && group.org == org && group.primary == Some(c) then group.(primary := None) else group)
  }

  /** A create or update that names a primary, and its after hook; a primary of null or 0 adds nobody. */
  function ChoosePrimary(t: Tables, g: GroupId, primary: Option<ClientId>, org: OrgId): Tables {
    if g !in t.groups || t.groups[g].org != org then t
    else
      var written := t.(groups := t.groups[g := t.groups[g].(primary := primary)]);
      if primary.GetOr(0) == 0 then written else AddMembers(written, g, {primary.value}, org)
  }

  /** The client's own form, its deletion and its restoration: plain writes to the client alone. */
  function EditClient(t: Tables, c: ClientId, edited: Client): Tables {
    t.(clients := t.clients[c := edited])
  }

  predicate LiveClient(t: Tables, c: ClientId, org: OrgId) {
    c in t.clients && t.clients[c].org == org && !t.clients[c].deleted
  }

  function Regroup(t: Tables, c: ClientId, group: Option<GroupId>, org: OrgId): Tables {
    if LiveClient(t, c, org) then EditClient(t, c, t.clients[c].(group := group)) else t
  }

  function Archive(t: Tables, c: ClientId, org: OrgId): Tables {
    if LiveClient(t, c, org) then EditClient(t, c, t.clients[c].(deleted := true)) else t
  }

  function Unarchive(t: Tables, c: ClientId, org: OrgId): Tables {
    if c in t.clients && t.clients[c].org == org then EditClient(t, c, t.clients[c].(deleted := false)) else t
  }

  /** Live members of a group. */
  function Members(t: Tables, g: GroupId, org: OrgId): set<ClientId> {
    set c | c in t.clients && t.clients[c].org == org && !t.clients[c].deleted && t.clients[c].group == Some(g)
  }

  class GroupTables {
    var tables: Tables

    constructor (tables: Tables)
      ensures this.tables == tables
    {
      this.tables := tables;
    }

    /** addMembers answers the number of clients that were not members before. */
    method Add(g: GroupId, clientIds: seq<int>, org: OrgId) returns (added: nat)
      modifies this
      ensures tables == AddMembers(old(tables), g, Wanted(clientIds), org)
      ensures Members(tables, g, org) == Members(old(tables), g, org) + Moved(old(tables), g, Wanted(clientIds), org)
      ensures added == |Members(tables, g, org)| - |Members(old(tables), g, org)|
    {
      var ids := set n | n in clientIds && n > 0;
      var before := tables;
      if ids == {} {
        NobodyWanted(tables, g, org);
        return 0;
      }
      var moved := Moved(before, g, ids, org);
      tables := tables.(clients := map c | c in before.clients :: if c in moved then before.clients[c].(group := Some(g)) else before.clients[c]);
      tables := tables.(groups := map h | h in before.groups ::
        if before.groups[h].org == org && h != g && before.groups[h].primary.Some? && before.groups[h].primary.value in ids
        then before.groups[h].(primary := None) else before.groups[h]);
      MembersGrow(before, g, ids, org);
      added := |moved|;
    }

    /** removeMember answers whether the client was a live member. */
    method Remove(g: GroupId, c: ClientId, org: OrgId) returns (removed: bool)
      modifies this
      ensures tables == RemoveMember(old(tables), g, c, org)
      ensures removed <==> c in Members(old(tables), g, org)
      ensures Members(tables, g, org) == Members(old(tables), g, org) - {c}
    {
      removed := c in tables.clients && tables.clients[c].group == Some(g) && tables.clients[c].org == org && !tables.clients[c].deleted;
      if removed {
        tables := RemoveMember(tables, g, c, org);
      }
    }
  }

  lemma NobodyWanted(t: Tables, g: GroupId, org: OrgId)
    ensures AddMembers(t, g, {}, org) == t && Moved(t, g, {}, org) == {}
  {
    assert Moved(t, g, {}, org) == {};
    assert AddMembers(t, g, {}, org).clients == t.clients && AddMembers(t, g, {}, org).groups == t.groups;
  }

  lemma MembersGrow(t: Tables, g: GroupId, ids: set<ClientId>, org: OrgId)
    ensures var after := Members(AddMembers(t, g, ids, org), g, org);
            && after == Members(t, g, org) + Moved(t, g, ids, org)
            && |after| == |Members(t, g, org)| + |Moved(t, g, ids, org)|
  {
    assert Members(t, g, org) !! Moved(t, g, ids, org);
  }

  // ---------------------------------------------------------------------------
  // A group's primary is one of its members
  // ---------------------------------------------------------------------------

  predicate Belongs(t: Tables, g: GroupId, c: ClientId) {
    g in t.groups && c in Members(t, g, t.groups[g].org)
  }

  /** Every group with a primary has it as a live member. */
  predicate PrimariesAreMembers(t: Tables) {
    forall g :: g in t.groups && t.groups[g].primary.Some? ==> Belongs(t, g, t.groups[g].primary.value)
  }

  lemma AddKeepsPrimaries(t: Tables, g: GroupId, ids: set<ClientId>, org: OrgId)
    requires PrimariesAreMembers(t)
    ensures PrimariesAreMembers(AddMembers(t, g, ids, org))
  {
    var t' := AddMembers(t, g, ids, org);
    forall h | h in t'.groups && t'.groups[h].primary.Some? ensures Belongs(t', h, t'.groups[h].primary.value) {
      assert Belongs(t, h, t.groups[h].primary.value);
    }
  }

  lemma RemoveKeepsPrimaries(t: Tables, g: GroupId, c: ClientId, org: OrgId)
    requires PrimariesAreMembers(t)
    ensures PrimariesAreMembers(RemoveMember(t, g, c, org))
  {
    var t' := RemoveMember(t, g, c, org);
    forall h | h in t'.groups && t'.groups[h].primary.Some? ensures Belongs(t', h, t'.groups[h].primary.value) {
      assert Belongs(t, h, t.groups[h].primary.value);
    }
  }

  /** The chosen client is, or can be made, a member: a live one of this organization. */
  predicate Eligible(t: Tables, g: GroupId, primary: Option<ClientId>, org: OrgId) {
    primary.Some? ==> LiveClient(t, primary.value, org) && (t.clients[primary.value].group == Some(g) || primary.value != 0)
  }

  /** Choosing a primary keeps the rule exactly when the choice is eligible; an unknown, foreign or
      archived client becomes a primary that is no member. */
  lemma ChoiceKeepsPrimaries(t: Tables, g: GroupId, primary: Option<ClientId>, org: OrgId)
    requires PrimariesAreMembers(t) && g in t.groups && t.groups[g].org == org
    ensures PrimariesAreMembers(ChoosePrimary(t, g, primary, org)) <==> Eligible(t, g, primary, org)
  {
    var t' := ChoosePrimary(t, g, primary, org);
    assert t'.groups[g].primary == primary;
    if Eligible(t, g, primary, org) {
      forall h | h in t'.groups && t'.groups[h].primary.Some? ensures Belongs(t', h, t'.groups[h].primary.value) {
        if h != g {
          assert Belongs(t, h, t.groups[h].primary.value);
        }
      }
    } else {
      assert PrimariesAreMembers(t') ==> Belongs(t', g, primary.value);
    }
  }

  predicate IsPrimary(t: Tables, c: ClientId) {
    exists g :: g in t.groups && t.groups[g].primary == Some(c)
  }

  /** A write to the client alone keeps the rule exactly when the client stays a live member of its group or is
      no group's primary. */
  lemma EditKeepsPrimaries(t: Tables, c: ClientId, edited: Client)
    requires PrimariesAreMembers(t) && c in t.clients && edited.org == t.clients[c].org
    ensures PrimariesAreMembers(EditClient(t, c, edited))
            <==> (!edited.deleted && edited.group == t.clients[c].group) || !IsPrimary(t, c)
  {
    var t' := EditClient(t, c, edited);
    if (!edited.deleted && edited.group == t.clients[c].group) || !IsPrimary(t, c) {
      forall g | g in t'.groups && t'.groups[g].primary.Some? ensures Belongs(t', g, t'.groups[g].primary.value) {
        assert Belongs(t, g, t.groups[g].primary.value);
      }
    } else {
      var g :| g in t.groups && t.groups[g].primary == Some(c);
      assert Belongs(t, g, c);
      assert !Belongs(t', g, c);
    }
  }

  datatype Step =
    | Add(g: GroupId, clientIds: seq<int>, org: OrgId)
    | Remove(g: GroupId, c: ClientId, org: OrgId)
    | Choose(g: GroupId, primary: Option<ClientId>, org: OrgId)
    | Move(c: ClientId, group: Option<GroupId>, org: OrgId)
    | Delete(c: ClientId, org: OrgId)
    | Restore(c: ClientId, org: OrgId)

  function Do(t: Tables, step: Step): Tables {
    match step
    case Add(g, clientIds, org) => AddMembers(t, g, Wanted(clientIds), org)
    case Remove(g, c, org) => RemoveMember(t, g, c, org)
    case Choose(g, primary, org) => ChoosePrimary(t, g, primary, org)
    case Move(c, group, org) => Regroup(t, c, group, org)
    case Delete(c, org) => Archive(t, c, org)
    case Restore(c, org) => Unarchive(t, c, org)
  }

  /** What a caller can check before a step. */
  predicate Sound(t: Tables, step: Step) {
    match step
    case Choose(g, primary, org) => g in t.groups && t.groups[g].org == org ==> Eligible(t, g, primary, org)
    case Move(c, group, org) => LiveClient(t, c, org) && t.clients[c].group != group ==> !IsPrimary(t, c)
    case Delete(c, org) => LiveClient(t, c, org) ==> !IsPrimary(t, c)
    case _ => true
  }

  /** A step keeps every primary a live member of its group exactly when it is sound: adding, removing and
      restoring always do; a choice must be eligible; and a client that is some group's primary may be neither
      deleted nor moved by its own form. */
  lemma StepKeepsPrimaries(t: Tables, step: Step)
    requires PrimariesAreMembers(t)
    ensures PrimariesAreMembers(Do(t, step)) <==> Sound(t, step)
  {
    hide PrimariesAreMembers, AddMembers, RemoveMember, ChoosePrimary, Eligible;
    match step {
      case Add(g, clientIds, org) => AddKeepsPrimaries(t, g, Wanted(clientIds), org);
      case Remove(g, c, org) => RemoveKeepsPrimaries(t, g, c, org);
      case Choose(g, primary, org) =>
        if g in t.groups && t.groups[g].org == org {
          ChoiceKeepsPrimaries(t, g, primary, org);
        } else {
          ChoiceElsewhere(t, g, primary, org);
        }
      case Move(c, group, org) =>
        if LiveClient(t, c, org) {
          EditKeepsPrimaries(t, c, t.clients[c].(group := group));
        }
      case Delete(c, org) =>
        if LiveClient(t, c, org) {
          EditKeepsPrimaries(t, c, t.clients[c].(deleted := true));
        }
      case Restore(c, org) =>
        if c in t.clients {
          EditKeepsPrimaries(t, c, t.clients[c].(deleted := false));
        }
    }
  }

  lemma ChoiceElsewhere(t: Tables, g: GroupId, primary: Option<ClientId>, org: OrgId)
    requires !(g in t.groups && t.groups[g].org == org)
    ensures ChoosePrimary(t, g, primary, org) == t
  {
  }

  function After(t: Tables, steps: seq<Step>): Tables
    decreases |steps|
  {
    if steps == [] then t else After(Do(t, steps[0]), steps[1..])
  }

  /** The rule holds after every step of the run. */
  predicate AlwaysMembers(t: Tables, steps: seq<Step>)
    decreases |steps|
  {
    PrimariesAreMembers(t) && (steps == [] || AlwaysMembers(Do(t, steps[0]), steps[1..]))
  }

  predicate AllSound(t: Tables, steps: seq<Step>)
    decreases |steps|
  {
    steps == [] || (Sound(t, steps[0]) && AllSound(Do(t, steps[0]), steps[1..]))
  }

  /** All along a run each group's primary is a live member if and only if every step is sound where it is
      taken. */
  lemma {:induction false} RunKeepsPrimaries(t: Tables, steps: seq<Step>)
    requires PrimariesAreMembers(t)
    ensures AlwaysMembers(t, steps) <==> AllSound(t, steps)
    decreases |steps|
  {
    if steps != [] {
      StepKeepsPrimaries(t, steps[0]);
      if Sound(t, steps[0]) {
        RunKeepsPrimaries(Do(t, steps[0]), steps[1..]);
      }
    }
  }

  // ---------------------------------------------------------------------------
  // Each client and each group
  // ---------------------------------------------------------------------------

  /** Adding clients moves exactly the live ones of the organization that are named, and clears exactly the
      primaries among the named in its other groups. */
  lemma AddExact(t: Tables, g: GroupId, clientIds: seq<int>, org: OrgId)
    ensures var t' := AddMembers(t, g, Wanted(clientIds), org);
            && t'.clients.Keys == t.clients.Keys && t'.groups.Keys == t.groups.Keys
            && (forall c <- t.clients ::
                  var before := t.clients[c];
                  t'.clients[c] == if c > 0 && c in clientIds && before.org == org && !before.deleted then before.(group := Some(g)) else before)
            && forall h <- t.groups ::
                  var before := t.groups[h];
                  t'.groups[h] == if before.org == org && h != g && before.primary.Some? && before.primary.value > 0 && before.primary.value in clientIds
                                  then before.(primary := None) else before
  {
    assert forall c: ClientId :: c in Wanted(clientIds) <==> c > 0 && c in clientIds;
  }

  /** Removing changes the client, and its group's primary when it was that client; anything else stays. */
  lemma RemoveExact(t: Tables, g: GroupId, c: ClientId, org: OrgId)
    ensures var t' := RemoveMember(t, g, c, org);
            && t'.clients.Keys == t.clients.Keys && t'.groups.Keys == t.groups.Keys
            && (forall d <- t.clients ::
                  var before := t.clients[d];
                  t'.clients[d] == if d == c && before.group == Some(g) && before.org == org && !before.deleted then before.(group := None) else before)
            && (c in t.clients && t.clients[c].group == Some(g) && t.clients[c].org == org && !t.clients[c].deleted ==>
                  forall h <- t.groups :: t'.groups[h] == if h == g && t.groups[h].org == org && t.groups[h].primary == Some(c)
                                                          then t.groups[h].(primary := None) else t.groups[h])
            && (!(c in t.clients && t.clients[c].group == Some(g) && t.clients[c].org == org && !t.clients[c].deleted) ==> t'.groups == t.groups)
  {
  }
}
