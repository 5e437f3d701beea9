/**
  Client merge of src/models/Client.js: one transaction over the tables that hang off a client.
  `Tables` is the database as a value; class `ClientStore` runs the statements in place and rolls
  back, proved equal to `Merged`.  Rows keep their position in a table.
*/
module ClientMerge {
  import opened Wrappers

  type ClientId = nat
  type OrgId = nat

  datatype ClientRow = ClientRow(org: Option<OrgId>, deleted: bool)

  /** A row of one of the ten reassigned tables; everything but its owner is opaque. */
  datatype OwnedRow = OwnedRow(client: ClientId, content: string)

  datatype FieldRow = FieldRow(client: ClientId, key: string, content: string, deleted: bool)

  datatype FileRow = FileRow(entityType: string, entity: nat, content: string)

  datatype Channel = Email | Sms | Whatsapp | All

  datatype DndRow = DndRow(org: Option<OrgId>, client: ClientId, channel: Channel, optOut: bool,
                           quietStart: Option<string>, quietEnd: Option<string>, reason: Option<string>)

  /** `channel` is communication_channel, which may be NULL and is never 'all'. */
  datatype ConsentRow = ConsentRow(org: Option<OrgId>, client: ClientId, purpose: string, channel: Option<Channel>, withdrawn: bool)

  const REASSIGNED: seq<string> := [
    "contracts", "invoices", "payments", "tickets", "contacts", "quotes",
    "credit_notes", "client_balance_ledger", "speed_tests", "ip_assignments"]

  datatype Tables = Tables(
    clients: map<ClientId, ClientRow>,
    owned: map<string, seq<OwnedRow>>,
    fields: seq<FieldRow>,
    files: seq<FileRow>,
    dnd: seq<DndRow>,
    consents: seq<ConsentRow>)

  datatype MergeError = SelfMerge | SourceNotFound | TargetNotFound | DatabaseError

  type Moved = map<string, nat>

  // ---------------------------------------------------------------------------
  // The statements
  // ---------------------------------------------------------------------------

  /** A row the locking SELECT returns. */
  predicate Live(clients: map<ClientId, ClientRow>, id: ClientId, org: Option<OrgId>) {
    id in clients && clients[id].org == org && !clients[id].deleted
  }

  function Reassigned(rows: seq<OwnedRow>, source: ClientId, target: ClientId): (r: seq<OwnedRow>)
    ensures |r| == |rows|
  {
    seq(|rows|, i requires 0 <= i < |rows| => if rows[i].client == source then rows[i].(client := target) else rows[i])
  }

  function CountOwned(rows: seq<OwnedRow>, client: ClientId): nat {
    if rows == [] then 0
    else CountOwned(rows[..|rows| - 1], client) + if rows[|rows| - 1].client == client then 1 else 0
  }

  /** The join finds a live field of the target with this key. */
  predicate HasLiveKey(fields: seq<FieldRow>, client: ClientId, key: string) {
    exists f <- fields :: f.client == client && f.key == key && !f.deleted
  }

  predicate FieldMoves(fields: seq<FieldRow>, source: ClientId, target: ClientId, f: FieldRow) {
    f.client == source && !f.deleted && !HasLiveKey(fields, target, f.key)
  }

  function MovedFields(fields: seq<FieldRow>, source: ClientId, target: ClientId): (r: seq<FieldRow>)
    ensures |r| == |fields|
  {
    seq(|fields|, i requires 0 <= i < |fields| =>
      if FieldMoves(fields, source, target, fields[i]) then fields[i].(client := target) else fields[i])
  }

  /** Affected rows of the custom-field UPDATE among the first n rows. */
  function CountFields(fields: seq<FieldRow>, source: ClientId, target: ClientId, n: nat): nat
    requires n <= |fields|
  {
    if n == 0 then 0
    else CountFields(fields, source, target, n - 1) + if FieldMoves(fields, source, target, fields[n - 1]) then 1 else 0
  }

  predicate ClientFile(f: FileRow, client: ClientId) {
    f.entityType == "client" && f.entity == client
  }

  function MovedFiles(files: seq<FileRow>, source: ClientId, target: ClientId): (r: seq<FileRow>)
    ensures |r| == |files|
  {
    seq(|files|, i requires 0 <= i < |files| => if ClientFile(files[i], source) then files[i].(entity := target) else files[i])
  }

  function CountFiles(files: seq<FileRow>, client: ClientId): nat {
    if files == [] then 0
    else CountFiles(files[..|files| - 1], client) + if ClientFile(files[|files| - 1], client) then 1 else 0
  }

  function Coalesce(a: Option<string>, b: Option<string>): Option<string> {
    if a.Some? then a else b
  }

  const MERGE_REASON := "Preserved when a duplicate client was merged"

  /** INSERT ... ON DUPLICATE KEY UPDATE of one preserved opt-out; the key is (client, channel). */
  function Preserve(dnd: seq<DndRow>, org: Option<OrgId>, target: ClientId, row: DndRow): seq<DndRow> {
    if exists i :: 0 <= i < |dnd| && dnd[i].client == target && dnd[i].channel == row.channel then
      seq(|dnd|, i requires 0 <= i < |dnd| =>
        if dnd[i].client == target && dnd[i].channel == row.channel then
          dnd[i].(org := org, optOut := true,
                  quietStart := Coalesce(dnd[i].quietStart, row.quietStart),
                  quietEnd := Coalesce(dnd[i].quietEnd, row.quietEnd),
                  reason := Some(MERGE_REASON))
        else dnd[i])
    else
      dnd + [DndRow(org, target, row.channel, true, row.quietStart, row.quietEnd, Some(MERGE_REASON))]
  }

  predicate OptOutOf(row: DndRow, org: Option<OrgId>, client: ClientId) {
    row.client == client && row.org == org && row.optOut
  }

  /** The INSERT ... SELECT: every effective opt-out among the first n selected rows. */
  function PreserveAll(dnd: seq<DndRow>, selected: seq<DndRow>, org: Option<OrgId>, source: ClientId, target: ClientId, n: nat): seq<DndRow>
    requires n <= |selected|
  {
    if n == 0 then dnd
    else
      var before := PreserveAll(dnd, selected, org, source, target, n - 1);
      if OptOutOf(selected[n - 1], org, source) then Preserve(before, org, target, selected[n - 1]) else before
  }

  /** dnd.channel IN ('all', consent.communication_channel); a NULL channel matches 'all' only. */
  predicate Covers(dndChannel: Channel, channel: Option<Channel>) {
    dndChannel == All || (channel.Some? && dndChannel == channel.value)
  }

  /** A client is opted out of a channel within an organization. */
  predicate Vetoed(dnd: seq<DndRow>, org: Option<OrgId>, client: ClientId, channel: Option<Channel>) {
    exists row <- dnd :: OptOutOf(row, org, client) && Covers(row.channel, channel)
  }

  /** A marketing consent of the organization that is still in force. */
  predicate LiveMarketing(c: ConsentRow, org: Option<OrgId>) {
    c.org == org && c.purpose == "marketing" && !c.withdrawn
  }

  predicate Withdraws(dnd: seq<DndRow>, org: Option<OrgId>, source: ClientId, target: ClientId, c: ConsentRow) {
    LiveMarketing(c, org) && (c.client == source || (c.client == target && Vetoed(dnd, org, target, c.channel)))
  }

  function WithdrawnConsents(consents: seq<ConsentRow>, dnd: seq<DndRow>, org: Option<OrgId>, source: ClientId, target: ClientId): (r: seq<ConsentRow>)
    ensures |r| == |consents|
  {
    seq(|consents|, i requires 0 <= i < |consents| =>
      if Withdraws(dnd, org, source, target, consents[i]) then consents[i].(withdrawn := true) else consents[i])
  }

  // ---------------------------------------------------------------------------
  // The transaction
  // ---------------------------------------------------------------------------

  predicate Mergeable(t: Tables, source: ClientId, target: ClientId, org: Option<OrgId>) {
    source != target && Live(t.clients, source, org) && Live(t.clients, target, org)
  }

  /** A client of the organization that is not deleted. */
  predicate OfOrg(clients: map<ClientId, ClientRow>, id: ClientId, org: Option<OrgId>) {
    id in clients && clients[id] == ClientRow(org, false)
  }

  /** The list of tables to reassign is a list of existing tables without repetition. */
  predicate HasTables(t: Tables, tables: seq<string>) {
    && (forall name <- tables :: name in t.owned)
    && forall i, j :: 0 <= i < j < |tables| ==> tables[i] != tables[j]
  }

  function ReassignedTables(owned: map<string, seq<OwnedRow>>, tables: seq<string>, source: ClientId, target: ClientId): map<string, seq<OwnedRow>> {
    map name | name in owned :: if name in tables then Reassigned(owned[name], source, target) else owned[name]
  }

  /** All tables after a committed merge. */
  function Merged(t: Tables, tables: seq<string>, source: ClientId, target: ClientId, org: Option<OrgId>): Tables
    requires Mergeable(t, source, target, org)
  {
    var dnd := PreserveAll(t.dnd, t.dnd, org, source, target, |t.dnd|);
    Tables(
      t.clients[source := t.clients[source].(deleted := true)],
      ReassignedTables(t.owned, tables, source, target),
      MovedFields(t.fields, source, target),
      MovedFiles(t.files, source, target),
      dnd,
      WithdrawnConsents(t.consents, dnd, org, source, target))
  }

  /** Adds a count to the report unless it is zero. */
  function Report(moved: Moved, name: string, n: nat): Moved {
    if n > 0 then moved[name := n] else moved
  }

  /** The report after the first n reassigned tables. */
  function MovedTables(owned: map<string, seq<OwnedRow>>, tables: seq<string>, source: ClientId, n: nat): Moved
    requires n <= |tables| && forall name <- tables :: name in owned
  {
    if n == 0 then map[]
    else Report(MovedTables(owned, tables, source, n - 1), tables[n - 1], CountOwned(owned[tables[n - 1]], source))
  }

  function MovedReport(t: Tables, tables: seq<string>, source: ClientId, target: ClientId): Moved
    requires HasTables(t, tables)
  {
    Report(
      Report(MovedTables(t.owned, tables, source, |tables|), "client_custom_fields", CountFields(t.fields, source, target, |t.fields|)),
      "files", CountFiles(t.files, source))
  }

  class ClientStore {
    var clients: map<ClientId, ClientRow>
    var owned: map<string, seq<OwnedRow>>
    var fields: seq<FieldRow>
    var files: seq<FileRow>
    var dnd: seq<DndRow>
    var consents: seq<ConsentRow>

    constructor (t: Tables)
      ensures State() == t
    {
      clients, owned, fields, files, dnd, consents := t.clients, t.owned, t.fields, t.files, t.dnd, t.consents;
    }

    function State(): Tables
      reads this
    {
      Tables(clients, owned, fields, files, dnd, consents)
    }

    /** UPDATE table SET client_id = target WHERE client_id = source. */
    method UpdateOwner(name: string, source: ClientId, target: ClientId) returns (affected: nat)
      requires name in owned
      modifies this`owned
      ensures owned == old(owned)[name := Reassigned(old(owned[name]), source, target)]
      ensures affected == CountOwned(old(owned[name]), source)
    {
      var rows := owned[name];
      affected := 0;
      var updated: seq<OwnedRow> := [];
      for i := 0 to |rows|
        invariant affected == CountOwned(rows[..i], source)
        invariant updated == Reassigned(rows[..i], source, target)
        invariant owned == old(owned)
      {
        assert rows[..i + 1][..i] == rows[..i];
        if rows[i].client == source {
          updated := updated + [rows[i].(client := target)];
          affected := affected + 1;
        } else {
          updated := updated + [rows[i]];
        }
      }
      assert rows[..|rows|] == rows;
      owned := owned[name := updated];
    }

    method MoveFields(source: ClientId, target: ClientId) returns (affected: nat)
      modifies this`fields
      ensures fields == MovedFields(old(fields), source, target)
      ensures affected == CountFields(old(fields), source, target, |old(fields)|)
    {
      var rows := fields;
      affected := 0;
      for i := 0 to |rows|
        invariant affected == CountFields(rows, source, target, i)
      {
        if FieldMoves(rows, source, target, rows[i]) {
          affected := affected + 1;
        }
      }
      fields := MovedFields(rows, source, target);
    }

    method MoveFiles(source: ClientId, target: ClientId) returns (affected: nat)
      modifies this`files
      ensures files == MovedFiles(old(files), source, target)
      ensures affected == CountFiles(old(files), source)
    {
      var rows := files;
      affected := 0;
      for i := 0 to |rows|
        invariant affected == CountFiles(rows[..i], source)
      {
        assert rows[..i + 1][..i] == rows[..i];
        if ClientFile(rows[i], source) {
          affected := affected + 1;
        }
      }
      assert rows[..|rows|] == rows;
      files := MovedFiles(rows, source, target);
    }

    method PreserveOptOuts(source: ClientId, target: ClientId, org: Option<OrgId>)
      modifies this`dnd
      ensures dnd == PreserveAll(old(dnd), old(dnd), org, source, target, |old(dnd)|)
    {
      var selected := dnd;
      for i := 0 to |selected|
        invariant dnd == PreserveAll(old(dnd), selected, org, source, target, i)
      {
        if OptOutOf(selected[i], org, source) {
          dnd := Preserve(dnd, org, target, selected[i]);
        }
      }
    }

    /** The loop over the tables; statement `fault` throws. */
    method ReassignTables(tables: seq<string>, source: ClientId, target: ClientId, fault: nat) returns (moved: Moved, ok: bool)
      requires HasTables(State(), tables)
      modifies this`owned
      ensures ok <==> !(1 <= fault <= |tables|)
      ensures ok ==> moved == MovedTables(old(owned), tables, source, |tables|)
      ensures ok ==> owned == ReassignedTables(old(owned), tables, source, target)
    {
      hide ReassignedTables, Reassigned, CountOwned, Report;
      moved := map[];
      ghost var before := owned;
      NoneReassigned(before, source, target);
      assert tables[..0] == [];
      for i := 0 to |tables|
        invariant !(1 <= fault <= i)
        invariant owned == ReassignedTables(before, tables[..i], source, target)
        invariant moved == MovedTables(before, tables, source, i)
      {
        if fault == i + 1 {
          return moved, false;
        }
        var table := tables[i];
        ReassignNext(before, tables, i, source, target);
        var n := UpdateOwner(table, source, target);
        moved := Report(moved, table, n);
      }
      assert tables[..|tables|] == tables;
      ok := true;
    }

    /** The statements on custom fields and files, which also report what they moved. */
    method MoveAttachments(source: ClientId, target: ClientId, moved0: Moved, fault: nat) returns (moved: Moved, ok: bool)
      modifies this`fields, this`files
      ensures fault == 0 ==> ok
      ensures ok ==> fields == MovedFields(old(fields), source, target) && files == MovedFiles(old(files), source, target)
      ensures ok ==> moved == Report(Report(moved0, "client_custom_fields", CountFields(old(fields), source, target, |old(fields)|)),
                                     "files", CountFiles(old(files), source))
    {
      moved, ok := moved0, false;
      if fault == 1 { return; }
      var cf := MoveFields(source, target);
      if cf > 0 { moved := moved["client_custom_fields" := cf]; }
      if fault == 2 { return; }
      var fs := MoveFiles(source, target);
      if fs > 0 { moved := moved["files" := fs]; }
      ok := true;
    }

    /** The statements on opt-outs, consents and the source client, then commit. */
    method Settle(source: ClientId, target: ClientId, org: Option<OrgId>, fault: nat) returns (ok: bool)
      requires source in clients
      modifies this`dnd, this`consents, this`clients
      ensures fault == 0 ==> ok
      ensures ok ==> dnd == PreserveAll(old(dnd), old(dnd), org, source, target, |old(dnd)|)
                     && consents == WithdrawnConsents(old(consents), dnd, org, source, target)
                     && clients == old(clients)[source := old(clients)[source].(deleted := true)]
    {
      ok := false;
      if fault == 3 { return; }
      PreserveOptOuts(source, target, org);
      if fault == 4 { return; }
      consents := WithdrawnConsents(consents, dnd, org, source, target);
      if fault == 5 { return; }
      clients := clients[source := clients[source].(deleted := true)];
      ok := fault != 6;
    }

    /** Body of the try block after beginTransaction; `fault` numbers the statement that throws. */
    method MergeStatements(tables: seq<string>, source: ClientId, target: ClientId, org: Option<OrgId>, fault: nat)
      returns (r: Result<Moved, MergeError>)
      requires source != target && HasTables(State(), tables)
      modifies this
      ensures r.Success? ==> Mergeable(old(State()), source, target, org)
                             && State() == Merged(old(State()), tables, source, target, org)
                             && r.value == MovedReport(old(State()), tables, source, target)
      ensures fault == 0 && Mergeable(old(State()), source, target, org) ==> r.Success?
      ensures !Live(old(clients), source, org) ==> r == Failure(SourceNotFound)
      ensures Live(old(clients), source, org) && !Live(old(clients), target, org) ==> r == Failure(TargetNotFound)
    {
      if !Live(clients, source, org) { return Failure(SourceNotFound); }
      if !Live(clients, target, org) { return Failure(TargetNotFound); }
      var moved, ok := ReassignTables(tables, source, target, fault);
      if !ok { return Failure(DatabaseError); }
      var later := if fault == 0 then 0 else fault - |tables|;
      moved, ok := MoveAttachments(source, target, moved, later);
      if !ok { return Failure(DatabaseError); }
      ok := Settle(source, target, org, later);
      if !ok { return Failure(DatabaseError); }
      r := Success(moved);
    }

    /** All or nothing: a merge commits as `Merged`, or throws and every table is as it was. */
    method Merge(source: ClientId, target: ClientId, org: Option<OrgId>, fault: nat) returns (r: Result<Moved, MergeError>)
      requires HasTables(State(), REASSIGNED)
      modifies this
      ensures r.Success? ==> Mergeable(old(State()), source, target, org)
                             && State() == Merged(old(State()), REASSIGNED, source, target, org)
                             && r.value == MovedReport(old(State()), REASSIGNED, source, target)
      ensures r.Failure? ==> State() == old(State())
      ensures fault == 0 ==> (r.Success? <==> Mergeable(old(State()), source, target, org))
      ensures r.Success? ==> source != target && OfOrg(old(clients), source, org) && OfOrg(old(clients), target, org)
      ensures fault == 0 && source != target && OfOrg(old(clients), source, org) && OfOrg(old(clients), target, org) ==> r.Success?
      ensures source == target ==> r == Failure(SelfMerge)
    {
      if source == target {
        return Failure(SelfMerge);
      }
      var begun := State();
      r := MergeStatements(REASSIGNED, source, target, org, fault);
      if r.Failure? {
        clients, owned, fields, files, dnd, consents := begun.clients, begun.owned, begun.fields, begun.files, begun.dnd, begun.consents;
      }
    }
  }

  lemma ReassignStep(owned: map<string, seq<OwnedRow>>, tables: seq<string>, table: string, source: ClientId, target: ClientId)
    requires table in owned && table !in tables
    ensures ReassignedTables(owned, tables + [table], source, target)
            == ReassignedTables(owned, tables, source, target)[table := Reassigned(owned[table], source, target)]
    ensures ReassignedTables(owned, tables, source, target)[table] == owned[table]
  {
  }

  lemma NoneReassigned(owned: map<string, seq<OwnedRow>>, source: ClientId, target: ClientId)
    ensures ReassignedTables(owned, [], source, target) == owned
  {
  }

  lemma ReassignNext(owned: map<string, seq<OwnedRow>>, tables: seq<string>, i: nat, source: ClientId, target: ClientId)
    requires i < |tables| && forall name <- tables :: name in owned
    requires forall j, k :: 0 <= j < k < |tables| ==> tables[j] != tables[k]
    ensures tables[i] in ReassignedTables(owned, tables[..i], source, target)
    ensures ReassignedTables(owned, tables[..i], source, target)[tables[i]] == owned[tables[i]]
    ensures ReassignedTables(owned, tables[..i + 1], source, target)
            == ReassignedTables(owned, tables[..i], source, target)[tables[i] := Reassigned(owned[tables[i]], source, target)]
  {
    ReassignStep(owned, tables[..i], tables[i], source, target);
    assert tables[..i + 1] == tables[..i] + [tables[i]];
  }
}
