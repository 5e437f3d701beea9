/** What one merge and any chain of merges of an organization keep (src/models/Client.js). */
module MergeChains {
  import opened Wrappers
  import opened ClientMerge

  // ---------------------------------------------------------------------------
  // Conservation
  // ---------------------------------------------------------------------------

  /** No row appears, disappears or changes but for its owner; the source ends with none and the
      target with both shares. */
  lemma {:induction false} OwnershipMoves(rows: seq<OwnedRow>, source: ClientId, target: ClientId, client: ClientId)
    requires source != target
    ensures var after := Reassigned(rows, source, target);
            && |after| == |rows|
            && (forall i :: 0 <= i < |rows| ==> after[i].content == rows[i].content)
            && CountOwned(after, client) ==
                 (if client == source then 0
                  else if client == target then CountOwned(rows, target) + CountOwned(rows, source)
                  else CountOwned(rows, client))
  {
    if rows != [] {
      var front := rows[..|rows| - 1];
      OwnershipMoves(front, source, target, client);
      var after := Reassigned(rows, source, target);
      assert after[..|after| - 1] == Reassigned(front, source, target);
    }
  }

  lemma {:induction false} MovedTablesExact(owned: map<string, seq<OwnedRow>>, tables: seq<string>, source: ClientId, n: nat, name: string)
    requires n <= |tables| && forall table <- tables :: table in owned
    requires forall i, j :: 0 <= i < j < |tables| ==> tables[i] != tables[j]
    ensures var moved := MovedTables(owned, tables, source, n);
            && (name in moved <==> name in tables[..n] && CountOwned(owned[name], source) > 0)
            && (name in moved ==> moved[name] == CountOwned(owned[name], source))
  {
    if n > 0 {
      MovedTablesExact(owned, tables, source, n - 1, name);
      assert tables[..n] == tables[..n - 1] + [tables[n - 1]];
    }
  }

  /** The report names exactly the tables that lost rows of the source, each with how many. */
  lemma ReportExact(t: Tables, tables: seq<string>, source: ClientId, target: ClientId, name: string)
    requires HasTables(t, tables) && "client_custom_fields" !in tables && "files" !in tables
    requires name in tables
    ensures var moved := MovedReport(t, tables, source, target);
            && (name in moved <==> CountOwned(t.owned[name], source) > 0)
            && (name in moved ==> moved[name] == CountOwned(t.owned[name], source))
  {
    MovedTablesExact(t.owned, tables, source, |tables|, name);
    assert tables[..|tables|] == tables;
  }

  /** Number of positions at which two states of a table differ. */
  function Changes<T(==)>(before: seq<T>, after: seq<T>): nat
    requires |before| == |after|
  {
    if before == [] then 0
    else
      var last := |before| - 1;
      Changes(before[..last], after[..last]) + if before[last] == after[last] then 0 else 1
  }

  lemma {:induction false} FieldsCounted(fields: seq<FieldRow>, source: ClientId, target: ClientId, n: nat)
    requires source != target && n <= |fields|
    ensures CountFields(fields, source, target, n) == Changes(fields[..n], MovedFields(fields, source, target)[..n])
  {
    if n > 0 {
      FieldsCounted(fields, source, target, n - 1);
      var after := MovedFields(fields, source, target);
      assert fields[..n][..n - 1] == fields[..n - 1] && after[..n][..n - 1] == after[..n - 1];
      assert after[n - 1] == fields[n - 1] <==> !FieldMoves(fields, source, target, fields[n - 1]);
    }
  }

  lemma {:induction false} FilesCounted(files: seq<FileRow>, source: ClientId, target: ClientId)
    requires source != target
    ensures CountFiles(files, source) == Changes(files, MovedFiles(files, source, target))
  {
    if files != [] {
      var front := files[..|files| - 1];
      FilesCounted(front, source, target);
      assert MovedFiles(files, source, target)[..|front|] == MovedFiles(front, source, target);
    }
  }

  /** The same for custom fields and files: each is reported exactly when some row changed hands, with the
      number of rows that did. */
  lemma AttachmentReportExact(t: Tables, tables: seq<string>, source: ClientId, target: ClientId)
    requires HasTables(t, tables) && "client_custom_fields" !in tables && "files" !in tables && source != target
    ensures var moved := MovedReport(t, tables, source, target);
            var fields := Changes(t.fields, MovedFields(t.fields, source, target));
            var files := Changes(t.files, MovedFiles(t.files, source, target));
            && ("client_custom_fields" in moved <==> fields > 0)
            && ("client_custom_fields" in moved ==> moved["client_custom_fields"] == fields)
            && ("files" in moved <==> files > 0)
            && ("files" in moved ==> moved["files"] == files)
  {
    MovedTablesExact(t.owned, tables, source, |tables|, "client_custom_fields");
    MovedTablesExact(t.owned, tables, source, |tables|, "files");
    assert tables[..|tables|] == tables;
    FieldsCounted(t.fields, source, target, |t.fields|);
    var after := MovedFields(t.fields, source, target);
    assert t.fields[..|t.fields|] == t.fields && after[..|after|] == after;
    FilesCounted(t.files, source, target);
  }

  // ---------------------------------------------------------------------------
  // Custom fields
  // ---------------------------------------------------------------------------

  /** The unique key (client_id, field_key) of live custom fields. */
  predicate UniqueLive(fields: seq<FieldRow>) {
    forall i, j :: 0 <= i < j < |fields| && !fields[i].deleted && !fields[j].deleted
      ==> fields[i].client != fields[j].client || fields[i].key != fields[j].key
  }

  /** The unique key survives, a key the target already has keeps the target's value and stays with the
      source as it was, and every other live key of the source is the target's afterwards. */
  lemma FieldsMerge(fields: seq<FieldRow>, source: ClientId, target: ClientId, i: nat)
    requires source != target && UniqueLive(fields) && i < |fields|
    ensures var after := MovedFields(fields, source, target);
            && UniqueLive(after)
            && after[i].(client := fields[i].client) == fields[i]
            && (fields[i].client != source || fields[i].deleted ==> after[i] == fields[i])
            && (fields[i].client == source && !fields[i].deleted ==>
                  after[i].client == if HasLiveKey(fields, target, fields[i].key) then source else target)
  {
    var after := MovedFields(fields, source, target);
    forall j, k | 0 <= j < k < |after| && !after[j].deleted && !after[k].deleted && after[j].client == after[k].client
      ensures after[j].key != after[k].key
    {
      assert !fields[j].deleted && !fields[k].deleted;
      if FieldMoves(fields, source, target, fields[j]) && !FieldMoves(fields, source, target, fields[k]) {
        assert fields[k] in fields;
      }
      if FieldMoves(fields, source, target, fields[k]) && !FieldMoves(fields, source, target, fields[j]) {
        assert fields[j] in fields;
      }
    }
  }

  // ---------------------------------------------------------------------------
  // Opt-outs
  // ---------------------------------------------------------------------------

  lemma PreserveVeto(dnd: seq<DndRow>, org: Option<OrgId>, target: ClientId, row: DndRow, channel: Option<Channel>)
    ensures Vetoed(Preserve(dnd, org, target, row), org, target, channel)
            <==> Vetoed(dnd, org, target, channel) || Covers(row.channel, channel)
  {
    var after := Preserve(dnd, org, target, row);
    if r :| r in dnd && OptOutOf(r, org, target) && Covers(r.channel, channel) {
      var i :| 0 <= i < |dnd| && dnd[i] == r;
      assert after[i] in after && OptOutOf(after[i], org, target) && Covers(after[i].channel, channel);
    }
    if Covers(row.channel, channel) {
      if i :| 0 <= i < |dnd| && dnd[i].client == target && dnd[i].channel == row.channel {
        assert after[i] in after && OptOutOf(after[i], org, target);
      } else {
        assert after[|dnd|] in after && OptOutOf(after[|dnd|], org, target);
      }
    }
    if r :| r in after && OptOutOf(r, org, target) && Covers(r.channel, channel) {
      var i :| 0 <= i < |after| && after[i] == r;
      if !Covers(row.channel, channel) {
        assert r == dnd[i];
      }
    }
  }

  lemma PreserveOthers(dnd: seq<DndRow>, org: Option<OrgId>, target: ClientId, row: DndRow,
                       org': Option<OrgId>, client: ClientId, channel: Option<Channel>)
    requires client != target
    ensures Vetoed(Preserve(dnd, org, target, row), org', client, channel) <==> Vetoed(dnd, org', client, channel)
  {
    var after := Preserve(dnd, org, target, row);
    if r :| r in dnd && OptOutOf(r, org', client) && Covers(r.channel, channel) {
      var i :| 0 <= i < |dnd| && dnd[i] == r;
      assert after[i] == r;
    }
    if r :| r in after && OptOutOf(r, org', client) && Covers(r.channel, channel) {
      var i :| 0 <= i < |after| && after[i] == r;
      assert dnd[i] == r;
    }
  }

  /** An effective opt-out of the source among the first n selected rows. */
  predicate Selected(selected: seq<DndRow>, org: Option<OrgId>, source: ClientId, channel: Option<Channel>, n: nat)
    requires n <= |selected|
  {
    exists i :: 0 <= i < n && OptOutOf(selected[i], org, source) && Covers(selected[i].channel, channel)
  }

  lemma {:induction false} PreserveAllVeto(dnd: seq<DndRow>, selected: seq<DndRow>, org: Option<OrgId>, source: ClientId,
                                           target: ClientId, n: nat, channel: Option<Channel>)
    requires n <= |selected|
    ensures Vetoed(PreserveAll(dnd, selected, org, source, target, n), org, target, channel)
            <==> Vetoed(dnd, org, target, channel) || Selected(selected, org, source, channel, n)
  {
    if n > 0 {
      PreserveAllVeto(dnd, selected, org, source, target, n - 1, channel);
      var before := PreserveAll(dnd, selected, org, source, target, n - 1);
      PreserveVeto(before, org, target, selected[n - 1], channel);
      if Selected(selected, org, source, channel, n) && !Selected(selected, org, source, channel, n - 1) {
        assert OptOutOf(selected[n - 1], org, source) && Covers(selected[n - 1].channel, channel);
      }
    }
  }

  lemma {:induction false} PreserveAllOthers(dnd: seq<DndRow>, selected: seq<DndRow>, org: Option<OrgId>, source: ClientId,
                                             target: ClientId, n: nat, org': Option<OrgId>, client: ClientId, channel: Option<Channel>)
    requires n <= |selected| && client != target
    ensures Vetoed(PreserveAll(dnd, selected, org, source, target, n), org', client, channel) <==> Vetoed(dnd, org', client, channel)
  {
    if n > 0 {
      PreserveAllOthers(dnd, selected, org, source, target, n - 1, org', client, channel);
      PreserveOthers(PreserveAll(dnd, selected, org, source, target, n - 1), org, target, selected[n - 1], org', client, channel);
    }
  }

  /** A merge gives the target exactly the union of both clients' opt-outs and changes no other
      client's. */
  lemma VetoesUnite(t: Tables, tables: seq<string>, source: ClientId, target: ClientId, org: Option<OrgId>,
                    client: ClientId, channel: Option<Channel>)
    requires Mergeable(t, source, target, org)
    ensures Vetoed(Merged(t, tables, source, target, org).dnd, org, client, channel)
            <==> Vetoed(t.dnd, org, client, channel) || (client == target && Vetoed(t.dnd, org, source, channel))
  {
    if client == target {
      PreserveAllVeto(t.dnd, t.dnd, org, source, target, |t.dnd|, channel);
      if r :| r in t.dnd && OptOutOf(r, org, source) && Covers(r.channel, channel) {
        var i :| 0 <= i < |t.dnd| && t.dnd[i] == r;
        assert Selected(t.dnd, org, source, channel, |t.dnd|);
      }
    } else {
      PreserveAllOthers(t.dnd, t.dnd, org, source, target, |t.dnd|, org, client, channel);
    }
  }

  // ---------------------------------------------------------------------------
  // Consents
  // ---------------------------------------------------------------------------

  /** A client has no marketing consent in force on a channel it is opted out of. */
  predicate Respected(t: Tables, org: Option<OrgId>, client: ClientId) {
    forall c <- t.consents :: c.client == client && LiveMarketing(c, org) ==> !Vetoed(t.dnd, org, client, c.channel)
  }

  predicate NoMarketing(t: Tables, org: Option<OrgId>, client: ClientId) {
    forall c <- t.consents :: c.client == client ==> !LiveMarketing(c, org)
  }

  /** Consents only ever lose force. */
  predicate OnlyWithdrawn(before: seq<ConsentRow>, after: seq<ConsentRow>) {
    |after| == |before| && forall i :: 0 <= i < |before| ==>
      after[i] == before[i] || (!before[i].withdrawn && after[i] == before[i].(withdrawn := true))
  }

  /** A merge creates no consent, leaves the source none in force, and leaves the target none on a
      channel it is now opted out of. */
  lemma ConsentsSettle(t: Tables, tables: seq<string>, source: ClientId, target: ClientId, org: Option<OrgId>)
    requires Mergeable(t, source, target, org)
    ensures var after := Merged(t, tables, source, target, org);
            && OnlyWithdrawn(t.consents, after.consents)
            && NoMarketing(after, org, source)
            && Respected(after, org, target)
  {
    var after := Merged(t, tables, source, target, org);
    forall c | c in after.consents && LiveMarketing(c, org) && (c.client == source || c.client == target)
      ensures c.client == target && !Vetoed(after.dnd, org, target, c.channel)
    {
      var i :| 0 <= i < |after.consents| && after.consents[i] == c;
      assert c == t.consents[i] && !Withdraws(after.dnd, org, source, target, t.consents[i]);
    }
  }

  // ---------------------------------------------------------------------------
  // Chains of merges in one organization
  // ---------------------------------------------------------------------------

  datatype Attempt = Attempt(source: ClientId, target: ClientId)

  /** A merge request: it commits when both clients are live in the organization, else nothing changes. */
  function Try(t: Tables, tables: seq<string>, org: Option<OrgId>, a: Attempt): Tables {
    if Mergeable(t, a.source, a.target, org) then Merged(t, tables, a.source, a.target, org) else t
  }

  function TryAll(t: Tables, tables: seq<string>, org: Option<OrgId>, chain: seq<Attempt>): Tables
    decreases |chain|
  {
    if chain == [] then t else TryAll(Try(t, tables, org, chain[0]), tables, org, chain[1..])
  }

  /** The client that finally absorbed c. */
  function Absorber(t: Tables, tables: seq<string>, org: Option<OrgId>, chain: seq<Attempt>, c: ClientId): ClientId
    decreases |chain|
  {
    if chain == [] then c
    else Absorber(Try(t, tables, org, chain[0]), tables, org, chain[1..],
                  if Mergeable(t, chain[0].source, chain[0].target, org) && c == chain[0].source then chain[0].target else c)
  }

  /** A deleted client stays out of all later merges. */
  lemma {:induction false} DeletedStays(t: Tables, tables: seq<string>, org: Option<OrgId>, chain: seq<Attempt>, c: ClientId, other: ClientId)
    requires !Live(t.clients, c, org)
    ensures Absorber(t, tables, org, chain, c) == c
    ensures other != c ==> Absorber(t, tables, org, chain, other) != c
    decreases |chain|
  {
    if chain != [] {
      var a := chain[0];
      var next := Try(t, tables, org, a);
      DeletedStays(next, tables, org, chain[1..], c, if Mergeable(t, a.source, a.target, org) && other == a.source then a.target else other);
    }
  }

  /** Over any chain of merges, a client that was not itself absorbed is opted out of a channel at the
      end exactly when some client it absorbed, possibly itself, was at the start: no opt-out is ever
      lost and none is invented. */
  lemma {:induction false} OptOutsFollow(t: Tables, tables: seq<string>, org: Option<OrgId>, chain: seq<Attempt>,
                                         client: ClientId, channel: Option<Channel>)
    requires Absorber(t, tables, org, chain, client) == client
    ensures Vetoed(TryAll(t, tables, org, chain).dnd, org, client, channel)
            <==> exists c: ClientId :: Absorber(t, tables, org, chain, c) == client && Vetoed(t.dnd, org, c, channel)
    decreases |chain|
  {
    if chain != [] {
      var a := chain[0];
      var next := Try(t, tables, org, a);
      var rest := chain[1..];
      if Mergeable(t, a.source, a.target, org) {
        DeletedStays(next, tables, org, rest, a.source, a.target);
        assert client != a.source;
        OptOutsFollow(next, tables, org, rest, client, channel);
        if c :| Absorber(next, tables, org, rest, c) == client && Vetoed(next.dnd, org, c, channel) {
          VetoesUnite(t, tables, a.source, a.target, org, c, channel);
          assert c != a.source;
          if Vetoed(t.dnd, org, c, channel) {
            assert Absorber(t, tables, org, chain, c) == client;
          } else {
            assert Absorber(t, tables, org, chain, a.source) == client;
          }
        }
        if c :| Absorber(t, tables, org, chain, c) == client && Vetoed(t.dnd, org, c, channel) {
          var c' := if c == a.source then a.target else c;
          VetoesUnite(t, tables, a.source, a.target, org, c', channel);
          assert Absorber(next, tables, org, rest, c') == client && Vetoed(next.dnd, org, c', channel);
        }
      } else {
        OptOutsFollow(next, tables, org, rest, client, channel);
      }
    }
  }

  /** Every row of a reassigned table ends with whoever finally absorbed its owner. */
  lemma {:induction false} RowsFollow(t: Tables, tables: seq<string>, org: Option<OrgId>, chain: seq<Attempt>, name: string, i: nat)
    requires name in tables && name in t.owned && i < |t.owned[name]|
    ensures var after := TryAll(t, tables, org, chain).owned;
            && name in after && |after[name]| == |t.owned[name]|
            && after[name][i] == t.owned[name][i].(client := Absorber(t, tables, org, chain, t.owned[name][i].client))
    decreases |chain|
  {
    if chain != [] {
      RowsFollow(Try(t, tables, org, chain[0]), tables, org, chain[1..], name, i);
    }
  }

  /** These are all ten tables of the transaction. */
  lemma TenTablesFollow(t: Tables, org: Option<OrgId>, chain: seq<Attempt>, name: string, i: nat)
    requires name in ["contracts", "invoices", "payments", "tickets", "contacts", "quotes", "credit_notes", "client_balance_ledger",
                      "speed_tests", "ip_assignments"]
    requires name in t.owned && i < |t.owned[name]|
    ensures var after := TryAll(t, REASSIGNED, org, chain).owned;
            && name in after && |after[name]| == |t.owned[name]|
            && after[name][i] == t.owned[name][i].(client := Absorber(t, REASSIGNED, org, chain, t.owned[name][i].client))
  {
    assert name in REASSIGNED;
    RowsFollow(t, REASSIGNED, org, chain, name, i);
  }

  /** A table that is not on the list keeps its rows. */
  lemma {:induction false} OtherTablesStay(t: Tables, tables: seq<string>, org: Option<OrgId>, chain: seq<Attempt>, name: string)
    requires name !in tables && name in t.owned
    ensures name in TryAll(t, tables, org, chain).owned && TryAll(t, tables, org, chain).owned[name] == t.owned[name]
    decreases |chain|
  {
    if chain != [] {
      OtherTablesStay(Try(t, tables, org, chain[0]), tables, org, chain[1..], name);
    }
  }

  /** Every client file ends with whoever finally absorbed its client; files of other entities stay. */
  lemma {:induction false} FilesFollow(t: Tables, tables: seq<string>, org: Option<OrgId>, chain: seq<Attempt>, i: nat)
    requires i < |t.files|
    ensures var after := TryAll(t, tables, org, chain).files;
            && |after| == |t.files|
            && after[i] == if t.files[i].entityType == "client"
                           then t.files[i].(entity := Absorber(t, tables, org, chain, t.files[i].entity))
                           else t.files[i]
    decreases |chain|
  {
    if chain != [] {
      FilesFollow(Try(t, tables, org, chain[0]), tables, org, chain[1..], i);
    }
  }

  /** A chain retires exactly the clients that were absorbed, and changes nothing else about any client. */
  lemma {:induction false} OnlySourcesRetire(t: Tables, tables: seq<string>, org: Option<OrgId>, chain: seq<Attempt>, c: ClientId)
    requires c in t.clients
    ensures var after := TryAll(t, tables, org, chain).clients;
            c in after && after[c] == t.clients[c].(deleted := t.clients[c].deleted || Absorber(t, tables, org, chain, c) != c)
    decreases |chain|
  {
    if chain != [] {
      var a := chain[0];
      var next := Try(t, tables, org, a);
      OnlySourcesRetire(next, tables, org, chain[1..], c);
      if Mergeable(t, a.source, a.target, org) {
        DeletedStays(next, tables, org, chain[1..], a.source, a.target);
      }
    }
  }

  lemma NoMarketingPersists(t: Tables, tables: seq<string>, org: Option<OrgId>, a: Attempt, client: ClientId)
    requires NoMarketing(t, org, client)
    ensures NoMarketing(Try(t, tables, org, a), org, client)
  {
    if Mergeable(t, a.source, a.target, org) {
      ConsentsSettle(t, tables, a.source, a.target, org);
      var after := Merged(t, tables, a.source, a.target, org);
      forall c | c in after.consents && c.client == client ensures !LiveMarketing(c, org) {
        var i :| 0 <= i < |after.consents| && after.consents[i] == c;
        assert t.consents[i] in t.consents;
      }
    }
  }

  lemma RespectPersists(t: Tables, tables: seq<string>, org: Option<OrgId>, a: Attempt, client: ClientId)
    requires Respected(t, org, client)
    ensures Respected(Try(t, tables, org, a), org, client)
  {
    if Mergeable(t, a.source, a.target, org) && client != a.target {
      ConsentsSettle(t, tables, a.source, a.target, org);
      var after := Merged(t, tables, a.source, a.target, org);
      forall c | c in after.consents && c.client == client && LiveMarketing(c, org)
        ensures !Vetoed(after.dnd, org, client, c.channel)
      {
        var i :| 0 <= i < |after.consents| && after.consents[i] == c;
        assert t.consents[i] in t.consents;
        VetoesUnite(t, tables, a.source, a.target, org, client, c.channel);
      }
    } else if Mergeable(t, a.source, a.target, org) {
      ConsentsSettle(t, tables, a.source, a.target, org);
    }
  }

  lemma {:induction false} PersistThrough(t: Tables, tables: seq<string>, org: Option<OrgId>, chain: seq<Attempt>, client: ClientId)
    ensures NoMarketing(t, org, client) ==> NoMarketing(TryAll(t, tables, org, chain), org, client)
    ensures Respected(t, org, client) ==> Respected(TryAll(t, tables, org, chain), org, client)
    decreases |chain|
  {
    if chain != [] {
      var next := Try(t, tables, org, chain[0]);
      if NoMarketing(t, org, client) {
        NoMarketingPersists(t, tables, org, chain[0], client);
      }
      if Respected(t, org, client) {
        RespectPersists(t, tables, org, chain[0], client);
      }
      PersistThrough(next, tables, org, chain[1..], client);
    }
  }

  /** After any chain, no client retired by one of its merges has marketing permission left, and every
      survivor of one has none on a channel it is opted out of, whatever merges came in between. */
  lemma {:induction false} SurvivorsRespectOptOuts(t: Tables, tables: seq<string>, org: Option<OrgId>, chain: seq<Attempt>, k: nat)
    requires k < |chain| && Mergeable(TryAll(t, tables, org, chain[..k]), chain[k].source, chain[k].target, org)
    ensures var after := TryAll(t, tables, org, chain);
            NoMarketing(after, org, chain[k].source) && Respected(after, org, chain[k].target)
    decreases |chain|
  {
    if k == 0 {
      ConsentsSettle(t, tables, chain[0].source, chain[0].target, org);
      PersistThrough(Try(t, tables, org, chain[0]), tables, org, chain[1..], chain[0].source);
      PersistThrough(Try(t, tables, org, chain[0]), tables, org, chain[1..], chain[0].target);
    } else {
      assert chain[..k][1..] == chain[1..][..k - 1] && chain[..k][0] == chain[0];
      SurvivorsRespectOptOuts(Try(t, tables, org, chain[0]), tables, org, chain[1..], k - 1);
    }
  }

  /** No chain of merges puts a consent into force or moves one to another client. */
  lemma {:induction false} NoConsentCreated(t: Tables, tables: seq<string>, org: Option<OrgId>, chain: seq<Attempt>)
    ensures OnlyWithdrawn(t.consents, TryAll(t, tables, org, chain).consents)
    decreases |chain|
  {
    if chain != [] {
      var a := chain[0];
      if Mergeable(t, a.source, a.target, org) {
        ConsentsSettle(t, tables, a.source, a.target, org);
      }
      NoConsentCreated(Try(t, tables, org, a), tables, org, chain[1..]);
    }
  }

  /** The unique key on live custom fields survives every chain. */
  lemma {:induction false} FieldsStayUnique(t: Tables, tables: seq<string>, org: Option<OrgId>, chain: seq<Attempt>)
    requires UniqueLive(t.fields)
    ensures UniqueLive(TryAll(t, tables, org, chain).fields)
    decreases |chain|
  {
    if chain != [] {
      var a := chain[0];
      if Mergeable(t, a.source, a.target, org) && t.fields != [] {
        FieldsMerge(t.fields, a.source, a.target, 0);
      }
      FieldsStayUnique(Try(t, tables, org, a), tables, org, chain[1..]);
    }
  }

  /** A merge leaves the target a live key exactly when one of the two clients had it. */
  lemma KeysUnite(fields: seq<FieldRow>, source: ClientId, target: ClientId, client: ClientId, key: string)
    requires source != target && client != source
    ensures HasLiveKey(MovedFields(fields, source, target), client, key)
            <==> HasLiveKey(fields, client, key) || (client == target && HasLiveKey(fields, source, key))
  {
    var after := MovedFields(fields, source, target);
    if f :| f in fields && f.client == client && f.key == key && !f.deleted {
      var i :| 0 <= i < |fields| && fields[i] == f;
      assert after[i] == f;
    } else if f :| f in fields && client == target && f.client == source && f.key == key && !f.deleted {
      var i :| 0 <= i < |fields| && fields[i] == f;
      assert after[i] == f.(client := target);
    }
    if f :| f in after && f.client == client && f.key == key && !f.deleted {
      var i :| 0 <= i < |after| && after[i] == f;
      assert fields[i] in fields;
    }
  }

  /** Over any chain of merges, a client that was not itself absorbed has a live custom field under a key at
      the end exactly when some client it absorbed, possibly itself, had one at the start. */
  lemma {:induction false} FieldsFollow(t: Tables, tables: seq<string>, org: Option<OrgId>, chain: seq<Attempt>,
                                        client: ClientId, key: string)
    requires Absorber(t, tables, org, chain, client) == client
    ensures HasLiveKey(TryAll(t, tables, org, chain).fields, client, key)
            <==> exists c: ClientId :: Absorber(t, tables, org, chain, c) == client && HasLiveKey(t.fields, c, key)
    decreases |chain|
  {
    hide HasLiveKey;
    if chain != [] {
      var a := chain[0];
      var next := Try(t, tables, org, a);
      var rest := chain[1..];
      if Mergeable(t, a.source, a.target, org) {
        DeletedStays(next, tables, org, rest, a.source, a.target);
        assert client != a.source;
        FieldsFollow(next, tables, org, rest, client, key);
        if c: ClientId :| Absorber(next, tables, org, rest, c) == client && HasLiveKey(next.fields, c, key) {
          KeysUnite(t.fields, a.source, a.target, c, key);
          var holder: ClientId := if HasLiveKey(t.fields, c, key) then c else a.source;
          assert Absorber(t, tables, org, chain, holder) == client;
        }
        if c: ClientId :| Absorber(t, tables, org, chain, c) == client && HasLiveKey(t.fields, c, key) {
          var c': ClientId := if c == a.source then a.target else c;
          KeysUnite(t.fields, a.source, a.target, c', key);
          assert Absorber(next, tables, org, rest, c') == client && HasLiveKey(next.fields, c', key);
        }
      } else {
        FieldsFollow(next, tables, org, rest, client, key);
      }
    }
  }

  /** And the fields it had at the start it keeps, as they were. */
  lemma {:induction false} OwnFieldsStay(t: Tables, tables: seq<string>, org: Option<OrgId>, chain: seq<Attempt>, i: nat)
    requires i < |t.fields| && Absorber(t, tables, org, chain, t.fields[i].client) == t.fields[i].client
    ensures i < |TryAll(t, tables, org, chain).fields| && TryAll(t, tables, org, chain).fields[i] == t.fields[i]
    decreases |chain|
  {
    if chain != [] {
      var a := chain[0];
      var next := Try(t, tables, org, a);
      if Mergeable(t, a.source, a.target, org) {
        DeletedStays(next, tables, org, chain[1..], a.source, a.target);
        assert t.fields[i].client != a.source;
      }
      OwnFieldsStay(next, tables, org, chain[1..], i);
    }
  }
}
