/**
  Tenant isolation of the generic handlers of src/controllers/crudController.js over
  src/models/BaseModel.js, for org-scoped models without custom hooks.  A request carries its
  tenant; a create also carries the id the database will assign.  The list handler is two requests, its
  listing and its count, so that others may come between them.
*/
module CrudTenancy {
  import opened Numbers
  import opened Wrappers
  import opened CrudModel

  datatype Request =
    | ListRows(filters: Filters, descending: bool, page: int, limit: int, withDeleted: bool, onlyDeleted: bool)
    | CountRows(counted: Filters, includeDeleted: bool, archived: bool)
    | GetRow(id: Id)
    | CreateRow(body: Data, newId: Id)
    | UpdateRow(id: Id, body: Data)
    | DestroyRow(id: Id)
    | RestoreRow(id: Id)

  datatype Answer =
    | Rows(rows: seq<Row>)
    | Total(total: nat)
    | Record(row: Option<Row>)
    | NoContent
    | Error(error: CrudError)

  /** parseInt'ed page and limit as the list handler turns them into a query. */
  function QueryOf(r: Request): Listing
    requires r.ListRows?
  {
    Listing(r.filters, r.descending, Min(r.limit, 100), (Max(1, r.page) - 1) * r.limit, r.withDeleted, r.onlyDeleted)
  }

  /** What the count that goes with a listing ranges over. */
  function CountQuery(r: Request): Listing
    requires r.CountRows?
  {
    Listing(r.counted, false, 0, 0, r.includeDeleted, r.archived)
  }

  /** organization_id is injected into every create. */
  function Injected(model: Model, body: Data, org: OrgId): Data {
    if model.hasOrgScope then body["organization_id" := Num(org)] else body
  }

  /** applyUpdate without transaction or guard: the early check, the scoped fetch, the write. */
  function ApplyUpdate(model: Model, rows: seq<Row>, id: Id, body: Data, org: OrgId): Result<(seq<Row>, Option<Row>), CrudError> {
    if model.hasOrgScope && "organization_id" in body then Failure(OrgImmutable)
    else if FindById(model, rows, id, Some(org)).None? then Failure(NotFound)
    else Update(model, rows, id, body, Some(org))
  }

  /** destroy: the scoped fetch, then the delete. */
  function ApplyDelete(model: Model, rows: seq<Row>, id: Id, org: OrgId): Result<seq<Row>, CrudError> {
    if FindById(model, rows, id, Some(org)).None? then Failure(NotFound) else Delete(model, rows, id, Some(org))
  }

  /** One request of one tenant, run to its end. */
  function Handle(model: Model, rows: seq<Row>, org: OrgId, r: Request): (seq<Row>, Answer) {
    match r
    case ListRows(_, _, _, _, _, _) =>
      (rows, Rows(FindAll(model, rows, Some(org), QueryOf(r))))
    case CountRows(_, _, _) =>
      (rows, Total(|View(model, rows, Some(org), CountQuery(r))|))
    case GetRow(id) =>
      var found := FindById(model, rows, id, Some(org));
      (rows, if found.Some? then Record(found) else Error(NotFound))
    case CreateRow(body, newId) =>
      (match Create(model, rows, Injected(model, body, org), newId)
       case Success((rows', row)) => (rows', Record(Some(row)))
       case Failure(e) => (rows, Error(e)))
    case UpdateRow(id, body) =>
      (match ApplyUpdate(model, rows, id, body, org)
       case Success((rows', row)) => (rows', Record(row))
       case Failure(e) => (rows, Error(e)))
    case DestroyRow(id) =>
      (match ApplyDelete(model, rows, id, org)
       case Success(rows') => (rows', NoContent)
       case Failure(e) => (rows, Error(e)))
    case RestoreRow(id) =>
      (match Restore(model, rows, id, Some(org))
       case Success((rows', row)) => (rows', Record(row))
       case Failure(e) => (rows, Error(e)))
  }

  // ---------------------------------------------------------------------------
  // Statements and a part of the table
  // ---------------------------------------------------------------------------

  /** Rows of one tenant. */
  function Owned(org: OrgId): Row -> bool {
    (row: Row) => row.org == Some(org)
  }

  function Part(rows: seq<Row>, org: OrgId): seq<Row> {
    Select(rows, Owned(org))
  }

  lemma SelectLast(rows: seq<Row>, where: Row -> bool)
    requires rows != []
    ensures var front, last := rows[..|rows| - 1], rows[|rows| - 1];
            Select(rows, where) == if where(last) then Select(front, where) + [last] else Select(front, where)
  {
  }

  lemma SelectAppend(rows: seq<Row>, row: Row, where: Row -> bool)
    ensures Select(rows + [row], where) == if where(row) then Select(rows, where) + [row] else Select(rows, where)
  {
    assert (rows + [row])[..|rows|] == rows;
  }

  /** Selecting inside a part that covers the clause is selecting from the whole. */
  lemma {:induction false} SelectWithin(rows: seq<Row>, part: Row -> bool, where: Row -> bool)
    requires forall row: Row :: where(row) ==> part(row)
    ensures Select(Select(rows, part), where) == Select(rows, where)
  {
    if rows != [] {
      var front, last := rows[..|rows| - 1], rows[|rows| - 1];
      SelectWithin(front, part, where);
      SelectLast(rows, part);
      SelectLast(rows, where);
      SelectAppend(Select(front, part), last, where);
    }
  }

  /** An update that neither leaves nor enters the part acts on it alone. */
  lemma {:induction false} UpdateWithin(rows: seq<Row>, part: Row -> bool, where: Row -> bool, change: Row -> Row)
    requires forall row: Row :: where(row) ==> part(change(row)) == part(row)
    ensures Select(UpdateWhere(rows, where, change), part) == UpdateWhere(Select(rows, part), where, change)
  {
    if rows != [] {
      var front, last := rows[..|rows| - 1], rows[|rows| - 1];
      UpdateWithin(front, part, where, change);
      UpdateAppend(front, last, where, change);
      assert rows == front + [last];
      var last' := if where(last) then change(last) else last;
      SelectLast(rows, part);
      SelectAppend(UpdateWhere(front, where, change), last', part);
      UpdateAppend(Select(front, part), last, where, change);
    }
  }

  lemma UpdateAppend(rows: seq<Row>, row: Row, where: Row -> bool, change: Row -> Row)
    ensures UpdateWhere(rows + [row], where, change)
            == UpdateWhere(rows, where, change) + [if where(row) then change(row) else row]
  {
  }

  lemma {:induction false} UpdateOutside(rows: seq<Row>, where: Row -> bool, change: Row -> Row)
    requires forall row <- rows :: !where(row)
    ensures UpdateWhere(rows, where, change) == rows
  {
  }

  lemma {:induction false} SelectCommutes(rows: seq<Row>, p: Row -> bool, q: Row -> bool)
    ensures Select(Select(rows, p), q) == Select(Select(rows, q), p)
  {
    if rows != [] {
      var front, last := rows[..|rows| - 1], rows[|rows| - 1];
      SelectCommutes(front, p, q);
      SelectLast(rows, p);
      SelectLast(rows, q);
      SelectAppend(Select(front, p), last, q);
      SelectAppend(Select(front, q), last, p);
    }
  }

  lemma {:induction false} SelectAll(rows: seq<Row>, p: Row -> bool)
    requires forall row <- rows :: p(row)
    ensures Select(rows, p) == rows
  {
    if rows != [] {
      SelectAll(rows[..|rows| - 1], p);
      assert rows[|rows| - 1] in rows;
    }
  }

  lemma PartOfPart(rows: seq<Row>, org: OrgId)
    ensures Part(Part(rows, org), org) == Part(rows, org)
  {
    SelectAll(Part(rows, org), Owned(org));
  }

  // ---------------------------------------------------------------------------
  // A tenant's own request sees and changes only its part
  // ---------------------------------------------------------------------------

  /** Handling commutes with restricting the table to the tenant. */
  ghost predicate ActsOnPart(model: Model, rows: seq<Row>, org: OrgId, r: Request) {
    && Handle(model, rows, org, r).1 == Handle(model, Part(rows, org), org, r).1
    && Part(Handle(model, rows, org, r).0, org) == Part(Handle(model, Part(rows, org), org, r).0, org)
  }

  lemma FindActsOnPart(model: Model, rows: seq<Row>, id: Id, org: OrgId)
    requires model.hasOrgScope
    ensures Select(Part(rows, org), ById(model, id, Some(org))) == Select(rows, ById(model, id, Some(org)))
    ensures FindById(model, Part(rows, org), id, Some(org)) == FindById(model, rows, id, Some(org))
  {
    SelectWithin(rows, Owned(org), ById(model, id, Some(org)));
  }

  lemma ListActsOnPart(model: Model, rows: seq<Row>, org: OrgId, r: Request)
    requires model.hasOrgScope && r.ListRows?
    ensures ActsOnPart(model, rows, org, r)
  {
    SelectWithin(rows, Owned(org), ListedWhere(model, Some(org), QueryOf(r)));
    PartOfPart(rows, org);
  }

  lemma CountActsOnPart(model: Model, rows: seq<Row>, org: OrgId, r: Request)
    requires model.hasOrgScope && r.CountRows?
    ensures ActsOnPart(model, rows, org, r)
  {
    SelectWithin(rows, Owned(org), ListedWhere(model, Some(org), CountQuery(r)));
    PartOfPart(rows, org);
  }

  lemma CreateActsOnPart(model: Model, rows: seq<Row>, org: OrgId, r: Request)
    requires model.hasOrgScope && r.CreateRow?
    ensures ActsOnPart(model, rows, org, r)
  {
    hide Select, Part, Inserted, Filtered, Injected;
    PartOfPart(rows, org);
    PartAppend(rows, Inserted(r.newId, Filtered(model, Injected(model, r.body, org))), org);
  }

  lemma PartAppend(rows: seq<Row>, row: Row, org: OrgId)
    ensures Part(rows + [row], org) == Part(Part(rows, org) + [row], org)
  {
    hide Select;
    SelectAppend(rows, row, Owned(org));
    SelectAppend(Part(rows, org), row, Owned(org));
    PartOfPart(rows, org);
  }

  /** The UPDATE of a record and its read-back. */
  lemma WriteActsOnPart(model: Model, rows: seq<Row>, id: Id, data: Data, org: OrgId)
    requires model.hasOrgScope && "organization_id" !in data
    ensures Part(UpdatedRows(model, rows, id, data, Some(org)), org) == UpdatedRows(model, Part(rows, org), id, data, Some(org))
    ensures FindById(model, UpdatedRows(model, rows, id, data, Some(org)), id, Some(org))
            == FindById(model, UpdatedRows(model, Part(rows, org), id, data, Some(org)), id, Some(org))
  {
    var change := (row: Row) => SetColumns(row, Filtered(model, data));
    UpdateWithin(rows, Owned(org), ById(model, id, Some(org)), change);
    FindActsOnPart(model, UpdatedRows(model, rows, id, data, Some(org)), id, org);
  }

  lemma ApplyUpdateOnPart(model: Model, rows: seq<Row>, id: Id, body: Data, org: OrgId)
    requires model.hasOrgScope
    ensures match ApplyUpdate(model, rows, id, body, org)
            case Success((rows', row)) => ApplyUpdate(model, Part(rows, org), id, body, org) == Success((Part(rows', org), row))
            case Failure(e) => ApplyUpdate(model, Part(rows, org), id, body, org) == Failure(e)
  {
    FindActsOnPart(model, rows, id, org);
    if "organization_id" !in body && Filtered(model, body) != map[] {
      WriteActsOnPart(model, rows, id, body, org);
    }
  }

  lemma UpdateActsOnPart(model: Model, rows: seq<Row>, org: OrgId, r: Request)
    requires model.hasOrgScope && r.UpdateRow?
    ensures ActsOnPart(model, rows, org, r)
  {
    hide Select, Part, ApplyUpdate;
    ApplyUpdateOnPart(model, rows, r.id, r.body, org);
    PartOfPart(rows, org);
    PartOfPart(Handle(model, rows, org, r).0, org);
  }

  /** The rows a hard delete keeps. */
  function Kept(model: Model, id: Id, org: OrgId): Row -> bool {
    (row: Row) => !(row.id == id && InScope(model, Some(org), row))
  }

  lemma DeleteIs(model: Model, rows: seq<Row>, id: Id, org: OrgId)
    requires Delete(model, rows, id, Some(org)).Success?
    ensures Delete(model, rows, id, Some(org)).value
            == if model.softDelete then UpdateWhere(rows, ById(model, id, Some(org)), (row: Row) => row.(deleted := true))
               else Select(rows, Kept(model, id, org))
  {
    if !model.softDelete {
      SelectCongruent(rows, (row: Row) => !(row.id == id && InScope(model, Some(org), row)), Kept(model, id, org));
    }
  }

  lemma DeleteActsOnPart(model: Model, rows: seq<Row>, id: Id, org: OrgId)
    requires model.hasOrgScope && Delete(model, rows, id, Some(org)).Success?
    ensures Delete(model, Part(rows, org), id, Some(org)) == Success(Part(Delete(model, rows, id, Some(org)).value, org))
  {
    FindActsOnPart(model, rows, id, org);
    DeleteIs(model, rows, id, org);
    DeleteIs(model, Part(rows, org), id, org);
    if model.softDelete {
      UpdateWithin(rows, Owned(org), ById(model, id, Some(org)), (row: Row) => row.(deleted := true));
    } else {
      SelectCommutes(rows, Owned(org), Kept(model, id, org));
    }
  }

  lemma DestroyActsOnPart(model: Model, rows: seq<Row>, org: OrgId, r: Request)
    requires model.hasOrgScope && r.DestroyRow?
    ensures ActsOnPart(model, rows, org, r)
  {
    hide Select, Part, FindById, UpdateWhere;
    FindActsOnPart(model, rows, r.id, org);
    PartOfPart(rows, org);
    if Delete(model, rows, r.id, Some(org)).Success? {
      DeleteActsOnPart(model, rows, r.id, org);
      PartOfPart(Delete(model, rows, r.id, Some(org)).value, org);
    }
  }

  lemma UndeleteActsOnPart(model: Model, rows: seq<Row>, id: Id, org: OrgId)
    requires model.hasOrgScope
    ensures Restore(model, Part(rows, org), id, Some(org))
            == match Restore(model, rows, id, Some(org))
               case Success((rows', row)) => Success((Part(rows', org), row))
               case Failure(e) => Failure(e)
  {
    var where := RestoreWhere(model, id, Some(org));
    var unmark := (row: Row) => row.(deleted := false);
    SelectWithin(rows, Owned(org), where);
    UpdateWithin(rows, Owned(org), where, unmark);
    FindActsOnPart(model, UpdateWhere(rows, where, unmark), id, org);
  }

  lemma RestoreActsOnPart(model: Model, rows: seq<Row>, org: OrgId, r: Request)
    requires model.hasOrgScope && r.RestoreRow?
    ensures ActsOnPart(model, rows, org, r)
  {
    UndeleteActsOnPart(model, rows, r.id, org);
    PartOfPart(rows, org);
    PartOfPart(Handle(model, rows, org, r).0, org);
  }

  lemma OwnRequest(model: Model, rows: seq<Row>, org: OrgId, r: Request)
    requires model.hasOrgScope
    ensures ActsOnPart(model, rows, org, r)
  {
    match r {
      case ListRows(_, _, _, _, _, _) => ListActsOnPart(model, rows, org, r);
      case CountRows(_, _, _) => CountActsOnPart(model, rows, org, r);
      case GetRow(id) =>
        FindActsOnPart(model, rows, id, org);
        PartOfPart(rows, org);
      case CreateRow(_, _) => CreateActsOnPart(model, rows, org, r);
      case UpdateRow(_, _) => UpdateActsOnPart(model, rows, org, r);
      case DestroyRow(_) => DestroyActsOnPart(model, rows, org, r);
      case RestoreRow(_) => RestoreActsOnPart(model, rows, org, r);
    }
  }

  // ---------------------------------------------------------------------------
  // Another tenant's request leaves the part alone
  // ---------------------------------------------------------------------------

  lemma UpdateElsewhere(rows: seq<Row>, org: OrgId, where: Row -> bool, change: Row -> Row)
    requires forall row: Row :: where(row) ==> row.org != Some(org) && change(row).org == row.org
    ensures Part(UpdateWhere(rows, where, change), org) == Part(rows, org)
  {
    UpdateWithin(rows, Owned(org), where, change);
    UpdateOutside(Part(rows, org), where, change);
  }

  lemma ForeignHardDelete(model: Model, rows: seq<Row>, org: OrgId, other: OrgId, id: Id)
    requires model.hasOrgScope && other != org
    ensures Part(Select(rows, Kept(model, id, other)), org) == Part(rows, org)
  {
    SelectCommutes(rows, Owned(org), Kept(model, id, other));
    SelectAll(Part(rows, org), Kept(model, id, other));
  }

  lemma ForeignSoftDelete(model: Model, rows: seq<Row>, org: OrgId, other: OrgId, id: Id)
    requires model.hasOrgScope && other != org
    ensures Part(UpdateWhere(rows, ById(model, id, Some(other)), (row: Row) => row.(deleted := true)), org) == Part(rows, org)
  {
    UpdateElsewhere(rows, org, ById(model, id, Some(other)), (row: Row) => row.(deleted := true));
  }

  lemma ForeignDestroy(model: Model, rows: seq<Row>, org: OrgId, other: OrgId, id: Id)
    requires model.hasOrgScope && other != org && Delete(model, rows, id, Some(other)).Success?
    ensures Part(Delete(model, rows, id, Some(other)).value, org) == Part(rows, org)
  {
    DeleteIs(model, rows, id, other);
    if model.softDelete {
      ForeignSoftDelete(model, rows, org, other, id);
    } else {
      ForeignHardDelete(model, rows, org, other, id);
    }
  }

  lemma ForeignRequest(model: Model, rows: seq<Row>, org: OrgId, other: OrgId, r: Request)
    requires model.hasOrgScope && other != org
    ensures Part(Handle(model, rows, other, r).0, org) == Part(rows, org)
  {
    match r {
      case CreateRow(body, newId) =>
        SelectAppend(rows, Inserted(newId, Filtered(model, Injected(model, body, other))), Owned(org));
      case UpdateRow(id, body) =>
        if "organization_id" !in body {
          UpdateElsewhere(rows, org, ById(model, id, Some(other)), (row: Row) => SetColumns(row, Filtered(model, body)));
        }
      case DestroyRow(id) =>
        if Delete(model, rows, id, Some(other)).Success? {
          ForeignDestroy(model, rows, org, other, id);
        }
      case RestoreRow(id) =>
        UpdateElsewhere(rows, org, RestoreWhere(model, id, Some(other)), (row: Row) => row.(deleted := false));
      case _ =>
    }
  }

  // ---------------------------------------------------------------------------
  // Noninterference over runs of many tenants
  // ---------------------------------------------------------------------------

  datatype Event = Event(org: OrgId, request: Request)

  function Run(model: Model, rows: seq<Row>, events: seq<Event>): seq<Row>
    decreases |events|
  {
    if events == [] then rows
    else Run(model, Handle(model, rows, events[0].org, events[0].request).0, events[1..])
  }

  /** The answers one tenant receives. */
  function Answers(model: Model, rows: seq<Row>, events: seq<Event>, org: OrgId): seq<Answer>
    decreases |events|
  {
    if events == [] then []
    else
      var (rows', answer) := Handle(model, rows, events[0].org, events[0].request);
      (if events[0].org == org then [answer] else []) + Answers(model, rows', events[1..], org)
  }

  /** The run without every other tenant. */
  function Only(events: seq<Event>, org: OrgId): seq<Event> {
    if events == [] then []
    else (if events[0].org == org then [events[0]] else []) + Only(events[1..], org)
  }

  /** Noninterference.  In any run of any tenants' requests, a tenant gets the answers, and ends with the
      rows, that it would get if the other tenants' rows and requests did not exist at all. */
  lemma {:induction false} OthersInvisible(model: Model, rows: seq<Row>, events: seq<Event>, org: OrgId)
    requires model.hasOrgScope
    ensures Answers(model, rows, events, org) == Answers(model, Part(rows, org), Only(events, org), org)
    ensures Part(Run(model, rows, events), org) == Part(Run(model, Part(rows, org), Only(events, org)), org)
    decreases |events|
  {
    if events == [] {
      PartOfPart(rows, org);
    } else {
      var e := events[0];
      var next := Handle(model, rows, e.org, e.request).0;
      OthersInvisible(model, next, events[1..], org);
      if e.org == org {
        OwnRequest(model, rows, org, e.request);
        var inner := Handle(model, Part(rows, org), org, e.request).0;
        assert Only(events, org)[0] == e && Only(events, org)[1..] == Only(events[1..], org);
        OnlyOnly(events[1..], org);
        OthersInvisible(model, inner, Only(events[1..], org), org);
      } else {
        ForeignRequest(model, rows, org, e.org, e.request);
        assert Only(events, org) == Only(events[1..], org);
      }
    }
  }

  lemma {:induction false} OnlyOnly(events: seq<Event>, org: OrgId)
    ensures Only(Only(events, org), org) == Only(events, org)
    ensures |Only(events, org)| <= |events|
  {
    if events != [] {
      OnlyOnly(events[1..], org);
      assert [] + Only(events[1..], org) == Only(events[1..], org);
      assert ([events[0]] + Only(events[1..], org))[1..] == Only(events[1..], org);
    }
  }

  /** Two runs on two databases that agree on a tenant's rows and on its requests, whatever the other
      tenants hold and do, give that tenant the same answers and the same rows. */
  lemma TwoRuns(model: Model, rows1: seq<Row>, events1: seq<Event>, rows2: seq<Row>, events2: seq<Event>, org: OrgId)
    requires model.hasOrgScope
    requires Part(rows1, org) == Part(rows2, org) && Only(events1, org) == Only(events2, org)
    ensures Answers(model, rows1, events1, org) == Answers(model, rows2, events2, org)
    ensures Part(Run(model, rows1, events1), org) == Part(Run(model, rows2, events2), org)
  {
    OthersInvisible(model, rows1, events1, org);
    OthersInvisible(model, rows2, events2, org);
  }

  // ---------------------------------------------------------------------------
  // No run moves a row to another tenant
  // ---------------------------------------------------------------------------

  /** Every row after has the tenant it had before, or was just created by `org`. */
  ghost predicate TenantsKept(before: seq<Row>, after: seq<Row>, created: set<Id>) {
    forall row <- after :: row.id in created || exists old_ <- before :: old_.id == row.id && old_.org == row.org
  }

  function CreatedBy(events: seq<Event>): set<Id> {
    set i | 0 <= i < |events| && events[i].request.CreateRow? :: events[i].request.newId
  }

  lemma HandleKeepsTenants(model: Model, rows: seq<Row>, org: OrgId, r: Request)
    requires model.hasOrgScope
    ensures TenantsKept(rows, Handle(model, rows, org, r).0, if r.CreateRow? then {r.newId} else {})
  {
    var after := Handle(model, rows, org, r).0;
    forall row | row in after && !(r.CreateRow? && row.id == r.newId)
      ensures exists old_ <- rows :: old_.id == row.id && old_.org == row.org
    {
      if row !in rows {
        var i :| 0 <= i < |after| && after[i] == row;
        assert rows[i].id == row.id && rows[i].org == row.org;
      }
    }
  }

  /** No run of requests ever changes the organization_id of a row: whatever row an id names at the end
      belongs to the tenant it belonged to at the start, unless the run created that id. */
  lemma {:induction false} TenantNeverChanges(model: Model, rows: seq<Row>, events: seq<Event>)
    requires model.hasOrgScope
    ensures TenantsKept(rows, Run(model, rows, events), CreatedBy(events))
    decreases |events|
  {
    if events != [] {
      var e := events[0];
      var next := Handle(model, rows, e.org, e.request).0;
      HandleKeepsTenants(model, rows, e.org, e.request);
      TenantNeverChanges(model, next, events[1..]);
      var after := Run(model, rows, events);
      forall row | row in after && row.id !in CreatedBy(events)
        ensures exists old_ <- rows :: old_.id == row.id && old_.org == row.org
      {
        CreatedLater(events, row.id);
        var mid :| mid in next && mid.id == row.id && mid.org == row.org;
      }
    }
  }

  lemma CreatedLater(events: seq<Event>, id: Id)
    requires events != [] && id !in CreatedBy(events)
    ensures id !in CreatedBy(events[1..])
    ensures events[0].request.CreateRow? ==> events[0].request.newId != id
  {
    forall i | 0 <= i < |events| - 1 && events[1..][i].request.CreateRow?
      ensures events[1..][i].request.newId in CreatedBy(events)
    {
      assert events[i + 1] == events[1..][i];
    }
  }

  // ---------------------------------------------------------------------------
  // Soft-delete lifecycle
  // ---------------------------------------------------------------------------

  predicate UniqueIds(rows: seq<Row>) {
    forall i, j :: 0 <= i < j < |rows| ==> rows[i].id != rows[j].id
  }

  /** Deleting hides a row from its tenant and restoring brings the table back exactly. */
  lemma DeleteThenRestore(model: Model, rows: seq<Row>, id: Id, org: OrgId)
    requires model.softDelete && UniqueIds(rows) && FindById(model, rows, id, Some(org)).Some?
    ensures var deleted := ApplyDelete(model, rows, id, org);
            && deleted.Success?
            && FindById(model, deleted.value, id, Some(org)).None?
            && Delete(model, deleted.value, id, Some(org)) == Failure(NotFound)
            && var restored := Restore(model, deleted.value, id, Some(org));
               restored == Success((rows, FindById(model, rows, id, Some(org))))
  {
    hide Select;
    var where, back := ById(model, id, Some(org)), RestoreWhere(model, id, Some(org));
    var row := FindById(model, rows, id, Some(org)).value;
    assert row in rows && where(row);
    var i :| 0 <= i < |rows| && rows[i] == row;
    var marked := UpdateWhere(rows, where, (r: Row) => r.(deleted := true));
    assert marked[i] == row.(deleted := true);
    forall j | 0 <= j < |rows| ensures j != i ==> rows[j].id != id && marked[j] == rows[j] {
      if j < i { assert rows[j].id != rows[i].id; } else if i < j { assert rows[i].id != rows[j].id; }
    }
    SelectNone(marked, where);
    SelectFinds(marked, back, marked[i]);
    assert UpdateWhere(marked, back, (r: Row) => r.(deleted := false)) == rows;
  }

  lemma {:induction false} SelectNone(rows: seq<Row>, where: Row -> bool)
    requires forall i :: 0 <= i < |rows| ==> !where(rows[i])
    ensures Select(rows, where) == []
  {
    if rows != [] {
      SelectNone(rows[..|rows| - 1], where);
    }
  }

  lemma {:induction false} SelectFinds(rows: seq<Row>, where: Row -> bool, row: Row)
    requires row in rows && where(row)
    ensures row in Select(rows, where)
  {
    var front, last := rows[..|rows| - 1], rows[|rows| - 1];
    assert rows == front + [last];
    if row in front {
      SelectFinds(front, where, row);
    }
  }

  lemma {:induction false} SelectKeepsUnique(rows: seq<Row>, where: Row -> bool)
    requires UniqueIds(rows)
    ensures UniqueIds(Select(rows, where))
  {
    if rows != [] {
      var front, last := rows[..|rows| - 1], rows[|rows| - 1];
      SelectKeepsUnique(front, where);
      SelectLast(rows, where);
      forall k | 0 <= k < |Select(front, where)| ensures Select(front, where)[k].id != last.id {
        var row := Select(front, where)[k];
        assert row in Select(front, where);
        var i :| 0 <= i < |front| && front[i] == row;
        assert rows[i].id != rows[|rows| - 1].id;
      }
    }
  }
}
