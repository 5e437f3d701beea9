/**
  What each request of the generic handlers does to the columns of a table, and what it answers, in terms of the
  rows before it alone.  Ids are unique.
*/
module CrudColumns {
  import opened Numbers
  import opened Wrappers
  import opened CrudModel
  import opened CrudTenancy
  import opened CrudLocking

  /** Row i is the one with this id that the caller may see. */
  predicate Sees(model: Model, rows: seq<Row>, id: Id, org: Option<OrgId>, i: nat) {
    && i < |rows| && rows[i].id == id
    && (org == None || !model.hasOrgScope || rows[i].org == org)
    && (model.softDelete ==> !rows[i].deleted)
  }

  /** It is a row of the caller's tenant whose deletion can be undone. */
  predicate SeesDeleted(model: Model, rows: seq<Row>, id: Id, org: Option<OrgId>, i: nat) {
    && i < |rows| && rows[i].id == id && rows[i].deleted
    && (org == None || !model.hasOrgScope || rows[i].org == org)
  }

  /** Exactly row i differs, and it is now `row`. */
  predicate Replaces(before: seq<Row>, after: seq<Row>, i: nat, row: Row) {
    && |after| == |before| && i < |before| && after[i] == row
    && forall k :: 0 <= k < |before| && k != i ==> after[k] == before[k]
  }

  /** The body sets the column. */
  predicate Sets(model: Model, body: Data, column: string) {
    column in body && column in model.fillable
  }

  /** Each ordinary column holds the body's value when the body sets it, and what it held otherwise. */
  predicate ColumnsTake(model: Model, body: Data, before: map<string, Val>, after: map<string, Val>) {
    && (forall c <- body :: Sets(model, body, c) && c != "organization_id" ==> c in after && after[c] == body[c])
    && (forall c <- before :: !Sets(model, body, c) || c == "organization_id" ==> c in after && after[c] == before[c])
    && forall c <- after :: c in before || (Sets(model, body, c) && c != "organization_id")
  }

  /** The key and the mark stay; so does the tenant, unless the body sets it. */
  predicate HeadStays(model: Model, body: Data, before: Row, after: Row) {
    && after.id == before.id && after.deleted == before.deleted
    && (!Sets(model, body, "organization_id") ==> after.org == before.org)
  }

  // ---------------------------------------------------------------------------
  // Statements that name a row
  // ---------------------------------------------------------------------------

  lemma FoundRow(model: Model, rows: seq<Row>, id: Id, org: Option<OrgId>, i: nat)
    requires UniqueIds(rows) && i < |rows| && rows[i].id == id
    ensures Select(rows, ById(model, id, org)) == if Sees(model, rows, id, org, i) then [rows[i]] else []
    ensures Select(rows, RestoreWhere(model, id, org)) == if SeesDeleted(model, rows, id, org, i) then [rows[i]] else []
  {
    hide UniqueIds, Select;
    SelectUnique(rows, i, ById(model, id, org));
    SelectUnique(rows, i, RestoreWhere(model, id, org));
  }

  lemma NoRow(model: Model, rows: seq<Row>, id: Id, org: Option<OrgId>)
    requires forall i :: 0 <= i < |rows| ==> rows[i].id != id
    ensures Select(rows, ById(model, id, org)) == [] && Select(rows, RestoreWhere(model, id, org)) == []
  {
    SelectNone(rows, ById(model, id, org));
    SelectNone(rows, RestoreWhere(model, id, org));
  }

  /** A fetch finds exactly the row the caller sees. */
  lemma FindExact(model: Model, rows: seq<Row>, id: Id, org: Option<OrgId>)
    requires UniqueIds(rows)
    ensures forall i: nat :: Sees(model, rows, id, org, i) ==> FindById(model, rows, id, org) == Some(rows[i])
    ensures FindById(model, rows, id, org) == None <==> forall i: nat :: !Sees(model, rows, id, org, i)
  {
    hide Select, UniqueIds;
    if i :| 0 <= i < |rows| && rows[i].id == id {
      FoundRow(model, rows, id, org, i);
      OnlyRow(rows, i);
    } else {
      NoRow(model, rows, id, org);
    }
  }

  lemma OnlyRow(rows: seq<Row>, i: nat)
    requires UniqueIds(rows) && i < |rows|
    ensures forall k: nat :: k < |rows| && rows[k].id == rows[i].id ==> k == i
  {
  }

  /** A statement over the rows of one id changes the one it names. */
  lemma UpdateNames(rows: seq<Row>, i: nat, where: Row -> bool, change: Row -> Row)
    requires UniqueIds(rows) && i < |rows| && where(rows[i]) && forall row: Row :: where(row) ==> row.id == rows[i].id
    ensures Replaces(rows, UpdateWhere(rows, where, change), i, change(rows[i]))
  {
  }

  lemma ReplacedUnique(before: seq<Row>, after: seq<Row>, i: nat, row: Row)
    requires UniqueIds(before) && Replaces(before, after, i, row) && row.id == before[i].id
    ensures UniqueIds(after)
  {
  }

  // ---------------------------------------------------------------------------
  // Update
  // ---------------------------------------------------------------------------

  lemma SetColumnsTake(model: Model, row: Row, body: Data)
    ensures var after := SetColumns(row, Filtered(model, body));
            ColumnsTake(model, body, row.cols, after.cols) && HeadStays(model, body, row, after)
  {
  }

  /** When and how an update of the model takes effect: it is refused when it names the organization of a
      scoped model, it fails when the caller sees no such row, and otherwise it gives exactly that row the
      body's values in the fillable columns the body has, leaves every other column and row as it was, and
      reads that row back, as any later fetch does. */
  lemma UpdateExact(model: Model, rows: seq<Row>, id: Id, body: Data, org: Option<OrgId>, i: nat)
    requires UniqueIds(rows)
    ensures model.hasOrgScope && "organization_id" in body ==> Update(model, rows, id, body, org) == Failure(OrgImmutable)
    ensures !(model.hasOrgScope && "organization_id" in body) && (forall k: nat :: !Sees(model, rows, id, org, k)) ==>
              Update(model, rows, id, body, org) == Failure(NotFound)
    ensures !(model.hasOrgScope && "organization_id" in body) && Sees(model, rows, id, org, i) ==>
              Update(model, rows, id, body, org).Success? && Updated(model, rows, body, i, Update(model, rows, id, body, org).value.0)
              && Update(model, rows, id, body, org).value.1 == Some(Update(model, rows, id, body, org).value.0[i])
              && FindById(model, Update(model, rows, id, body, org).value.0, id, org) == Some(Update(model, rows, id, body, org).value.0[i])
  {
    hide Select, UniqueIds, SetColumns, ColumnsTake;
    FindExact(model, rows, id, org);
    if !(model.hasOrgScope && "organization_id" in body) && Sees(model, rows, id, org, i) {
      FoundRow(model, rows, id, org, i);
      SetColumnsTake(model, rows[i], body);
      if Filtered(model, body) == map[] {
        NothingSet(model, rows[i], body);
      } else {
        UpdateTakes(model, rows, id, body, org, i);
      }
    }
  }

  /** Row i has taken the body's values; nothing else has changed. */
  predicate Updated(model: Model, rows: seq<Row>, body: Data, i: nat, rows': seq<Row>) {
    && i < |rows'| && Replaces(rows, rows', i, rows'[i])
    && ColumnsTake(model, body, rows[i].cols, rows'[i].cols) && HeadStays(model, body, rows[i], rows'[i])
  }

  lemma NothingSet(model: Model, row: Row, body: Data)
    requires Filtered(model, body) == map[]
    ensures ColumnsTake(model, body, row.cols, row.cols) && HeadStays(model, body, row, row)
  {
    assert forall c <- body :: Sets(model, body, c) ==> c in Filtered(model, body);
  }

  lemma UpdateTakes(model: Model, rows: seq<Row>, id: Id, body: Data, org: Option<OrgId>, i: nat)
    requires UniqueIds(rows) && !(model.hasOrgScope && "organization_id" in body) && Sees(model, rows, id, org, i)
    ensures var rows' := UpdatedRows(model, rows, id, body, org);
            && Replaces(rows, rows', i, SetColumns(rows[i], Filtered(model, body)))
            && FindById(model, rows', id, org) == Some(rows'[i])
  {
    hide Select, UniqueIds, FindById;
    var change := (row: Row) => SetColumns(row, Filtered(model, body));
    UpdateNames(rows, i, ById(model, id, org), change);
    ReplacedUnique(rows, UpdatedRows(model, rows, id, body, org), i, change(rows[i]));
    FindExact(model, UpdatedRows(model, rows, id, body, org), id, org);
    assert Sees(model, UpdatedRows(model, rows, id, body, org), id, org, i);
  }

  /** The same of the PUT handler, with the answer of a GET that follows. */
  lemma PutThenGet(model: Model, rows: seq<Row>, org: OrgId, id: Id, body: Data, i: nat)
    requires UniqueIds(rows)
    ensures var (rows', answer) := Handle(model, rows, org, UpdateRow(id, body));
            if model.hasOrgScope && "organization_id" in body then rows' == rows && answer == Error(OrgImmutable)
            else if Sees(model, rows, id, Some(org), i) then
              Updated(model, rows, body, i, rows') && answer == Record(Some(rows'[i])) && Handle(model, rows', org, GetRow(id)).1 == answer
            else (forall k: nat :: !Sees(model, rows, id, Some(org), k)) ==> rows' == rows && answer == Error(NotFound)
  {
    hide Select, UniqueIds, Update, FindById, Sees, Updated;
    UpdateExact(model, rows, id, body, Some(org), i);
    FindExact(model, rows, id, Some(org));
  }

  // ---------------------------------------------------------------------------
  // Delete and restore
  // ---------------------------------------------------------------------------

  /** The row leaves and the others stay, in order. */
  predicate Removes(before: seq<Row>, after: seq<Row>, i: nat) {
    i < |before| && after == before[..i] + before[i + 1..]
  }

  /** A delete by a tenant marks the row it sees, or removes it when the model does not soft-delete, touches
      nothing else, and fails when the tenant sees no such row. */
  lemma DestroyExact(model: Model, rows: seq<Row>, org: OrgId, id: Id, i: nat)
    requires UniqueIds(rows)
    ensures var (rows', answer) := Handle(model, rows, org, DestroyRow(id));
            if Sees(model, rows, id, Some(org), i) then
              answer == NoContent && if model.softDelete then Replaces(rows, rows', i, rows[i].(deleted := true)) else Removes(rows, rows', i)
            else (forall k: nat :: !Sees(model, rows, id, Some(org), k)) ==> rows' == rows && answer == Error(NotFound)
  {
    hide Select, UniqueIds;
    FindExact(model, rows, id, Some(org));
    if Sees(model, rows, id, Some(org), i) {
      FoundRow(model, rows, id, Some(org), i);
      if model.softDelete {
        UpdateNames(rows, i, ById(model, id, Some(org)), (row: Row) => row.(deleted := true));
      } else {
        var keeps := (row: Row) => !(row.id == id && InScope(model, Some(org), row));
        SelectDrops(rows, i, keeps);
      }
    }
  }

  lemma {:induction false} SelectDrops(rows: seq<Row>, i: nat, where: Row -> bool)
    requires UniqueIds(rows) && i < |rows| && !where(rows[i]) && forall row: Row :: !where(row) ==> row.id == rows[i].id
    ensures Select(rows, where) == rows[..i] + rows[i + 1..]
  {
    hide Select;
    var front, last := rows[..|rows| - 1], rows[|rows| - 1];
    SelectLast(rows, where);
    if i < |front| {
      assert rows[i].id != last.id;
      SelectDrops(front, i, where);
      assert rows[..i] + rows[i + 1..] == (front[..i] + front[i + 1..]) + [last];
    } else {
      OthersIn(rows, where);
      assert rows[..i] + rows[i + 1..] == front;
    }
  }

  lemma OthersIn(rows: seq<Row>, where: Row -> bool)
    requires UniqueIds(rows) && rows != []
    requires forall row: Row :: !where(row) ==> row.id == rows[|rows| - 1].id
    ensures Select(rows[..|rows| - 1], where) == rows[..|rows| - 1]
  {
    hide Select;
    var front := rows[..|rows| - 1];
    forall row | row in front ensures where(row) {
      var k :| 0 <= k < |front| && front[k] == row;
      assert rows[k].id != rows[|rows| - 1].id;
    }
    SelectAll(front, where);
  }

  /** A restore by a tenant clears the mark of its deleted row, touches nothing else and answers the row; it
      fails when the tenant has no such deleted row, or when the model does not soft-delete. */
  lemma RestoreExact(model: Model, rows: seq<Row>, org: OrgId, id: Id, i: nat)
    requires UniqueIds(rows)
    ensures var (rows', answer) := Handle(model, rows, org, RestoreRow(id));
            if !model.softDelete then rows' == rows && answer == Error(NoSoftDelete)
            else if SeesDeleted(model, rows, id, Some(org), i) then
              Replaces(rows, rows', i, rows[i].(deleted := false)) && answer == Record(Some(rows'[i]))
            else (forall k: nat :: !SeesDeleted(model, rows, id, Some(org), k)) ==> rows' == rows && answer == Error(NotFound)
  {
    hide Select, UniqueIds, FindById;
    if SeesDeleted(model, rows, id, Some(org), i) && model.softDelete {
      var where, unmark := RestoreWhere(model, id, Some(org)), (row: Row) => row.(deleted := false);
      FoundRow(model, rows, id, Some(org), i);
      UpdateNames(rows, i, where, unmark);
      var rows' := UpdateWhere(rows, where, unmark);
      ReplacedUnique(rows, rows', i, rows[i].(deleted := false));
      FindExact(model, rows', id, Some(org));
      assert Sees(model, rows', id, Some(org), i);
    } else if i :| 0 <= i < |rows| && rows[i].id == id {
      FoundRow(model, rows, id, Some(org), i);
    } else {
      NoRow(model, rows, id, Some(org));
    }
  }

  // ---------------------------------------------------------------------------
  // Create
  // ---------------------------------------------------------------------------

  /** The statement of a create has a column to fill. */
  predicate Fills(model: Model, body: Data) {
    (model.hasOrgScope && "organization_id" in model.fillable) || exists c <- body :: Sets(model, body, c)
  }

  /** A create by a tenant fails exactly when it fills no column; otherwise it adds one row at the end, live,
      with exactly the fillable values of the body and the caller's tenant, which it answers; when the tenant
      can own rows, it finds it by a later GET. */
  lemma PostThenGet(model: Model, rows: seq<Row>, org: OrgId, body: Data, newId: Id)
    requires UniqueIds(rows) && forall row <- rows :: row.id != newId
    ensures var (rows', answer) := Handle(model, rows, org, CreateRow(body, newId));
            if !Fills(model, body) then rows' == rows && answer == Error(NoFillableData)
            else
              && |rows'| == |rows| + 1 && rows'[..|rows|] == rows && answer == Record(Some(rows'[|rows|]))
              && var row := rows'[|rows|];
                 && row.id == newId && !row.deleted && ColumnsTake(model, body, map[], row.cols)
                 && (model.hasOrgScope && "organization_id" in model.fillable ==> row.org == Some(org))
                 && ("organization_id" !in model.fillable ==> row.org == None)
                 && (!model.hasOrgScope || "organization_id" in model.fillable ==> Handle(model, rows', org, GetRow(newId)).1 == answer)
  {
    hide Select, UniqueIds, FindById, SetColumns;
    var data := Injected(model, body, org);
    FillsSomething(model, body, org);
    if Fills(model, body) {
      var row := Inserted(newId, Filtered(model, data));
      InsertedTakes(model, body, org, newId);
      var rows' := rows + [row];
      AppendedUnique(rows, row);
      FindExact(model, rows', newId, Some(org));
      assert rows'[..|rows|] == rows;
      assert rows'[|rows|] == row;
      if !model.hasOrgScope || "organization_id" in model.fillable {
        assert Sees(model, rows', newId, Some(org), |rows|);
      }
    }
  }

  lemma FillsSomething(model: Model, body: Data, org: OrgId)
    ensures Fills(model, body) <==> Filtered(model, Injected(model, body, org)) != map[]
  {
    var data := Injected(model, body, org);
    var filtered := Filtered(model, data);
    assert forall c <- data :: Sets(model, data, c) <==> c in filtered;
    if model.hasOrgScope && "organization_id" in model.fillable {
      assert "organization_id" in filtered;
    } else if c :| c in body && Sets(model, body, c) {
      assert c in filtered;
    } else {
      assert forall c <- filtered :: c in body && Sets(model, body, c);
      assert filtered.Keys == {};
    }
  }

  lemma InsertedTakes(model: Model, body: Data, org: OrgId, newId: Id)
    ensures var row := Inserted(newId, Filtered(model, Injected(model, body, org)));
            && row.id == newId && !row.deleted && ColumnsTake(model, body, map[], row.cols)
            && (model.hasOrgScope && "organization_id" in model.fillable ==> row.org == Some(org))
            && ("organization_id" !in model.fillable ==> row.org == None)
  {
    var data := Injected(model, body, org);
    var row := Inserted(newId, Filtered(model, data));
    SetColumnsTake(model, Row(newId, None, false, map[]), data);
    if model.hasOrgScope && "organization_id" in model.fillable {
      assert Filtered(model, data)["organization_id"] == Num(org);
    }
    InjectedTakes(model, body, org, row.cols);
  }

  lemma InjectedTakes(model: Model, body: Data, org: OrgId, cols: map<string, Val>)
    requires ColumnsTake(model, Injected(model, body, org), map[], cols)
    ensures ColumnsTake(model, body, map[], cols)
  {
    var data := Injected(model, body, org);
    assert forall c <- body :: c != "organization_id" && Sets(model, body, c) ==> c in data && Sets(model, data, c) && data[c] == body[c];
    assert forall c <- cols :: Sets(model, data, c) && c != "organization_id" ==> Sets(model, body, c);
  }

  lemma AppendedUnique(rows: seq<Row>, row: Row)
    requires UniqueIds(rows) && forall other <- rows :: other.id != row.id
    ensures UniqueIds(rows + [row])
  {
    forall i | 0 <= i < |rows| ensures rows[i].id != row.id {
      assert rows[i] in rows;
    }
  }

  // ---------------------------------------------------------------------------
  // List and count
  // ---------------------------------------------------------------------------

  predicate Ascending(rows: seq<Row>) {
    forall i, j :: 0 <= i < j < |rows| ==> rows[i].id < rows[j].id
  }

  /** What the database compares with the bound value of a filter. */
  predicate Holds(row: Row, column: string, v: Val) {
    if column == "id" then v == Num(row.id)
    else if column == "organization_id" then (if row.org.Some? then v == Num(row.org.value) else v == Null)
    else if column in row.cols then v == row.cols[column] else v == Null
  }

  /** A row of the listing: of the caller's tenant, in the view asked for, and equal on every filter on a
      column that may be filtered. */
  ghost predicate Shown(model: Model, org: OrgId, filters: Filters, withDeleted: bool, onlyDeleted: bool, row: Row) {
    && (model.hasOrgScope ==> row.org == Some(org))
    && (onlyDeleted ==> model.softDelete && row.deleted)
    && (model.softDelete && row.deleted ==> withDeleted || onlyDeleted)
    && forall i :: 0 <= i < |filters| ==>
         var (column, bound) := filters[i];
         column in model.fillable || column in model.filterable || column in ["id", "status", "organization_id"] ==>
           exists v :: Holds(row, column, v) && model.equal(v, bound)
  }

  /** The listing is this view, in key order. */
  ghost predicate IsView(model: Model, rows: seq<Row>, org: OrgId, filters: Filters, withDeleted: bool, onlyDeleted: bool, view: seq<Row>) {
    Ascending(view) && forall row :: row in view <==> row in rows && Shown(model, org, filters, withDeleted, onlyDeleted, row)
  }

  lemma ListedShown(model: Model, org: OrgId, q: Listing, row: Row)
    ensures Shown(model, org, q.filters, q.withDeleted, q.onlyDeleted, row)
            <==> Listed(model, Some(org), q, row) && (q.onlyDeleted ==> model.softDelete)
  {
    forall column: string ensures Holds(row, column, Column(row, column)) {
    }
    forall column: string, v | Holds(row, column, v) ensures v == Column(row, column) {
    }
    forall i | 0 <= i < |q.filters| ensures q.filters[i] in q.filters {
    }
  }

  lemma {:induction false} SelectAscends(rows: seq<Row>, where: Row -> bool)
    requires Ascending(rows)
    ensures Ascending(Select(rows, where)) && forall row :: row in Select(rows, where) <==> row in rows && where(row)
  {
    if rows != [] {
      var front, last := rows[..|rows| - 1], rows[|rows| - 1];
      SelectAscends(front, where);
      SelectLast(rows, where);
      hide Select;
      forall k | 0 <= k < |Select(front, where)| ensures Select(front, where)[k].id < last.id {
        assert Select(front, where)[k] in front;
      }
      assert forall row :: row in rows <==> row in front || row == last;
    }
  }

  lemma ViewExact(model: Model, rows: seq<Row>, org: OrgId, q: Listing)
    requires Ascending(rows)
    ensures IsView(model, rows, org, q.filters, q.withDeleted, q.onlyDeleted, View(model, rows, Some(org), q))
  {
    hide Select, Shown, Listed;
    SelectAscends(rows, ListedWhere(model, Some(org), q));
    forall row: Row ensures Shown(model, org, q.filters, q.withDeleted, q.onlyDeleted, row)
                            <==> Listed(model, Some(org), q, row) && (q.onlyDeleted ==> model.softDelete) {
      ListedShown(model, org, q, row);
    }
    ShownNeedsMark(model, org, q);
  }

  lemma ShownNeedsMark(model: Model, org: OrgId, q: Listing)
    ensures q.onlyDeleted && !model.softDelete ==> forall row :: !Shown(model, org, q.filters, q.withDeleted, q.onlyDeleted, row)
  {
  }

  /** The rows from `start` on, at most `size` of them, in the direction asked for. */
  predicate CutOf(view: seq<Row>, descending: bool, start: nat, size: nat, page: seq<Row>) {
    && (start >= |view| ==> page == [])
    && (start < |view| ==> |page| == Min(size, |view| - start))
    && forall k :: 0 <= k < |page| ==> start + k < |view| && page[k] == view[if descending then |view| - 1 - start - k else start + k]
  }

  function StartAt(page: int, limit: int): nat {
    if page <= 1 || limit <= 0 then 0 else Before(page - 1, limit)
  }

  function Before(pages: nat, limit: nat): nat {
    pages * limit
  }

  function SizeAt(limit: int): nat {
    if limit == 0 then 50 else if limit < 0 then 1 else if limit > 100 then 100 else limit
  }

  /** What a page of the list handler shows: of the rows in the view, from (page - 1) * limit on, as many as
      the limit says but at least one and at most 100, or 50 when it is 0. */
  lemma ListExact(model: Model, rows: seq<Row>, org: OrgId, r: Request)
    requires Ascending(rows) && r.ListRows?
    ensures exists view, page ::
              && Handle(model, rows, org, r) == (rows, Rows(page))
              && IsView(model, rows, org, r.filters, r.withDeleted, r.onlyDeleted, view)
              && CutOf(view, r.descending, StartAt(r.page, r.limit), SizeAt(r.limit), page)
  {
    hide Select, Listed, View, IsView, CutOf, Page, Ordered, SafeLimit, SafeOffset, StartAt, SizeAt;
    var q := QueryOf(r);
    ViewExact(model, rows, org, q);
    var view := View(model, rows, Some(org), q);
    StartOf(r.page, r.limit);
    SizeOf(r.limit);
    PageIsCut(view, q);
    ListedPage(model, rows, org, r);
  }

  lemma ListedPage(model: Model, rows: seq<Row>, org: OrgId, r: Request)
    requires r.ListRows?
    ensures var q := QueryOf(r);
            Handle(model, rows, org, r) == (rows, Rows(Page(Ordered(q, View(model, rows, Some(org), q)), SafeLimit(q.limit), SafeOffset(q.offset))))
  {
    hide View, Page, Ordered, SafeLimit, SafeOffset;
  }

  lemma SizeOf(limit: int)
    ensures SafeLimit(Min(limit, 100)) == SizeAt(limit)
  {
  }

  lemma StartOf(page: int, limit: int)
    ensures SafeOffset((Max(1, page) - 1) * limit) == StartAt(page, limit)
  {
    if page > 1 && limit < 0 {
      assert (page - 1) * limit < 0;
    }
  }

  lemma PageIsCut(view: seq<Row>, q: Listing)
    ensures CutOf(view, q.descending, SafeOffset(q.offset), SafeLimit(q.limit), Page(Ordered(q, view), SafeLimit(q.limit), SafeOffset(q.offset)))
  {
  }

  /** The count handler answers how many rows there are in the same view. */
  lemma CountExact(model: Model, rows: seq<Row>, org: OrgId, r: Request)
    requires Ascending(rows) && r.CountRows?
    ensures exists view ::
              Handle(model, rows, org, r) == (rows, Total(|view|)) && IsView(model, rows, org, r.counted, r.includeDeleted, r.archived, view)
  {
    ViewExact(model, rows, org, CountQuery(r));
  }
}
