/**
  The scoped table operations of src/models/BaseModel.js.  A table is the sequence of its rows in
  primary-key order; an SQL statement is a selection or update of the rows that satisfy its WHERE
  clause.  Class `ModelTable` builds the clauses and runs the statements in place.
*/
module CrudModel {
  import opened Numbers
  import opened Wrappers

  type Id = nat
  type OrgId = nat

  datatype Val = Null | Num(n: int) | Text(s: string)

  /** Everything but the key, the tenant and the soft-delete mark is an ordinary column. */
  datatype Row = Row(id: Id, org: Option<OrgId>, deleted: bool, cols: map<string, Val>)

  /** What a concrete model declares.  `equal` is the database's comparison of a column with a bound
      value, whatever collation or coercion it applies. */
  datatype Model = Model(hasOrgScope: bool, softDelete: bool, fillable: seq<string>, filterable: set<string>,
                         equal: (Val, Val) -> bool)

  datatype CrudError = NotFound | OrgImmutable | NoFillableData | NoSoftDelete

  type Data = map<string, Val>

  // ---------------------------------------------------------------------------
  // Statements
  // ---------------------------------------------------------------------------

  function Select(rows: seq<Row>, where: Row -> bool): (r: seq<Row>)
    ensures |r| <= |rows|
    ensures forall row <- r :: row in rows && where(row)
  {
    if rows == [] then []
    else Select(rows[..|rows| - 1], where) + if where(rows[|rows| - 1]) then [rows[|rows| - 1]] else []
  }

  function UpdateWhere(rows: seq<Row>, where: Row -> bool, change: Row -> Row): (r: seq<Row>)
    ensures |r| == |rows|
    ensures forall i :: 0 <= i < |rows| ==> r[i] == if where(rows[i]) then change(rows[i]) else rows[i]
  {
    seq(|rows|, i requires 0 <= i < |rows| => if where(rows[i]) then change(rows[i]) else rows[i])
  }

  /** rows[0] || null */
  function First(rows: seq<Row>): Option<Row> {
    if rows == [] then None else Some(rows[0])
  }

  /** organization_id = ?, when the caller is scoped and the table has the column. */
  predicate InScope(model: Model, org: Option<OrgId>, row: Row) {
    org.None? || !model.hasOrgScope || row.org == org
  }

  predicate Visible(model: Model, org: Option<OrgId>, row: Row) {
    InScope(model, org, row) && (model.softDelete ==> !row.deleted)
  }

  function ById(model: Model, id: Id, org: Option<OrgId>): Row -> bool {
    (row: Row) => row.id == id && Visible(model, org, row)
  }

  function FindById(model: Model, rows: seq<Row>, id: Id, org: Option<OrgId>): Option<Row> {
    First(Select(rows, ById(model, id, org)))
  }

  // ---------------------------------------------------------------------------
  // Writes
  // ---------------------------------------------------------------------------

  /** The fillable part of the request body. */
  function Filtered(model: Model, data: Data): Data {
    map key | key in data && key in model.fillable :: data[key]
  }

  function OrgOf(v: Val): Option<OrgId> {
    if v.Num? && v.n >= 0 then Some(v.n) else None
  }

  /** SET clauses, or the columns of an INSERT. */
  function SetColumns(row: Row, data: Data): Row {
    Row(row.id,
        if "organization_id" in data then OrgOf(data["organization_id"]) else row.org,
        row.deleted,
        row.cols + (data - {"organization_id"}))
  }

  function Inserted(id: Id, data: Data): Row {
    SetColumns(Row(id, None, false, map[]), data)
  }

  /** Model.create with the id the database assigns. */
  function Create(model: Model, rows: seq<Row>, data: Data, id: Id): Result<(seq<Row>, Row), CrudError> {
    if Filtered(model, data) == map[] then Failure(NoFillableData)
    else Success((rows + [Inserted(id, Filtered(model, data))], Inserted(id, Filtered(model, data))))
  }

  function UpdatedRows(model: Model, rows: seq<Row>, id: Id, data: Data, org: Option<OrgId>): seq<Row> {
    UpdateWhere(rows, ById(model, id, org), (row: Row) => SetColumns(row, Filtered(model, data)))
  }

  /** Model.update: a record can never be moved between tenants. */
  function Update(model: Model, rows: seq<Row>, id: Id, data: Data, org: Option<OrgId>): Result<(seq<Row>, Option<Row>), CrudError> {
    if model.hasOrgScope && "organization_id" in data then Failure(OrgImmutable)
    else if Select(rows, ById(model, id, org)) == [] then Failure(NotFound)
    else if Filtered(model, data) == map[] then Success((rows, FindById(model, rows, id, org)))
    else
      var rows' := UpdatedRows(model, rows, id, data, org);
      Success((rows', FindById(model, rows', id, org)))
  }

  /** Model.delete: a mark when the model soft-deletes, otherwise the row goes. */
  function Delete(model: Model, rows: seq<Row>, id: Id, org: Option<OrgId>): Result<seq<Row>, CrudError> {
    if Select(rows, ById(model, id, org)) == [] then Failure(NotFound)
    else if model.softDelete then Success(UpdateWhere(rows, ById(model, id, org), (row: Row) => row.(deleted := true)))
    else Success(Select(rows, (row: Row) => !(row.id == id && InScope(model, org, row))))
  }

  function RestoreWhere(model: Model, id: Id, org: Option<OrgId>): Row -> bool {
    (row: Row) => row.id == id && InScope(model, org, row) && row.deleted
  }

  function Restore(model: Model, rows: seq<Row>, id: Id, org: Option<OrgId>): Result<(seq<Row>, Option<Row>), CrudError> {
    if !model.softDelete then Failure(NoSoftDelete)
    else if Select(rows, RestoreWhere(model, id, org)) == [] then Failure(NotFound)
    else
      var rows' := UpdateWhere(rows, RestoreWhere(model, id, org), (row: Row) => row.(deleted := false));
      Success((rows', FindById(model, rows', id, org)))
  }

  // ---------------------------------------------------------------------------
  // Listing
  // ---------------------------------------------------------------------------

  /** Column filters in the order of the query string. */
  type Filters = seq<(string, Val)>

  datatype Listing = Listing(filters: Filters, descending: bool, limit: int, offset: int, withDeleted: bool, onlyDeleted: bool)

  predicate Filterable(model: Model, col: string) {
    col in model.fillable || col in model.filterable || col == "id" || col == "status" || col == "organization_id"
  }

  function Column(row: Row, col: string): Val {
    if col == "id" then Num(row.id)
    else if col == "organization_id" then (if row.org.Some? then Num(row.org.value) else Null)
    else if col in row.cols then row.cols[col] else Null
  }

  /** What a listing is meant to show: the caller's tenant, the chosen soft-delete view, and equality on
      every filter that names an allowed column. */
  predicate Listed(model: Model, org: Option<OrgId>, q: Listing, row: Row) {
    && InScope(model, org, row)
    && (model.softDelete ==> if q.onlyDeleted then row.deleted else q.withDeleted || !row.deleted)
    && forall f <- q.filters :: Filterable(model, f.0) ==> model.equal(Column(row, f.0), f.1)
  }

  /** One conjunct of a WHERE clause. */
  datatype Condition = OrgIs(org: OrgId) | IsDeleted | NotDeleted | ColumnIs(col: string, val: Val)

  predicate Holds(model: Model, c: Condition, row: Row) {
    match c
    case OrgIs(org) => row.org == Some(org)
    case IsDeleted => row.deleted
    case NotDeleted => !row.deleted
    case ColumnIs(col, val) => model.equal(Column(row, col), val)
  }

  predicate AllHold(model: Model, conditions: seq<Condition>, row: Row) {
    forall c <- conditions :: Holds(model, c, row)
  }

  function ListedWhere(model: Model, org: Option<OrgId>, q: Listing): Row -> bool {
    (row: Row) => Listed(model, org, q, row)
  }

  /** The rows a listing ranges over, in id order. */
  function View(model: Model, rows: seq<Row>, org: Option<OrgId>, q: Listing): seq<Row> {
    if q.onlyDeleted && !model.softDelete then [] else Select(rows, ListedWhere(model, org, q))
  }

  function Reverse<T>(rows: seq<T>): (r: seq<T>)
    ensures |r| == |rows|
  {
    seq(|rows|, i requires 0 <= i < |rows| => rows[|rows| - 1 - i])
  }

  function Ordered(q: Listing, rows: seq<Row>): (r: seq<Row>)
    ensures |r| == |rows|
  {
    if q.descending then Reverse(rows) else rows
  }

  /** LIMIT n OFFSET k */
  function Page(rows: seq<Row>, limit: nat, offset: nat): seq<Row> {
    rows[Min(offset, |rows|)..Min(offset + limit, |rows|)]
  }

  /** Math.max(1, parseInt(limit, 10) || 50) */
  function SafeLimit(limit: int): nat {
    Max(1, if limit == 0 then 50 else limit)
  }

  function SafeOffset(offset: int): nat {
    Max(0, offset)
  }

  function FindAll(model: Model, rows: seq<Row>, org: Option<OrgId>, q: Listing): seq<Row> {
    Page(Ordered(q, View(model, rows, org, q)), SafeLimit(q.limit), SafeOffset(q.offset))
  }

  // ---------------------------------------------------------------------------
  // The statements as the model issues them
  // ---------------------------------------------------------------------------

  lemma {:induction false} SelectCongruent(rows: seq<Row>, p: Row -> bool, q: Row -> bool)
    requires forall row <- rows :: p(row) == q(row)
    ensures Select(rows, p) == Select(rows, q)
  {
    if rows != [] {
      SelectCongruent(rows[..|rows| - 1], p, q);
      assert rows[|rows| - 1] in rows;
    }
  }

  class ModelTable {
    const model: Model
    var rows: seq<Row>

    constructor (model: Model, rows: seq<Row>)
      ensures this.model == model && this.rows == rows
    {
      this.model := model;
      this.rows := rows;
    }

    /** Pushes the conditions of a listing; the clause they make is the one the listing means. */
    method BuildConditions(org: Option<OrgId>, q: Listing) returns (conditions: seq<Condition>)
      ensures forall row: Row :: AllHold(model, conditions, row) <==> Listed(model, org, q, row)
    {
      conditions := [];
      if org.Some? && model.hasOrgScope {
        conditions := conditions + [OrgIs(org.value)];
      }
      if model.softDelete && q.onlyDeleted {
        conditions := conditions + [IsDeleted];
      } else if model.softDelete && !q.withDeleted {
        conditions := conditions + [NotDeleted];
      }
      ghost var head := conditions;
      for i := 0 to |q.filters|
        invariant forall row: Row :: AllHold(model, conditions, row) <==>
                    AllHold(model, head, row)
                    && forall f <- q.filters[..i] :: Filterable(model, f.0) ==> model.equal(Column(row, f.0), f.1)
      {
        var (col, val) := q.filters[i];
        assert q.filters[..i + 1] == q.filters[..i] + [(col, val)];
        if Filterable(model, col) {
          ghost var before := conditions;
          conditions := conditions + [ColumnIs(col, val)];
          assert forall row: Row :: AllHold(model, conditions, row) <==>
            AllHold(model, before, row) && Holds(model, ColumnIs(col, val), row);
        }
      }
      assert q.filters[..|q.filters|] == q.filters;
      HeadConditions(model, org, q, head);
    }

    method List(org: Option<OrgId>, q: Listing) returns (page: seq<Row>)
      ensures page == FindAll(model, rows, org, q)
    {
      if q.onlyDeleted && !model.softDelete {
        return [];
      }
      var conditions := BuildConditions(org, q);
      var where := (row: Row) => AllHold(model, conditions, row);
      SelectCongruent(rows, where, ListedWhere(model, org, q));
      page := Page(Ordered(q, Select(rows, where)), SafeLimit(q.limit), SafeOffset(q.offset));
    }

    method Count(org: Option<OrgId>, q: Listing) returns (total: nat)
      ensures total == |View(model, rows, org, q)|
    {
      if q.onlyDeleted && !model.softDelete {
        return 0;
      }
      var conditions := BuildConditions(org, q);
      var where := (row: Row) => AllHold(model, conditions, row);
      SelectCongruent(rows, where, ListedWhere(model, org, q));
      total := |Select(rows, where)|;
    }

    /** The loop over fillable that fills `filtered`. */
    method FilterData(data: Data) returns (filtered: Data)
      ensures filtered == Filtered(model, data)
    {
      filtered := map[];
      for i := 0 to |model.fillable|
        invariant filtered == map key | key in data && key in model.fillable[..i] :: data[key]
      {
        var key := model.fillable[i];
        assert model.fillable[..i + 1] == model.fillable[..i] + [key];
        if key in data {
          filtered := filtered[key := data[key]];
        }
      }
      assert model.fillable[..|model.fillable|] == model.fillable;
    }

    method CreateRow(data: Data, id: Id) returns (r: Result<Row, CrudError>)
      modifies this
      ensures match Create(model, old(rows), data, id)
              case Success((rows', row)) => r == Success(row) && rows == rows'
              case Failure(e) => r == Failure(e) && rows == old(rows)
    {
      var filtered := FilterData(data);
      if filtered == map[] {
        return Failure(NoFillableData);
      }
      var row := Inserted(id, filtered);
      rows := rows + [row];
      r := Success(row);
    }

    method UpdateRow(id: Id, data: Data, org: Option<OrgId>) returns (r: Result<Option<Row>, CrudError>)
      modifies this
      ensures match Update(model, old(rows), id, data, org)
              case Success((rows', row)) => r == Success(row) && rows == rows'
              case Failure(e) => r == Failure(e) && rows == old(rows)
    {
      if model.hasOrgScope && "organization_id" in data {
        return Failure(OrgImmutable);
      }
      var filtered := FilterData(data);
      var affected := |Select(rows, ById(model, id, org))|;
      if affected == 0 {
        return Failure(NotFound);
      }
      if filtered != map[] {
        rows := UpdateWhere(rows, ById(model, id, org), (row: Row) => SetColumns(row, filtered));
        assert rows == UpdatedRows(model, old(rows), id, data, org);
      }
      r := Success(FindById(model, rows, id, org));
    }

    method DeleteRow(id: Id, org: Option<OrgId>) returns (r: Result<(), CrudError>)
      modifies this
      ensures match Delete(model, old(rows), id, org)
              case Success(rows') => r == Success(()) && rows == rows'
              case Failure(e) => r == Failure(e) && rows == old(rows)
    {
      var affected := |Select(rows, ById(model, id, org))|;
      if affected == 0 {
        return Failure(NotFound);
      }
      if model.softDelete {
        rows := UpdateWhere(rows, ById(model, id, org), (row: Row) => row.(deleted := true));
      } else {
        rows := Select(rows, (row: Row) => !(row.id == id && InScope(model, org, row)));
      }
      r := Success(());
    }

    method RestoreRow(id: Id, org: Option<OrgId>) returns (r: Result<Option<Row>, CrudError>)
      modifies this
      ensures match Restore(model, old(rows), id, org)
              case Success((rows', row)) => r == Success(row) && rows == rows'
              case Failure(e) => r == Failure(e) && rows == old(rows)
    {
      if !model.softDelete {
        return Failure(NoSoftDelete);
      }
      var affected := |Select(rows, RestoreWhere(model, id, org))|;
      if affected == 0 {
        return Failure(NotFound);
      }
      rows := UpdateWhere(rows, RestoreWhere(model, id, org), (row: Row) => row.(deleted := false));
      r := Success(FindById(model, rows, id, org));
    }
  }

  lemma HeadConditions(model: Model, org: Option<OrgId>, q: Listing, head: seq<Condition>)
    requires head == (if org.Some? && model.hasOrgScope then [OrgIs(org.value)] else [])
                     + (if model.softDelete && q.onlyDeleted then [IsDeleted]
                        else if model.softDelete && !q.withDeleted then [NotDeleted] else [])
    ensures forall row: Row :: AllHold(model, head, row) <==>
              InScope(model, org, row)
              && (model.softDelete ==> if q.onlyDeleted then row.deleted else q.withDeleted || !row.deleted)
  {
    forall row: Row
      ensures AllHold(model, head, row) <==>
                InScope(model, org, row)
                && (model.softDelete ==> if q.onlyDeleted then row.deleted else q.withDeleted || !row.deleted)
    {
      if org.Some? && model.hasOrgScope {
        assert OrgIs(org.value) in head;
      }
      if model.softDelete && q.onlyDeleted {
        assert IsDeleted in head;
      } else if model.softDelete && !q.withDeleted {
        assert NotDeleted in head;
      }
    }
  }
}
