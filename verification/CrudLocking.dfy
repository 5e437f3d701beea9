/**
  The transactional writes of src/controllers/crudController.js: any number of update, delete and
  restore requests interleave, each between its awaits.  A row lock is taken by the locking read (by
  the UPDATE itself for a restore) and held until commit or rollback; until commit a write is seen by
  its own transaction only.  The queries of a read (a list runs two, which other requests may come
  between), creates and refused updates are single statements.
*/
module CrudLocking {
  import opened Wrappers
  import opened CrudModel
  import opened CrudTenancy

  type TxnId = nat

  datatype Phase =
    | Begun
    | Locked(old_: Row)
    | Guarded(old_: Row)
    | Written(seen: Option<Row>, base: Row, image: Option<Row>, answer: Answer)
    | Throwing
    | Committed
    | RolledBack

  /** `guard` is the resource's before hook, as far as it looks at the locked row. */
  datatype Txn = Txn(event: Event, guard: Row -> bool, phase: Phase)
  {
    function Id(): Id
      requires Transactional(event.request)
    {
      event.request.id
    }
  }

  /** What took effect, in that order; `txn` and `seen` are None for a single statement. */
  datatype Entry = Entry(txn: Option<TxnId>, event: Event, answer: Answer, seen: Option<Row>)

  datatype World = World(rows: seq<Row>, locks: map<Id, TxnId>, txns: map<TxnId, Txn>, log: seq<Entry>)

  datatype Step =
    | Begin(t: TxnId, event: Event, guard: Row -> bool)
    | LockRead(t: TxnId)
    | RunGuard(t: TxnId)
    | Write(t: TxnId)
    | Commit(t: TxnId)
    | Throw(t: TxnId)
    | Rollback(t: TxnId)
    | Direct(event: Event)

  predicate Transactional(r: Request) {
    r.UpdateRow? || r.DestroyRow? || r.RestoreRow?
  }

  /** applyUpdate's refusal before it takes a connection. */
  predicate RefusedEarly(model: Model, r: Request) {
    r.UpdateRow? && model.hasOrgScope && "organization_id" in r.body
  }

  /** The row a primary key names. */
  function LookUp(rows: seq<Row>, id: Id): Option<Row> {
    First(Select(rows, WithId(id)))
  }

  function WithId(id: Id): Row -> bool {
    (row: Row) => row.id == id
  }

  /** Makes a row version (or its removal) the committed one. */
  function Install(rows: seq<Row>, id: Id, image: Option<Row>): seq<Row> {
    match image
    case Some(row) => UpdateWhere(rows, WithId(id), (_: Row) => row)
    case None => Select(rows, (row: Row) => row.id != id)
  }

  /** The model's own statement for a request, without the controller's fetch. */
  function Statement(model: Model, rows: seq<Row>, e: Event): Result<(seq<Row>, Answer), CrudError>
    requires Transactional(e.request)
  {
    match e.request
    case UpdateRow(id, body) =>
      (match Update(model, rows, id, body, Some(e.org))
       case Success((rows', row)) => Success((rows', Record(row)))
       case Failure(err) => Failure(err))
    case DestroyRow(id) =>
      (match Delete(model, rows, id, Some(e.org))
       case Success(rows') => Success((rows', NoContent))
       case Failure(err) => Failure(err))
    case RestoreRow(id) =>
      (match Restore(model, rows, id, Some(e.org))
       case Success((rows', row)) => Success((rows', Record(row)))
       case Failure(err) => Failure(err))
  }

  // ---------------------------------------------------------------------------
  // Steps
  // ---------------------------------------------------------------------------

  predicate Active(w: World, t: TxnId) {
    t in w.txns && Transactional(w.txns[t].event.request)
    && !w.txns[t].phase.Committed? && !w.txns[t].phase.RolledBack?
  }

  predicate CanLock(w: World, t: TxnId)
    requires Active(w, t)
  {
    w.txns[t].Id() !in w.locks
  }

  predicate Enabled(model: Model, w: World, step: Step) {
    match step
    case Begin(t, event, _) => t !in w.txns && Transactional(event.request) && !RefusedEarly(model, event.request)
    case LockRead(t) => Active(w, t) && w.txns[t].phase.Begun? && !w.txns[t].event.request.RestoreRow? && CanLock(w, t)
    case RunGuard(t) => Active(w, t) && w.txns[t].phase.Locked?
    case Write(t) =>
      Active(w, t) && (w.txns[t].phase.Guarded? || (w.txns[t].phase.Begun? && w.txns[t].event.request.RestoreRow? && CanLock(w, t)))
    case Commit(t) => Active(w, t) && w.txns[t].phase.Written?
    case Throw(t) => Active(w, t)
    case Rollback(t) => Active(w, t) && w.txns[t].phase.Throwing?
    case Direct(event) =>
      (match event.request
       case CreateRow(_, newId) => LookUp(w.rows, newId).None?
       case UpdateRow(_, _) => RefusedEarly(model, event.request)
       case DestroyRow(_) => false
       case RestoreRow(_) => false
       case _ => true)
  }

  function Released(w: World, t: TxnId): map<Id, TxnId>
    requires Active(w, t)
  {
    var id := w.txns[t].Id();
    if id in w.locks && w.locks[id] == t then w.locks - {id} else w.locks
  }

  function SetPhase(w: World, t: TxnId, phase: Phase): map<TxnId, Txn>
    requires t in w.txns
  {
    w.txns[t := w.txns[t].(phase := phase)]
  }

  function LockReadPhase(model: Model, rows: seq<Row>, x: Txn): Phase
    requires Transactional(x.event.request)
  {
    var found := FindById(model, rows, x.Id(), Some(x.event.org));
    if found.Some? then Locked(found.value) else Throwing
  }

  function WritePhase(model: Model, rows: seq<Row>, x: Txn): Phase
    requires Transactional(x.event.request)
  {
    match Statement(model, rows, x.event)
    case Failure(_) => Throwing
    case Success((rows', answer)) =>
      var base := LookUp(rows, x.Id());
      if base.None? then Throwing
      else Written(if x.phase.Guarded? then Some(x.phase.old_) else None, base.value, LookUp(rows', x.Id()), answer)
  }

  function Do(model: Model, w: World, step: Step): World
    requires Enabled(model, w, step)
  {
    match step
    case Begin(t, event, guard) => w.(txns := w.txns[t := Txn(event, guard, Begun)])
    case LockRead(t) =>
      w.(locks := w.locks[w.txns[t].Id() := t], txns := SetPhase(w, t, LockReadPhase(model, w.rows, w.txns[t])))
    case RunGuard(t) =>
      var row := w.txns[t].phase.old_;
      w.(txns := SetPhase(w, t, if w.txns[t].guard(row) then Guarded(row) else Throwing))
    case Write(t) =>
      w.(locks := w.locks[w.txns[t].Id() := t], txns := SetPhase(w, t, WritePhase(model, w.rows, w.txns[t])))
    case Commit(t) =>
      var x := w.txns[t];
      World(Install(w.rows, x.Id(), x.phase.image), Released(w, t), SetPhase(w, t, Committed),
            w.log + [Entry(Some(t), x.event, x.phase.answer, x.phase.seen)])
    case Throw(t) => w.(txns := SetPhase(w, t, Throwing))
    case Rollback(t) => w.(locks := Released(w, t), txns := SetPhase(w, t, RolledBack))
    case Direct(event) =>
      var (rows', answer) := Handle(model, w.rows, event.org, event.request);
      w.(rows := rows', log := w.log + [Entry(None, event, answer, None)])
  }

  function Initial(rows: seq<Row>): World {
    World(rows, map[], map[], [])
  }

  predicate Runs(model: Model, w: World, steps: seq<Step>)
    decreases |steps|
  {
    steps == [] || (Enabled(model, w, steps[0]) && Runs(model, Do(model, w, steps[0]), steps[1..]))
  }

  function After(model: Model, w: World, steps: seq<Step>): World
    requires Runs(model, w, steps)
    decreases |steps|
  {
    if steps == [] then w else After(model, Do(model, w, steps[0]), steps[1..])
  }

  // ---------------------------------------------------------------------------
  // A request touches one row
  // ---------------------------------------------------------------------------

  /** What a request makes of the one row it names: the new version and the answer, None when it fails. */
  function RowEffect(model: Model, row: Row, e: Event): Option<(Option<Row>, Answer)>
    requires Transactional(e.request)
  {
    var org := Some(e.org);
    match e.request
    case UpdateRow(_, body) =>
      if !Visible(model, org, row) then None
      else if Filtered(model, body) == map[] then Some((Some(row), Record(Some(row))))
      else
        var row' := SetColumns(row, Filtered(model, body));
        Some((Some(row'), Record(if Visible(model, org, row') then Some(row') else None)))
    case DestroyRow(_) =>
      if !Visible(model, org, row) then None
      else Some((if model.softDelete then Some(row.(deleted := true)) else None, NoContent))
    case RestoreRow(_) =>
      if !model.softDelete || !InScope(model, org, row) || !row.deleted then None
      else Some((Some(row.(deleted := false)), Record(Some(row.(deleted := false)))))
  }

  lemma {:induction false} SelectUnique(rows: seq<Row>, i: nat, where: Row -> bool)
    requires UniqueIds(rows) && i < |rows|
    requires forall row: Row :: where(row) ==> row.id == rows[i].id
    ensures Select(rows, where) == if where(rows[i]) then [rows[i]] else []
  {
    hide Select;
    var front, last := rows[..|rows| - 1], rows[|rows| - 1];
    SelectLast(rows, where);
    if i < |front| {
      assert rows[i].id != last.id;
      SelectUnique(front, i, where);
    } else {
      OthersOut(rows, where);
    }
  }

  lemma OthersOut(rows: seq<Row>, where: Row -> bool)
    requires UniqueIds(rows) && rows != []
    requires forall row: Row :: where(row) ==> row.id == rows[|rows| - 1].id
    ensures Select(rows[..|rows| - 1], where) == []
  {
    hide Select;
    forall k | 0 <= k < |rows| - 1 ensures !where(rows[k]) {
      assert rows[k].id != rows[|rows| - 1].id;
    }
    SelectNone(rows[..|rows| - 1], where);
  }

  lemma LookUpFinds(rows: seq<Row>, i: nat)
    requires UniqueIds(rows) && i < |rows|
    ensures LookUp(rows, rows[i].id) == Some(rows[i])
  {
    SelectUnique(rows, i, WithId(rows[i].id));
  }

  /** Position of a row that is there. */
  lemma Located(rows: seq<Row>, id: Id) returns (i: nat)
    requires LookUp(rows, id).Some?
    ensures i < |rows| && rows[i] == LookUp(rows, id).value && rows[i].id == id
  {
    var row := LookUp(rows, id).value;
    assert row in Select(rows, WithId(id));
    i :| 0 <= i < |rows| && rows[i] == row;
  }

  lemma LookUpNone(rows: seq<Row>, id: Id)
    ensures LookUp(rows, id).None? <==> forall row <- rows :: row.id != id
  {
    if LookUp(rows, id).None? {
      forall row | row in rows ensures row.id != id {
        if row.id == id {
          SelectFinds(rows, WithId(id), row);
        }
      }
    } else {
      var i := Located(rows, id);
      assert rows[i] in rows;
    }
  }

  /** The scoped fetch is the look-up filtered by what the tenant may see. */
  lemma FindByLookUp(model: Model, rows: seq<Row>, id: Id, org: Option<OrgId>)
    requires UniqueIds(rows)
    ensures FindById(model, rows, id, org)
            == match LookUp(rows, id)
               case Some(row) => if Visible(model, org, row) then Some(row) else None
               case None => None
  {
    if LookUp(rows, id).Some? {
      var i := Located(rows, id);
      SelectUnique(rows, i, ById(model, id, org));
    } else {
      LookUpNone(rows, id);
      SelectNone(rows, ById(model, id, org));
    }
  }

  lemma InstallElsewhere(rows: seq<Row>, id: Id, image: Option<Row>, other: Id)
    requires image.Some? ==> image.value.id == id
    ensures other != id ==> LookUp(Install(rows, id, image), other) == LookUp(rows, other)
  {
    if other != id {
      match image {
        case Some(row) =>
          UpdateWithin(rows, WithId(other), WithId(id), (_: Row) => row);
          UpdateOutside(Select(rows, WithId(other)), WithId(id), (_: Row) => row);
        case None =>
          SelectWithin(rows, (row: Row) => row.id != id, WithId(other));
      }
    }
  }

  lemma InstallHere(rows: seq<Row>, id: Id, image: Option<Row>)
    requires UniqueIds(rows) && LookUp(rows, id).Some?
    requires image.Some? ==> image.value.id == id
    ensures UniqueIds(Install(rows, id, image))
    ensures LookUp(Install(rows, id, image), id) == image
  {
    var i := Located(rows, id);
    var after := Install(rows, id, image);
    if image.Some? {
      forall j, k | 0 <= j < k < |after| ensures after[j].id != after[k].id {
        assert rows[j].id != rows[k].id;
      }
      LookUpFinds(after, i);
    } else {
      SelectKeepsUnique(rows, (row: Row) => row.id != id);
      LookUpNone(after, id);
    }
  }

  /** A statement is its effect on the named row, installed in the table; the same for the whole request
      run alone. */
  lemma StatementIsLocal(model: Model, rows: seq<Row>, e: Event, base: Row)
    requires UniqueIds(rows) && Transactional(e.request) && !RefusedEarly(model, e.request)
    requires LookUp(rows, e.request.id) == Some(base)
    ensures match RowEffect(model, base, e)
            case Some((image, answer)) =>
              Statement(model, rows, e) == Success((Install(rows, e.request.id, image), answer))
            case None => Statement(model, rows, e).Failure?
  {
    var id, org := e.request.id, Some(e.org);
    var i := Located(rows, id);
    SelectUnique(rows, i, ById(model, id, org));
    match e.request {
      case UpdateRow(_, body) => UpdateIsLocal(model, rows, e, i);
      case DestroyRow(_) => DeleteIsLocal(model, rows, e, i);
      case RestoreRow(_) => RestoreIsLocal(model, rows, e, i);
    }
  }

  lemma UpdateIsLocal(model: Model, rows: seq<Row>, e: Event, i: nat)
    requires UniqueIds(rows) && e.request.UpdateRow? && !RefusedEarly(model, e.request)
    requires i < |rows| && rows[i].id == e.request.id
    ensures match RowEffect(model, rows[i], e)
            case Some((image, answer)) =>
              Statement(model, rows, e) == Success((Install(rows, e.request.id, image), answer))
            case None => Statement(model, rows, e).Failure?
  {
    var id, org, data := e.request.id, Some(e.org), Filtered(model, e.request.body);
    var where := ById(model, id, org);
    SelectUnique(rows, i, where);
    if Visible(model, org, rows[i]) {
      var image := if data == map[] then rows[i] else SetColumns(rows[i], data);
      var after := Install(rows, id, Some(image));
      if data == map[] {
        OnlyThatRow(rows, i, where, (row: Row) => row, image);
        assert UpdateWhere(rows, where, (row: Row) => row) == rows;
      } else {
        OnlyThatRow(rows, i, where, (row: Row) => SetColumns(row, data), image);
        assert UpdatedRows(model, rows, id, e.request.body, org) == after;
      }
      InstallHere(rows, id, Some(image));
      LookUpFinds(rows, i);
      FindByLookUp(model, after, id, org);
    }
  }

  /** Updating a clause that only the row at i meets is installing that row's new version. */
  lemma OnlyThatRow(rows: seq<Row>, i: nat, where: Row -> bool, change: Row -> Row, image: Row)
    requires UniqueIds(rows) && i < |rows| && where(rows[i]) && image == change(rows[i])
    requires forall row: Row :: where(row) ==> row.id == rows[i].id
    ensures UpdateWhere(rows, where, change) == Install(rows, rows[i].id, Some(image))
    ensures LookUp(rows, rows[i].id) == Some(rows[i])
  {
    forall j | 0 <= j < |rows|
      ensures UpdateWhere(rows, where, change)[j] == Install(rows, rows[i].id, Some(image))[j]
    {
      if j < i {
        assert rows[j].id != rows[i].id;
      } else if i < j {
        assert rows[i].id != rows[j].id;
      }
    }
    LookUpFinds(rows, i);
  }

  lemma DeleteIsLocal(model: Model, rows: seq<Row>, e: Event, i: nat)
    requires UniqueIds(rows) && e.request.DestroyRow?
    requires i < |rows| && rows[i].id == e.request.id
    ensures match RowEffect(model, rows[i], e)
            case Some((image, answer)) =>
              Statement(model, rows, e) == Success((Install(rows, e.request.id, image), answer))
            case None => Statement(model, rows, e).Failure?
  {
    var id, org := e.request.id, Some(e.org);
    var where := ById(model, id, org);
    SelectUnique(rows, i, where);
    if Visible(model, org, rows[i]) {
      if model.softDelete {
        OnlyThatRow(rows, i, where, (row: Row) => row.(deleted := true), rows[i].(deleted := true));
      } else {
        var kept, others := (row: Row) => !(row.id == id && InScope(model, org, row)), (row: Row) => row.id != id;
        forall row | row in rows ensures kept(row) == others(row) {
          var j :| 0 <= j < |rows| && rows[j] == row;
          if j < i {
            assert rows[j].id != rows[i].id;
          } else if i < j {
            assert rows[i].id != rows[j].id;
          }
        }
        SelectCongruent(rows, kept, others);
      }
    }
  }

  lemma RestoreIsLocal(model: Model, rows: seq<Row>, e: Event, i: nat)
    requires UniqueIds(rows) && e.request.RestoreRow?
    requires i < |rows| && rows[i].id == e.request.id
    ensures match RowEffect(model, rows[i], e)
            case Some((image, answer)) =>
              Statement(model, rows, e) == Success((Install(rows, e.request.id, image), answer))
            case None => Statement(model, rows, e).Failure?
  {
    var id, org := e.request.id, Some(e.org);
    var where := RestoreWhere(model, id, org);
    SelectUnique(rows, i, where);
    if model.softDelete && where(rows[i]) {
      var image := rows[i].(deleted := false);
      OnlyThatRow(rows, i, where, (row: Row) => row.(deleted := false), image);
      InstallHere(rows, id, Some(image));
      FindByLookUp(model, Install(rows, id, Some(image)), id, org);
    }
  }

  /** Run alone, a request that passes its fetch is its statement. */
  lemma AloneIsStatement(model: Model, rows: seq<Row>, e: Event, base: Row)
    requires UniqueIds(rows) && Transactional(e.request) && !RefusedEarly(model, e.request)
    requires LookUp(rows, e.request.id) == Some(base) && RowEffect(model, base, e).Some?
    ensures var (image, answer) := RowEffect(model, base, e).value;
            Handle(model, rows, e.org, e.request) == (Install(rows, e.request.id, image), answer)
  {
    StatementIsLocal(model, rows, e, base);
    FindByLookUp(model, rows, e.request.id, Some(e.org));
  }
}
