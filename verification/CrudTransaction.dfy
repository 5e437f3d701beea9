/**
  One request's transaction in src/controllers/crudController.js (applyUpdate, inLockedTransaction):
  where a driver call or a guard may throw, what becomes of the table, of the error and of the
  connection.
*/
module CrudTransaction {
  import opened Wrappers
  import opened CrudModel

  datatype DriverCall = BeginTransaction | LockingRead | Statement | CommitCall | RollbackCall | DestroyCall | ReleaseCall

  datatype TxError = Driver(call: DriverCall) | Rejected(error: CrudError) | GuardThrew | AfterHookThrew

  /** A COMMIT succeeds, or throws without effect, or takes effect and then throws because its reply is lost. */
  datatype CommitFault = Replied | Refused | ReplyLost

  /** Which of the calls of the try block throw. */
  datatype WorkFaults = WorkFaults(begin: bool, read: bool, statement: bool, commit: CommitFault)

  /** Which of the calls of the catch and finally blocks throw. */
  datatype CleanupFaults = CleanupFaults(rollback: bool, destroy: bool, release: bool)

  /** How a block or a call ends: with None, or by throwing. */
  type Completion = Option<TxError>

  /** `open` says whether a transaction and its locks are still open on the connection. */
  class Connection {
    const destroyable: bool
    var open: bool
    var releases: nat
    var destroys: nat

    constructor (destroyable: bool)
      ensures this.destroyable == destroyable && !open && releases == 0 && destroys == 0
    {
      this.destroyable := destroyable;
      open, releases, destroys := false, 0, 0;
    }

    method Rollback(throws: bool) returns (c: Completion)
      modifies this`open
      ensures c == if throws then Some(Driver(RollbackCall)) else None
      ensures open == (old(open) && throws)
    {
      if throws {
        return Some(Driver(RollbackCall));
      }
      open := false;
      c := None;
    }

    /** A throwing destroy() or release() has been called all the same. */
    method Destroy(throws: bool) returns (c: Completion)
      modifies this`destroys
      ensures c == if throws then Some(Driver(DestroyCall)) else None
      ensures destroys == old(destroys) + 1
    {
      destroys := destroys + 1;
      c := if throws then Some(Driver(DestroyCall)) else None;
    }

    method Release(throws: bool) returns (c: Completion)
      modifies this`releases
      ensures c == if throws then Some(Driver(ReleaseCall)) else None
      ensures releases == old(releases) + 1
    {
      releases := releases + 1;
      c := if throws then Some(Driver(ReleaseCall)) else None;
    }

    /** The catch and finally blocks around a try block that ended with `tried`; `c` is how the whole
        statement ends.  Each call here may throw, and what it throws would take the place of the error on
        its way out unless it is caught. */
    method Dispose(tried: Completion, faults: CleanupFaults) returns (c: Completion)
      modifies this
      ensures c == tried
      ensures (releases == old(releases) + 1 && destroys == old(destroys)) || (releases == old(releases) && destroys == old(destroys) + 1)
      ensures destroys > old(destroys) <==> tried.Some? && faults.rollback && destroyable
      ensures open == (old(open) && (tried.None? || faults.rollback))
    {
      var disposed := false;
      c := tried;
      if tried.Some? {
        // catch (err)
        var thrown := Rollback(faults.rollback);
        if thrown.Some? && destroyable {
          disposed := true;
          thrown := Destroy(faults.destroy);
          if thrown.Some? {
            thrown := None; // catch: already gone
          }
        } else if thrown.Some? {
          thrown := None; // catch: there is no destroy()
        }
        c := if thrown.Some? then thrown else tried; // throw err
      }
      // finally
      if !disposed {
        var thrown := Release(faults.release);
        if thrown.Some? {
          thrown := None; // catch: the pool dropped it
        }
        c := if thrown.Some? then thrown else c;
      }
    }
  }

  /** What an update answers: the locked row and the record read back, or the first thing that went wrong. */
  function UpdateOutcome(model: Model, rows: seq<Row>, id: Id, body: Data, org: Option<OrgId>, guard: Row -> bool,
                         after: Option<Row> -> bool, faults: WorkFaults): Result<(Row, Option<Row>), TxError>
  {
    var found := FindById(model, rows, id, org);
    if model.hasOrgScope && "organization_id" in body then Failure(Rejected(OrgImmutable))
    else if faults.begin then Failure(Driver(BeginTransaction))
    else if faults.read then Failure(Driver(LockingRead))
    else if found.None? then Failure(Rejected(NotFound))
    else if !guard(found.value) then Failure(GuardThrew)
    else if faults.statement then Failure(Driver(Statement))
    else
      match Update(model, rows, id, body, org)
      case Failure(e) => Failure(Rejected(e))
      case Success((_, record)) =>
        if !after(record) then Failure(AfterHookThrew)
        else if !faults.commit.Replied? then Failure(Driver(CommitCall))
        else Success((found.value, record))
  }

  /** The update has taken effect, whether or not the caller is told. */
  predicate TookEffect(r: Result<(Row, Option<Row>), TxError>, faults: WorkFaults) {
    r.Success? || (r == Failure(Driver(CommitCall)) && faults.commit.ReplyLost?)
  }

  /** The table after a try block that ended so. */
  ghost predicate Left(model: Model, before: seq<Row>, after: seq<Row>, id: Id, body: Data, org: Option<OrgId>,
                       r: Result<(Row, Option<Row>), TxError>, faults: WorkFaults)
  {
    if TookEffect(r, faults) then
      Update(model, before, id, body, org).Success? && after == Update(model, before, id, body, org).value.0
    else after == before
  }

  /** The try block of applyUpdate; the transaction works on its own view of the table. */
  method UpdateInTransaction(table: ModelTable, conn: Connection, id: Id, body: Data, org: Option<OrgId>, guard: Row -> bool,
                             after: Option<Row> -> bool, faults: WorkFaults)
    returns (r: Result<(Row, Option<Row>), TxError>)
    requires !(table.model.hasOrgScope && "organization_id" in body)
    modifies table, conn`open
    ensures r == UpdateOutcome(table.model, old(table.rows), id, body, org, guard, after, faults)
    ensures r.Success? ==> Update(table.model, old(table.rows), id, body, org) == Success((table.rows, r.value.1))
    ensures Left(table.model, old(table.rows), table.rows, id, body, org, r, faults)
    ensures conn.open == (!TookEffect(r, faults) && (old(conn.open) || !faults.begin))
  {
    if faults.begin {
      return Failure(Driver(BeginTransaction));
    }
    conn.open := true;
    var view := new ModelTable(table.model, table.rows);
    if faults.read {
      return Failure(Driver(LockingRead));
    }
    var found := FindById(view.model, view.rows, id, org);
    if found.None? {
      return Failure(Rejected(NotFound));
    }
    if !guard(found.value) {
      return Failure(GuardThrew);
    }
    if faults.statement {
      return Failure(Driver(Statement));
    }
    var updated := view.UpdateRow(id, body, org);
    if updated.Failure? {
      return Failure(Rejected(updated.error));
    }
    if !after(updated.value) {
      return Failure(AfterHookThrew);
    }
    if faults.commit.Refused? {
      return Failure(Driver(CommitCall));
    }
    table.rows := view.rows;
    conn.open := false;
    if faults.commit.ReplyLost? {
      return Failure(Driver(CommitCall));
    }
    r := Success((found.value, updated.value));
  }

  /** applyUpdate with transactionalWrites.  The connection is handed back or destroyed exactly once on
      every path that took it; the caller gets the first error whatever the clean-up does; a failed update
      leaves the table unchanged, unless it is the reply to its COMMIT that was lost; and an open transaction
      goes back to the pool only when its ROLLBACK failed on a connection that cannot be destroyed. */
  method ApplyUpdate(table: ModelTable, conn: Connection, id: Id, body: Data, org: Option<OrgId>, guard: Row -> bool,
                     after: Option<Row> -> bool, work: WorkFaults, cleanup: CleanupFaults)
    returns (r: Result<(Row, Option<Row>), TxError>)
    requires !conn.open && conn.releases == 0 && conn.destroys == 0
    modifies table, conn
    ensures r == UpdateOutcome(table.model, old(table.rows), id, body, org, guard, after, work)
    ensures r.Success? ==> Update(table.model, old(table.rows), id, body, org) == Success((table.rows, r.value.1))
    ensures Left(table.model, old(table.rows), table.rows, id, body, org, r, work)
    ensures conn.releases + conn.destroys == if r == Failure(Rejected(OrgImmutable)) then 0 else 1
    ensures conn.open && conn.releases == 1 <==>
              r.Failure? && r.error != Rejected(OrgImmutable) && r.error != Driver(BeginTransaction) && !TookEffect(r, work)
              && cleanup.rollback && !conn.destroyable
    ensures conn.open ==> cleanup.rollback
  {
    hide Update, FindById;
    if table.model.hasOrgScope && "organization_id" in body {
      return Failure(Rejected(OrgImmutable));
    }
    r := UpdateInTransaction(table, conn, id, body, org, guard, after, work);
    var ended := conn.Dispose(if r.Failure? then Some(r.error) else None, cleanup);
    if ended.Some? {
      r := Failure(ended.value);
    }
    OrgCheckedFirst(table.model, old(table.rows), id, body, org);
  }

  lemma OrgCheckedFirst(model: Model, rows: seq<Row>, id: Id, body: Data, org: Option<OrgId>)
    requires !(model.hasOrgScope && "organization_id" in body)
    ensures Update(model, rows, id, body, org) != Failure(OrgImmutable)
  {
  }

  /** An update succeeds exactly when nothing throws: no call of the driver, no refusal of the model, not the
      guard on the row that was read, and not the hook on the row read back. */
  lemma SuccessExact(model: Model, rows: seq<Row>, id: Id, body: Data, org: Option<OrgId>, guard: Row -> bool,
                     after: Option<Row> -> bool, faults: WorkFaults, old_: Row, record: Option<Row>)
    ensures UpdateOutcome(model, rows, id, body, org, guard, after, faults) == Success((old_, record))
            <==> && !faults.begin && !faults.read && !faults.statement && faults.commit == Replied
                 && FindById(model, rows, id, org) == Some(old_) && guard(old_)
                 && Update(model, rows, id, body, org).Success? && Update(model, rows, id, body, org).value.1 == record && after(record)
  {
    hide FindById;
  }

  /** And otherwise the error is that of the first thing that went wrong, in the order of the calls. */
  lemma FirstErrorExact(model: Model, rows: seq<Row>, id: Id, body: Data, org: Option<OrgId>, guard: Row -> bool,
                        after: Option<Row> -> bool, faults: WorkFaults)
    ensures var r, found := UpdateOutcome(model, rows, id, body, org, guard, after, faults), FindById(model, rows, id, org);
            var named := model.hasOrgScope && "organization_id" in body;
            && (named ==> r == Failure(Rejected(OrgImmutable)))
            && (!named && faults.begin ==> r == Failure(Driver(BeginTransaction)))
            && (!named && !faults.begin && faults.read ==> r == Failure(Driver(LockingRead)))
            && (!named && !faults.begin && !faults.read && found == None ==> r == Failure(Rejected(NotFound)))
            && var locked := !named && !faults.begin && !faults.read && found.Some?;
               && (r == Failure(GuardThrew) <==> locked && !guard(found.value))
               && (r == Failure(Driver(Statement)) <==> locked && guard(found.value) && faults.statement)
               && (locked && guard(found.value) && !faults.statement ==>
                     var record := FindById(model, Update(model, rows, id, body, org).value.0, id, org);
                     if !after(record) then r == Failure(AfterHookThrew) else if faults.commit != Replied then r == Failure(Driver(CommitCall)) else r.Success?)
  {
    hide Select;
    if FindById(model, rows, id, org).Some? && !(model.hasOrgScope && "organization_id" in body) {
      assert Update(model, rows, id, body, org).Success?;
    }
  }
}
