/** Every interleaving of `CrudLocking` is a serial run of `CrudTenancy`. */
module CrudSerial {
  import opened Wrappers
  import opened CrudModel
  import opened CrudTenancy
  import opened CrudLocking

  function Events(log: seq<Entry>): (events: seq<Event>)
    ensures |events| == |log|
  {
    seq(|log|, i requires 0 <= i < |log| => log[i].event)
  }

  /** The table before the k-th entry, had the entries run one at a time. */
  function Before(model: Model, initial: seq<Row>, log: seq<Entry>, k: nat): seq<Row>
    requires k <= |log|
  {
    Run(model, initial, Events(log[..k]))
  }

  // ---------------------------------------------------------------------------
  // Invariant
  // ---------------------------------------------------------------------------

  predicate Owns(w: World, t: TxnId)
    requires t in w.txns && Transactional(w.txns[t].event.request)
  {
    w.txns[t].Id() in w.locks && w.locks[w.txns[t].Id()] == t
  }

  /** The row a transaction has read is locked by it, still the committed version, and visible to it. */
  predicate Holds(model: Model, w: World, t: TxnId, row: Row)
    requires t in w.txns && Transactional(w.txns[t].event.request)
  {
    && Owns(w, t)
    && LookUp(w.rows, w.txns[t].Id()) == Some(row)
  }

  predicate TxnInv(model: Model, w: World, t: TxnId)
    requires t in w.txns
  {
    var x := w.txns[t];
    && Transactional(x.event.request)
    && !RefusedEarly(model, x.event.request)
    && match x.phase
       case Locked(old_) =>
         Holds(model, w, t, old_) && Visible(model, Some(x.event.org), old_) && !x.event.request.RestoreRow?
       case Guarded(old_) =>
         Holds(model, w, t, old_) && Visible(model, Some(x.event.org), old_) && !x.event.request.RestoreRow? && x.guard(old_)
       case Written(seen, base, image, answer) =>
         && Holds(model, w, t, base)
         && RowEffect(model, base, x.event) == Some((image, answer))
         && (if x.event.request.RestoreRow? then seen == None
             else seen == Some(base) && Visible(model, Some(x.event.org), base) && x.guard(base))
       case _ => true
  }

  /** An entry tells the truth: its answer is the serial one, its transaction is committed and no other
      entry's, and the row its guard accepted is the row the serial run finds there. */
  predicate EntryTrue(model: Model, initial: seq<Row>, w: World, k: nat)
    requires k < |w.log|
  {
    var e := w.log[k];
    var before := Before(model, initial, w.log, k);
    && e.answer == Handle(model, before, e.event.org, e.event.request).1
    && (e.txn.Some? ==> OfTransaction(model, before, w, e))
  }

  predicate OfTransaction(model: Model, before: seq<Row>, w: World, e: Entry)
    requires e.txn.Some?
  {
    && e.txn.value in w.txns && Transactional(e.event.request)
    && var x := w.txns[e.txn.value];
    && x.phase.Committed? && x.event == e.event
    && (!e.event.request.RestoreRow? ==>
          e.seen.Some? && x.guard(e.seen.value) && FindById(model, before, e.event.request.id, Some(e.event.org)) == e.seen)
  }

  /** Committed transactions and transaction entries are in one-to-one correspondence. */
  predicate LogComplete(w: World) {
    && (forall j, k :: 0 <= j < k < |w.log| && w.log[j].txn.Some? ==> w.log[j].txn != w.log[k].txn)
    && (forall t :: t in w.txns && w.txns[t].phase.Committed? ==> exists k :: 0 <= k < |w.log| && w.log[k].txn == Some(t))
  }

  predicate Inv(model: Model, initial: seq<Row>, w: World) {
    && UniqueIds(w.rows)
    && (forall t :: t in w.txns ==> TxnInv(model, w, t))
    && w.rows == Before(model, initial, w.log, |w.log|)
    && (forall k :: 0 <= k < |w.log| ==> EntryTrue(model, initial, w, k))
    && LogComplete(w)
  }

  // ---------------------------------------------------------------------------
  // The log grows by one serial request
  // ---------------------------------------------------------------------------

  lemma {:induction false} RunAppend(model: Model, rows: seq<Row>, events: seq<Event>, e: Event)
    ensures Run(model, rows, events + [e]) == Handle(model, Run(model, rows, events), e.org, e.request).0
    decreases |events|
  {
    if events == [] {
      assert (events + [e])[1..] == [];
    } else {
      assert (events + [e])[1..] == events[1..] + [e];
      RunAppend(model, Handle(model, rows, events[0].org, events[0].request).0, events[1..], e);
    }
  }

  lemma BeforeAppend(model: Model, initial: seq<Row>, log: seq<Entry>, e: Entry)
    ensures forall k :: 0 <= k <= |log| ==> Before(model, initial, log + [e], k) == Before(model, initial, log, k)
    ensures Before(model, initial, log + [e], |log| + 1)
            == Handle(model, Before(model, initial, log, |log|), e.event.org, e.event.request).0
  {
    forall k | 0 <= k <= |log| ensures Before(model, initial, log + [e], k) == Before(model, initial, log, k) {
      assert (log + [e])[..k] == log[..k];
    }
    assert log[..|log|] == log && (log + [e])[..|log| + 1] == log + [e];
    assert Events(log + [e]) == Events(log) + [e.event];
    RunAppend(model, initial, Events(log), e.event);
  }

  // ---------------------------------------------------------------------------
  // Steps that leave the table alone
  // ---------------------------------------------------------------------------

  /** A step that moves one transaction, keeping the table and the log. */
  lemma QuietStep(model: Model, initial: seq<Row>, w: World, w': World, t: TxnId)
    requires Inv(model, initial, w)
    requires w'.rows == w.rows && w'.log == w.log
    requires t in w'.txns && w'.txns == w.txns[t := w'.txns[t]]
    requires t in w.txns ==> !w.txns[t].phase.Committed?
    requires !w'.txns[t].phase.Committed? && TxnInv(model, w', t)
    requires forall other :: other in w.txns && other != t && Owns(w, other) ==> Owns(w', other)
    ensures Inv(model, initial, w')
  {
    forall other | other in w'.txns ensures TxnInv(model, w', other) {
      if other != t {
        assert TxnInv(model, w, other);
      }
    }
    forall k | 0 <= k < |w'.log| ensures EntryTrue(model, initial, w', k) {
      assert EntryTrue(model, initial, w, k);
    }
  }

  lemma BeginKeepsInv(model: Model, initial: seq<Row>, w: World, t: TxnId, event: Event, guard: Row -> bool)
    requires Inv(model, initial, w) && Enabled(model, w, Begin(t, event, guard))
    ensures Inv(model, initial, Do(model, w, Begin(t, event, guard)))
  {
    QuietStep(model, initial, w, Do(model, w, Begin(t, event, guard)), t);
  }

  lemma LockReadKeepsInv(model: Model, initial: seq<Row>, w: World, t: TxnId)
    requires Inv(model, initial, w) && Enabled(model, w, LockRead(t))
    ensures Inv(model, initial, Do(model, w, LockRead(t)))
  {
    var x := w.txns[t];
    assert TxnInv(model, w, t);
    FindByLookUp(model, w.rows, x.Id(), Some(x.event.org));
    QuietStep(model, initial, w, Do(model, w, LockRead(t)), t);
  }

  lemma RunGuardKeepsInv(model: Model, initial: seq<Row>, w: World, t: TxnId)
    requires Inv(model, initial, w) && Enabled(model, w, RunGuard(t))
    ensures Inv(model, initial, Do(model, w, RunGuard(t)))
  {
    assert TxnInv(model, w, t);
    QuietStep(model, initial, w, Do(model, w, RunGuard(t)), t);
  }

  lemma ThrowKeepsInv(model: Model, initial: seq<Row>, w: World, t: TxnId)
    requires Inv(model, initial, w) && Enabled(model, w, Throw(t))
    ensures Inv(model, initial, Do(model, w, Throw(t)))
  {
    assert TxnInv(model, w, t);
    QuietStep(model, initial, w, Do(model, w, Throw(t)), t);
  }

  lemma RollbackKeepsInv(model: Model, initial: seq<Row>, w: World, t: TxnId)
    requires Inv(model, initial, w) && Enabled(model, w, Rollback(t))
    ensures Inv(model, initial, Do(model, w, Rollback(t)))
  {
    assert TxnInv(model, w, t);
    QuietStep(model, initial, w, Do(model, w, Rollback(t)), t);
  }

  /** The statement works on the very row version that was locked, so its effect can be read off that row. */
  lemma WritePhaseTrue(model: Model, rows: seq<Row>, x: Txn)
    requires UniqueIds(rows) && Transactional(x.event.request) && !RefusedEarly(model, x.event.request)
    ensures var p := WritePhase(model, rows, x);
            p.Throwing? || (p.Written? && LookUp(rows, x.Id()) == Some(p.base) && RowEffect(model, p.base, x.event) == Some((p.image, p.answer))
                            && p.seen == if x.phase.Guarded? then Some(x.phase.old_) else None)
  {
    var found := LookUp(rows, x.Id());
    if found.Some? {
      StatementIsLocal(model, rows, x.event, found.value);
      var effect := RowEffect(model, found.value, x.event);
      if effect.Some? {
        var i := Located(rows, x.Id());
        EffectKeepsId(model, found.value, x.event);
        InstallHere(rows, x.Id(), effect.value.0);
      }
    }
  }

  lemma EffectKeepsId(model: Model, row: Row, e: Event)
    requires Transactional(e.request) && RowEffect(model, row, e).Some?
    ensures RowEffect(model, row, e).value.0.Some? ==> RowEffect(model, row, e).value.0.value.id == row.id
  {
  }

  lemma WriteKeepsInv(model: Model, initial: seq<Row>, w: World, t: TxnId)
    requires Inv(model, initial, w) && Enabled(model, w, Write(t))
    ensures Inv(model, initial, Do(model, w, Write(t)))
  {
    var x := w.txns[t];
    assert TxnInv(model, w, t);
    WritePhaseTrue(model, w.rows, x);
    QuietStep(model, initial, w, Do(model, w, Write(t)), t);
  }

  // ---------------------------------------------------------------------------
  // Steps that change the table
  // ---------------------------------------------------------------------------

  /** What a transaction holds survives a change elsewhere in the table. */
  lemma OthersKeepInv(model: Model, w: World, w': World, other: TxnId)
    requires other in w.txns && TxnInv(model, w, other) && other in w'.txns && w'.txns[other] == w.txns[other]
    requires Owns(w, other) ==> Owns(w', other)
    requires Owns(w, other) && LookUp(w.rows, w.txns[other].Id()).Some?
             ==> LookUp(w'.rows, w.txns[other].Id()) == LookUp(w.rows, w.txns[other].Id())
    ensures TxnInv(model, w', other)
  {
  }

  lemma CommitKeepsTxns(model: Model, initial: seq<Row>, w: World, t: TxnId)
    requires Inv(model, initial, w) && Enabled(model, w, Commit(t))
    ensures var w' := Do(model, w, Commit(t));
            UniqueIds(w'.rows) && forall other :: other in w'.txns ==> TxnInv(model, w', other)
  {
    var w' := Do(model, w, Commit(t));
    var x := w.txns[t];
    assert TxnInv(model, w, t);
    EffectKeepsId(model, x.phase.base, x.event);
    var i := Located(w.rows, x.Id());
    InstallHere(w.rows, x.Id(), x.phase.image);
    forall other | other in w'.txns ensures TxnInv(model, w', other) {
      assert TxnInv(model, w, other);
      if other != t {
        InstallElsewhere(w.rows, x.Id(), x.phase.image, w.txns[other].Id());
        OthersKeepInv(model, w, w', other);
      }
    }
  }

  /** Installing the written version is what the request does when it runs alone on the current table. */
  lemma CommitIsSerial(model: Model, initial: seq<Row>, w: World, t: TxnId)
    requires Inv(model, initial, w) && Enabled(model, w, Commit(t))
    ensures var x := w.txns[t];
            && Handle(model, w.rows, x.event.org, x.event.request) == (Install(w.rows, x.Id(), x.phase.image), x.phase.answer)
            && (!x.event.request.RestoreRow? ==>
                  x.phase.seen.Some? && x.guard(x.phase.seen.value)
                  && FindById(model, w.rows, x.Id(), Some(x.event.org)) == x.phase.seen)
  {
    var x := w.txns[t];
    assert TxnInv(model, w, t);
    AloneIsStatement(model, w.rows, x.event, x.phase.base);
    FindByLookUp(model, w.rows, x.Id(), Some(x.event.org));
  }

  /** Committed transactions after an entry: those from before and the one it is for. */
  ghost predicate CommitsOnly(w: World, w': World, e: Entry) {
    && w'.log == w.log + [e]
    && (forall t :: t in w.txns && w.txns[t].phase.Committed? ==> t in w'.txns && w'.txns[t] == w.txns[t])
    && (forall t :: t in w'.txns && w'.txns[t].phase.Committed? ==> e.txn == Some(t) || (t in w.txns && w.txns[t].phase.Committed?))
    && (e.txn.Some? ==> e.txn.value in w.txns && !w.txns[e.txn.value].phase.Committed?)
  }

  /** Appending a true entry for the request just run keeps the log true. */
  lemma LogStaysTrue(model: Model, initial: seq<Row>, w: World, w': World, e: Entry)
    requires Inv(model, initial, w) && CommitsOnly(w, w', e)
    requires Handle(model, w.rows, e.event.org, e.event.request) == (w'.rows, e.answer)
    requires e.txn.Some? ==> OfTransaction(model, w.rows, w', e)
    ensures w'.rows == Before(model, initial, w'.log, |w'.log|)
    ensures forall k :: 0 <= k < |w'.log| ==> EntryTrue(model, initial, w', k)
  {
    BeforeAppend(model, initial, w.log, e);
    forall k | 0 <= k < |w'.log| ensures EntryTrue(model, initial, w', k) {
      if k < |w.log| {
        assert EntryTrue(model, initial, w, k);
      }
    }
  }

  lemma LogStaysComplete(model: Model, initial: seq<Row>, w: World, w': World, e: Entry)
    requires Inv(model, initial, w) && CommitsOnly(w, w', e)
    ensures LogComplete(w')
  {
    forall j, k | 0 <= j < k < |w'.log| && w'.log[j].txn.Some? ensures w'.log[j].txn != w'.log[k].txn {
      assert EntryTrue(model, initial, w, j);
    }
    forall t | t in w'.txns && w'.txns[t].phase.Committed? ensures exists k :: 0 <= k < |w'.log| && w'.log[k].txn == Some(t) {
      if e.txn == Some(t) {
        assert w'.log[|w.log|].txn == Some(t);
      } else {
        var k :| 0 <= k < |w.log| && w.log[k].txn == Some(t);
        assert w'.log[k].txn == Some(t);
      }
    }
  }

  lemma CommitKeepsInv(model: Model, initial: seq<Row>, w: World, t: TxnId)
    requires Inv(model, initial, w) && Enabled(model, w, Commit(t))
    ensures Inv(model, initial, Do(model, w, Commit(t)))
  {
    var w', x := Do(model, w, Commit(t)), w.txns[t];
    CommitKeepsTxns(model, initial, w, t);
    CommitIsSerial(model, initial, w, t);
    var e := Entry(Some(t), x.event, x.phase.answer, x.phase.seen);
    LogStaysTrue(model, initial, w, w', e);
    LogStaysComplete(model, initial, w, w', e);
  }

  lemma DirectKeepsTable(model: Model, w: World, event: Event)
    requires UniqueIds(w.rows) && Enabled(model, w, Direct(event))
    ensures var rows' := Do(model, w, Direct(event)).rows;
            UniqueIds(rows') && forall id :: LookUp(w.rows, id).Some? ==> LookUp(rows', id) == LookUp(w.rows, id)
  {
    if event.request.CreateRow? {
      var rows', row := Do(model, w, Direct(event)).rows, Inserted(event.request.newId, Filtered(model, Injected(model, event.request.body, event.org)));
      LookUpNone(w.rows, row.id);
      forall id | LookUp(w.rows, id).Some? ensures LookUp(w.rows + [row], id) == LookUp(w.rows, id) {
        SelectAppend(w.rows, row, WithId(id));
      }
    }
  }

  lemma DirectKeepsInv(model: Model, initial: seq<Row>, w: World, event: Event)
    requires Inv(model, initial, w) && Enabled(model, w, Direct(event))
    ensures Inv(model, initial, Do(model, w, Direct(event)))
  {
    var w' := Do(model, w, Direct(event));
    DirectKeepsTable(model, w, event);
    forall other | other in w'.txns ensures TxnInv(model, w', other) {
      assert TxnInv(model, w, other);
      OthersKeepInv(model, w, w', other);
    }
    var e := Entry(None, event, Handle(model, w.rows, event.org, event.request).1, None);
    LogStaysTrue(model, initial, w, w', e);
    LogStaysComplete(model, initial, w, w', e);
  }

  lemma StepKeepsInv(model: Model, initial: seq<Row>, w: World, step: Step)
    requires Inv(model, initial, w) && Enabled(model, w, step)
    ensures Inv(model, initial, Do(model, w, step))
  {
    match step {
      case Begin(t, event, guard) => BeginKeepsInv(model, initial, w, t, event, guard);
      case LockRead(t) => LockReadKeepsInv(model, initial, w, t);
      case RunGuard(t) => RunGuardKeepsInv(model, initial, w, t);
      case Write(t) => WriteKeepsInv(model, initial, w, t);
      case Commit(t) => CommitKeepsInv(model, initial, w, t);
      case Throw(t) => ThrowKeepsInv(model, initial, w, t);
      case Rollback(t) => RollbackKeepsInv(model, initial, w, t);
      case Direct(event) => DirectKeepsInv(model, initial, w, event);
    }
  }

  lemma {:induction false} RunKeepsInv(model: Model, initial: seq<Row>, w: World, steps: seq<Step>)
    requires Inv(model, initial, w) && Runs(model, w, steps)
    ensures Inv(model, initial, After(model, w, steps))
    decreases |steps|
  {
    if steps != [] {
      StepKeepsInv(model, initial, w, steps[0]);
      RunKeepsInv(model, initial, Do(model, w, steps[0]), steps[1..]);
    }
  }

  // ---------------------------------------------------------------------------
  // Results
  // ---------------------------------------------------------------------------

  /** Serialisability.  After any interleaving the table is what the logged requests give when they run one
      at a time in commit order; each got its serial answer; each guard accepted exactly the row version
      that its write replaces in the serial run; and the transactions in the log are the committed ones,
      each once, so one that threw has left no trace. */
  lemma Serialisable(model: Model, initial: seq<Row>, steps: seq<Step>)
    requires UniqueIds(initial) && Runs(model, CrudLocking.Initial(initial), steps)
    ensures var w := After(model, CrudLocking.Initial(initial), steps);
            && w.rows == Run(model, initial, Events(w.log))
            && (forall k :: 0 <= k < |w.log| ==> EntryTrue(model, initial, w, k))
            && LogComplete(w)
  {
    var start := CrudLocking.Initial(initial);
    assert Events(start.log[..0]) == [];
    RunKeepsInv(model, initial, start, steps);
    var w := After(model, start, steps);
    assert w.log[..|w.log|] == w.log;
  }

  /** While a transaction is between its locking read and its end, no step of anyone else changes the row
      it read. */
  lemma LockedRowStays(model: Model, initial: seq<Row>, w: World, t: TxnId, step: Step)
    requires Inv(model, initial, w) && Enabled(model, w, step)
    requires t in w.txns && (w.txns[t].phase.Locked? || w.txns[t].phase.Guarded?)
    requires t in Do(model, w, step).txns && Do(model, w, step).txns[t] == w.txns[t]
    ensures FindById(model, Do(model, w, step).rows, w.txns[t].event.request.id, Some(w.txns[t].event.org))
            == Some(w.txns[t].phase.old_)
  {
    StepKeepsInv(model, initial, w, step);
    var w' := Do(model, w, step);
    assert TxnInv(model, w', t);
    FindByLookUp(model, w'.rows, w'.txns[t].Id(), Some(w'.txns[t].event.org));
  }

  /** Two transactions never hold the same row. */
  lemma OneHolder(model: Model, initial: seq<Row>, w: World, t: TxnId, u: TxnId)
    requires Inv(model, initial, w) && t in w.txns && u in w.txns && t != u
    requires w.txns[t].phase.Locked? || w.txns[t].phase.Guarded? || w.txns[t].phase.Written?
    requires w.txns[u].phase.Locked? || w.txns[u].phase.Guarded? || w.txns[u].phase.Written?
    ensures w.txns[t].event.request.id != w.txns[u].event.request.id
  {
    assert TxnInv(model, w, t) && TxnInv(model, w, u);
  }

  // ---------------------------------------------------------------------------
  // One tenant's share of an interleaving
  // ---------------------------------------------------------------------------

  /** The answers that one tenant's requests got, in the order in which they took effect. */
  function Logged(log: seq<Entry>, org: OrgId): seq<Answer>
    decreases |log|
  {
    if log == [] then []
    else (if log[0].event.org == org then [log[0].answer] else []) + Logged(log[1..], org)
  }

  /** The entry has the answer of the run one at a time. */
  predicate SerialAnswer(model: Model, rows: seq<Row>, log: seq<Entry>, k: nat)
    requires k < |log|
  {
    log[k].answer == Handle(model, Before(model, rows, log, k), log[k].event.org, log[k].event.request).1
  }

  lemma BeforeRest(model: Model, rows: seq<Row>, log: seq<Entry>, k: nat)
    requires log != [] && k < |log|
    ensures Before(model, rows, log, k + 1)
            == Before(model, Handle(model, rows, log[0].event.org, log[0].event.request).0, log[1..], k)
  {
    hide Handle;
    assert Events(log[..k + 1])[1..] == Events(log[1..][..k]);
  }

  lemma {:induction false} LoggedAnswers(model: Model, rows: seq<Row>, log: seq<Entry>, org: OrgId)
    requires forall k: nat :: k < |log| ==> SerialAnswer(model, rows, log, k)
    ensures Logged(log, org) == Answers(model, rows, Events(log), org)
    decreases |log|
  {
    hide Handle;
    if log != [] {
      var next := Handle(model, rows, log[0].event.org, log[0].event.request).0;
      forall k: nat | k < |log| - 1 ensures SerialAnswer(model, next, log[1..], k) {
        assert SerialAnswer(model, rows, log, k + 1);
        BeforeRest(model, rows, log, k);
      }
      LoggedAnswers(model, next, log[1..], org);
      assert Events(log)[1..] == Events(log[1..]);
      assert SerialAnswer(model, rows, log, 0) && Before(model, rows, log, 0) == rows;
    }
  }

  /** Isolation and serialisability together.  In any interleaving of any tenants' requests and transactions,
      a tenant's requests that took effect got the answers, and left the rows, of running alone, one at a
      time in commit order, in a database without the other tenants. */
  lemma TenantRunsAlone(model: Model, initial: seq<Row>, steps: seq<Step>, org: OrgId)
    requires model.hasOrgScope && UniqueIds(initial) && Runs(model, CrudLocking.Initial(initial), steps)
    ensures var w := After(model, CrudLocking.Initial(initial), steps);
            var own := Only(Events(w.log), org);
            && Logged(w.log, org) == Answers(model, Part(initial, org), own, org)
            && Part(w.rows, org) == Part(Run(model, Part(initial, org), own), org)
  {
    hide Handle, UniqueIds, Runs, After, LogComplete, OfTransaction;
    Serialisable(model, initial, steps);
    var w := After(model, CrudLocking.Initial(initial), steps);
    forall k: nat | k < |w.log| ensures SerialAnswer(model, initial, w.log, k) {
      assert EntryTrue(model, initial, w, k);
    }
    LoggedAnswers(model, initial, w.log, org);
    OthersInvisible(model, initial, Events(w.log), org);
  }
}
