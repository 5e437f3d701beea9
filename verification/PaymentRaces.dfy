/**
  Allocation requests that overlap.  The guard triggers read with plain SELECTs, so inside a
  transaction they see the rows committed when it began and its own: a transaction computes on its
  snapshot and publishes its rows and paid marks when it commits.  The unique key alone is checked
  against what others have committed.
*/
module PaymentRaces {
  import opened Wrappers
  import opened PaymentAllocation

  type TxnId = nat

  datatype Txn = Txn(snapshot: Ledger, request: Request)

  /** `log` is history: the committed requests in commit order. */
  datatype World = World(ledger: Ledger, open_: map<TxnId, Txn>, log: seq<Request>)

  datatype Step = Open(t: TxnId, request: Request) | Commit(t: TxnId) | Abort(t: TxnId)

  /** What a transaction has made of its snapshot. */
  function Outcome(x: Txn): Result<Ledger, AllocError> {
    AllocateAll(x.snapshot, x.request.payment, x.request.shares)
  }

  /** The rows the first n shares insert. */
  function Inserted(request: Request, n: nat): (rows: seq<Row>)
    requires n <= |request.shares|
    ensures |rows| == n
  {
    seq(n, i requires 0 <= i < n => Row(request.payment, request.shares[i].invoice, request.shares[i].amount, false))
  }

  predicate KeyFree(l: Ledger, request: Request) {
    forall i :: 0 <= i < |request.shares| ==> !LivePair(l.rows, request.payment, request.shares[i].invoice)
  }

  /** The committed ledger with a transaction's rows and paid marks. */
  function Published(l: Ledger, x: Txn): Ledger
    requires Outcome(x).Success?
  {
    Ledger(l.payments,
           map i | i in l.invoices ::
             if Touches(x.request.shares, i) && i in Outcome(x).value.invoices && Outcome(x).value.invoices[i].status == "paid"
             then l.invoices[i].(status := "paid") else l.invoices[i],
           l.rows + Inserted(x.request, |x.request.shares|))
  }

  predicate Enabled(w: World, step: Step) {
    match step
    case Open(t, _) => t !in w.open_
    case Commit(t) => t in w.open_ && Outcome(w.open_[t]).Success? && KeyFree(w.ledger, w.open_[t].request)
    case Abort(t) => t in w.open_
  }

  function Do(w: World, step: Step): World
    requires Enabled(w, step)
  {
    match step
    case Open(t, request) => w.(open_ := w.open_[t := Txn(w.ledger, request)])
    case Commit(t) => World(Published(w.ledger, w.open_[t]), w.open_ - {t}, w.log + [w.open_[t].request])
    case Abort(t) => w.(open_ := w.open_ - {t})
  }

  function Initial(l: Ledger): World {
    World(l, map[], [])
  }

  predicate Runs(w: World, steps: seq<Step>)
    decreases |steps|
  {
    steps == [] || (Enabled(w, steps[0]) && Runs(Do(w, steps[0]), steps[1..]))
  }

  function After(w: World, steps: seq<Step>): World
    requires Runs(w, steps)
    decreases |steps|
  {
    if steps == [] then w else After(Do(w, steps[0]), steps[1..])
  }

  // ---------------------------------------------------------------------------
  // Requests that overlap safely
  // ---------------------------------------------------------------------------

  predicate Common(a: Request, b: Request) {
    exists i, j :: 0 <= i < |a.shares| && 0 <= j < |b.shares| && a.shares[i].invoice == b.shares[j].invoice
  }

  /** Exactly one of: the same payment, a common invoice.  With both, the unique key lets only one commit. */
  predicate Clash(a: Request, b: Request) {
    a.shares != [] && b.shares != [] && (a.payment == b.payment) != Common(a, b)
  }

  /** A transaction begins only when it clashes with no open one. */
  predicate SafeStep(w: World, step: Step) {
    step.Open? ==> forall t <- w.open_ :: !Clash(step.request, w.open_[t].request)
  }

  predicate SafeRun(w: World, steps: seq<Step>)
    requires Runs(w, steps)
    decreases |steps|
  {
    steps == [] || (SafeStep(w, steps[0]) && SafeRun(Do(w, steps[0]), steps[1..]))
  }

  /** What an allocation of the payment to the invoice looks at is the same in both ledgers. */
  predicate SameView(a: Ledger, b: Ledger, payment: Id, invoice: Id) {
    && SameInvoice(a, b, invoice)
    && (LivePair(a.rows, payment, invoice) <==> LivePair(b.rows, payment, invoice))
  }

  predicate Agree(a: Ledger, b: Ledger, request: Request) {
    && a.payments == b.payments
    && PaymentSum(a.rows, request.payment) == PaymentSum(b.rows, request.payment)
    && forall i :: 0 <= i < |request.shares| ==> SameView(a, b, request.payment, request.shares[i].invoice)
  }

  lemma SameInsert(a: Ledger, b: Ledger, payment: Id, share: Share)
    requires a.payments == b.payments && PaymentSum(a.rows, payment) == PaymentSum(b.rows, payment)
    requires SameView(a, b, payment, share.invoice) && Insert(a, payment, share).Success?
    ensures var row := Row(payment, share.invoice, share.amount, false);
            && Insert(a, payment, share) == Success(a.(rows := a.rows + [row]))
            && Insert(b, payment, share) == Success(b.(rows := b.rows + [row]))
    ensures share.invoice in a.invoices && share.invoice in b.invoices
  {
    hide PaymentSum, InvoiceSum, LivePair;
  }

  lemma SameSettle(a: Ledger, b: Ledger, invoice: Id)
    requires invoice in a.invoices && invoice in b.invoices && a.invoices[invoice] == b.invoices[invoice]
    requires InvoiceSum(a.rows, invoice) == InvoiceSum(b.rows, invoice)
    ensures Settle(b, invoice) == b.(invoices := b.invoices[invoice := Settle(a, invoice).invoices[invoice]])
  {
    hide InvoiceSum;
    assert b.invoices == b.invoices[invoice := b.invoices[invoice]];
  }

  lemma InvoiceSumMore(rows: seq<Row>, row: Row, invoice: Id)
    ensures InvoiceSum(rows + [row], invoice)
            == InvoiceSum(rows, invoice) + if row.invoice == invoice && !row.deleted then row.amount else 0
  {
    assert (rows + [row])[..|rows|] == rows;
  }

  /** One share does the same on ledgers that agree for it. */
  lemma SameAllocation(a: Ledger, b: Ledger, payment: Id, share: Share)
    requires a.payments == b.payments && PaymentSum(a.rows, payment) == PaymentSum(b.rows, payment)
    requires SameView(a, b, payment, share.invoice) && Allocate(a, payment, share).Success?
    ensures Allocate(b, payment, share).Success?
    ensures var (a', b') := (Allocate(a, payment, share).value, Allocate(b, payment, share).value);
            && b'.rows == b.rows + [Row(payment, share.invoice, share.amount, false)]
            && share.invoice in b.invoices && share.invoice in a'.invoices
            && b'.invoices == b.invoices[share.invoice := a'.invoices[share.invoice]]
  {
    hide Insert, PaymentSum, InvoiceSum, LivePair;
    var row := Row(payment, share.invoice, share.amount, false);
    SameInsert(a, b, payment, share);
    InvoiceSumMore(a.rows, row, share.invoice);
    InvoiceSumMore(b.rows, row, share.invoice);
    SameSettle(a.(rows := a.rows + [row]), b.(rows := b.rows + [row]), share.invoice);
  }

  /** And they still agree for every share of the request afterwards. */
  lemma StillAgree(a: Ledger, b: Ledger, request: Request, n: nat)
    requires Agree(a, b, request) && n < |request.shares| && Allocate(a, request.payment, request.shares[n]).Success?
    ensures Allocate(b, request.payment, request.shares[n]).Success?
    ensures Agree(Allocate(a, request.payment, request.shares[n]).value, Allocate(b, request.payment, request.shares[n]).value, request)
  {
    hide Insert, Settle;
    var payment, share := request.payment, request.shares[n];
    assert SameView(a, b, payment, share.invoice);
    SameAllocation(a, b, payment, share);
    var a', b' := Allocate(a, payment, share).value, Allocate(b, payment, share).value;
    AllocateMoves(a, payment, share, payment);
    AllocateMoves(b, payment, share, payment);
    forall i | 0 <= i < |request.shares| ensures SameView(a', b', payment, request.shares[i].invoice) {
      var invoice := request.shares[i].invoice;
      assert SameView(a, b, payment, invoice);
      AllocateMoves(a, payment, share, invoice);
      AllocateMoves(b, payment, share, invoice);
      RowsAfter(a, payment, share, invoice);
      RowsAfter(b, payment, share, invoice);
    }
  }

  /** The invoices of b with the versions that a request has made of those it has named so far. */
  function Marked(b: Ledger, shares: seq<Share>, n: nat, made: Ledger): map<Id, Invoice>
    requires n <= |shares|
  {
    map i | i in b.invoices :: if TouchesTo(shares, n, i) && i in made.invoices then made.invoices[i] else b.invoices[i]
  }

  lemma MarkedMore(b: Ledger, shares: seq<Share>, n: nat, a: Ledger, a': Ledger)
    requires n < |shares| && shares[n].invoice in b.invoices && shares[n].invoice in a'.invoices
    requires a'.invoices.Keys == a.invoices.Keys
    requires forall i :: i in a.invoices && i != shares[n].invoice ==> a'.invoices[i] == a.invoices[i]
    ensures Marked(b, shares, n + 1, a') == Marked(b, shares, n, a)[shares[n].invoice := a'.invoices[shares[n].invoice]]
  {
    forall i ensures TouchesTo(shares, n + 1, i) <==> TouchesTo(shares, n, i) || shares[n].invoice == i {
    }
  }

  /** A request that runs through on its snapshot runs through on any ledger that agrees with it, inserts the
      same rows there and makes the same versions of the invoices it names. */
  lemma {:induction false} Replays(ls: seq<Ledger>, b: Ledger, request: Request, n: nat)
    requires Trace(ls, request.payment, request.shares) && Agree(ls[0], b, request) && n <= |request.shares|
    ensures var there := AllocateFirst(b, request.payment, request.shares, n);
            && there.Success? && Agree(ls[n], there.value, request)
            && there.value.payments == b.payments
            && there.value.rows == b.rows + Inserted(request, n)
            && there.value.invoices == Marked(b, request.shares, n, ls[n])
  {
    hide Allocate, Agree;
    if n == 0 {
      assert b.rows + Inserted(request, 0) == b.rows;
      assert Marked(b, request.shares, 0, ls[0]) == b.invoices;
    } else {
      Replays(ls, b, request, n - 1);
      ReplayOne(ls, b, request, n - 1, AllocateFirst(b, request.payment, request.shares, n - 1).value);
    }
  }

  lemma ReplayOne(ls: seq<Ledger>, b: Ledger, request: Request, n: nat, m: Ledger)
    requires Trace(ls, request.payment, request.shares) && n < |request.shares|
    requires Agree(ls[n], m, request) && m.payments == b.payments
    requires m.rows == b.rows + Inserted(request, n) && m.invoices == Marked(b, request.shares, n, ls[n])
    ensures var there := Allocate(m, request.payment, request.shares[n]);
            && there.Success? && Agree(ls[n + 1], there.value, request)
            && there.value.payments == b.payments
            && there.value.rows == b.rows + Inserted(request, n + 1)
            && there.value.invoices == Marked(b, request.shares, n + 1, ls[n + 1])
  {
    hide Insert, Settle;
    var payment, share := request.payment, request.shares[n];
    assert Next(ls, payment, request.shares, n);
    assert SameView(ls[n], m, payment, share.invoice);
    SameAllocation(ls[n], m, payment, share);
    StillAgree(ls[n], m, request, n);
    AllocateMoves(m, payment, share, payment);
    OthersKept(ls[n], payment, share);
    MarkedMore(b, request.shares, n, ls[n], ls[n + 1]);
    InsertedMore(b.rows, request, n);
  }

  lemma OthersKept(l: Ledger, payment: Id, share: Share)
    requires Allocate(l, payment, share).Success?
    ensures var l' := Allocate(l, payment, share).value;
            && l'.invoices.Keys == l.invoices.Keys
            && forall i :: i in l.invoices && i != share.invoice ==> l'.invoices[i] == l.invoices[i]
  {
  }

  lemma InsertedMore(rows: seq<Row>, request: Request, n: nat)
    requires n < |request.shares|
    ensures rows + Inserted(request, n + 1)
            == (rows + Inserted(request, n)) + [Row(request.payment, request.shares[n].invoice, request.shares[n].amount, false)]
  {
  }

  /** An invoice along a request keeps its total and becomes paid or stays as it was. */
  lemma {:induction false} PaidOrSame(ls: seq<Ledger>, payment: Id, shares: seq<Share>, n: nat, invoice: Id)
    requires Trace(ls, payment, shares) && n <= |shares| && invoice in ls[0].invoices
    ensures invoice in ls[n].invoices
    ensures ls[n].invoices[invoice] == ls[0].invoices[invoice] || ls[n].invoices[invoice] == ls[0].invoices[invoice].(status := "paid")
  {
    if n > 0 {
      hide Insert, Settle;
      assert Next(ls, payment, shares, n - 1);
      PaidOrSame(ls, payment, shares, n - 1, invoice);
      AllocateMoves(ls[n - 1], payment, shares[n - 1], invoice);
    }
  }

  /** Publishing is running the request on the committed ledger. */
  lemma PublishedIsServed(l: Ledger, x: Txn)
    requires Outcome(x).Success? && Agree(x.snapshot, l, x.request)
    ensures AllocateAll(l, x.request.payment, x.request.shares) == Success(Published(l, x))
  {
    hide Allocate;
    var payment, shares := x.request.payment, x.request.shares;
    var ls := Traced(x.snapshot, payment, shares);
    Replays(ls, l, x.request, |shares|);
    var made := Marked(l, shares, |shares|, ls[|shares|]);
    forall i | i in l.invoices ensures made[i] == Published(l, x).invoices[i] {
      if Touches(shares, i) {
        var k :| 0 <= k < |shares| && shares[k].invoice == i;
        assert SameView(x.snapshot, l, payment, shares[k].invoice);
        PaidOrSame(ls, payment, shares, |shares|, i);
      }
    }
    assert made == Published(l, x).invoices;
  }

  // ---------------------------------------------------------------------------
  // Another transaction's commit
  // ---------------------------------------------------------------------------

  lemma {:induction false} OtherPaymentStays(ls: seq<Ledger>, payment: Id, shares: seq<Share>, n: nat, other: Id, invoice: Id)
    requires Trace(ls, payment, shares) && n <= |shares| && other != payment
    ensures PaymentSum(ls[n].rows, other) == PaymentSum(ls[0].rows, other)
    ensures LivePair(ls[n].rows, other, invoice) <==> LivePair(ls[0].rows, other, invoice)
    ensures ls[n].payments == ls[0].payments
  {
    if n > 0 {
      hide Insert, Settle, PaymentSum, InvoiceSum;
      assert Next(ls, payment, shares, n - 1);
      OtherPaymentStays(ls, payment, shares, n - 1, other, invoice);
      AllocateMoves(ls[n - 1], payment, shares[n - 1], other);
      OtherPairStays(ls[n - 1], payment, shares[n - 1], other, invoice);
    }
  }

  lemma OtherPairStays(l: Ledger, payment: Id, share: Share, other: Id, invoice: Id)
    requires Allocate(l, payment, share).Success? && other != payment
    ensures LivePair(Allocate(l, payment, share).value.rows, other, invoice) <==> LivePair(l.rows, other, invoice)
  {
    var row := Row(payment, share.invoice, share.amount, false);
    assert Allocate(l, payment, share).value.rows == l.rows + [row];
    assert forall r <- l.rows :: r in l.rows + [row];
    assert forall r <- l.rows + [row] :: r == row || r in l.rows;
  }

  /** A served request changes nothing that a request of another payment and other invoices looks at. */
  lemma ServedElsewhere(snapshot: Ledger, l: Ledger, request: Request, other: Request)
    requires Agree(snapshot, l, other) && other.payment != request.payment && !Common(other, request)
    requires AllocateAll(l, request.payment, request.shares).Success?
    ensures Agree(snapshot, AllocateAll(l, request.payment, request.shares).value, other)
  {
    hide Allocate;
    var n := |request.shares|;
    var ls := Traced(l, request.payment, request.shares);
    OtherPaymentStays(ls, request.payment, request.shares, n, other.payment, 0);
    forall i | 0 <= i < |other.shares| ensures SameView(snapshot, ls[n], other.payment, other.shares[i].invoice) {
      var invoice := other.shares[i].invoice;
      assert SameView(snapshot, l, other.payment, invoice);
      UntouchedStays(ls, request.payment, request.shares, n, invoice);
      OtherPaymentStays(ls, request.payment, request.shares, n, other.payment, invoice);
    }
  }

  /** Rows are only added, so a taken key stays taken. */
  lemma TakenStays(l: Ledger, x: Txn, other: Request)
    requires Outcome(x).Success? && !KeyFree(l, other)
    ensures !KeyFree(Published(l, x), other)
  {
    hide AllocateAll;
    var i :| 0 <= i < |other.shares| && LivePair(l.rows, other.payment, other.shares[i].invoice);
    var r :| r in l.rows && r.payment == other.payment && r.invoice == other.shares[i].invoice && !r.deleted;
    assert r in Published(l, x).rows;
  }

  /** A commit takes the keys of its shares. */
  lemma CommitTakes(l: Ledger, x: Txn, other: Request)
    requires Outcome(x).Success? && x.request.payment == other.payment && Common(other, x.request)
    ensures !KeyFree(Published(l, x), other)
  {
    hide AllocateAll;
    var i, j :| 0 <= i < |other.shares| && 0 <= j < |x.request.shares| && other.shares[i].invoice == x.request.shares[j].invoice;
    var rows := Inserted(x.request, |x.request.shares|);
    assert rows[j] in Published(l, x).rows;
    assert LivePair(Published(l, x).rows, other.payment, other.shares[i].invoice);
  }

  // ---------------------------------------------------------------------------
  // Runs
  // ---------------------------------------------------------------------------

  /** An open transaction commits nothing, or what it looks at is still as in its snapshot, or it cannot commit. */
  ghost predicate OpenOk(l: Ledger, x: Txn) {
    x.request.shares == [] || Agree(x.snapshot, l, x.request) || !KeyFree(l, x.request)
  }

  ghost predicate Inv(l: Ledger, w: World) {
    && w.ledger == ServeAll(l, w.log)
    && (forall t <- w.open_ :: OpenOk(w.ledger, w.open_[t]))
    && forall t, u :: t in w.open_ && u in w.open_ && t != u ==> !Clash(w.open_[t].request, w.open_[u].request)
  }

  lemma ClashSymmetric(a: Request, b: Request)
    requires Clash(a, b)
    ensures Clash(b, a)
  {
  }

  lemma AgreeItself(l: Ledger, request: Request)
    ensures Agree(l, l, request)
  {
  }

  lemma ServeMore(l: Ledger, log: seq<Request>, request: Request)
    ensures ServeAll(l, log + [request]) == Serve(ServeAll(l, log), request)
  {
    assert (log + [request])[..|log|] == log;
  }

  /** A commit does to the ledger what serving the request there does. */
  lemma CommitServes(l: Ledger, x: Txn)
    requires Outcome(x).Success? && KeyFree(l, x.request) && OpenOk(l, x)
    ensures AllocateAll(l, x.request.payment, x.request.shares) == Success(Published(l, x))
  {
    hide Agree, KeyFree, Allocate;
    if x.request.shares == [] {
      assert l.rows + Inserted(x.request, 0) == l.rows;
      assert Published(l, x).invoices == l.invoices;
    } else {
      PublishedIsServed(l, x);
    }
  }

  lemma CommitKeepsOther(l: Ledger, x: Txn, other: Txn)
    requires Outcome(x).Success? && KeyFree(l, x.request) && OpenOk(l, x)
    requires OpenOk(l, other) && !Clash(other.request, x.request)
    ensures OpenOk(Published(l, x), other)
  {
    hide Agree, KeyFree, Allocate, AllocateAll, Published;
    CommitServes(l, x);
    if !KeyFree(l, other.request) {
      TakenStays(l, x, other.request);
    } else if x.request.shares == [] {
      AllocateNothing(l, x.request.payment);
    } else if other.request.shares != [] {
      if other.request.payment == x.request.payment {
        CommitTakes(l, x, other.request);
      } else {
        ServedElsewhere(other.snapshot, l, x.request, other.request);
      }
    }
  }

  lemma AllocateNothing(l: Ledger, payment: Id)
    ensures AllocateAll(l, payment, []) == Success(l)
  {
  }

  lemma CommitKeepsInv(l: Ledger, w: World, t: TxnId)
    requires Inv(l, w) && Enabled(w, Commit(t))
    ensures Inv(l, Do(w, Commit(t)))
  {
    hide OpenOk, AllocateAll, Published, Clash;
    var x := w.open_[t];
    CommitServes(w.ledger, x);
    ServeMore(l, w.log, x.request);
    forall u | u in w.open_ && u != t ensures OpenOk(Published(w.ledger, x), w.open_[u]) {
      CommitKeepsOther(w.ledger, x, w.open_[u]);
    }
  }

  lemma StepKeepsInv(l: Ledger, w: World, step: Step)
    requires Inv(l, w) && Enabled(w, step) && SafeStep(w, step)
    ensures Inv(l, Do(w, step))
  {
    match step {
      case Open(t, request) => OpenKeepsInv(l, w, t, request);
      case Commit(t) => CommitKeepsInv(l, w, t);
      case Abort(_) => hide OpenOk, Clash, ServeAll;
    }
  }

  lemma OpenKeepsInv(l: Ledger, w: World, t: TxnId, request: Request)
    requires Inv(l, w) && Enabled(w, Open(t, request)) && SafeStep(w, Open(t, request))
    ensures Inv(l, Do(w, Open(t, request)))
  {
    hide Agree, Clash, ServeAll;
    AgreeItself(w.ledger, request);
    forall u | u in w.open_ ensures !Clash(w.open_[u].request, request) {
      if Clash(w.open_[u].request, request) {
        ClashSymmetric(w.open_[u].request, request);
      }
    }
  }

  lemma {:induction false} RunKeepsInv(l: Ledger, w: World, steps: seq<Step>)
    requires Inv(l, w) && Runs(w, steps) && SafeRun(w, steps)
    ensures Inv(l, After(w, steps))
    decreases |steps|
  {
    if steps != [] {
      hide Inv;
      StepKeepsInv(l, w, steps[0]);
      RunKeepsInv(l, Do(w, steps[0]), steps[1..]);
    }
  }

  /** When no two open requests clash, the ledger is what the committed requests give one at a time, and the
      caps hold as they do for those. */
  lemma SafeRunsAreSerial(l: Ledger, steps: seq<Step>)
    requires Runs(Initial(l), steps) && SafeRun(Initial(l), steps)
    ensures var w := After(Initial(l), steps);
            && w.ledger == ServeAll(l, w.log)
            && (WithinCaps(l) ==> WithinCaps(w.ledger))
  {
    RunKeepsInv(l, Initial(l), steps);
    if WithinCaps(l) {
      CapsAlways(l, After(Initial(l), steps).log);
    }
  }
}
