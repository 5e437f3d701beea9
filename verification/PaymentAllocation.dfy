/**
  Payment allocation: allocatePayment of src/controllers/billingController.js with the database's own
  guards on payment_allocations (the over-allocation triggers, the unique key and the foreign keys).
  Amounts are integer cents.  Requests run one after another here; `PaymentRaces` lets them overlap.
*/
module PaymentAllocation {
  import opened Wrappers

  type Id = nat

  datatype Payment = Payment(org: Id, amount: int)

  datatype Invoice = Invoice(total: int, status: string)

  /** A row of payment_allocations. */
  datatype Row = Row(payment: Id, invoice: Id, amount: int, deleted: bool)

  /** One element of the request's allocations array. */
  datatype Share = Share(invoice: Id, amount: int)

  datatype Ledger = Ledger(payments: map<Id, Payment>, invoices: map<Id, Invoice>, rows: seq<Row>)

  datatype AllocError = PaymentNotFound | OverPayment | OverInvoice | NoSuchRow | DuplicateRow | StatementFailed

  // ---------------------------------------------------------------------------
  // Statements
  // ---------------------------------------------------------------------------

  /** SUM(amount) of the live rows of a payment. */
  function PaymentSum(rows: seq<Row>, payment: Id): int {
    if rows == [] then 0
    else
      var last := rows[|rows| - 1];
      PaymentSum(rows[..|rows| - 1], payment) + if last.payment == payment && !last.deleted then last.amount else 0
  }

  /** COALESCE(SUM(amount), 0) of the live rows of an invoice. */
  function InvoiceSum(rows: seq<Row>, invoice: Id): int {
    if rows == [] then 0
    else
      var last := rows[|rows| - 1];
      InvoiceSum(rows[..|rows| - 1], invoice) + if last.invoice == invoice && !last.deleted then last.amount else 0
  }

  predicate LivePair(rows: seq<Row>, payment: Id, invoice: Id) {
    exists r <- rows :: r.payment == payment && r.invoice == invoice && !r.deleted
  }

  /** The INSERT: both triggers, then the keys.  A trigger whose SELECT finds no row compares with NULL
      and lets the row through to the foreign key. */
  function Insert(l: Ledger, payment: Id, share: Share): Result<Ledger, AllocError> {
    if payment in l.payments && PaymentSum(l.rows, payment) + share.amount > l.payments[payment].amount then Failure(OverPayment)
    else if share.invoice in l.invoices && InvoiceSum(l.rows, share.invoice) + share.amount > l.invoices[share.invoice].total then Failure(OverInvoice)
    else if payment !in l.payments || share.invoice !in l.invoices then Failure(NoSuchRow)
    else if LivePair(l.rows, payment, share.invoice) then Failure(DuplicateRow)
    else Success(l.(rows := l.rows + [Row(payment, share.invoice, share.amount, false)]))
  }

  /** The status check that follows each INSERT. */
  function Settle(l: Ledger, invoice: Id): Ledger {
    if invoice in l.invoices && InvoiceSum(l.rows, invoice) >= l.invoices[invoice].total then
      l.(invoices := l.invoices[invoice := l.invoices[invoice].(status := "paid")])
    else l
  }

  function Allocate(l: Ledger, payment: Id, share: Share): Result<Ledger, AllocError> {
    match Insert(l, payment, share)
    case Success(inserted) => Success(Settle(inserted, share.invoice))
    case Failure(e) => Failure(e)
  }

  /** The first n passes of the loop over the request's shares. */
  function AllocateFirst(l: Ledger, payment: Id, shares: seq<Share>, n: nat): Result<Ledger, AllocError>
    requires n <= |shares|
  {
    if n == 0 then Success(l)
    else
      match AllocateFirst(l, payment, shares, n - 1)
      case Success(before) => Allocate(before, payment, shares[n - 1])
      case Failure(e) => Failure(e)
  }

  function AllocateAll(l: Ledger, payment: Id, shares: seq<Share>): Result<Ledger, AllocError> {
    AllocateFirst(l, payment, shares, |shares|)
  }

  class BillingLedger {
    var payments: map<Id, Payment>
    var invoices: map<Id, Invoice>
    var rows: seq<Row>

    constructor (l: Ledger)
      ensures State() == l
    {
      payments, invoices, rows := l.payments, l.invoices, l.rows;
    }

    function State(): Ledger
      reads this
    {
      Ledger(payments, invoices, rows)
    }

    /** One pass of the loop body. */
    method InsertAndSettle(payment: Id, share: Share) returns (error: Option<AllocError>)
      modifies this
      ensures match Allocate(old(State()), payment, share)
              case Success(l) => error == None && State() == l
              case Failure(e) => error == Some(e)
      ensures payments == old(payments)
    {
      var inserted := Insert(State(), payment, share);
      if inserted.Failure? {
        return Some(inserted.error);
      }
      rows := inserted.value.rows;
      var paid := InvoiceSum(rows, share.invoice);
      if share.invoice in invoices && paid >= invoices[share.invoice].total {
        invoices := invoices[share.invoice := invoices[share.invoice].(status := "paid")];
      }
      error := None;
    }

    /** The transaction: either every share is allocated, or nothing is.  `fault` is the position at
        which some statement fails on its own; a fault beyond the last share is the commit failing. */
    method AllocatePayment(org: Id, payment: Id, shares: seq<Share>, fault: Option<nat>) returns (r: Result<(), AllocError>)
      modifies this
      ensures !(payment in old(payments) && old(payments)[payment].org == org) ==> r == Failure(PaymentNotFound)
      ensures r.Success? ==> AllocateAll(old(State()), payment, shares) == Success(State())
      ensures r.Failure? ==> State() == old(State())
      ensures fault.None? && payment in old(payments) && old(payments)[payment].org == org ==>
                (r.Success? <==> AllocateAll(old(State()), payment, shares).Success?)
    {
      hide Allocate;
      if payment !in payments || payments[payment].org != org {
        return Failure(PaymentNotFound);
      }
      var begun := State();
      for i := 0 to |shares|
        invariant AllocateFirst(begun, payment, shares, i) == Success(State())
      {
        var error := if fault == Some(i) then Some(StatementFailed) else None;
        if error.None? {
          error := InsertAndSettle(payment, shares[i]);
        }
        if error.Some? {
          FailurePersists(begun, payment, shares, i + 1);
          payments, invoices, rows := begun.payments, begun.invoices, begun.rows;
          return Failure(error.value);
        }
      }
      if fault.Some? {
        payments, invoices, rows := begun.payments, begun.invoices, begun.rows;
        return Failure(StatementFailed);
      }
      r := Success(());
    }
  }

  lemma {:induction false} FailurePersists(l: Ledger, payment: Id, shares: seq<Share>, n: nat)
    requires n <= |shares|
    ensures AllocateFirst(l, payment, shares, n).Failure? ==> AllocateAll(l, payment, shares).Failure?
    decreases |shares| - n
  {
    hide Allocate;
    if n < |shares| {
      FailurePersists(l, payment, shares, n + 1);
    }
  }

  // ---------------------------------------------------------------------------
  // Money
  // ---------------------------------------------------------------------------

  /** No payment is allocated beyond its amount and no invoice beyond its total. */
  ghost predicate WithinCaps(l: Ledger) {
    && (forall p <- l.payments :: PaymentSum(l.rows, p) <= l.payments[p].amount)
    && forall i <- l.invoices :: InvoiceSum(l.rows, i) <= l.invoices[i].total
  }

  /** An invoice marked paid has its total allocated. */
  predicate Honest(l: Ledger, invoice: Id) {
    invoice in l.invoices && l.invoices[invoice].status == "paid" ==> InvoiceSum(l.rows, invoice) >= l.invoices[invoice].total
  }

  /** Marked paid exactly when the total is allocated. */
  predicate PaidExactly(l: Ledger, invoice: Id) {
    invoice in l.invoices ==> (l.invoices[invoice].status == "paid" <==> InvoiceSum(l.rows, invoice) == l.invoices[invoice].total)
  }

  /** What one share moves: its amount onto both sums, nothing else. */
  lemma AllocateMoves(l: Ledger, payment: Id, share: Share, other: Id)
    requires Allocate(l, payment, share).Success?
    ensures var l' := Allocate(l, payment, share).value;
            && PaymentSum(l'.rows, other) == PaymentSum(l.rows, other) + (if other == payment then share.amount else 0)
            && InvoiceSum(l'.rows, other) == InvoiceSum(l.rows, other) + (if other == share.invoice then share.amount else 0)
            && l'.payments == l.payments && l'.invoices.Keys == l.invoices.Keys
            && (other in l.invoices ==> l'.invoices[other].total == l.invoices[other].total)
            && (other in l.invoices && other != share.invoice ==> l'.invoices[other] == l.invoices[other])
            && (other in l.invoices && other == share.invoice ==>
                  l'.invoices[other].status == if InvoiceSum(l'.rows, other) >= l.invoices[other].total then "paid" else l.invoices[other].status)
  {
    var row := Row(payment, share.invoice, share.amount, false);
    assert (l.rows + [row])[..|l.rows|] == l.rows;
  }

  lemma AllocateWithinCaps(l: Ledger, payment: Id, share: Share)
    requires WithinCaps(l) && Allocate(l, payment, share).Success?
    ensures WithinCaps(Allocate(l, payment, share).value)
  {
    var l' := Allocate(l, payment, share).value;
    forall p | p in l'.payments ensures PaymentSum(l'.rows, p) <= l'.payments[p].amount {
      AllocateMoves(l, payment, share, p);
    }
    forall i | i in l'.invoices ensures InvoiceSum(l'.rows, i) <= l'.invoices[i].total {
      AllocateMoves(l, payment, share, i);
    }
  }

  /** Whether one of the first n shares names the invoice. */
  predicate TouchesTo(shares: seq<Share>, n: nat, invoice: Id)
    requires n <= |shares|
  {
    exists i :: 0 <= i < n && shares[i].invoice == invoice
  }

  predicate Touches(shares: seq<Share>, invoice: Id) {
    TouchesTo(shares, |shares|, invoice)
  }

  predicate NonNegative(shares: seq<Share>) {
    forall i :: 0 <= i < |shares| ==> shares[i].amount >= 0
  }

  /** Share i leads from one ledger to the next. */
  predicate Next(ls: seq<Ledger>, payment: Id, shares: seq<Share>, i: nat)
    requires |ls| == |shares| + 1 && i < |shares|
  {
    Allocate(ls[i], payment, shares[i]) == Success(ls[i + 1])
  }

  /** The ledgers between the shares of a request. */
  predicate Trace(ls: seq<Ledger>, payment: Id, shares: seq<Share>) {
    |ls| == |shares| + 1 && forall i: nat :: i < |shares| ==> Next(ls, payment, shares, i)
  }

  lemma Traced(l: Ledger, payment: Id, shares: seq<Share>) returns (ls: seq<Ledger>)
    requires AllocateAll(l, payment, shares).Success?
    ensures Trace(ls, payment, shares) && ls[0] == l && ls[|shares|] == AllocateAll(l, payment, shares).value
  {
    hide Allocate;
    forall i: nat | i <= |shares| ensures AllocateFirst(l, payment, shares, i).Success? {
      FailurePersists(l, payment, shares, i);
    }
    ls := seq(|shares| + 1, i requires 0 <= i <= |shares| => AllocateFirst(l, payment, shares, i).value);
    forall i: nat | i < |shares| ensures Next(ls, payment, shares, i) {
      NextOf(l, payment, shares, i);
    }
  }

  lemma NextOf(l: Ledger, payment: Id, shares: seq<Share>, i: nat)
    requires i < |shares| && AllocateFirst(l, payment, shares, i).Success? && AllocateFirst(l, payment, shares, i + 1).Success?
    ensures Allocate(AllocateFirst(l, payment, shares, i).value, payment, shares[i])
            == Success(AllocateFirst(l, payment, shares, i + 1).value)
  {
    hide Allocate;
  }

  /** One committed share: what it does to the payment and to any invoice's mark. */
  lemma ShareSettles(l: Ledger, payment: Id, share: Share, invoice: Id)
    requires share.amount >= 0 && WithinCaps(l) && Honest(l, invoice) && Allocate(l, payment, share).Success?
    ensures var l' := Allocate(l, payment, share).value;
            && WithinCaps(l') && Honest(l', invoice)
            && PaymentSum(l'.rows, payment) == PaymentSum(l.rows, payment) + share.amount
            && (share.invoice == invoice || PaidExactly(l, invoice) ==> PaidExactly(l', invoice))
  {
    AllocateWithinCaps(l, payment, share);
    AllocateMoves(l, payment, share, invoice);
    AllocateMoves(l, payment, share, payment);
  }

  /** Sum of the first n shares. */
  function TotalTo(shares: seq<Share>, n: nat): int
    requires n <= |shares|
  {
    if n == 0 then 0 else TotalTo(shares, n - 1) + shares[n - 1].amount
  }

  /** What the first n shares of a committed request leave behind. */
  ghost predicate Settled(l: Ledger, payment: Id, shares: seq<Share>, n: nat, invoice: Id, l': Ledger)
    requires n <= |shares|
  {
    && WithinCaps(l') && Honest(l', invoice)
    && PaymentSum(l'.rows, payment) == PaymentSum(l.rows, payment) + TotalTo(shares, n)
    && (TouchesTo(shares, n, invoice) || PaidExactly(l, invoice) ==> PaidExactly(l', invoice))
  }

  lemma {:induction false} TraceSettles(ls: seq<Ledger>, payment: Id, shares: seq<Share>, n: nat, invoice: Id)
    requires Trace(ls, payment, shares) && n <= |shares| && NonNegative(shares)
    requires WithinCaps(ls[0]) && Honest(ls[0], invoice)
    ensures Settled(ls[0], payment, shares, n, invoice, ls[n])
  {
    if n > 0 {
      assert Next(ls, payment, shares, n - 1);
      TraceSettles(ls, payment, shares, n - 1, invoice);
      ShareSettles(ls[n - 1], payment, shares[n - 1], invoice);
    }
  }

  /** A committed request: the payment loses exactly the sum of the shares, caps hold, and every invoice
      it touched is marked paid exactly when its allocations reach its total. */
  lemma RequestSettles(l: Ledger, payment: Id, shares: seq<Share>, invoice: Id)
    requires WithinCaps(l) && Honest(l, invoice) && NonNegative(shares)
    requires AllocateAll(l, payment, shares).Success?
    ensures Settled(l, payment, shares, |shares|, invoice, AllocateAll(l, payment, shares).value)
  {
    var ls := Traced(l, payment, shares);
    TraceSettles(ls, payment, shares, |shares|, invoice);
  }

  // ---------------------------------------------------------------------------
  // Runs of requests
  // ---------------------------------------------------------------------------

  datatype Request = Request(payment: Id, shares: seq<Share>)

  /** A request that fails leaves the ledger as it was. */
  function Serve(l: Ledger, request: Request): Ledger {
    match AllocateAll(l, request.payment, request.shares)
    case Success(l') => l'
    case Failure(_) => l
  }

  function ServeAll(l: Ledger, requests: seq<Request>): Ledger {
    if requests == [] then l else Serve(ServeAll(l, requests[..|requests| - 1]), requests[|requests| - 1])
  }

  ghost predicate Sound(l: Ledger) {
    WithinCaps(l) && forall i <- l.invoices :: PaidExactly(l, i)
  }

  lemma {:induction false} TraceWithinCaps(ls: seq<Ledger>, payment: Id, shares: seq<Share>, n: nat)
    requires Trace(ls, payment, shares) && n <= |shares| && WithinCaps(ls[0])
    ensures WithinCaps(ls[n]) && ls[n].invoices.Keys == ls[0].invoices.Keys
  {
    if n > 0 {
      assert Next(ls, payment, shares, n - 1);
      TraceWithinCaps(ls, payment, shares, n - 1);
      AllocateWithinCaps(ls[n - 1], payment, shares[n - 1]);
      AllocateMoves(ls[n - 1], payment, shares[n - 1], 0);
    }
  }

  lemma RequestWithinCaps(l: Ledger, payment: Id, shares: seq<Share>)
    requires WithinCaps(l)
    ensures WithinCaps(Serve(l, Request(payment, shares)))
    ensures AllocateAll(l, payment, shares).Success? ==> AllocateAll(l, payment, shares).value.invoices.Keys == l.invoices.Keys
  {
    if AllocateAll(l, payment, shares).Success? {
      var ls := Traced(l, payment, shares);
      TraceWithinCaps(ls, payment, shares, |shares|);
    }
  }

  /** Whatever the amounts, over any run no payment and no invoice is ever allocated beyond its cap. */
  lemma {:induction false} CapsAlways(l: Ledger, requests: seq<Request>)
    requires WithinCaps(l)
    ensures WithinCaps(ServeAll(l, requests))
  {
    if requests != [] {
      CapsAlways(l, requests[..|requests| - 1]);
      var last := requests[|requests| - 1];
      RequestWithinCaps(ServeAll(l, requests[..|requests| - 1]), last.payment, last.shares);
    }
  }

  lemma ServeSound(l: Ledger, request: Request)
    requires Sound(l) && NonNegative(request.shares)
    ensures Sound(Serve(l, request))
  {
    RequestWithinCaps(l, request.payment, request.shares);
    forall i | i in Serve(l, request).invoices ensures PaidExactly(Serve(l, request), i) {
      assert PaidExactly(l, i);
      if AllocateAll(l, request.payment, request.shares).Success? {
        RequestSettles(l, request.payment, request.shares, i);
      }
    }
  }

  /** Over any run of requests without negative amounts, an invoice is marked paid exactly when its
      allocations reach its total. */
  lemma {:induction false} PaidAlwaysExact(l: Ledger, requests: seq<Request>)
    requires Sound(l) && forall k :: 0 <= k < |requests| ==> NonNegative(requests[k].shares)
    ensures Sound(ServeAll(l, requests))
  {
    if requests != [] {
      PaidAlwaysExact(l, requests[..|requests| - 1]);
      ServeSound(ServeAll(l, requests[..|requests| - 1]), requests[|requests| - 1]);
    }
  }

  // ---------------------------------------------------------------------------
  // Negative amounts
  // ---------------------------------------------------------------------------

  lemma RowsAfter(l: Ledger, payment: Id, share: Share, invoice: Id)
    requires Allocate(l, payment, share).Success?
    ensures var rows := Allocate(l, payment, share).value.rows;
            LivePair(rows, payment, invoice) <==> LivePair(l.rows, payment, invoice) || invoice == share.invoice
  {
    var row := Row(payment, share.invoice, share.amount, false);
    var rows := l.rows + [row];
    assert Allocate(l, payment, share).value.rows == rows && rows[|l.rows|] == row;
    assert forall r <- l.rows :: r in rows;
    assert forall r <- rows :: r == row || r in l.rows;
  }

  /** A request names an invoice at most once: a second share of one payment hits the unique key. */
  lemma {:induction false} TouchedIsLive(ls: seq<Ledger>, payment: Id, shares: seq<Share>, n: nat, invoice: Id)
    requires Trace(ls, payment, shares) && n <= |shares| && TouchesTo(shares, n, invoice)
    ensures LivePair(ls[n].rows, payment, invoice)
  {
    assert Next(ls, payment, shares, n - 1);
    RowsAfter(ls[n - 1], payment, shares[n - 1], invoice);
    if shares[n - 1].invoice != invoice {
      TouchedIsLive(ls, payment, shares, n - 1, invoice);
    }
  }

  predicate SameInvoice(l: Ledger, l': Ledger, invoice: Id) {
    && InvoiceSum(l'.rows, invoice) == InvoiceSum(l.rows, invoice)
    && (invoice in l'.invoices <==> invoice in l.invoices)
    && (invoice in l.invoices ==> l'.invoices[invoice] == l.invoices[invoice])
  }

  /** An invoice the shares do not name keeps its allocations and its mark. */
  lemma {:induction false} UntouchedStays(ls: seq<Ledger>, payment: Id, shares: seq<Share>, n: nat, invoice: Id)
    requires Trace(ls, payment, shares) && n <= |shares| && !TouchesTo(shares, n, invoice)
    ensures SameInvoice(ls[0], ls[n], invoice)
  {
    if n > 0 {
      assert Next(ls, payment, shares, n - 1);
      UntouchedStays(ls, payment, shares, n - 1, invoice);
      AllocateMoves(ls[n - 1], payment, shares[n - 1], invoice);
    }
  }

  /** What decides whether a share can spoil the mark of an invoice. */
  predicate Harmless(l: Ledger, share: Share, invoice: Id) {
    share.invoice == invoice && invoice in l.invoices && l.invoices[invoice].status == "paid" ==> share.amount >= 0
  }

  lemma ShareMarksExactly(l: Ledger, payment: Id, share: Share, invoice: Id)
    requires WithinCaps(l) && PaidExactly(l, invoice) && Allocate(l, payment, share).Success?
    ensures PaidExactly(Allocate(l, payment, share).value, invoice) <==> Harmless(l, share, invoice)
  {
    AllocateMoves(l, payment, share, invoice);
    AllocateWithinCaps(l, payment, share);
  }

  /** The first n shares allocate no negative amount to an invoice already marked paid. */
  predicate AllHarmless(l: Ledger, shares: seq<Share>, n: nat, invoice: Id)
    requires n <= |shares|
  {
    forall i :: 0 <= i < n ==> Harmless(l, shares[i], invoice)
  }

  lemma {:induction false} TraceMarksExactly(ls: seq<Ledger>, payment: Id, shares: seq<Share>, n: nat, invoice: Id)
    requires Trace(ls, payment, shares) && n <= |shares| && WithinCaps(ls[0]) && PaidExactly(ls[0], invoice)
    ensures PaidExactly(ls[n], invoice) <==> AllHarmless(ls[0], shares, n, invoice)
  {
    if n > 0 {
      if shares[n - 1].invoice != invoice {
        TraceMarksExactly(ls, payment, shares, n - 1, invoice);
        OtherShareMarks(ls, payment, shares, n - 1, invoice);
      } else {
        NamedShareMarks(ls, payment, shares, n - 1);
      }
    }
  }

  lemma OtherShareMarks(ls: seq<Ledger>, payment: Id, shares: seq<Share>, k: nat, invoice: Id)
    requires Trace(ls, payment, shares) && k < |shares| && shares[k].invoice != invoice
    ensures PaidExactly(ls[k + 1], invoice) <==> PaidExactly(ls[k], invoice)
    ensures AllHarmless(ls[0], shares, k + 1, invoice) <==> AllHarmless(ls[0], shares, k, invoice)
  {
    hide Insert, Settle, PaymentSum;
    assert Next(ls, payment, shares, k);
    AllocateMoves(ls[k], payment, shares[k], invoice);
  }

  lemma NamedShareMarks(ls: seq<Ledger>, payment: Id, shares: seq<Share>, k: nat)
    requires Trace(ls, payment, shares) && k < |shares| && WithinCaps(ls[0]) && PaidExactly(ls[0], shares[k].invoice)
    ensures PaidExactly(ls[k + 1], shares[k].invoice) <==> AllHarmless(ls[0], shares, k + 1, shares[k].invoice)
  {
    assert Next(ls, payment, shares, k);
    NamedOnce(ls, payment, shares, k);
    TraceWithinCaps(ls, payment, shares, k);
    ShareMarksExactly(ls[k], payment, shares[k], shares[k].invoice);
  }

  /** The invoice of share k is as it was before the request. */
  lemma NamedOnce(ls: seq<Ledger>, payment: Id, shares: seq<Share>, k: nat)
    requires Trace(ls, payment, shares) && k < |shares|
    ensures SameInvoice(ls[0], ls[k], shares[k].invoice)
    ensures forall i :: 0 <= i < k ==> shares[i].invoice != shares[k].invoice
  {
    assert Next(ls, payment, shares, k);
    if TouchesTo(shares, k, shares[k].invoice) {
      TouchedIsLive(ls, payment, shares, k, shares[k].invoice);
      assert false;
    }
    UntouchedStays(ls, payment, shares, k, shares[k].invoice);
  }

  /** Amounts are not validated.  A committed request leaves an invoice that was correctly marked correctly
      marked if and only if it allocates no negative amount to it or the invoice was not marked paid. */
  lemma NegativeShareExact(l: Ledger, payment: Id, shares: seq<Share>, invoice: Id)
    requires WithinCaps(l) && PaidExactly(l, invoice) && AllocateAll(l, payment, shares).Success?
    ensures PaidExactly(AllocateAll(l, payment, shares).value, invoice)
            <==> AllHarmless(l, shares, |shares|, invoice)
  {
    var ls := Traced(l, payment, shares);
    TraceMarksExactly(ls, payment, shares, |shares|, invoice);
  }

  /** Such a request commits: payment 1 of 100 covers invoice 7, and payment 2 then takes 10 back. */
  lemma NegativeShareCommits() returns (l: Ledger, l': Ledger)
    ensures Sound(l) && AllocateAll(l, 2, [Share(7, -10)]) == Success(l') && WithinCaps(l')
    ensures l'.invoices[7].status == "paid" && InvoiceSum(l'.rows, 7) < l'.invoices[7].total
  {
    var row, back := Row(1, 7, 100, false), Row(2, 7, -10, false);
    l := Ledger(map[1 := Payment(1, 100), 2 := Payment(1, 50)], map[7 := Invoice(100, "paid")], [row]);
    assert [row][..0] == [];
    assert forall p :: PaymentSum([row], p) == if p == 1 then 100 else 0;
    assert forall i :: InvoiceSum([row], i) == if i == 7 then 100 else 0;
    assert Sound(l);
    assert LivePair([row], 2, 7) == false;
    assert Allocate(l, 2, Share(7, -10)).Success?;
    assert AllocateFirst(l, 2, [Share(7, -10)], 0) == Success(l);
    l' := Allocate(l, 2, Share(7, -10)).value;
    AllocateWithinCaps(l, 2, Share(7, -10));
    AllocateMoves(l, 2, Share(7, -10), 7);
  }

  // ---------------------------------------------------------------------------
  // Deleted allocations
  // ---------------------------------------------------------------------------

  /** Every row counts by itself, toward its payment and its invoice, unless it is deleted. */
  lemma {:induction false} SumsWithout(rows: seq<Row>, i: nat, id: Id)
    requires i < |rows|
    ensures PaymentSum([], id) == 0 && InvoiceSum([], id) == 0
    ensures PaymentSum(rows, id) == PaymentSum(rows[..i] + rows[i + 1..], id) + if rows[i].payment == id && !rows[i].deleted then rows[i].amount else 0
    ensures InvoiceSum(rows, id) == InvoiceSum(rows[..i] + rows[i + 1..], id) + if rows[i].invoice == id && !rows[i].deleted then rows[i].amount else 0
  {
    var n := |rows| - 1;
    if i == n {
      assert rows[..i] + rows[i + 1..] == rows[..n];
    } else {
      SumsWithout(rows[..n], i, id);
      var rest := rows[..n][..i] + rows[..n][i + 1..];
      assert rows[..i] + rows[i + 1..] == rest + [rows[n]];
      assert (rest + [rows[n]])[..|rest|] == rest;
    }
  }

  function Deleted(l: Ledger, i: nat): Ledger
    requires i < |l.rows|
  {
    l.(rows := l.rows[i := l.rows[i].(deleted := true)])
  }

  /** Marking an allocation deleted gives its amount back to its payment and to its invoice, and to nobody
      else. */
  lemma DeletionGivesBack(l: Ledger, i: nat, id: Id)
    requires i < |l.rows| && !l.rows[i].deleted
    ensures PaymentSum(Deleted(l, i).rows, id) == PaymentSum(l.rows, id) - if l.rows[i].payment == id then l.rows[i].amount else 0
    ensures InvoiceSum(Deleted(l, i).rows, id) == InvoiceSum(l.rows, id) - if l.rows[i].invoice == id then l.rows[i].amount else 0
  {
    hide PaymentSum, InvoiceSum;
    var rows, rows' := l.rows, Deleted(l, i).rows;
    SumsWithout(rows, i, id);
    SumsWithout(rows', i, id);
    assert rows'[..i] + rows'[i + 1..] == rows[..i] + rows[i + 1..];
  }

  predicate OnlyLive(rows: seq<Row>, i: nat)
    requires i < |rows|
  {
    forall k :: 0 <= k < |rows| && k != i && !rows[k].deleted ==> rows[k].payment != rows[i].payment || rows[k].invoice != rows[i].invoice
  }

  /** So the same allocation can be made again, and then every sum is what it was. */
  lemma DeleteThenAllocate(l: Ledger, i: nat, id: Id)
    requires WithinCaps(l) && i < |l.rows| && !l.rows[i].deleted && OnlyLive(l.rows, i)
    requires l.rows[i].payment in l.payments && l.rows[i].invoice in l.invoices
    ensures var again := Allocate(Deleted(l, i), l.rows[i].payment, Share(l.rows[i].invoice, l.rows[i].amount));
            && again.Success?
            && PaymentSum(again.value.rows, id) == PaymentSum(l.rows, id) && InvoiceSum(again.value.rows, id) == InvoiceSum(l.rows, id)
  {
    hide PaymentSum, InvoiceSum, Settle;
    var row := l.rows[i];
    DeletionGivesBack(l, i, row.payment);
    DeletionGivesBack(l, i, row.invoice);
    DeletionGivesBack(l, i, id);
    PairFree(l, i);
    AllocateMoves(Deleted(l, i), row.payment, Share(row.invoice, row.amount), id);
  }

  lemma PairFree(l: Ledger, i: nat)
    requires i < |l.rows| && OnlyLive(l.rows, i)
    ensures !LivePair(Deleted(l, i).rows, l.rows[i].payment, l.rows[i].invoice)
  {
    var rows := Deleted(l, i).rows;
    forall r | r in rows && !r.deleted ensures r.payment != l.rows[i].payment || r.invoice != l.rows[i].invoice {
      var k :| 0 <= k < |rows| && rows[k] == r;
      assert l.rows[k] == r;
    }
  }

  /** Which of the guards refuses a share, by the sums it reads, and what is recorded otherwise. */
  lemma AllocateExact(l: Ledger, payment: Id, share: Share)
    ensures var r := Allocate(l, payment, share);
            if payment in l.payments && PaymentSum(l.rows, payment) + share.amount > l.payments[payment].amount then r == Failure(OverPayment)
            else if share.invoice in l.invoices && InvoiceSum(l.rows, share.invoice) + share.amount > l.invoices[share.invoice].total then r == Failure(OverInvoice)
            else if payment !in l.payments || share.invoice !in l.invoices then r == Failure(NoSuchRow)
            else if exists k :: 0 <= k < |l.rows| && !l.rows[k].deleted && l.rows[k].payment == payment && l.rows[k].invoice == share.invoice then
              r == Failure(DuplicateRow)
            else
              r.Success? && r.value.rows == l.rows + [Row(payment, share.invoice, share.amount, false)] && r.value.payments == l.payments
  {
    hide PaymentSum, InvoiceSum;
    PairExact(l.rows, payment, share.invoice);
  }

  lemma PairExact(rows: seq<Row>, payment: Id, invoice: Id)
    ensures LivePair(rows, payment, invoice) <==> exists k :: 0 <= k < |rows| && !rows[k].deleted && rows[k].payment == payment && rows[k].invoice == invoice
  {
    if k :| 0 <= k < |rows| && !rows[k].deleted && rows[k].payment == payment && rows[k].invoice == invoice {
      assert rows[k] in rows;
    }
  }
}
