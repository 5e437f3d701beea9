/**
  When two allocation requests, open at the same time, can together break a cap.  Both guards read the
  ledger as it was when their transactions began, so the answer is exact in the two requests alone.
*/
module PaymentOverspends {
  import opened Wrappers
  import opened PaymentAllocation
  import opened PaymentRaces

  /** No invoice is named twice. */
  predicate Distinct(shares: seq<Share>) {
    forall i, j :: 0 <= i < j < |shares| ==> shares[i].invoice != shares[j].invoice
  }

  predicate Positive(shares: seq<Share>) {
    forall i :: 0 <= i < |shares| ==> shares[i].amount > 0
  }

  /** The sum of the first n shares never exceeds the room. */
  predicate Fits(shares: seq<Share>, room: int) {
    forall n: nat :: n <= |shares| ==> TotalTo(shares, n) <= room
  }

  function Total(shares: seq<Share>): int {
    TotalTo(shares, |shares|)
  }

  /** Sum of those of the first n shares that name the invoice. */
  function NamedTo(shares: seq<Share>, n: nat, invoice: Id): int
    requires n <= |shares|
  {
    if n == 0 then 0
    else NamedTo(shares, n - 1, invoice) + if shares[n - 1].invoice == invoice then shares[n - 1].amount else 0
  }

  function Named(shares: seq<Share>, invoice: Id): int {
    NamedTo(shares, |shares|, invoice)
  }

  /** Both begin before either commits, and both commit. */
  function Race(a: Request, b: Request): seq<Step> {
    [Open(1, a), Open(2, b), Commit(1), Commit(2)]
  }

  /** Two requests of one payment and different invoices, that together ask for more than any beginning of
      either, or two requests of different payments that both add to one invoice. */
  predicate Overspending(a: Request, b: Request) {
    && Distinct(a.shares) && Distinct(b.shares)
    && if a.payment == b.payment then
         !Common(a, b) && Fits(a.shares, Total(a.shares) + Total(b.shares) - 1) && Fits(b.shares, Total(a.shares) + Total(b.shares) - 1)
       else
         exists i, j :: 0 <= i < |a.shares| && 0 <= j < |b.shares|
           && a.shares[i].invoice == b.shares[j].invoice && a.shares[i].amount > 0 && b.shares[j].amount > 0
  }

  // ---------------------------------------------------------------------------
  // What a request adds
  // ---------------------------------------------------------------------------

  lemma {:induction false} NamedNothing(shares: seq<Share>, n: nat, invoice: Id)
    requires n <= |shares| && !TouchesTo(shares, n, invoice)
    ensures NamedTo(shares, n, invoice) == 0
  {
    if n > 0 {
      assert !TouchesTo(shares, n - 1, invoice);
      NamedNothing(shares, n - 1, invoice);
    }
  }

  lemma {:induction false} NamedOneShare(shares: seq<Share>, n: nat, k: nat)
    requires Distinct(shares) && k < n <= |shares|
    ensures NamedTo(shares, n, shares[k].invoice) == shares[k].amount
  {
    if k == n - 1 {
      NamedNothing(shares, n - 1, shares[k].invoice);
    } else {
      NamedOneShare(shares, n - 1, k);
    }
  }

  lemma OneMore(rows: seq<Row>, row: Row, id: Id)
    ensures PaymentSum(rows + [row], id) == PaymentSum(rows, id) + if row.payment == id && !row.deleted then row.amount else 0
    ensures InvoiceSum(rows + [row], id) == InvoiceSum(rows, id) + if row.invoice == id && !row.deleted then row.amount else 0
  {
    assert (rows + [row])[..|rows|] == rows;
  }

  /** The sums after a request's rows are added. */
  lemma {:induction false} InsertedSums(rows: seq<Row>, request: Request, n: nat, id: Id)
    requires n <= |request.shares|
    ensures PaymentSum(rows + Inserted(request, n), id) == PaymentSum(rows, id) + if id == request.payment then TotalTo(request.shares, n) else 0
    ensures InvoiceSum(rows + Inserted(request, n), id) == InvoiceSum(rows, id) + NamedTo(request.shares, n, id)
  {
    hide PaymentSum, InvoiceSum, Inserted;
    if n == 0 {
      assert rows + Inserted(request, 0) == rows;
    } else {
      InsertedSums(rows, request, n - 1, id);
      InsertedMore(rows, request, n - 1);
      OneMore(rows + Inserted(request, n - 1), Row(request.payment, request.shares[n - 1].invoice, request.shares[n - 1].amount, false), id);
    }
  }

  lemma {:induction false} TraceSums(ls: seq<Ledger>, payment: Id, shares: seq<Share>, n: nat, id: Id)
    requires Trace(ls, payment, shares) && n <= |shares|
    ensures PaymentSum(ls[n].rows, id) == PaymentSum(ls[0].rows, id) + if id == payment then TotalTo(shares, n) else 0
    ensures InvoiceSum(ls[n].rows, id) == InvoiceSum(ls[0].rows, id) + NamedTo(shares, n, id)
    ensures ls[n].payments == ls[0].payments && ls[n].invoices.Keys == ls[0].invoices.Keys
    ensures id in ls[0].invoices ==> ls[n].invoices[id].total == ls[0].invoices[id].total
  {
    if n > 0 {
      hide Insert, Settle, PaymentSum, InvoiceSum;
      assert Next(ls, payment, shares, n - 1);
      TraceSums(ls, payment, shares, n - 1, id);
      AllocateMoves(ls[n - 1], payment, shares[n - 1], id);
    }
  }

  /** What a request that runs through tells about the ledger it ran on. */
  lemma Fitted(l: Ledger, request: Request)
    requires WithinCaps(l) && AllocateAll(l, request.payment, request.shares).Success?
    ensures Distinct(request.shares)
    ensures request.payment in l.payments ==> Fits(request.shares, l.payments[request.payment].amount - PaymentSum(l.rows, request.payment))
    ensures forall v <- l.invoices :: InvoiceSum(l.rows, v) + Named(request.shares, v) <= l.invoices[v].total
  {
    hide PaymentSum, InvoiceSum, AllocateAll;
    var payment, shares := request.payment, request.shares;
    var ls := Traced(l, payment, shares);
    forall i, j | 0 <= i < j < |shares| ensures shares[i].invoice != shares[j].invoice {
      NamedOnce(ls, payment, shares, j);
    }
    forall n: nat | n <= |shares| && payment in l.payments
      ensures TotalTo(shares, n) <= l.payments[payment].amount - PaymentSum(l.rows, payment) {
      TraceWithinCaps(ls, payment, shares, n);
      TraceSums(ls, payment, shares, n, payment);
    }
    forall v | v in l.invoices ensures InvoiceSum(l.rows, v) + Named(shares, v) <= l.invoices[v].total {
      TraceWithinCaps(ls, payment, shares, |shares|);
      TraceSums(ls, payment, shares, |shares|, v);
    }
  }

  // ---------------------------------------------------------------------------
  // The race
  // ---------------------------------------------------------------------------

  /** What the four steps ask of the ledger, and what they leave. */
  predicate BothCommit(l: Ledger, a: Request, b: Request) {
    && AllocateAll(l, a.payment, a.shares).Success? && KeyFree(l, a)
    && AllocateAll(l, b.payment, b.shares).Success? && KeyFree(Published(l, Txn(l, a)), b)
  }

  function Raced(l: Ledger, a: Request, b: Request): Ledger
    requires BothCommit(l, a, b)
  {
    Published(Published(l, Txn(l, a)), Txn(l, b))
  }

  lemma RaceRuns(l: Ledger, a: Request, b: Request)
    ensures Runs(Initial(l), Race(a, b)) <==> BothCommit(l, a, b)
    ensures BothCommit(l, a, b) ==> After(Initial(l), Race(a, b)).ledger == Raced(l, a, b)
  {
    hide AllocateAll, KeyFree, Published;
    var steps := Race(a, b);
    var w1 := Do(Initial(l), steps[0]);
    var w2 := Do(w1, steps[1]);
    assert w2.open_ == map[1 := Txn(l, a), 2 := Txn(l, b)];
    assert Runs(Initial(l), steps) <==> Runs(w2, [Commit(1), Commit(2)]) by {
      assert steps[1..] == [Open(2, b), Commit(1), Commit(2)];
      assert steps[1..][1..] == [Commit(1), Commit(2)];
    }
    assert [Commit(1), Commit(2)][1..] == [Commit(2)] && [Commit(2)][1..] == [];
    if Enabled(w2, Commit(1)) {
      var w3 := Do(w2, Commit(1));
      assert w3.open_[2] == Txn(l, b) && w3.ledger == Published(l, Txn(l, a));
      assert Runs(w3, [Commit(2)]) <==> Enabled(w3, Commit(2));
      if Enabled(w3, Commit(2)) {
        assert After(w3, [Commit(2)]) == Do(w3, Commit(2));
        assert After(Initial(l), steps) == After(w2, [Commit(1), Commit(2)]) by {
          assert steps[1..] == [Open(2, b), Commit(1), Commit(2)];
          assert steps[1..][1..] == [Commit(1), Commit(2)];
        }
      }
    }
  }

  lemma RacedSums(l: Ledger, a: Request, b: Request, id: Id)
    requires BothCommit(l, a, b)
    ensures var l' := Raced(l, a, b);
            && l'.payments == l.payments && l'.invoices.Keys == l.invoices.Keys
            && (id in l.invoices ==> l'.invoices[id].total == l.invoices[id].total)
            && PaymentSum(l'.rows, id) == PaymentSum(l.rows, id)
               + (if id == a.payment then Total(a.shares) else 0) + (if id == b.payment then Total(b.shares) else 0)
            && InvoiceSum(l'.rows, id) == InvoiceSum(l.rows, id) + Named(a.shares, id) + Named(b.shares, id)
  {
    hide AllocateAll, KeyFree, PaymentSum, InvoiceSum, Inserted;
    InsertedSums(l.rows, a, |a.shares|, id);
    InsertedSums(l.rows + Inserted(a, |a.shares|), b, |b.shares|, id);
  }

  /** The second commit got past the unique key. */
  lemma KeysDiffer(l: Ledger, a: Request, b: Request)
    requires BothCommit(l, a, b)
    ensures a.payment == b.payment ==> !Common(a, b)
  {
    hide AllocateAll, KeyFree, Published;
    if a.payment == b.payment && Common(a, b) {
      var i, j :| 0 <= i < |a.shares| && 0 <= j < |b.shares| && a.shares[i].invoice == b.shares[j].invoice;
      assert Common(b, a);
      CommitTakes(l, Txn(l, a), b);
    }
  }

  lemma OverspentOverspends(l: Ledger, a: Request, b: Request)
    requires WithinCaps(l) && BothCommit(l, a, b) && !WithinCaps(Raced(l, a, b))
    ensures Overspending(a, b)
  {
    hide AllocateAll, KeyFree, PaymentSum, InvoiceSum, Published, NamedTo, TotalTo;
    Fitted(l, a);
    Fitted(l, b);
    KeysDiffer(l, a, b);
    var l' := Raced(l, a, b);
    RacedSums(l, a, b, 0);
    if p :| p in l'.payments && PaymentSum(l'.rows, p) > l'.payments[p].amount {
      RacedSums(l, a, b, p);
      PaymentOverspent(l, a, b, p);
    } else {
      var v :| v in l'.invoices && InvoiceSum(l'.rows, v) > l'.invoices[v].total;
      RacedSums(l, a, b, v);
      if !Touches(a.shares, v) {
        NamedNothing(a.shares, |a.shares|, v);
      } else if !Touches(b.shares, v) {
        NamedNothing(b.shares, |b.shares|, v);
      } else {
        var i :| 0 <= i < |a.shares| && a.shares[i].invoice == v;
        var j :| 0 <= j < |b.shares| && b.shares[j].invoice == v;
        NamedOneShare(a.shares, |a.shares|, i);
        NamedOneShare(b.shares, |b.shares|, j);
      }
    }
  }

  lemma PaymentOverspent(l: Ledger, a: Request, b: Request, p: Id)
    requires p in l.payments && PaymentSum(l.rows, p) <= l.payments[p].amount
    requires p == a.payment ==> Fits(a.shares, l.payments[p].amount - PaymentSum(l.rows, p))
    requires p == b.payment ==> Fits(b.shares, l.payments[p].amount - PaymentSum(l.rows, p))
    requires PaymentSum(l.rows, p) + (if p == a.payment then Total(a.shares) else 0) + (if p == b.payment then Total(b.shares) else 0)
             > l.payments[p].amount
    ensures a.payment == b.payment
    ensures Fits(a.shares, Total(a.shares) + Total(b.shares) - 1) && Fits(b.shares, Total(a.shares) + Total(b.shares) - 1)
  {
    hide PaymentSum;
    if p == a.payment {
      assert TotalTo(a.shares, |a.shares|) <= l.payments[p].amount - PaymentSum(l.rows, p);
    }
    if p == b.payment {
      assert TotalTo(b.shares, |b.shares|) <= l.payments[p].amount - PaymentSum(l.rows, p);
    }
  }

  // ---------------------------------------------------------------------------
  // The ledgers that two such requests overspend
  // ---------------------------------------------------------------------------

  /** A ledger without allocations on which a request runs through. */
  predicate Roomy(l: Ledger, request: Request) {
    && l.rows == [] && request.payment in l.payments && Fits(request.shares, l.payments[request.payment].amount)
    && forall i :: 0 <= i < |request.shares| ==>
         request.shares[i].invoice in l.invoices && request.shares[i].amount <= l.invoices[request.shares[i].invoice].total
  }

  /** What an invoice not yet named looks like after the first shares. */
  predicate Untouched(l: Ledger, m: Ledger, payment: Id, invoice: Id) {
    && invoice in l.invoices && invoice in m.invoices && m.invoices[invoice] == l.invoices[invoice]
    && InvoiceSum(m.rows, invoice) == 0 && !LivePair(m.rows, payment, invoice)
  }

  /** The first n shares have been allocated. */
  predicate Progress(l: Ledger, m: Ledger, request: Request, n: nat)
    requires n <= |request.shares|
  {
    && m.payments == l.payments && PaymentSum(m.rows, request.payment) == TotalTo(request.shares, n)
    && forall i :: n <= i < |request.shares| ==> Untouched(l, m, request.payment, request.shares[i].invoice)
  }

  lemma RoomyStarts(l: Ledger, request: Request)
    requires Roomy(l, request)
    ensures Progress(l, l, request, 0)
  {
  }

  lemma {:induction false} RoomyRuns(l: Ledger, request: Request, n: nat)
    requires Roomy(l, request) && Distinct(request.shares) && n <= |request.shares|
    ensures var r := AllocateFirst(l, request.payment, request.shares, n);
            r.Success? && Progress(l, r.value, request, n)
  {
    hide Allocate, Roomy, Distinct, Progress;
    if n == 0 {
      RoomyStarts(l, request);
    } else {
      RoomyRuns(l, request, n - 1);
      RoomyStep(l, request, n - 1, AllocateFirst(l, request.payment, request.shares, n - 1).value);
    }
  }

  lemma RoomyStep(l: Ledger, request: Request, n: nat, m: Ledger)
    requires Roomy(l, request) && Distinct(request.shares) && n < |request.shares| && Progress(l, m, request, n)
    ensures var r := Allocate(m, request.payment, request.shares[n]);
            r.Success? && Progress(l, r.value, request, n + 1)
  {
    hide PaymentSum, InvoiceSum, LivePair, Settle;
    var payment, share := request.payment, request.shares[n];
    assert Untouched(l, m, payment, share.invoice);
    assert TotalTo(request.shares, n + 1) == TotalTo(request.shares, n) + share.amount;
    AllocateMoves(m, payment, share, payment);
    forall i | n < i < |request.shares|
      ensures Untouched(l, Allocate(m, payment, share).value, payment, request.shares[i].invoice) {
      assert Untouched(l, m, payment, request.shares[i].invoice);
      AllocateMoves(m, payment, share, request.shares[i].invoice);
      RowsAfter(m, payment, share, request.shares[i].invoice);
    }
  }

  /** Two such requests both commit unless the unique key stops the second. */
  lemma RoomyRace(l: Ledger, a: Request, b: Request)
    requires Roomy(l, a) && Roomy(l, b) && Distinct(a.shares) && Distinct(b.shares)
    requires a.payment == b.payment ==> !Common(a, b)
    ensures BothCommit(l, a, b)
  {
    hide AllocateFirst, Progress, Fits, TouchesTo;
    RoomyRuns(l, a, |a.shares|);
    RoomyRuns(l, b, |b.shares|);
    var l1 := Published(l, Txn(l, a));
    forall j | 0 <= j < |b.shares| ensures !LivePair(l1.rows, b.payment, b.shares[j].invoice) {
      assert l1.rows == Inserted(a, |a.shares|);
    }
  }

  /** Some room that fits a request and each of its shares. */
  lemma {:induction false} SomeRoom(shares: seq<Share>, n: nat) returns (room: nat)
    requires n <= |shares|
    ensures forall k: nat :: k <= n ==> TotalTo(shares, k) <= room
    ensures forall k :: 0 <= k < n ==> shares[k].amount <= room
  {
    room := 0;
    if n > 0 {
      room := SomeRoom(shares, n - 1);
      var total, amount := TotalTo(shares, n), shares[n - 1].amount;
      room := if total > room then total else room;
      room := if amount > room then amount else room;
    }
  }

  function Invoices(a: Request, b: Request): set<Id> {
    (set s <- a.shares :: s.invoice) + (set s <- b.shares :: s.invoice)
  }

  lemma EmptyWithinCaps(l: Ledger)
    requires l.rows == [] && (forall p <- l.payments :: l.payments[p].amount >= 0) && forall v <- l.invoices :: l.invoices[v].total >= 0
    ensures WithinCaps(l)
  {
  }

  lemma OnePaymentOverspent(a: Request, b: Request) returns (l: Ledger)
    requires Overspending(a, b) && a.payment == b.payment
    ensures WithinCaps(l) && BothCommit(l, a, b) && !WithinCaps(Raced(l, a, b))
  {
    hide BothCommit, Raced, WithinCaps, NamedTo;
    var m := SomeRoom(a.shares, |a.shares|);
    var n := SomeRoom(b.shares, |b.shares|);
    var both := Total(a.shares) + Total(b.shares);
    assert TotalTo(a.shares, 0) <= both - 1;
    l := Ledger(map[a.payment := Payment(1, both - 1)], map v | v in Invoices(a, b) :: Invoice(m + n, "sent"), []);
    EmptyWithinCaps(l);
    RoomyRace(l, a, b);
    RacedSums(l, a, b, a.payment);
    assert PaymentSum(l.rows, a.payment) == 0;
    Exceeded(Raced(l, a, b), a.payment);
  }

  /** A ledger with room everywhere but for one invoice. */
  function Tight(a: Request, b: Request, m: nat, n: nat, v: Id, total: int): Ledger {
    Ledger(map[a.payment := Payment(1, m), b.payment := Payment(1, n)],
           map u | u in Invoices(a, b) :: Invoice(if u == v then total else m + n, "sent"), [])
  }

  lemma TightRoomy(a: Request, b: Request, m: nat, n: nat, i: nat, j: nat)
    requires a.payment != b.payment && Distinct(a.shares) && Distinct(b.shares) && i < |a.shares| && j < |b.shares|
    requires a.shares[i].invoice == b.shares[j].invoice && a.shares[i].amount > 0 && b.shares[j].amount > 0
    requires Fits(a.shares, m) && forall k :: 0 <= k < |a.shares| ==> a.shares[k].amount <= m
    requires Fits(b.shares, n) && forall k :: 0 <= k < |b.shares| ==> b.shares[k].amount <= n
    ensures var l := Tight(a, b, m, n, a.shares[i].invoice, a.shares[i].amount + b.shares[j].amount - 1);
            Roomy(l, a) && Roomy(l, b) && WithinCaps(l) && a.shares[i].invoice in l.invoices
  {
    hide Fits, WithinCaps;
    var l := Tight(a, b, m, n, a.shares[i].invoice, a.shares[i].amount + b.shares[j].amount - 1);
    EmptyWithinCaps(l);
    forall k | 0 <= k < |a.shares| ensures a.shares[k].amount <= l.invoices[a.shares[k].invoice].total {
      assert k != i ==> a.shares[k].invoice != a.shares[i].invoice;
    }
    forall k | 0 <= k < |b.shares| ensures b.shares[k].amount <= l.invoices[b.shares[k].invoice].total {
      assert k != j ==> b.shares[k].invoice != b.shares[j].invoice;
    }
  }

  lemma OneInvoiceOverspent(a: Request, b: Request) returns (l: Ledger)
    requires Overspending(a, b) && a.payment != b.payment
    ensures WithinCaps(l) && BothCommit(l, a, b) && !WithinCaps(Raced(l, a, b))
  {
    hide BothCommit, Raced, WithinCaps, NamedTo, TotalTo, Roomy, Distinct;
    var m := SomeRoom(a.shares, |a.shares|);
    var n := SomeRoom(b.shares, |b.shares|);
    var i, j :| 0 <= i < |a.shares| && 0 <= j < |b.shares|
      && a.shares[i].invoice == b.shares[j].invoice && a.shares[i].amount > 0 && b.shares[j].amount > 0;
    var v, both := a.shares[i].invoice, a.shares[i].amount + b.shares[j].amount;
    l := Tight(a, b, m, n, v, both - 1);
    TightRoomy(a, b, m, n, i, j);
    RoomyRace(l, a, b);
    NamedOneShare(a.shares, |a.shares|, i);
    NamedOneShare(b.shares, |b.shares|, j);
    RacedSums(l, a, b, v);
    assert InvoiceSum(l.rows, v) == 0;
    Exceeded(Raced(l, a, b), v);
  }

  lemma Exceeded(l: Ledger, id: Id)
    requires (id in l.payments && PaymentSum(l.rows, id) > l.payments[id].amount) || (id in l.invoices && InvoiceSum(l.rows, id) > l.invoices[id].total)
    ensures !WithinCaps(l)
  {
  }

  // ---------------------------------------------------------------------------
  // The exact condition
  // ---------------------------------------------------------------------------

  /** The two requests break a cap of some ledger that keeps them all. */
  ghost predicate CanOverspend(a: Request, b: Request) {
    exists l :: WithinCaps(l) && Runs(Initial(l), Race(a, b)) && !WithinCaps(After(Initial(l), Race(a, b)).ledger)
  }

  /** Whatever the two requests and their amounts, open at the same time they can together break a cap if and
      only if they name one payment, no common invoice, and more than any beginning of either, or different
      payments and both add to one invoice. */
  lemma OverspendExactly(a: Request, b: Request)
    ensures CanOverspend(a, b) <==> Overspending(a, b)
  {
    hide Overspending, BothCommit, Raced, WithinCaps, Runs, After, Race;
    if CanOverspend(a, b) {
      var l :| WithinCaps(l) && Runs(Initial(l), Race(a, b)) && !WithinCaps(After(Initial(l), Race(a, b)).ledger);
      RaceRuns(l, a, b);
      OverspentOverspends(l, a, b);
    }
    if Overspending(a, b) {
      var l;
      if a.payment == b.payment {
        l := OnePaymentOverspent(a, b);
      } else {
        l := OneInvoiceOverspent(a, b);
      }
      RaceRuns(l, a, b);
    }
  }

  lemma {:induction false} PositiveTotals(shares: seq<Share>, n: nat)
    requires Positive(shares) && n <= |shares|
    ensures TotalTo(shares, n) >= n && Fits(shares, Total(shares))
  {
    forall k: nat | k <= |shares| ensures k <= TotalTo(shares, k) <= Total(shares) {
      PositiveTotal(shares, k, |shares|);
    }
  }

  lemma {:induction false} PositiveTotal(shares: seq<Share>, k: nat, n: nat)
    requires Positive(shares) && k <= n <= |shares|
    ensures k <= TotalTo(shares, k) <= TotalTo(shares, n) - (n - k)
  {
    if k < n {
      PositiveTotal(shares, k, n - 1);
    } else if k > 0 {
      PositiveTotal(shares, k - 1, n - 1);
    }
  }

  /** For requests of positive amounts that name no invoice twice, that is: exactly when they clash. */
  lemma ClashExactly(a: Request, b: Request)
    requires Positive(a.shares) && Positive(b.shares) && Distinct(a.shares) && Distinct(b.shares)
    ensures CanOverspend(a, b) <==> Clash(a, b)
  {
    OverspendExactly(a, b);
    PositiveTotals(a.shares, |a.shares|);
    PositiveTotals(b.shares, |b.shares|);
    hide CanOverspend, TotalTo;
  }

  /** Two requests of payment 1 for different invoices. */
  lemma SharedPaymentOverspends()
    ensures CanOverspend(Request(1, [Share(7, 60)]), Request(1, [Share(8, 60)]))
  {
    ClashExactly(Request(1, [Share(7, 60)]), Request(1, [Share(8, 60)]));
  }

  /** Two requests of different payments for invoice 7. */
  lemma SharedInvoiceOverspends()
    ensures CanOverspend(Request(1, [Share(7, 60)]), Request(2, [Share(7, 60)]))
  {
    var a, b := Request(1, [Share(7, 60)]), Request(2, [Share(7, 60)]);
    assert a.shares[0].invoice == b.shares[0].invoice;
    ClashExactly(a, b);
  }
}
