/** Invoices, payments and the payment trail. */
module Ledger {
  import opened Wrappers

  datatype InvoiceStatus = Draft | Issued | PartiallyPaid | Paid | Void

  datatype PaymentStatus = Created | Failed | Success | PartiallyRefunded | Refunded

  /** Amounts are whole paise. */
  datatype Invoice = Invoice(total: nat, paid: int, due: int, status: InvoiceStatus)

  datatype Payment = Payment(invoice: nat, offline: bool, amount: int, status: PaymentStatus, refunded: int)

  datatype Kind = OrderCreated | Verified(ok: bool) | Capture | Refund

  datatype Txn = Txn(payment: nat, kind: Kind, amount: int)

  /** Rows are named by their position; none is ever removed. */
  datatype Books = Books(invoices: seq<Invoice>, payments: seq<Payment>, trail: seq<Txn>)

  datatype Op =
    | Raise(total: nat, draft: bool)
    | Checkout(invoice: nat, asked: Option<int>, orderOk: bool)
    | Verify(payment: nat, gatewayOk: bool)
    | Record(invoice: nat, amount: int)
    | GiveBack(payment: nat, asked: Option<int>, gatewayOk: bool)
    | VoidInvoice(invoice: nat)

  datatype Outcome = Done | AlreadyVerified | NotFound | Invalid | Conflict | Declined

  function Max0(x: int): int { if x > 0 then x else 0 }

  // ---- The steps ---------------------------------------------------------------------------

  /** The invoice once a further amount is paid; a negative due is clamped, the paid sum is not. */
  function PayInto(i: Invoice, amount: int): Invoice {
    var paid := i.paid + amount;
    var due := Max0(i.total - paid);
    i.(paid := paid, due := due, status := if due == 0 then Paid else PartiallyPaid)
  }

  /** The invoice once an amount is given back; here the paid sum is clamped. */
  function TakeBack(i: Invoice, amount: int): Invoice {
    var paid := Max0(i.paid - amount);
    i.(paid := paid, due := i.total - paid, status := if paid == 0 then Issued else PartiallyPaid)
  }

  function Settling(b: Books, p: nat): Books
    requires p < |b.payments| && b.payments[p].invoice < |b.invoices|
  {
    var pay := b.payments[p];
    Books(b.invoices[pay.invoice := PayInto(b.invoices[pay.invoice], pay.amount)],
          b.payments[p := pay.(status := Success)],
          b.trail + [Txn(p, Capture, pay.amount)])
  }

  predicate Linked(b: Books) { forall p :: 0 <= p < |b.payments| ==> b.payments[p].invoice < |b.invoices| }

  function Step(b: Books, op: Op): (r: (Books, Outcome))
    requires Linked(b)
  {
    match op
    case Raise(total, draft) =>
      (b.(invoices := b.invoices + [Invoice(total, 0, total, if draft then Draft else Issued)]), Done)
    case Checkout(n, asked, orderOk) =>
      if asked.Some? && asked.value < 100 then (b, Invalid)
      else if n >= |b.invoices| then (b, NotFound)
      else if b.invoices[n].status.Paid? || b.invoices[n].status.Void? then (b, Conflict)
      else
        var amount := if asked.Some? then asked.value else b.invoices[n].due;
        if amount <= 0 || amount > b.invoices[n].due then (b, Invalid)
        else if !orderOk then (b.(payments := b.payments + [Payment(n, false, amount, Failed, 0)]), Declined)
        else
          (Books(b.invoices, b.payments + [Payment(n, false, amount, Created, 0)],
                 b.trail + [Txn(|b.payments|, OrderCreated, amount)]), Done)
    case Verify(p, ok) =>
      if p >= |b.payments| then (b, NotFound)
      else
        var pay := b.payments[p];
        if pay.status.Success? then (b, AlreadyVerified)
        else if pay.offline then (b, Invalid)
        else
          var noted := b.(trail := b.trail + [Txn(p, Verified(ok), pay.amount)]);
          if !ok then (noted.(payments := b.payments[p := pay.(status := Failed)]), Declined)
          else (Settling(noted, p), Done)
    case Record(n, asked) =>
      if asked < 1 then (b, Invalid)
      else if n >= |b.invoices| then (b, NotFound)
      else if b.invoices[n].status.Void? then (b, Conflict)
      else if asked > b.invoices[n].due then (b, Invalid)
      else (Settling(b.(payments := b.payments + [Payment(n, true, asked, Created, 0)]), |b.payments|), Done)
    case GiveBack(p, asked, ok) =>
      if p >= |b.payments| then (b, NotFound)
      else
        var pay := b.payments[p];
        if !pay.status.Success? then (b, Conflict)
        else if asked.Some? && asked.value < 1 then (b, Invalid)
        else
          var refundable := pay.amount - pay.refunded;
          var amount := if asked.Some? then asked.value else refundable;
          if amount > refundable then (b, Invalid)
          else if !pay.offline && !ok then (b, Declined)
          else
            var total := pay.refunded + amount;
            var status := if total >= pay.amount then Refunded else PartiallyRefunded;
            (Books(b.invoices[pay.invoice := TakeBack(b.invoices[pay.invoice], amount)],
                   b.payments[p := pay.(refunded := total, status := status)],
                   b.trail + [Txn(p, Refund, amount)]), Done)
    case VoidInvoice(n) =>
      if n >= |b.invoices| then (b, NotFound)
      else if b.invoices[n].paid > 0 then (b, Conflict)
      else (b.(invoices := b.invoices[n := b.invoices[n].(status := Void)]), Done)
  }

  // ---- The handlers, row by row ------------------------------------------------------------

  class Store {
    var invoices: seq<Invoice>
    var payments: seq<Payment>
    var trail: seq<Txn>

    function Now(): Books
      reads this
    {
      Books(invoices, payments, trail)
    }

    constructor ()
      ensures Now() == Books([], [], [])
    {
      invoices, payments, trail := [], [], [];
    }

    method Raise(total: nat, draft: bool) returns (r: Outcome)
      requires Linked(Now())
      modifies this
      ensures (Now(), r) == Step(old(Now()), Op.Raise(total, draft))
    {
      invoices := invoices + [Invoice(total, 0, total, if draft then Draft else Issued)];
      return Done;
    }

    method Settle(p: nat)
      requires p < |payments| && payments[p].invoice < |invoices|
      modifies this
      ensures Now() == Settling(old(Now()), p)
    {
      var pay := payments[p];
      payments := payments[p := pay.(status := Success)];
      trail := trail + [Txn(p, Capture, pay.amount)];
      var invoice := invoices[pay.invoice];
      var paid := invoice.paid + pay.amount;
      var due := Max0(invoice.total - paid);
      invoices := invoices[pay.invoice :=
                    invoice.(paid := paid, due := due, status := if due == 0 then Paid else PartiallyPaid)];
    }

    method Checkout(n: nat, asked: Option<int>, orderOk: bool) returns (r: Outcome)
      requires Linked(Now())
      modifies this
      ensures (Now(), r) == Step(old(Now()), Op.Checkout(n, asked, orderOk))
    {
      if asked.Some? && asked.value < 100 { return Invalid; }
      if n >= |invoices| { return NotFound; }
      var invoice := invoices[n];
      if invoice.status.Paid? || invoice.status.Void? { return Conflict; }
      var amount := if asked.Some? then asked.value else invoice.due;
      if amount <= 0 { return Invalid; }
      if amount > invoice.due { return Invalid; }
      if !orderOk {
        payments := payments + [Payment(n, false, amount, Failed, 0)];
        return Declined;
      }
      payments := payments + [Payment(n, false, amount, Created, 0)];
      trail := trail + [Txn(|payments| - 1, OrderCreated, amount)];
      return Done;
    }

    method Verify(p: nat, gatewayOk: bool) returns (r: Outcome)
      requires Linked(Now())
      modifies this
      ensures (Now(), r) == Step(old(Now()), Op.Verify(p, gatewayOk))
    {
      if p >= |payments| { return NotFound; }
      var pay := payments[p];
      if pay.status.Success? { return AlreadyVerified; }
      if pay.offline { return Invalid; }
      trail := trail + [Txn(p, Verified(gatewayOk), pay.amount)];
      if !gatewayOk {
        payments := payments[p := pay.(status := Failed)];
        return Declined;
      }
      Settle(p);
      return Done;
    }

    method Record(n: nat, asked: int) returns (r: Outcome)
      requires Linked(Now())
      modifies this
      ensures (Now(), r) == Step(old(Now()), Op.Record(n, asked))
    {
      if asked < 1 { return Invalid; }
      if n >= |invoices| { return NotFound; }
      if invoices[n].status.Void? { return Conflict; }
      if asked > invoices[n].due { return Invalid; }
      payments := payments + [Payment(n, true, asked, Created, 0)];
      Settle(|payments| - 1);
      return Done;
    }

    method GiveBack(p: nat, asked: Option<int>, gatewayOk: bool) returns (r: Outcome)
      requires Linked(Now())
      modifies this
      ensures (Now(), r) == Step(old(Now()), Op.GiveBack(p, asked, gatewayOk))
    {
      if p >= |payments| { return NotFound; }
      var pay := payments[p];
      if !pay.status.Success? { return Conflict; }
      if asked.Some? && asked.value < 1 { return Invalid; }
      var refundable := pay.amount - pay.refunded;
      var amount := if asked.Some? then asked.value else refundable;
      if amount > refundable { return Invalid; }
      if !pay.offline && !gatewayOk { return Declined; }
      var refundedTotal := pay.refunded + amount;
      payments := payments[p := pay.(refunded := refundedTotal,
                                     status := if refundedTotal >= pay.amount then Refunded else PartiallyRefunded)];
      trail := trail + [Txn(p, Refund, amount)];
      var invoice := invoices[pay.invoice];
      var paid := Max0(invoice.paid - amount);
      invoices := invoices[pay.invoice :=
                    invoice.(paid := paid, due := invoice.total - paid, status := if paid == 0 then Issued else PartiallyPaid)];
      return Done;
    }

    method VoidInvoice(n: nat) returns (r: Outcome)
      requires Linked(Now())
      modifies this
      ensures (Now(), r) == Step(old(Now()), Op.VoidInvoice(n))
    {
      if n >= |invoices| { return NotFound; }
      if invoices[n].paid > 0 { return Conflict; }
      invoices := invoices[n := invoices[n].(status := Void)];
      return Done;
    }
  }

  // ---- Sums over an invoice's payments -----------------------------------------------------

  function Delta(t: Txn): int { if t.kind.Capture? then t.amount else if t.kind.Refund? then -t.amount else 0 }

  /** Captured less refunded, for one payment, according to the trail. */
  function Net(trail: seq<Txn>, p: nat): int {
    if trail == [] then 0
    else Net(trail[..|trail| - 1], p) + (if trail[|trail| - 1].payment == p then Delta(trail[|trail| - 1]) else 0)
  }

  /** The trail's net over the first n payments of an invoice. */
  function NetOf(ps: seq<Payment>, trail: seq<Txn>, invoice: nat, n: nat): int
    requires n <= |ps|
  {
    if n == 0 then 0
    else NetOf(ps, trail, invoice, n - 1) + (if ps[n - 1].invoice == invoice then Net(trail, n - 1) else 0)
  }

  predicate Settled(s: PaymentStatus) { s.Success? || s.PartiallyRefunded? || s.Refunded? }

  /** What a payment row says is still held of it. */
  function Held(p: Payment): int { if Settled(p.status) then p.amount - p.refunded else 0 }

  function HeldOf(ps: seq<Payment>, invoice: nat, n: nat): int
    requires n <= |ps|
  {
    if n == 0 then 0
    else HeldOf(ps, invoice, n - 1) + (if ps[n - 1].invoice == invoice then Held(ps[n - 1]) else 0)
  }

  lemma NetAppend(trail: seq<Txn>, t: Txn, p: nat)
    ensures Net(trail + [t], p) == Net(trail, p) + (if t.payment == p then Delta(t) else 0)
  {
    assert (trail + [t])[..|trail|] == trail;
  }

  lemma {:induction false} NetOfAppend(ps: seq<Payment>, trail: seq<Txn>, t: Txn, invoice: nat, n: nat)
    requires n <= |ps|
    ensures NetOf(ps, trail + [t], invoice, n)
            == NetOf(ps, trail, invoice, n)
               + (if t.payment < n && ps[t.payment].invoice == invoice then Delta(t) else 0)
  {
    if n > 0 {
      NetOfAppend(ps, trail, t, invoice, n - 1);
      NetAppend(trail, t, n - 1);
    }
  }

  predicate SameInvoices(ps: seq<Payment>, qs: seq<Payment>) {
    |ps| <= |qs| && forall i :: 0 <= i < |ps| ==> qs[i].invoice == ps[i].invoice
  }

  lemma {:induction false} NetOfSame(ps: seq<Payment>, qs: seq<Payment>, trail: seq<Txn>, invoice: nat, n: nat)
    requires SameInvoices(ps, qs) && n <= |ps|
    ensures NetOf(qs, trail, invoice, n) == NetOf(ps, trail, invoice, n)
  {
    if n > 0 { NetOfSame(ps, qs, trail, invoice, n - 1); }
  }

  lemma {:induction false} NetOfAtLeast(ps: seq<Payment>, trail: seq<Txn>, invoice: nat, n: nat, p: nat)
    requires n <= |ps| && forall k :: 0 <= k < n ==> Net(trail, k) >= 0
    ensures NetOf(ps, trail, invoice, n) >= 0
    ensures p < n && ps[p].invoice == invoice ==> NetOf(ps, trail, invoice, n) >= Net(trail, p)
  {
    if n > 0 { NetOfAtLeast(ps, trail, invoice, n - 1, p); }
  }

  lemma {:induction false} HeldIsNet(ps: seq<Payment>, trail: seq<Txn>, invoice: nat, n: nat)
    requires n <= |ps| && forall k :: 0 <= k < n ==> Net(trail, k) == Held(ps[k])
    ensures HeldOf(ps, invoice, n) == NetOf(ps, trail, invoice, n)
  {
    if n > 0 { HeldIsNet(ps, trail, invoice, n - 1); }
  }

  // ---- Conservation, over every run --------------------------------------------------------

  /**
   What every step keeps, whatever the gateways answer and however often a payment is verified:
   each invoice's paid sum is what the trail says its payments captured less what they gave back.
   */
  predicate Kept(b: Books) {
    && Linked(b)
    && (forall k :: 0 <= k < |b.trail| ==> b.trail[k].payment < |b.payments|)
    && (forall i :: 0 <= i < |b.invoices| ==> b.invoices[i].paid == NetOf(b.payments, b.trail, i, |b.payments|))
    && (forall p :: 0 <= p < |b.payments| ==> PaymentKept(b, p))
  }

  predicate PaymentKept(b: Books, p: nat)
    requires p < |b.payments|
  {
    var pay := b.payments[p];
    && pay.amount > 0 && 0 <= pay.refunded <= pay.amount
    && Net(b.trail, p) >= 0
    && (pay.status.Success? ==> Net(b.trail, p) >= pay.amount)
  }

  lemma {:induction false} NetOutside(trail: seq<Txn>, p: nat)
    requires forall k :: 0 <= k < |trail| ==> trail[k].payment != p
    ensures Net(trail, p) == 0
  {
    if trail != [] { NetOutside(trail[..|trail| - 1], p); }
  }

  /** A new payment, with nothing in the trail, adds nothing. */
  lemma NewPaymentKept(b: Books, pay: Payment)
    requires Kept(b) && pay.invoice < |b.invoices| && pay.amount > 0 && pay.refunded == 0 && !pay.status.Success?
    ensures Kept(b.(payments := b.payments + [pay]))
  {
    var c := b.(payments := b.payments + [pay]);
    NetOutside(b.trail, |b.payments|);
    forall i | 0 <= i < |c.invoices| ensures c.invoices[i].paid == NetOf(c.payments, c.trail, i, |c.payments|) {
      NetOfSame(b.payments, c.payments, b.trail, i, |b.payments|);
    }
    forall p | 0 <= p < |c.payments| ensures PaymentKept(c, p) {
      if p < |b.payments| { assert PaymentKept(b, p); }
    }
  }

  /** A trail entry that moves no money changes nothing. */
  lemma NoteKept(b: Books, t: Txn)
    requires Kept(b) && t.payment < |b.payments| && Delta(t) == 0
    ensures Kept(b.(trail := b.trail + [t]))
  {
    var c := b.(trail := b.trail + [t]);
    forall i | 0 <= i < |c.invoices| ensures c.invoices[i].paid == NetOf(c.payments, c.trail, i, |c.payments|) {
      NetOfAppend(b.payments, b.trail, t, i, |b.payments|);
    }
    forall p | 0 <= p < |c.payments| ensures PaymentKept(c, p) {
      assert PaymentKept(b, p);
      NetAppend(b.trail, t, p);
    }
  }

  /** One movement of money: a trail entry, the payment row, and the invoice's paid sum by as much. */
  lemma MovementKept(b: Books, p: nat, pay: Payment, t: Txn, i: Invoice)
    requires Kept(b) && p < |b.payments| && t.payment == p
    requires pay.invoice == b.payments[p].invoice && pay.amount == b.payments[p].amount
    requires i.paid == b.invoices[pay.invoice].paid + Delta(t)
    requires var net := Net(b.trail, p) + Delta(t);
      0 <= pay.refunded <= pay.amount && net >= 0 && (pay.status.Success? ==> net >= pay.amount)
    ensures Kept(Books(b.invoices[pay.invoice := i], b.payments[p := pay], b.trail + [t]))
  {
    var c := Books(b.invoices[pay.invoice := i], b.payments[p := pay], b.trail + [t]);
    forall n | 0 <= n < |c.invoices| ensures c.invoices[n].paid == NetOf(c.payments, c.trail, n, |c.payments|) {
      NetOfSame(b.payments, c.payments, c.trail, n, |b.payments|);
      NetOfAppend(b.payments, b.trail, t, n, |b.payments|);
    }
    forall q | 0 <= q < |c.payments| ensures PaymentKept(c, q) {
      assert PaymentKept(b, q);
      NetAppend(b.trail, t, q);
    }
  }

  lemma SettlingKept(b: Books, p: nat)
    requires Kept(b) && p < |b.payments|
    ensures Kept(Settling(b, p))
  {
    var pay := b.payments[p];
    assert PaymentKept(b, p);
    MovementKept(b, p, pay.(status := Success), Txn(p, Capture, pay.amount), PayInto(b.invoices[pay.invoice], pay.amount));
  }

  /** The clamp in a refund never takes effect: an invoice always holds what is being given back. */
  lemma RefundIsCovered(b: Books, p: nat, amount: int)
    requires Kept(b) && p < |b.payments| && b.payments[p].status.Success?
    requires amount <= b.payments[p].amount - b.payments[p].refunded
    ensures var i := b.invoices[b.payments[p].invoice];
      i.paid >= amount && TakeBack(i, amount).paid == i.paid - amount
  {
    assert PaymentKept(b, p);
    forall k | 0 <= k < |b.payments| ensures Net(b.trail, k) >= 0 { assert PaymentKept(b, k); }
    NetOfAtLeast(b.payments, b.trail, b.payments[p].invoice, |b.payments|, p);
  }

  lemma RefundKept(b: Books, p: nat, asked: Option<int>, ok: bool)
    requires Kept(b)
    ensures Kept(Step(b, GiveBack(p, asked, ok)).0)
  {
    if Step(b, GiveBack(p, asked, ok)).1.Done? {
      var pay := b.payments[p];
      var amount := if asked.Some? then asked.value else pay.amount - pay.refunded;
      var total := pay.refunded + amount;
      assert PaymentKept(b, p);
      RefundIsCovered(b, p, amount);
      MovementKept(b, p, pay.(refunded := total, status := if total >= pay.amount then Refunded else PartiallyRefunded),
                   Txn(p, Refund, amount), TakeBack(b.invoices[pay.invoice], amount));
    }
  }

  lemma VerifyKept(b: Books, p: nat, ok: bool)
    requires Kept(b)
    ensures Kept(Step(b, Verify(p, ok)).0)
  {
    if p < |b.payments| && !b.payments[p].status.Success? && !b.payments[p].offline {
      var pay := b.payments[p];
      var t := Txn(p, Verified(ok), pay.amount);
      NoteKept(b, t);
      if ok {
        SettlingKept(b.(trail := b.trail + [t]), p);
      } else {
        assert PaymentKept(b, p);
        MovementKept(b, p, pay.(status := Failed), t, b.invoices[pay.invoice]);
        assert b.invoices[pay.invoice := b.invoices[pay.invoice]] == b.invoices;
      }
    }
  }

  /** Money is conserved by every step, with no assumption about the order of steps. */
  lemma StepKept(b: Books, op: Op)
    requires Kept(b)
    ensures Kept(Step(b, op).0)
  {
    var c := Step(b, op).0;
    match op
    case Raise(total, draft) =>
      NoPaymentsOutside(b.payments, b.trail, |b.invoices|, |b.payments|);
      assert forall p :: 0 <= p < |c.payments| ==> PaymentKept(b, p) ==> PaymentKept(c, p);
    case Checkout(n, asked, orderOk) =>
      if c != b {
        var amount := if asked.Some? then asked.value else b.invoices[n].due;
        var pay := Payment(n, false, amount, if orderOk then Created else Failed, 0);
        NewPaymentKept(b, pay);
        if orderOk { NoteKept(b.(payments := b.payments + [pay]), Txn(|b.payments|, OrderCreated, amount)); }
      }
    case Verify(p, ok) => VerifyKept(b, p, ok);
    case Record(n, asked) =>
      if c != b {
        var pay := Payment(n, true, asked, Created, 0);
        NewPaymentKept(b, pay);
        SettlingKept(b.(payments := b.payments + [pay]), |b.payments|);
      }
    case GiveBack(p, asked, ok) => RefundKept(b, p, asked, ok);
    case VoidInvoice(n) =>
      assert forall p :: 0 <= p < |c.payments| ==> PaymentKept(b, p) ==> PaymentKept(c, p);
  }

  lemma {:induction false} NoPaymentsOutside(ps: seq<Payment>, trail: seq<Txn>, invoice: nat, n: nat)
    requires n <= |ps| && forall p :: 0 <= p < |ps| ==> ps[p].invoice < invoice
    ensures NetOf(ps, trail, invoice, n) == 0
  {
    if n > 0 { NoPaymentsOutside(ps, trail, invoice, n - 1); }
  }

  function Run(b: Books, ops: seq<Op>): (c: Books)
    requires Kept(b)
    ensures Kept(c)
    decreases |ops|
  {
    if ops == [] then b else StepKept(b, ops[0]); Run(Step(b, ops[0]).0, ops[1..])
  }

  /** Over any run whatever, an invoice's paid sum is what the trail says it should be. */
  lemma EveryRunIsConserved(ops: seq<Op>)
    ensures var c := Run(Books([], [], []), ops);
      forall i :: 0 <= i < |c.invoices| ==> c.invoices[i].paid == NetOf(c.payments, c.trail, i, |c.payments|) >= 0
  {
    var c := Run(Books([], [], []), ops);
    forall k | 0 <= k < |c.payments| ensures Net(c.trail, k) >= 0 { assert PaymentKept(c, k); }
    forall i | 0 <= i < |c.invoices| ensures NetOf(c.payments, c.trail, i, |c.payments|) >= 0 {
      NetOfAtLeast(c.payments, c.trail, i, |c.payments|, 0);
    }
  }

  // ---- The payment rows agree with the invoice ---------------------------------------------

  predicate GivenBack(s: PaymentStatus) { s.PartiallyRefunded? || s.Refunded? }

  predicate RowSound(b: Books, p: nat)
    requires p < |b.payments|
  {
    var pay := b.payments[p];
    Net(b.trail, p) == Held(pay)
    && (pay.status.PartiallyRefunded? <==> 0 < pay.refunded < pay.amount) && (pay.status.Refunded? <==> pay.refunded == pay.amount)
  }

  /** Every payment row holds exactly what the trail says was captured and not given back. */
  predicate Sound(b: Books) { Kept(b) && forall p :: 0 <= p < |b.payments| ==> RowSound(b, p) }

  /** Then an invoice's paid sum is the sum of amount less refunded over its settled payments. */
  lemma SoundIsBalanced(b: Books, i: nat)
    requires Sound(b) && i < |b.invoices|
    ensures b.invoices[i].paid == HeldOf(b.payments, i, |b.payments|)
  {
    forall k | 0 <= k < |b.payments| ensures Net(b.trail, k) == Held(b.payments[k]) { assert RowSound(b, k); }
    HeldIsNet(b.payments, b.trail, i, |b.payments|);
  }

  /** Verifying again after money was given back is the one step the payment rows do not survive. */
  predicate Reverifies(b: Books, op: Op) {
    op.Verify? && op.payment < |b.payments| && !b.payments[op.payment].offline && GivenBack(b.payments[op.payment].status)
  }

  /** How much a step adds to what the trail says of a payment. */
  function Moved(b: Books, op: Op, q: nat): int
    requires Linked(b) && q < |b.payments|
  {
    var pay := b.payments[q];
    if !Step(b, op).1.Done? then 0
    else if op.Verify? && op.payment == q then pay.amount
    else if op.GiveBack? && op.payment == q then (if op.asked.Some? then -op.asked.value else pay.refunded - pay.amount)
    else 0
  }

  lemma NetAfterVerify(b: Books, p: nat, ok: bool, q: nat)
    requires Kept(b) && q < |b.payments|
    ensures Net(Step(b, Verify(p, ok)).0.trail, q) == Net(b.trail, q) + Moved(b, Verify(p, ok), q)
  {
    if p < |b.payments| {
      var t := Txn(p, Verified(ok), b.payments[p].amount);
      NetAppend(b.trail, t, q);
      NetAppend(b.trail + [t], Txn(p, Capture, b.payments[p].amount), q);
    }
  }

  lemma NetAfterRefund(b: Books, p: nat, asked: Option<int>, ok: bool, q: nat)
    requires Kept(b) && q < |b.payments|
    ensures Net(Step(b, GiveBack(p, asked, ok)).0.trail, q) == Net(b.trail, q) + Moved(b, GiveBack(p, asked, ok), q)
  {
    if p < |b.payments| {
      var pay := b.payments[p];
      NetAppend(b.trail, Txn(p, Refund, if asked.Some? then asked.value else pay.amount - pay.refunded), q);
    }
  }

  lemma NetAfter(b: Books, op: Op, q: nat)
    requires Kept(b) && q < |b.payments|
    ensures Net(Step(b, op).0.trail, q) == Net(b.trail, q) + Moved(b, op, q)
  {
    match op
    case Verify(p, ok) => NetAfterVerify(b, p, ok, q);
    case GiveBack(p, asked, ok) => NetAfterRefund(b, p, asked, ok, q);
    case Record(_, amount) => NetAppend(b.trail, Txn(|b.payments|, Capture, amount), q);
    case Checkout(n, asked, _) =>
      if n < |b.invoices| {
        NetAppend(b.trail, Txn(|b.payments|, OrderCreated, if asked.Some? then asked.value else b.invoices[n].due), q);
      }
    case _ =>
  }

  /** A payment row just appended, with the trail entry that came with it. */
  lemma AppendedRowSound(b: Books, c: Books, pay: Payment, t: Txn)
    requires Kept(b) && c.payments == b.payments + [pay] && c.trail == b.trail + [t]
    requires pay.amount > 0 && pay.refunded == 0 && !GivenBack(pay.status)
    requires t.payment == |b.payments| && Delta(t) == Held(pay)
    ensures RowSound(c, |b.payments|)
  {
    NetOutside(b.trail, |b.payments|);
    NetAppend(b.trail, t, |b.payments|);
  }

  lemma FailedRowSound(b: Books, c: Books, pay: Payment)
    requires Kept(b) && c.payments == b.payments + [pay] && c.trail == b.trail
    requires pay.amount > 0 && pay.refunded == 0 && pay.status.Failed?
    ensures RowSound(c, |b.payments|)
  {
    NetOutside(b.trail, |b.payments|);
  }

  lemma NewRowSound(b: Books, op: Op)
    requires Kept(b) && |Step(b, op).0.payments| > |b.payments|
    ensures |Step(b, op).0.payments| == |b.payments| + 1 && RowSound(Step(b, op).0, |b.payments|)
  {
    var c, n := Step(b, op).0, |b.payments|;
    if op.Record? {
      AppendedRowSound(b, c, Payment(op.invoice, true, op.amount, Success, 0), Txn(n, Capture, op.amount));
    } else {
      var amount := if op.asked.Some? then op.asked.value else b.invoices[op.invoice].due;
      if op.orderOk {
        AppendedRowSound(b, c, Payment(op.invoice, false, amount, Created, 0), Txn(n, OrderCreated, amount));
      } else {
        FailedRowSound(b, c, Payment(op.invoice, false, amount, Failed, 0));
      }
    }
  }

  lemma ReverifiedRow(b: Books, op: Op)
    requires Sound(b) && Reverifies(b, op)
    ensures op.payment < |Step(b, op).0.payments| && !RowSound(Step(b, op).0, op.payment)
  {
    NetAfter(b, op, op.payment);
    assert RowSound(b, op.payment) && PaymentKept(b, op.payment);
  }

  lemma OtherRows(b: Books, op: Op, q: nat)
    requires Sound(b) && !Reverifies(b, op) && q < |b.payments|
    ensures q < |Step(b, op).0.payments| && RowSound(Step(b, op).0, q)
  {
    assert RowSound(b, q) && PaymentKept(b, q);
    NetAfter(b, op, q);
    if (op.Verify? || op.GiveBack?) && op.payment == q {
      TheRow(b, op, q);
    } else {
      assert Step(b, op).0.payments[q] == b.payments[q] && Moved(b, op, q) == 0;
    }
  }

  lemma TheRow(b: Books, op: Op, q: nat)
    requires Kept(b) && q < |b.payments| && RowSound(b, q) && !Reverifies(b, op)
    requires (op.Verify? || op.GiveBack?) && op.payment == q
    requires PaymentKept(b, q) && Net(Step(b, op).0.trail, q) == Net(b.trail, q) + Moved(b, op, q)
    ensures q < |Step(b, op).0.payments| && RowSound(Step(b, op).0, q)
  {
  }

  /** From sound books, a step leaves them sound if and only if it does not verify a refunded payment. */
  lemma SoundUnlessReverified(b: Books, op: Op)
    requires Sound(b)
    ensures Sound(Step(b, op).0) <==> !Reverifies(b, op)
  {
    var c := Step(b, op).0;
    StepKept(b, op);
    if Reverifies(b, op) {
      ReverifiedRow(b, op);
    } else {
      forall q | 0 <= q < |c.payments| ensures RowSound(c, q) {
        if q < |b.payments| { OtherRows(b, op, q); } else { NewRowSound(b, op); }
      }
    }
  }

  /** An invoice's paid sum is the sum of amount less refunded over its settled payments. */
  predicate AllBalanced(b: Books) {
    forall i :: 0 <= i < |b.invoices| ==> b.invoices[i].paid == HeldOf(b.payments, i, |b.payments|)
  }

  lemma {:induction false} HeldOfOne(ps: seq<Payment>, p: nat, pay: Payment, invoice: nat, n: nat)
    requires p < |ps| && n <= |ps| && pay.invoice == ps[p].invoice
    ensures HeldOf(ps[p := pay], invoice, n)
            == HeldOf(ps, invoice, n) + (if p < n && ps[p].invoice == invoice then Held(pay) - Held(ps[p]) else 0)
  {
    if n > 0 { HeldOfOne(ps, p, pay, invoice, n - 1); }
  }

  lemma VerifyUnbalances(b: Books, p: nat, ok: bool)
    requires Sound(b) && Reverifies(b, Verify(p, ok))
    ensures var c, i, pay := Step(b, Verify(p, ok)).0, b.payments[p].invoice, b.payments[p];
      && |c.invoices| == |b.invoices|
      && c.invoices[i].paid - HeldOf(c.payments, i, |c.payments|) == (if ok then pay.amount else Held(pay))
      && forall k :: 0 <= k < |b.invoices| && k != i ==> c.invoices[k].paid == HeldOf(c.payments, k, |c.payments|)
  {
    var pay := b.payments[p];
    var pay' := pay.(status := if ok then Success else Failed);
    assert Step(b, Verify(p, ok)).0.payments == b.payments[p := pay'];
    forall k | 0 <= k < |b.invoices|
      ensures HeldOf(b.payments[p := pay'], k, |b.payments|) == b.invoices[k].paid + (if k == pay.invoice then Held(pay') - Held(pay) else 0)
    {
      SoundIsBalanced(b, k);
      HeldOfOne(b.payments, p, pay', k, |b.payments|);
    }
  }

  /**
   The balance itself: from sound books, a step leaves some invoice's paid sum unlike what its payment
   rows hold if and only if it verifies a refunded payment, and the gateway confirms it again or, when
   it does not, part of the payment was still held.
   */
  lemma BalancedUnlessReverified(b: Books, op: Op)
    requires Sound(b)
    ensures AllBalanced(Step(b, op).0)
            <==> !(Reverifies(b, op) && (op.gatewayOk || b.payments[op.payment].status.PartiallyRefunded?))
  {
    var c := Step(b, op).0;
    if Reverifies(b, op) {
      var pay := b.payments[op.payment];
      assert RowSound(b, op.payment) && PaymentKept(b, op.payment);
      VerifyUnbalances(b, op.payment, op.gatewayOk);
      assert c.invoices[pay.invoice].paid == HeldOf(c.payments, pay.invoice, |c.payments|)
             <==> !op.gatewayOk && !pay.status.PartiallyRefunded?;
    } else {
      SoundUnlessReverified(b, op);
      forall i | 0 <= i < |c.invoices| ensures c.invoices[i].paid == HeldOf(c.payments, i, |c.payments|) { SoundIsBalanced(c, i); }
    }
  }

  predicate NeverReverifies(b: Books, ops: seq<Op>)
    requires Kept(b)
    decreases |ops|
  {
    ops == [] || (!Reverifies(b, ops[0]) && (StepKept(b, ops[0]); NeverReverifies(Step(b, ops[0]).0, ops[1..])))
  }

  /**
   Over every run in which none is, an invoice's paid sum is the sum of amount less refunded over
   its settled payments, however much was settled and given back.
   */
  lemma {:induction false} RunsStayBalanced(b: Books, ops: seq<Op>)
    requires Sound(b) && NeverReverifies(b, ops)
    ensures var c := Run(b, ops);
      Sound(c) && forall i :: 0 <= i < |c.invoices| ==> c.invoices[i].paid == HeldOf(c.payments, i, |c.payments|)
    decreases |ops|
  {
    if ops != [] {
      StepKept(b, ops[0]);
      SoundUnlessReverified(b, ops[0]);
      RunsStayBalanced(Step(b, ops[0]).0, ops[1..]);
    } else {
      forall i | 0 <= i < |b.invoices| ensures b.invoices[i].paid == HeldOf(b.payments, i, |b.payments|) {
        SoundIsBalanced(b, i);
      }
    }
  }

  lemma {:induction false} HeldOfSame(ps: seq<Payment>, qs: seq<Payment>, invoice: nat, n: nat)
    requires n <= |ps| == |qs|
    requires forall k :: 0 <= k < n ==> qs[k].invoice == ps[k].invoice && Held(qs[k]) == Held(ps[k])
    ensures HeldOf(qs, invoice, n) == HeldOf(ps, invoice, n)
  {
    if n > 0 { HeldOfSame(ps, qs, invoice, n - 1); }
  }

  /** What verifying a refunded payment does: the invoice counts its whole amount once more than it holds. */
  lemma ReverifyingCountsTwice(b: Books, p: nat)
    requires Sound(b) && Reverifies(b, Verify(p, true))
    ensures var c, i := Step(b, Verify(p, true)).0, b.payments[p].invoice;
      c.invoices[i].paid == HeldOf(c.payments, i, |c.payments|) + b.payments[p].amount
  {
    SoundIsBalanced(b, b.payments[p].invoice);
    HeldOfSame(b.payments, Step(b, Verify(p, true)).0.payments, b.payments[p].invoice, |b.payments|);
  }

  // ---- Paid and due ------------------------------------------------------------------------

  /** Paid and due make up the total, and the invoice is marked paid exactly when nothing is due. */
  predicate Squared(i: Invoice) {
    i.total > 0 ==> i.paid >= 0 && i.due >= 0 && i.paid + i.due == i.total && (i.status.Paid? <==> i.due == 0)
  }

  predicate AllSquared(b: Books) { forall i :: 0 <= i < |b.invoices| ==> Squared(b.invoices[i]) }

  /** The step settles more than the invoice has left to pay. */
  predicate Overpays(b: Books, op: Op)
    requires Linked(b)
  {
    op.Verify? && Step(b, op).1.Done?
    && b.invoices[b.payments[op.payment].invoice].total > 0
    && b.payments[op.payment].amount > b.invoices[b.payments[op.payment].invoice].due
  }

  /** From sound and squared books, a step leaves every invoice squared if and only if it does not overpay. */
  lemma SquaredUnlessOverpaid(b: Books, op: Op)
    requires Sound(b) && AllSquared(b)
    ensures AllSquared(Step(b, op).0) <==> !Overpays(b, op)
  {
    var c := Step(b, op).0;
    if op.Verify? && Step(b, op).1.Done? {
      var n := b.payments[op.payment].invoice;
      assert PaymentKept(b, op.payment) && Squared(b.invoices[n]);
      assert c.invoices[n] == PayInto(b.invoices[n], b.payments[op.payment].amount);
      assert Overpays(b, op) ==> !Squared(c.invoices[n]);
    } else if op.GiveBack? && Step(b, op).1.Done? {
      var pay := b.payments[op.payment];
      var amount := if op.asked.Some? then op.asked.value else pay.amount - pay.refunded;
      assert PaymentKept(b, op.payment) && RowSound(b, op.payment) && Squared(b.invoices[pay.invoice]);
      RefundIsCovered(b, op.payment, amount);
    }
    if !Overpays(b, op) {
      forall i | 0 <= i < |c.invoices| ensures Squared(c.invoices[i]) {
        if i < |b.invoices| { assert Squared(b.invoices[i]); }
      }
    }
  }

  /** A run in which no refunded payment is verified again and no settlement exceeds what is due. */
  predicate Careful(b: Books, ops: seq<Op>)
    requires Kept(b)
    decreases |ops|
  {
    ops == [] || (!Reverifies(b, ops[0]) && !Overpays(b, ops[0]) && (StepKept(b, ops[0]); Careful(Step(b, ops[0]).0, ops[1..])))
  }

  /** Over every such run the books stay sound and every invoice squared. */
  lemma {:induction false} CarefulRunsStaySquared(b: Books, ops: seq<Op>)
    requires Sound(b) && AllSquared(b) && Careful(b, ops)
    ensures Sound(Run(b, ops)) && AllSquared(Run(b, ops))
    decreases |ops|
  {
    if ops != [] {
      StepKept(b, ops[0]);
      SoundUnlessReverified(b, ops[0]);
      SquaredUnlessOverpaid(b, ops[0]);
      CarefulRunsStaySquared(Step(b, ops[0]).0, ops[1..]);
    }
  }

  // ---- Void invoices -----------------------------------------------------------------------

  predicate VoidIsUnpaid(b: Books) { forall i :: 0 <= i < |b.invoices| && b.invoices[i].status.Void? ==> b.invoices[i].paid == 0 }

  lemma NothingSettled(b: Books, p: nat)
    requires Kept(b) && p < |b.payments| && b.invoices[b.payments[p].invoice].paid == 0
    ensures !b.payments[p].status.Success?
  {
    assert PaymentKept(b, p);
    forall k | 0 <= k < |b.payments| ensures Net(b.trail, k) >= 0 { assert PaymentKept(b, k); }
    NetOfAtLeast(b.payments, b.trail, b.payments[p].invoice, |b.payments|, p);
  }

  /** The step settles an online payment of the invoice, opened before. */
  predicate Confirms(b: Books, op: Op, n: nat) {
    op.Verify? && op.gatewayOk && op.payment < |b.payments| && b.payments[op.payment].invoice == n && !b.payments[op.payment].offline
  }

  /**
   A void invoice with nothing paid stays so after a step if and only if the step does not confirm a
   payment opened for it before: `verify` does not look at the invoice's status.
   */
  lemma VoidUnlessConfirmed(b: Books, op: Op, n: nat)
    requires Kept(b) && n < |b.invoices| && b.invoices[n].status.Void? && b.invoices[n].paid == 0
    ensures var c := Step(b, op).0;
      n < |c.invoices| && (c.invoices[n].status.Void? <==> !Confirms(b, op, n))
      && (c.invoices[n].status.Void? ==> c.invoices[n].paid == 0)
  {
    if (op.Verify? || op.GiveBack?) && op.payment < |b.payments| && b.payments[op.payment].invoice == n {
      NothingSettled(b, op.payment);
    }
  }

  lemma StepKeepsVoidUnpaid(b: Books, op: Op)
    requires Kept(b) && VoidIsUnpaid(b)
    ensures VoidIsUnpaid(Step(b, op).0)
  {
    var c := Step(b, op).0;
    StepKept(b, op);
    forall i | 0 <= i < |c.invoices| && c.invoices[i].status.Void? ensures c.invoices[i].paid == 0 {
      if i < |b.invoices| && b.invoices[i].status.Void? {
        VoidUnlessConfirmed(b, op, i);
      } else if i < |b.invoices| {
        NeverNegative(b, i);
      }
    }
  }

  lemma NeverNegative(b: Books, i: nat)
    requires Kept(b) && i < |b.invoices|
    ensures b.invoices[i].paid >= 0
  {
    forall k | 0 <= k < |b.payments| ensures Net(b.trail, k) >= 0 { assert PaymentKept(b, k); }
    NetOfAtLeast(b.payments, b.trail, i, |b.payments|, 0);
  }

  /** No step of the run confirms a payment of the invoice while it is void. */
  predicate NeverConfirms(b: Books, ops: seq<Op>, n: nat)
    requires Kept(b)
    decreases |ops|
  {
    ops == [] || (!Confirms(b, ops[0], n) && (StepKept(b, ops[0]); NeverConfirms(Step(b, ops[0]).0, ops[1..], n)))
  }

  /** The invoice is void in every state of the run. */
  predicate StaysVoid(b: Books, ops: seq<Op>, n: nat)
    requires Kept(b)
    decreases |ops|
  {
    n < |b.invoices| && b.invoices[n].status.Void?
    && (ops == [] || (StepKept(b, ops[0]); StaysVoid(Step(b, ops[0]).0, ops[1..], n)))
  }

  lemma {:induction false} UnpaidStaysVoid(b: Books, ops: seq<Op>, n: nat)
    requires Kept(b) && n < |b.invoices| && b.invoices[n].status.Void? && b.invoices[n].paid == 0
    ensures StaysVoid(b, ops, n) <==> NeverConfirms(b, ops, n)
    ensures NeverConfirms(b, ops, n) ==> n < |Run(b, ops).invoices| && Run(b, ops).invoices[n].paid == 0
    decreases |ops|
  {
    if ops != [] {
      VoidUnlessConfirmed(b, ops[0], n);
      StepKept(b, ops[0]);
      if !Confirms(b, ops[0], n) { UnpaidStaysVoid(Step(b, ops[0]).0, ops[1..], n); }
    }
  }

  lemma {:induction false} RunKeepsVoidUnpaid(b: Books, ops: seq<Op>)
    requires Kept(b) && VoidIsUnpaid(b)
    ensures VoidIsUnpaid(Run(b, ops))
    decreases |ops|
  {
    if ops != [] {
      StepKeepsVoidUnpaid(b, ops[0]);
      StepKept(b, ops[0]);
      RunKeepsVoidUnpaid(Step(b, ops[0]).0, ops[1..]);
    }
  }

  /** Whatever was done, nothing is paid on an invoice that is void. */
  lemma VoidMeansUnpaid(ops: seq<Op>)
    ensures VoidIsUnpaid(Run(Books([], [], []), ops))
  {
    RunKeepsVoidUnpaid(Books([], [], []), ops);
  }

  /**
   So in books reached by any run, a void invoice has nothing paid, and it is void throughout any
   further run, still unpaid at its end, if and only if no step of it confirms a payment opened before.
   */
  lemma RunsKeepVoid(before: seq<Op>, ops: seq<Op>, n: nat)
    requires var b := Run(Books([], [], []), before); n < |b.invoices| && b.invoices[n].status.Void?
    ensures var b := Run(Books([], [], []), before);
      && b.invoices[n].paid == 0
      && (StaysVoid(b, ops, n) <==> NeverConfirms(b, ops, n))
      && (NeverConfirms(b, ops, n) ==> n < |Run(b, ops).invoices| && Run(b, ops).invoices[n].paid == 0)
  {
    VoidMeansUnpaid(before);
    UnpaidStaysVoid(Run(Books([], [], []), before), ops, n);
  }

  /** A verified payment on the only invoice. */
  lemma OneVerified(b: Books, i: Invoice, pay: Payment)
    requires b.invoices == [i] && b.payments == [pay] && pay.invoice == 0 && !pay.offline && !pay.status.Success?
    ensures var c := Step(b, Verify(0, true)).0;
      c.invoices == [PayInto(i, pay.amount)] && c.payments == [pay.(status := Success)]
  {
  }

  lemma OneOpened(total: nat)
    requires total > 0
    ensures var b := Step(Step(Books([], [], []), Raise(total, false)).0, Checkout(0, None, true)).0;
      b.invoices == [Invoice(total, 0, total, Issued)] && b.payments == [Payment(0, false, total, Created, 0)]
  {
  }

  /** A checkout opened before the invoice is voided is still settled after it. */
  lemma AVoidInvoiceIsPaid(total: nat)
    requires total > 0
    ensures var c := Run(Books([], [], []),
                [Raise(total, false)] + ([Checkout(0, None, true)] + ([VoidInvoice(0)] + ([Verify(0, true)] + []))));
      c.invoices == [Invoice(total, total, 0, Paid)]
  {
    var raise, checkout, void, verify := Raise(total, false), Checkout(0, None, true), VoidInvoice(0), Verify(0, true);
    var b0 := Books([], [], []);
    RunFirst(b0, raise, [checkout] + ([void] + ([verify] + [])));
    var b1 := Step(b0, raise).0;
    RunFirst(b1, checkout, [void] + ([verify] + []));
    var b2 := Step(b1, checkout).0;
    OneOpened(total);
    RunFirst(b2, void, [verify] + []);
    var b3 := Step(b2, void).0;
    RunFirst(b3, verify, []);
    OneVerified(b3, Invoice(total, 0, total, Void), Payment(0, false, total, Created, 0));
  }

  lemma RunFirst(b: Books, op: Op, rest: seq<Op>)
    requires Kept(b)
    ensures Kept(Step(b, op).0) && Run(b, [op] + rest) == Run(Step(b, op).0, rest)
  {
    StepKept(b, op);
    assert ([op] + rest)[1..] == rest;
  }

  /** Nothing stops two checkouts for the same dues from both being verified. */
  lemma TwoCheckoutsOverpay(total: nat)
    requires total > 0
    ensures var c := Run(Books([], [], []),
                [Raise(total, false)] + ([Checkout(0, None, true)] + ([Checkout(0, None, true)]
                + ([Verify(0, true)] + ([Verify(1, true)] + [])))));
      |c.invoices| == 1 && c.invoices[0].paid == 2 * total && c.invoices[0].due == 0
  {
    var raise, checkout, first, second := Raise(total, false), Checkout(0, None, true), Verify(0, true), Verify(1, true);
    var b0 := Books([], [], []);
    RunFirst(b0, raise, [checkout] + ([checkout] + ([first] + ([second] + []))));
    var b1 := Step(b0, raise).0;
    RunFirst(b1, checkout, [checkout] + ([first] + ([second] + [])));
    var b2 := Step(b1, checkout).0;
    OneOpened(total);
    RunFirst(b2, checkout, [first] + ([second] + []));
    var b3 := Step(b2, checkout).0;
    RunFirst(b3, first, [second] + []);
    var b4 := Step(b3, first).0;
    RunFirst(b4, second, []);
    BothVerified(b3, total);
  }

  lemma BothVerified(b: Books, total: nat)
    requires total > 0 && b.invoices == [Invoice(total, 0, total, Issued)]
    requires b.payments == [Payment(0, false, total, Created, 0), Payment(0, false, total, Created, 0)]
    ensures Step(Step(b, Verify(0, true)).0, Verify(1, true)).0.invoices == [Invoice(total, 2 * total, 0, Paid)]
  {
  }

  lemma OneGivenBack(b: Books, i: Invoice, pay: Payment, back: int)
    requires b.invoices == [i] && b.payments == [pay] && pay.invoice == 0 && pay.status.Success?
    requires 0 < back <= pay.amount && pay.refunded == 0
    ensures var c := Step(b, GiveBack(0, Some(back), true)).0;
      c.invoices == [TakeBack(i, back)]
      && c.payments == [pay.(refunded := back, status := if back == pay.amount then Refunded else PartiallyRefunded)]
  {
  }

  lemma HeldOfTheOne(pay: Payment)
    requires pay.invoice == 0
    ensures HeldOf([pay], 0, 1) == Held(pay)
  {
    assert HeldOf([pay], 0, 0) == 0;
  }

  /** Five steps to an invoice paid by the whole amount more than its payments hold. */
  lemma ARefundIsSettledAgain(total: nat, back: nat)
    requires 0 < back <= total
    ensures var c := Run(Books([], [], []),
                [Raise(total, false)] + ([Checkout(0, None, true)] + ([Verify(0, true)]
                + ([GiveBack(0, Some(back), true)] + ([Verify(0, true)] + [])))));
      |c.invoices| == 1 && |c.payments| == 1
      && HeldOf(c.payments, 0, 1) == total - back && c.invoices[0].paid == HeldOf(c.payments, 0, 1) + total
  {
    var raise, checkout, verify, refund := Raise(total, false), Checkout(0, None, true), Verify(0, true), GiveBack(0, Some(back), true);
    var i, pay := Invoice(total, 0, total, Issued), Payment(0, false, total, Created, 0);
    var b0 := Books([], [], []);
    RunFirst(b0, raise, [checkout] + ([verify] + ([refund] + ([verify] + []))));
    var b1 := Step(b0, raise).0;
    RunFirst(b1, checkout, [verify] + ([refund] + ([verify] + [])));
    var b2 := Step(b1, checkout).0;
    OneOpened(total);
    RunFirst(b2, verify, [refund] + ([verify] + []));
    OneVerified(b2, i, pay);
    var b3 := Step(b2, verify).0;
    RunFirst(b3, refund, [verify] + []);
    OneGivenBack(b3, PayInto(i, total), pay.(status := Success), back);
    var b4 := Step(b3, refund).0;
    RunFirst(b4, verify, []);
    OneVerified(b4, b4.invoices[0], b4.payments[0]);
    HeldOfTheOne(b4.payments[0].(status := Success));
  }

  // ---- What each step does to the books ----------------------------------------------------

  /** A checkout is let through: the invoice is open, and what is asked, or all that is due, can be paid. */
  predicate CanCheckOut(b: Books, n: nat, asked: Option<int>) {
    n < |b.invoices| && b.invoices[n].status != Paid && b.invoices[n].status != Void
    && match asked
       case Some(amount) => 100 <= amount <= b.invoices[n].due
       case None => 0 < b.invoices[n].due
  }

  /**
   A checkout appends exactly one payment, and does so if and only if it is let through: on that
   invoice, unsettled, for what was asked or else for the dues. Besides, there is at most a note.
   */
  lemma CheckoutOpens(b: Books, n: nat, asked: Option<int>, orderOk: bool)
    requires Linked(b)
    ensures var (c, r) := Step(b, Checkout(n, asked, orderOk));
      && (CanCheckOut(b, n, asked) <==> c != b)
      && (CanCheckOut(b, n, asked) ==>
            && |c.payments| == |b.payments| + 1 && c.payments[..|b.payments|] == b.payments
            && var pay := c.payments[|b.payments|];
            && pay.invoice == n && pay.amount == (if asked.Some? then asked.value else b.invoices[n].due)
            && !pay.offline && pay.refunded == 0 && pay.status == (if orderOk then Created else Failed)
            && c.invoices == b.invoices && r == (if orderOk then Done else Declined)
            && c.trail == if orderOk then b.trail + [Txn(|b.payments|, OrderCreated, pay.amount)] else b.trail)
      && (!CanCheckOut(b, n, asked) ==>
            r == if asked.Some? && asked.value < 100 then Invalid
                 else if n >= |b.invoices| then NotFound
                 else if b.invoices[n].status == Paid || b.invoices[n].status == Void then Conflict
                 else Invalid)
  {
    var c := Step(b, Checkout(n, asked, orderOk)).0;
    if CanCheckOut(b, n, asked) { assert |c.payments| != |b.payments|; }
  }

  /** One invoice paid a further amount, every other as it was; the dues are never negative. */
  predicate PaidBy(b: Books, c: Books, n: nat, amount: int) {
    n < |b.invoices| == |c.invoices| && (forall i :: 0 <= i < |b.invoices| && i != n ==> c.invoices[i] == b.invoices[i])
    && var i, j := b.invoices[n], c.invoices[n];
       j.total == i.total && j.paid == i.paid + amount
       && j.due == (if i.total > j.paid then i.total - j.paid else 0)
       && j.status == if j.due == 0 then Paid else PartiallyPaid
  }

  /** An offline payment is recorded, and settled at once, if and only if it is positive and within the dues. */
  lemma RecordSettles(b: Books, n: nat, amount: int)
    requires Linked(b)
    ensures var (c, r) := Step(b, Record(n, amount));
      if n < |b.invoices| && b.invoices[n].status != Void && 1 <= amount <= b.invoices[n].due then
        && r == Done && PaidBy(b, c, n, amount)
        && c.payments == b.payments + [Payment(n, true, amount, Success, 0)]
        && c.trail == b.trail + [Txn(|b.payments|, Capture, amount)]
      else
        c == b && r == if amount < 1 then Invalid
                       else if n >= |b.invoices| then NotFound
                       else if b.invoices[n].status == Void then Conflict
                       else Invalid
  {
  }

  /**
   A verification that the gateway confirms settles the payment for its amount; one it refuses marks
   the payment failed. A settled payment is left alone, an offline one refused.
   */
  lemma VerifySettles(b: Books, p: nat, ok: bool)
    requires Linked(b)
    ensures var (c, r) := Step(b, Verify(p, ok));
      if p < |b.payments| && b.payments[p].status != Success && !b.payments[p].offline then
        var pay := b.payments[p];
        var noted := b.trail + [Txn(p, Verified(ok), pay.amount)];
        && r == (if ok then Done else Declined)
        && c.payments == b.payments[p := Payment(pay.invoice, false, pay.amount, if ok then Success else Failed, pay.refunded)]
        && (ok ==> PaidBy(b, c, pay.invoice, pay.amount) && c.trail == noted + [Txn(p, Capture, pay.amount)])
        && (!ok ==> c.invoices == b.invoices && c.trail == noted)
      else
        c == b && r == if p >= |b.payments| then NotFound else if b.payments[p].status == Success then AlreadyVerified else Invalid
  {
  }

  /**
   A refund goes through if and only if the payment stands settled, what is asked is positive and not
   more than is left of it, and the gateway, where there is one, agrees. It returns what was asked, or
   else all that is left, and marks the payment refunded exactly when nothing is left.
   */
  lemma GiveBackReturns(b: Books, p: nat, asked: Option<int>, ok: bool)
    requires Linked(b)
    ensures var (c, r) := Step(b, GiveBack(p, asked, ok));
      if p < |b.payments| && b.payments[p].status == Success && (b.payments[p].offline || ok)
         && (asked.Some? ==> 1 <= asked.value <= b.payments[p].amount - b.payments[p].refunded) then
        var pay := b.payments[p];
        var amount := if asked.Some? then asked.value else pay.amount - pay.refunded;
        var (i, n) := (b.invoices[pay.invoice], pay.invoice);
        var paid := if i.paid > amount then i.paid - amount else 0;
        && r == Done && c.trail == b.trail + [Txn(p, Refund, amount)]
        && c.payments == b.payments[p := Payment(n, pay.offline, pay.amount,
                                                 if pay.refunded + amount >= pay.amount then Refunded else PartiallyRefunded,
                                                 pay.refunded + amount)]
        && c.invoices == b.invoices[n := Invoice(i.total, paid, i.total - paid, if paid == 0 then Issued else PartiallyPaid)]
      else
        c == b && r == if p >= |b.payments| then NotFound
                       else if b.payments[p].status != Success then Conflict
                       else if asked.Some? && !(1 <= asked.value <= b.payments[p].amount - b.payments[p].refunded) then Invalid
                       else Declined
  {
  }

  /** An invoice is voided if and only if nothing is paid on it; a new one owes its total. */
  lemma InvoiceSteps(b: Books, n: nat, total: nat, draft: bool)
    requires Linked(b)
    ensures var (c, r) := Step(b, VoidInvoice(n));
      if n < |b.invoices| && b.invoices[n].paid <= 0 then
        r == Done && c.payments == b.payments && c.trail == b.trail
        && c.invoices == b.invoices[n := Invoice(b.invoices[n].total, b.invoices[n].paid, b.invoices[n].due, Void)]
      else c == b && r == if n >= |b.invoices| then NotFound else Conflict
    ensures var (c, r) := Step(b, Raise(total, draft));
      r == Done && c == Books(b.invoices + [Invoice(total, 0, total, if draft then Draft else Issued)], b.payments, b.trail)
  {
  }
}
