/**
 The supplier money lifecycle (backend/app/modules/platform_money): the commission split, the
 append-only supplier ledger with its idempotency keys, and the operations that post to it:
 buyer payment, release of funds, payout, payout failure, refund and order cancellation.

 Amounts are whole cents, as `money` quantizes to 0.01. An order, with its commission record, its
 payable and its payout, is named by its position in `orders`; a position not taken yet stands for a new
 order. Nothing is asked of the callers: any operation may come at any time, in any order and again.
 */
module SupplierLedger {
  import opened Wrappers

  // ---------- sums over sequences ----------

  function Sum<T>(xs: seq<T>, f: T -> int): int {
    if xs == [] then 0 else Sum(xs[..|xs| - 1], f) + f(xs[|xs| - 1])
  }

  lemma SumAppend<T>(xs: seq<T>, x: T, f: T -> int)
    ensures Sum(xs + [x], f) == Sum(xs, f) + f(x)
  {
    assert (xs + [x])[..|xs|] == xs;
  }

  lemma {:induction false} SumUpdate<T>(xs: seq<T>, i: nat, x: T, f: T -> int)
    requires i < |xs|
    ensures Sum(xs[i := x], f) == Sum(xs, f) - f(xs[i]) + f(x)
  {
    var front := xs[..|xs| - 1];
    if i == |xs| - 1 {
      assert xs[i := x][..|xs| - 1] == front;
    } else {
      SumUpdate(front, i, x, f);
      assert xs[i := x][..|xs| - 1] == front[i := x];
    }
  }

  lemma {:induction false} SumNonNegative<T>(xs: seq<T>, f: T -> int)
    requires forall i :: 0 <= i < |xs| ==> f(xs[i]) >= 0
    ensures Sum(xs, f) >= 0
  {
    if xs != [] {
      SumNonNegative(xs[..|xs| - 1], f);
    }
  }

  lemma {:induction false} SumZero<T>(xs: seq<T>, f: T -> int)
    requires forall i :: 0 <= i < |xs| ==> f(xs[i]) == 0
    ensures Sum(xs, f) == 0
  {
    if xs != [] {
      SumZero(xs[..|xs| - 1], f);
    }
  }

  lemma {:induction false} SumDifference<T>(xs: seq<T>, f: T -> int, g: T -> int, h: T -> int)
    requires forall i :: 0 <= i < |xs| ==> f(xs[i]) == g(xs[i]) - h(xs[i])
    ensures Sum(xs, f) == Sum(xs, g) - Sum(xs, h)
  {
    if xs != [] {
      SumDifference(xs[..|xs| - 1], f, g, h);
    }
  }

  // ---------- the commission split ----------

  const RATE_SCALE := 10_000

  datatype CommissionType = Percentage | Fixed

  // Nearest multiple, ties away from zero (ROUND_HALF_UP).
  function RoundHalfUp(n: int, d: int): int
    requires d > 0
  {
    if n >= 0 then (2 * n + d) / (2 * d) else -((-2 * n + d) / (2 * d))
  }

  datatype Split = Split(gross: int, commission: int, net: int)

  // The rate counts ten-thousandths. None is the source's ValueError.
  function ComputeSplit(total: int, base: int, rate: int, kind: CommissionType): Option<Split> {
    if rate < 0 then None else
      var fee := if kind == Fixed then RoundHalfUp(rate, RATE_SCALE / 100) else RoundHalfUp(base * rate, RATE_SCALE);
      var commission := if fee > total then total else fee;
      Some(Split(total, commission, total - commission))
  }

  // The split conserves the total and takes a fee between nothing and everything: the closest whole cent to
  // the rate (rates count ten-thousandths, so 100 a cent) or to base times rate, the higher of two equally
  // close ones; or the whole total, and that only if the closest whole cent is no less.
  lemma SplitConserves(total: int, base: int, rate: int, kind: CommissionType)
    requires total >= 0 && base >= 0
    ensures ComputeSplit(total, base, rate, kind).None? <==> rate < 0
    ensures rate >= 0 ==>
              var split := ComputeSplit(total, base, rate, kind).value;
              && split.commission + split.net == split.gross == total
              && 0 <= split.commission <= total && split.net >= 0
              && (kind == Percentage ==>
                    if split.commission < total then -10_000 < 2 * (split.commission * 10_000 - base * rate) <= 10_000
                    else 2 * (total * 10_000 - base * rate) <= 10_000)
              && (kind == Fixed ==>
                    if split.commission < total then -100 < 2 * (split.commission * 100 - rate) <= 100
                    else 2 * (total * 100 - rate) <= 100)
  {
    if rate >= 0 {
      assert base * rate >= 0;
      RoundedClosest(base * rate, 10_000);
      RoundedClosest(rate, 100);
    }
  }

  lemma RoundedClosest(n: int, d: int)
    requires n >= 0 && d > 0
    ensures -d < 2 * (RoundHalfUp(n, d) * d - n) <= d && RoundHalfUp(n, d) >= 0
    ensures RoundHalfUp(-n, d) == -RoundHalfUp(n, d)
  {
    var m, e := 2 * n + d, 2 * d;
    var q := m / e;
    assert m == e * q + m % e;
    assert e * q == 2 * (q * d);
  }

  // A supplier never earns more under a higher rate.
  lemma NetAntitoneInRate(total: int, base: int, low: int, high: int, kind: CommissionType)
    requires base >= 0 && 0 <= low <= high
    ensures ComputeSplit(total, base, low, kind).value.net >= ComputeSplit(total, base, high, kind).value.net
  {
    assert 0 <= base * low <= base * high;
  }

  // ---------- ledger ----------

  datatype EntryType = Sale | PlatformFee | FundsReleased | PayoutEntry | Adjustment

  datatype Direction = Credit | Debit

  datatype Bucket = Pending | Available

  datatype Key =
    | SaleKey(order: nat)
    | FeeKey(order: nat)
    | ReleaseOutKey(order: nat)
    | ReleaseInKey(order: nat)
    | PayoutKey(order: nat)
    | RefundKey(refund: nat)

  datatype Entry = Entry(supplier: nat, kind: EntryType, direction: Direction, bucket: Bucket, amount: int, key: Key)

  // The unique index on idempotency_key.
  function Keys(ledger: seq<Entry>): set<Key> {
    if ledger == [] then {} else Keys(ledger[..|ledger| - 1]) + {ledger[|ledger| - 1].key}
  }

  // `post_entry`: an entry whose idempotency key is already there is not written again.
  function Posted(ledger: seq<Entry>, entry: Entry): seq<Entry> {
    if entry.key in Keys(ledger) then ledger else ledger + [entry]
  }

  function PostedIf(condition: bool, ledger: seq<Entry>, entry: Entry): seq<Entry> {
    if condition then Posted(ledger, entry) else ledger
  }

  function Signed(entry: Entry): int {
    if entry.direction == Credit then entry.amount else -entry.amount
  }

  function InBucket(supplier: nat, bucket: Bucket): Entry -> int {
    (e: Entry) => if e.supplier == supplier && e.bucket == bucket then Signed(e) else 0
  }

  function OfType(supplier: nat, kind: EntryType): Entry -> int {
    (e: Entry) => if e.supplier == supplier && e.kind == kind then e.amount else 0
  }

  function InDirection(supplier: nat, direction: Direction): Entry -> int {
    (e: Entry) => if e.supplier == supplier && e.direction == direction then e.amount else 0
  }

  // `compute_supplier_balance`.
  datatype Balance = Balance(
    grossSales: int, platformFees: int, netEarnings: int, pending: int, available: int, paidOut: int, balance: int)

  function SupplierBalance(ledger: seq<Entry>, supplier: nat): Balance {
    var sales, fees := Sum(ledger, OfType(supplier, Sale)), Sum(ledger, OfType(supplier, PlatformFee));
    Balance(
      sales, fees, sales - fees,
      Sum(ledger, InBucket(supplier, Pending)), Sum(ledger, InBucket(supplier, Available)),
      Sum(ledger, OfType(supplier, PayoutEntry)),
      Sum(ledger, InDirection(supplier, Credit)) - Sum(ledger, InDirection(supplier, Debit)))
  }

  // ---------- orders ----------

  datatype CommissionStatus = CommissionPending | Recognized | Reversed

  datatype PayableStatus = Open | Settled | Cancelled

  datatype PayoutStatus = PayoutPending | Processing | Completed | Failed

  datatype Payout = Payout(net: int, status: PayoutStatus)

  // `byCheckout` and `byHand` say which BUYER_PAYMENT transactions hold funds for the order,
  // `released` that a FUNDS_RELEASED transaction exists.
  datatype Order = Order(
    supplier: nat,
    gross: int, commission: int, adjustment: int, net: int,
    commissionStatus: CommissionStatus, payable: PayableStatus,
    byCheckout: bool, byHand: bool, released: bool,
    payout: Option<Payout>)
  {
    predicate Held() { byCheckout || byHand }

    predicate PaidOut() { payout.Some? && payout.value.status == Completed }
  }

  // `refundTxs` are the refunds with a REFUND platform transaction.
  datatype State = State(orders: seq<Order>, ledger: seq<Entry>, refundTxs: set<nat>)

  datatype Op =
    | OpenOrder(order: nat, supplier: nat, total: nat, base: nat, rate: int, kind: CommissionType)
    | PayCheckout(order: nat, paid: int)
    | PayByHand(order: nat, amount: int)
    | Release(order: nat)
    | ProcessPayout(order: nat)
    | FailPayout(order: nat)
    | Refund(order: nat, refund: nat, amount: int)
    | CancelOrder(order: nat)

  function Max(a: int, b: int): int { if a < b then b else a }

  function Recognize(status: CommissionStatus): CommissionStatus {
    if status == CommissionPending then Recognized else status
  }

  // record_checkout_payment_in_session with post_sale_entries, for one allocation. What is posted for the
  // supplier is the gross of the commission record, not the allocated amount.
  function StepPayCheckout(s: State, i: nat, paid: int): State
    requires i < |s.orders|
  {
    var o := s.orders[i];
    if paid <= 0 then s else
      var sale := Posted(s.ledger, Entry(o.supplier, Sale, Credit, Pending, o.gross, SaleKey(i)));
      var fee := PostedIf(o.commission > 0, sale,
                          Entry(o.supplier, PlatformFee, Debit, Pending, o.commission, FeeKey(i)));
      s.(orders := s.orders[i := o.(byCheckout := true, commissionStatus := Recognize(o.commissionStatus))],
         ledger := fee)
  }

  // on_buyer_payment_completed: holds the funds but posts nothing to the supplier ledger
  function StepPayByHand(s: State, i: nat, amount: int): State
    requires i < |s.orders|
  {
    var o := s.orders[i];
    if amount <= 0 then s else
      s.(orders := s.orders[i := o.(byHand := true, commissionStatus := Recognize(o.commissionStatus))])
  }

  function ReleaseEntry(o: Order, i: nat, direction: Direction): Entry {
    if direction == Debit
    then Entry(o.supplier, FundsReleased, Debit, Pending, o.net, ReleaseOutKey(i))
    else Entry(o.supplier, FundsReleased, Credit, Available, o.net, ReleaseInKey(i))
  }

  // release_funds_for_order with post_release_entries
  function StepRelease(s: State, i: nat): State
    requires i < |s.orders|
  {
    var o := s.orders[i];
    if o.payable == Settled || !o.Held() || o.net <= 0 then s else
      var ledger := Posted(Posted(s.ledger, ReleaseEntry(o, i, Debit)), ReleaseEntry(o, i, Credit));
      var payout := if o.payout.Some? then o.payout else Some(Payout(o.net, PayoutPending));
      s.(orders := s.orders[i := o.(released := true, payout := payout)], ledger := ledger)
  }

  // process_payout; the move to Processing is written before the amount is checked
  function StepProcessPayout(s: State, i: nat): State
    requires i < |s.orders|
  {
    var o := s.orders[i];
    if o.payout.None? || o.payout.value.status in {Completed, Failed} then s else
      var net := o.payout.value.net;
      if net > o.net || net <= 0
      then s.(orders := s.orders[i := o.(payout := Some(Payout(net, Processing)))])
      else s.(orders := s.orders[i := o.(payout := Some(Payout(net, Completed)), payable := Settled)],
              ledger := Posted(s.ledger, Entry(o.supplier, PayoutEntry, Debit, Available, net, PayoutKey(i))))
  }

  function StepFailPayout(s: State, i: nat): State
    requires i < |s.orders|
  {
    var o := s.orders[i];
    if o.payout.None? || o.payout.value.status in {Completed, Failed} then s else
      s.(orders := s.orders[i := o.(payout := Some(Payout(o.payout.value.net, Failed)))])
  }

  function NetAfterRefund(o: Order, amount: int): int {
    Max(0, o.gross - o.commission - (o.adjustment + amount))
  }

  function RefundEntry(o: Order, refund: nat, amount: int): Entry {
    Entry(o.supplier, Adjustment, Debit, RefundBucket(o), o.net - NetAfterRefund(o, amount), RefundKey(refund))
  }

  // Where the money of an order is.
  function RefundBucket(o: Order): Bucket {
    if o.released then Available else Pending
  }

  // on_customer_refund for a processed refund; the payable is adjusted on every call, the transaction and
  // the ledger entry are written only once per refund
  function StepRefund(s: State, i: nat, refund: nat, amount: int): State
    requires i < |s.orders|
  {
    var o := s.orders[i];
    if amount <= 0 then s
    else if o.payable == Settled then s.(refundTxs := s.refundTxs + {refund})
    else
      var net := NetAfterRefund(o, amount);
      var ledger := PostedIf(o.net - net > 0, s.ledger, RefundEntry(o, refund, amount));
      State(s.orders[i := o.(adjustment := o.adjustment + amount, net := net)], ledger, s.refundTxs + {refund})
  }

  // cancel_commission_in_session
  function StepCancel(s: State, i: nat): State
    requires i < |s.orders|
  {
    var o := s.orders[i];
    s.(orders := s.orders[i := o.(
         commissionStatus := if o.commissionStatus == CommissionPending then Reversed else o.commissionStatus,
         payable := if o.payable == Open then Cancelled else o.payable)])
  }

  // create_commission_in_session
  function StepOpen(s: State, supplier: nat, split: Split): State {
    s.(orders := s.orders + [Order(supplier, split.gross, split.commission, 0, split.net,
                                   CommissionPending, Open, false, false, false, None)])
  }

  // An order has one commission record. Other operations on orders that do not exist are refused.
  function Step(s: State, op: Op): State {
    if op.OpenOrder? then
      var split := ComputeSplit(op.total, op.base, op.rate, op.kind);
      if op.order < |s.orders| || split.None? then s else StepOpen(s, op.supplier, split.value)
    else if op.order >= |s.orders| then s
    else match op
      case PayCheckout(i, paid) => StepPayCheckout(s, i, paid)
      case PayByHand(i, amount) => StepPayByHand(s, i, amount)
      case Release(i) => StepRelease(s, i)
      case ProcessPayout(i) => StepProcessPayout(s, i)
      case FailPayout(i) => StepFailPayout(s, i)
      case Refund(i, refund, amount) => StepRefund(s, i, refund, amount)
      case CancelOrder(i) => StepCancel(s, i)
  }

  const EMPTY := State([], [], {})

  function Run(s: State, ops: seq<Op>): State {
    if ops == [] then s else Step(Run(s, ops[..|ops| - 1]), ops[|ops| - 1])
  }

  // Every refund is notified once, as create_refund and process_refund do when they do not overlap.
  ghost predicate RefundsOnce(ops: seq<Op>) {
    forall i, j :: 0 <= i < j < |ops| && ops[i].Refund? && ops[j].Refund? ==> ops[i].refund != ops[j].refund
  }

  // A refund notified again that lowers the net of an order of the supplier: its entry is not posted again.
  predicate LowersUnposted(s: State, op: Op, supplier: nat) {
    && op.Refund? && op.order < |s.orders|
    && var o := s.orders[op.order];
       && o.supplier == supplier && op.amount > 0 && o.payable != Settled
       && RefundKey(op.refund) in Keys(s.ledger) && NetAfterRefund(o, op.amount) < o.net
  }

  // What the ledger misses of such a refund.
  function StepLoss(s: State, op: Op, supplier: nat, bucket: Bucket): int {
    if LowersUnposted(s, op, supplier) && bucket == RefundBucket(s.orders[op.order])
    then s.orders[op.order].net - NetAfterRefund(s.orders[op.order], op.amount) else 0
  }

  function Loss(ops: seq<Op>, supplier: nat, bucket: Bucket): int {
    if ops == [] then 0 else
      var before := ops[..|ops| - 1];
      Loss(before, supplier, bucket) + StepLoss(Run(EMPTY, before), ops[|ops| - 1], supplier, bucket)
  }

  // ---------- what the ledger should show for one order ----------

  function Earned(o: Order): int { o.gross - o.commission }

  function PendingOf(o: Order): int {
    (if o.byCheckout then Earned(o) else 0) - if o.released then Earned(o) else Earned(o) - o.net
  }

  function AvailableOf(o: Order): int {
    if !o.released then 0 else o.net - if o.PaidOut() then o.payout.value.net else 0
  }

  function PendingFor(supplier: nat): Order -> int {
    (o: Order) => if o.supplier == supplier then PendingOf(o) else 0
  }

  function AvailableFor(supplier: nat): Order -> int {
    (o: Order) => if o.supplier == supplier then AvailableOf(o) else 0
  }

  ghost predicate OrderOk(o: Order) {
    && 0 <= o.commission <= o.gross
    && o.adjustment >= 0
    && o.net == Max(0, Earned(o) - o.adjustment)
    && (o.released ==> o.Held())
    && (o.released <==> o.payout.Some?)
    && (o.released ==> 0 < o.payout.value.net && o.net <= o.payout.value.net <= Earned(o))
    && (o.payable == Settled <==> o.PaidOut())
    && (o.PaidOut() ==> o.payout.value.net == o.net)
  }

  ghost predicate KeysOk(ledger: seq<Entry>, i: nat, o: Order) {
    && (SaleKey(i) in Keys(ledger) <==> o.byCheckout)
    && (FeeKey(i) in Keys(ledger) <==> o.byCheckout && o.commission > 0)
    && (ReleaseOutKey(i) in Keys(ledger) <==> o.released)
    && (ReleaseInKey(i) in Keys(ledger) <==> o.released)
    && (PayoutKey(i) in Keys(ledger) <==> o.PaidOut())
  }

  ghost predicate KeyKnown(s: State, key: Key) {
    if key.RefundKey? then key.refund in s.refundTxs else key.order < |s.orders|
  }

  function OwedFor(supplier: nat, bucket: Bucket): Order -> int {
    if bucket == Pending then PendingFor(supplier) else AvailableFor(supplier)
  }

  // By how much the ledger shows more in a bucket than the orders account for.
  function Drift(s: State, supplier: nat, bucket: Bucket): int {
    Sum(s.ledger, InBucket(supplier, bucket)) - Sum(s.orders, OwedFor(supplier, bucket))
  }

  ghost predicate Books(s: State, supplier: nat) {
    Drift(s, supplier, Pending) == 0 && Drift(s, supplier, Available) == 0
  }

  // What every operation keeps.
  ghost predicate Structure(s: State) {
    && (forall i :: 0 <= i < |s.orders| ==> OrderOk(s.orders[i]) && KeysOk(s.ledger, i, s.orders[i]))
    && (forall key :: key in Keys(s.ledger) ==> KeyKnown(s, key))
  }

  // ---------- the service, updating its collections in place ----------

  datatype Reply =
    | Done
    | AlreadyDone
    | NotFound
    | InvalidRate
    | NotHeld
    | NothingToRelease
    | ExceedsPayable
    | InvalidTransition
    | NotPositive

  class SupplierMoney {
    var orders: seq<Order>
    var ledger: seq<Entry>
    var refundTxs: set<nat>

    function Snapshot(): State
      reads this
    {
      State(orders, ledger, refundTxs)
    }

    constructor ()
      ensures Snapshot() == EMPTY
    {
      orders, ledger, refundTxs := [], [], {};
    }

    method PostEntry(entry: Entry)
      modifies this`ledger
      ensures ledger == Posted(old(ledger), entry)
      ensures ledger == if exists j :: 0 <= j < |old(ledger)| && old(ledger)[j].key == entry.key
                        then old(ledger) else old(ledger) + [entry]
    {
      KeysAre(ledger);
      if entry.key in Keys(ledger) {
        return;
      }
      ledger := ledger + [entry];
    }

    method CreateCommission(order: nat, supplier: nat, total: nat, base: nat, rate: int, kind: CommissionType)
      returns (reply: Reply)
      modifies this`orders
      ensures Snapshot() == Step(old(Snapshot()), OpenOrder(order, supplier, total, base, rate, kind))
      ensures reply == if order < |old(orders)| then AlreadyDone else if rate < 0 then InvalidRate else Done
      ensures reply != Done ==> orders == old(orders)
      ensures reply == Done ==>
                var split := ComputeSplit(total, base, rate, kind).value;
                orders == old(orders) + [Order(supplier, split.gross, split.commission, 0, split.net,
                                               CommissionPending, Open, false, false, false, None)]
    {
      if order < |orders| {
        return AlreadyDone;
      }
      if rate < 0 {
        return InvalidRate;
      }
      var split := ComputeSplit(total, base, rate, kind).value;
      orders := orders + [Order(supplier, split.gross, split.commission, 0, split.net,
                                CommissionPending, Open, false, false, false, None)];
      return Done;
    }

    method RecordCheckoutPayment(i: nat, paid: int) returns (reply: Reply)
      modifies this`orders, this`ledger
      ensures Snapshot() == Step(old(Snapshot()), PayCheckout(i, paid))
      ensures reply == Done <==> i < |orders| && paid > 0
      ensures reply != Done ==> Snapshot() == old(Snapshot())
      ensures reply == Done ==>
                var o := old(orders)[i];
                var sold := Posted(old(ledger), Entry(o.supplier, Sale, Credit, Pending, o.gross, SaleKey(i)));
                var fee := Entry(o.supplier, PlatformFee, Debit, Pending, o.commission, FeeKey(i));
                && orders == old(orders)[i := o.(byCheckout := true, commissionStatus :=
                     if o.commissionStatus == CommissionPending then Recognized else o.commissionStatus)]
                && ledger == if o.commission > 0 then Posted(sold, fee) else sold
    {
      if i >= |orders| {
        return NotFound;
      }
      if paid <= 0 {
        return NotPositive;
      }
      var o := orders[i];
      orders := orders[i := o.(byCheckout := true, commissionStatus := Recognize(o.commissionStatus))];
      PostEntry(Entry(o.supplier, Sale, Credit, Pending, o.gross, SaleKey(i)));
      if o.commission > 0 {
        PostEntry(Entry(o.supplier, PlatformFee, Debit, Pending, o.commission, FeeKey(i)));
      }
      return Done;
    }

    method HoldManualPayment(i: nat, amount: int) returns (reply: Reply)
      modifies this`orders
      ensures Snapshot() == Step(old(Snapshot()), PayByHand(i, amount))
      ensures reply == Done <==> i < |orders| && amount > 0
      ensures ledger == old(ledger) && (reply != Done ==> orders == old(orders))
      ensures reply == Done ==>
                var o := old(orders)[i];
                orders == old(orders)[i := o.(byHand := true, commissionStatus :=
                  if o.commissionStatus == CommissionPending then Recognized else o.commissionStatus)]
    {
      if i >= |orders| {
        return NotFound;
      }
      if amount <= 0 {
        return NotPositive;
      }
      var o := orders[i];
      orders := orders[i := o.(byHand := true, commissionStatus := Recognize(o.commissionStatus))];
      return Done;
    }

    method ReleaseFunds(i: nat) returns (reply: Reply)
      modifies this`orders, this`ledger
      ensures Snapshot() == Step(old(Snapshot()), Release(i))
      ensures reply == Done <==>
              i < |old(orders)| &&
              var o := old(orders)[i]; o.payable != Settled && (o.byCheckout || o.byHand) && o.net > 0
      ensures reply != Done ==> Snapshot() == old(Snapshot())
      ensures reply == Done ==>
                var o := old(orders)[i];
                var out := Entry(o.supplier, FundsReleased, Debit, Pending, o.net, ReleaseOutKey(i));
                var into := Entry(o.supplier, FundsReleased, Credit, Available, o.net, ReleaseInKey(i));
                && orders == old(orders)[i := o.(released := true, payout :=
                     if o.payout.Some? then o.payout else Some(Payout(o.net, PayoutPending)))]
                && ledger == Posted(Posted(old(ledger), out), into)
    {
      if i >= |orders| {
        return NotFound;
      }
      var o := orders[i];
      if o.payable == Settled {
        return AlreadyDone;
      }
      if !o.Held() {
        return NotHeld;
      }
      if o.net <= 0 {
        return NothingToRelease;
      }
      PostEntry(ReleaseEntry(o, i, Debit));
      PostEntry(ReleaseEntry(o, i, Credit));
      o := o.(released := true);
      if o.payout.None? {
        o := o.(payout := Some(Payout(o.net, PayoutPending)));
      }
      orders := orders[i := o];
      return Done;
    }

    method CompletePayout(i: nat) returns (reply: Reply)
      modifies this`orders, this`ledger
      ensures Snapshot() == Step(old(Snapshot()), ProcessPayout(i))
      ensures reply in {Done, AlreadyDone} <==> i < |orders| && orders[i].PaidOut()
      ensures reply == Done <==>
              i < |old(orders)| && var o := old(orders)[i];
              o.payout.Some? && o.payout.value.status in {PayoutPending, Processing} && 0 < o.payout.value.net <= o.net
      ensures reply == Done ==>
                var o := old(orders)[i];
                var net := o.payout.value.net;
                && orders == old(orders)[i := o.(payout := Some(Payout(net, Completed)), payable := Settled)]
                && ledger == Posted(old(ledger), Entry(o.supplier, PayoutEntry, Debit, Available, net, PayoutKey(i)))
      ensures reply in {ExceedsPayable, NotPositive} ==>
                && i < |old(orders)| && old(orders)[i].payout.Some? && ledger == old(ledger)
                && var o := old(orders)[i];
                   orders == old(orders)[i := o.(payout := Some(Payout(o.payout.value.net, Processing)))]
      ensures reply in {NotFound, AlreadyDone, InvalidTransition} ==> Snapshot() == old(Snapshot())
    {
      if i >= |orders| || orders[i].payout.None? {
        return NotFound;
      }
      var o := orders[i];
      var payout := o.payout.value;
      if payout.status == Completed {
        return AlreadyDone;
      }
      if payout.status == Failed {
        return InvalidTransition;
      }
      o := o.(payout := Some(Payout(payout.net, Processing)));
      orders := orders[i := o];
      if payout.net > o.net {
        return ExceedsPayable;
      }
      if payout.net <= 0 {
        return NotPositive;
      }
      o := o.(payout := Some(Payout(payout.net, Completed)), payable := Settled);
      orders := orders[i := o];
      PostEntry(Entry(o.supplier, PayoutEntry, Debit, Available, payout.net, PayoutKey(i)));
      return Done;
    }

    method FailPayout(i: nat) returns (reply: Reply)
      modifies this`orders
      ensures Snapshot() == Step(old(Snapshot()), Op.FailPayout(i))
      ensures reply == Done <==>
              i < |old(orders)| && var payout := old(orders)[i].payout;
              payout.Some? && payout.value.status in {PayoutPending, Processing}
      ensures reply != Done ==> orders == old(orders)
      ensures reply == Done ==>
                var o := old(orders)[i];
                orders == old(orders)[i := o.(payout := Some(Payout(o.payout.value.net, Failed)))]
    {
      if i >= |orders| || orders[i].payout.None? {
        return NotFound;
      }
      var o := orders[i];
      if o.payout.value.status == Completed || o.payout.value.status == Failed {
        return InvalidTransition;
      }
      orders := orders[i := o.(payout := Some(Payout(o.payout.value.net, Failed)))];
      return Done;
    }

    method CancelCommission(i: nat) returns (reply: Reply)
      modifies this`orders
      ensures Snapshot() == Step(old(Snapshot()), CancelOrder(i))
      ensures reply == Done <==> i < |orders|
      ensures reply != Done ==> orders == old(orders)
      ensures reply == Done ==>
                var o := old(orders)[i];
                orders == old(orders)[i := o.(
                  commissionStatus := if o.commissionStatus == CommissionPending then Reversed else o.commissionStatus,
                  payable := if o.payable == Open then Cancelled else o.payable)]
    {
      if i >= |orders| {
        return NotFound;
      }
      var o := orders[i];
      if o.commissionStatus == CommissionPending {
        o := o.(commissionStatus := Reversed);
      }
      if o.payable == Open {
        o := o.(payable := Cancelled);
      }
      orders := orders[i := o];
      return Done;
    }

    method ApplyRefund(i: nat, refund: nat, amount: int) returns (reply: Reply)
      modifies this
      ensures Snapshot() == Step(old(Snapshot()), Refund(i, refund, amount))
      ensures reply == Done <==> i < |orders| && amount > 0
      ensures reply != Done ==> Snapshot() == old(Snapshot())
      ensures reply == Done ==>
                && refundTxs == old(refundTxs) + {refund}
                && var o := old(orders)[i];
                   var left := o.gross - o.commission - o.adjustment - amount;
                   var net := if left < 0 then 0 else left;
                   var entry := Entry(o.supplier, Adjustment, Debit, if o.released then Available else Pending,
                                      o.net - net, RefundKey(refund));
                   if o.payable == Settled then orders == old(orders) && ledger == old(ledger)
                   else
                     && orders == old(orders)[i := o.(adjustment := o.adjustment + amount, net := net)]
                     && ledger == if o.net > net then Posted(old(ledger), entry) else old(ledger)
    {
      if i >= |orders| {
        return NotFound;
      }
      if amount <= 0 {
        return NotPositive;
      }
      var o := orders[i];
      refundTxs := refundTxs + {refund};
      if o.payable != Settled {
        var adjustment := o.adjustment + amount;
        var net := o.gross - o.commission - adjustment;
        if net < 0 {
          net := 0;
        }
        var reduction := o.net - net;
        orders := orders[i := o.(adjustment := adjustment, net := net)];
        if reduction > 0 {
          PostEntry(Entry(o.supplier, Adjustment, Debit, if o.released then Available else Pending,
                          reduction, RefundKey(refund)));
        }
      }
      return Done;
    }
  }

  // ---------- posting ----------

  lemma PostedKeys(ledger: seq<Entry>, entry: Entry)
    ensures Keys(Posted(ledger, entry)) == Keys(ledger) + {entry.key}
  {
    assert (ledger + [entry])[..|ledger|] == ledger;
  }

  lemma PostedSum(ledger: seq<Entry>, entry: Entry, f: Entry -> int)
    ensures Sum(Posted(ledger, entry), f) == Sum(ledger, f) + if entry.key in Keys(ledger) then 0 else f(entry)
  {
    SumAppend(ledger, entry, f);
  }

  // ---------- every operation keeps the structure and the books ----------

  // An update of one order, with a ledger that grew only by keys of that order or by refund keys.
  ghost predicate GrewFor(s: State, ledger: seq<Entry>, refundTxs: set<nat>, i: nat, added: set<Key>) {
    && s.refundTxs <= refundTxs
    && Keys(s.ledger) <= Keys(ledger) <= Keys(s.ledger) + added
    && (forall key :: key in added ==> if key.RefundKey? then key.refund in refundTxs else key.order == i)
  }

  lemma StructureKept(s: State, i: nat, o: Order, ledger: seq<Entry>, refundTxs: set<nat>, added: set<Key>)
    requires Structure(s) && i < |s.orders|
    requires OrderOk(o) && KeysOk(ledger, i, o)
    requires GrewFor(s, ledger, refundTxs, i, added)
    ensures Structure(State(s.orders[i := o], ledger, refundTxs))
  {
    var orders := s.orders[i := o];
    forall j | 0 <= j < |orders| ensures OrderOk(orders[j]) && KeysOk(ledger, j, orders[j]) {
      if j != i {
        assert KeysOk(s.ledger, j, s.orders[j]);
      }
    }
    forall key | key in Keys(ledger) ensures KeyKnown(State(orders, ledger, refundTxs), key) {
      assert key in Keys(s.ledger) ==> KeyKnown(s, key);
    }
  }

  // How far the ledger and the change of one order move apart in a bucket.
  ghost predicate Shifted(s: State, s': State, i: nat, supplier: nat, bucket: Bucket, loss: int)
    requires i < |s.orders| == |s'.orders|
  {
    Sum(s'.ledger, InBucket(supplier, bucket)) - Sum(s.ledger, InBucket(supplier, bucket)) ==
    OwedFor(supplier, bucket)(s'.orders[i]) - OwedFor(supplier, bucket)(s.orders[i]) + loss
  }

  lemma DriftShifts(s: State, s': State, i: nat, supplier: nat, bucket: Bucket, loss: int)
    requires i < |s.orders| == |s'.orders| && s'.orders == s.orders[i := s'.orders[i]]
    requires Shifted(s, s', i, supplier, bucket, loss)
    ensures Drift(s', supplier, bucket) == Drift(s, supplier, bucket) + loss
  {
    hide OwedFor, InBucket;
    SumUpdate(s.orders, i, s'.orders[i], OwedFor(supplier, bucket));
  }

  // What one operation on order i does to that order, its keys and a bucket.
  ghost predicate GoodStep(s: State, s': State, i: nat, added: set<Key>, supplier: nat, bucket: Bucket, loss: int) {
    && i < |s.orders| == |s'.orders|
    && s'.orders == s.orders[i := s'.orders[i]]
    && OrderOk(s'.orders[i])
    && KeysOk(s'.ledger, i, s'.orders[i])
    && GrewFor(s, s'.ledger, s'.refundTxs, i, added)
    && Shifted(s, s', i, supplier, bucket, loss)
  }

  lemma GoodStepKeeps(s: State, s': State, i: nat, added: set<Key>, supplier: nat, bucket: Bucket, loss: int)
    requires Structure(s) && GoodStep(s, s', i, added, supplier, bucket, loss)
    ensures Structure(s')
    ensures Drift(s', supplier, bucket) == Drift(s, supplier, bucket) + loss
  {
    hide Drift, Structure, Shifted, OrderOk, KeysOk, GrewFor;
    StructureKept(s, i, s'.orders[i], s'.ledger, s'.refundTxs, added);
    DriftShifts(s, s', i, supplier, bucket, loss);
  }

  lemma PayCheckoutGood(s: State, i: nat, paid: int, supplier: nat, bucket: Bucket)
    requires i < |s.orders| && OrderOk(s.orders[i]) && KeysOk(s.ledger, i, s.orders[i])
    ensures GoodStep(s, StepPayCheckout(s, i, paid), i, {SaleKey(i), FeeKey(i)}, supplier, bucket, 0)
  {
    hide Sum, Keys, Posted;
    var o := s.orders[i];
    var sale := Entry(o.supplier, Sale, Credit, Pending, o.gross, SaleKey(i));
    var fee := Entry(o.supplier, PlatformFee, Debit, Pending, o.commission, FeeKey(i));
    PostedKeys(s.ledger, sale);
    PostedKeys(Posted(s.ledger, sale), fee);
    PostedSum(s.ledger, sale, InBucket(supplier, bucket));
    PostedSum(Posted(s.ledger, sale), fee, InBucket(supplier, bucket));
  }

  lemma ReleaseGood(s: State, i: nat, supplier: nat, bucket: Bucket)
    requires i < |s.orders| && OrderOk(s.orders[i]) && KeysOk(s.ledger, i, s.orders[i])
    ensures GoodStep(s, StepRelease(s, i), i, {ReleaseOutKey(i), ReleaseInKey(i)}, supplier, bucket, 0)
  {
    hide Sum, Keys, Posted;
    var o := s.orders[i];
    var out, into := ReleaseEntry(o, i, Debit), ReleaseEntry(o, i, Credit);
    PostedKeys(s.ledger, out);
    PostedKeys(Posted(s.ledger, out), into);
    PostedSum(s.ledger, out, InBucket(supplier, bucket));
    PostedSum(Posted(s.ledger, out), into, InBucket(supplier, bucket));
  }

  lemma ProcessPayoutGood(s: State, i: nat, supplier: nat, bucket: Bucket)
    requires i < |s.orders| && OrderOk(s.orders[i]) && KeysOk(s.ledger, i, s.orders[i])
    ensures GoodStep(s, StepProcessPayout(s, i), i, {PayoutKey(i)}, supplier, bucket, 0)
  {
    hide Sum, Keys, Posted;
    var o := s.orders[i];
    if o.payout.Some? {
      var entry := Entry(o.supplier, PayoutEntry, Debit, Available, o.payout.value.net, PayoutKey(i));
      PostedKeys(s.ledger, entry);
      PostedSum(s.ledger, entry, InBucket(supplier, bucket));
    }
  }

  lemma RefundGood(s: State, op: Op, supplier: nat, bucket: Bucket)
    requires op.Refund? && op.order < |s.orders|
    requires OrderOk(s.orders[op.order]) && KeysOk(s.ledger, op.order, s.orders[op.order])
    ensures var s' := StepRefund(s, op.order, op.refund, op.amount);
            GoodStep(s, s', op.order, Keys(s'.ledger) - Keys(s.ledger), supplier, bucket,
                     StepLoss(s, op, supplier, bucket))
  {
    hide Sum, Keys, Posted;
    var entry := RefundEntry(s.orders[op.order], op.refund, op.amount);
    PostedKeys(s.ledger, entry);
    PostedSum(s.ledger, entry, InBucket(supplier, bucket));
  }

  lemma StatusChangeGood(s: State, i: nat, op: Op, supplier: nat, bucket: Bucket)
    requires i < |s.orders| && OrderOk(s.orders[i]) && KeysOk(s.ledger, i, s.orders[i])
    requires (op.PayByHand? || op.FailPayout? || op.CancelOrder?) && op.order == i
    ensures GoodStep(s, Step(s, op), i, {}, supplier, bucket, 0)
  {
    hide Sum, Keys, Posted;
  }

  lemma OpenKeeps(s: State, owner: nat, split: Split, supplier: nat, bucket: Bucket)
    requires Structure(s)
    requires split.commission + split.net == split.gross && 0 <= split.commission <= split.gross
    ensures Structure(StepOpen(s, owner, split))
    ensures Drift(StepOpen(s, owner, split), supplier, bucket) == Drift(s, supplier, bucket)
  {
    var s' := StepOpen(s, owner, split);
    var o := s'.orders[|s.orders|];
    assert forall key :: key in Keys(s.ledger) ==> KeyKnown(s, key);
    forall j | 0 <= j < |s'.orders| ensures OrderOk(s'.orders[j]) && KeysOk(s'.ledger, j, s'.orders[j]) {
      if j < |s.orders| { assert s'.orders[j] == s.orders[j]; }
    }
    forall key | key in Keys(s'.ledger) ensures KeyKnown(s', key) {
      assert KeyKnown(s, key);
    }
    SumAppend(s.orders, o, OwedFor(supplier, bucket));
  }

  // Every operation keeps the structure, and only a refund notified again moves ledger and orders apart.
  lemma StepKeeps(s: State, op: Op, supplier: nat, bucket: Bucket)
    requires Structure(s)
    ensures Structure(Step(s, op))
    ensures Drift(Step(s, op), supplier, bucket) == Drift(s, supplier, bucket) + StepLoss(s, op, supplier, bucket)
  {
    hide Sum, Keys, Posted, KeysOk, GoodStep, Drift, OrderOk, StepLoss;
    if !op.Refund? {
      NoLoss(s, op, supplier, bucket);
    }
    if op.OpenOrder? {
      if op.rate >= 0 {
        SplitConserves(op.total, op.base, op.rate, op.kind);
        OpenKeeps(s, op.supplier, ComputeSplit(op.total, op.base, op.rate, op.kind).value, supplier, bucket);
      }
    } else if op.order >= |s.orders| {
      NoLoss(s, op, supplier, bucket);
    } else {
      var i, s' := op.order, Step(s, op);
      assert OrderOk(s.orders[i]) && KeysOk(s.ledger, i, s.orders[i]);
      if op.PayCheckout? {
        PayCheckoutGood(s, i, op.paid, supplier, bucket);
        GoodStepKeeps(s, s', i, {SaleKey(i), FeeKey(i)}, supplier, bucket, 0);
      } else if op.Release? {
        ReleaseGood(s, i, supplier, bucket);
        GoodStepKeeps(s, s', i, {ReleaseOutKey(i), ReleaseInKey(i)}, supplier, bucket, 0);
      } else if op.ProcessPayout? {
        ProcessPayoutGood(s, i, supplier, bucket);
        GoodStepKeeps(s, s', i, {PayoutKey(i)}, supplier, bucket, 0);
      } else if op.Refund? {
        RefundGood(s, op, supplier, bucket);
        GoodStepKeeps(s, s', i, Keys(s'.ledger) - Keys(s.ledger), supplier, bucket, StepLoss(s, op, supplier, bucket));
      } else {
        StatusChangeGood(s, i, op, supplier, bucket);
        GoodStepKeeps(s, s', i, {}, supplier, bucket, 0);
      }
    }
  }

  lemma NoLoss(s: State, op: Op, supplier: nat, bucket: Bucket)
    requires !op.Refund? || op.order >= |s.orders|
    ensures StepLoss(s, op, supplier, bucket) == 0
  {
  }

  // ---------- main results, over every run ----------

  lemma {:induction false} RunStructure(ops: seq<Op>)
    ensures Structure(Run(EMPTY, ops))
    ensures forall r :: r in Run(EMPTY, ops).refundTxs ==>
              exists j :: 0 <= j < |ops| && ops[j].Refund? && ops[j].refund == r
  {
    if ops != [] {
      var before, op := ops[..|ops| - 1], ops[|ops| - 1];
      RunStructure(before);
      StepKeeps(Run(EMPTY, before), op, 0, Pending);
      var s := Run(EMPTY, ops);
      forall r | r in s.refundTxs
        ensures exists j :: 0 <= j < |ops| && ops[j].Refund? && ops[j].refund == r
      {
        if r in Run(EMPTY, before).refundTxs {
          var j :| 0 <= j < |before| && before[j].Refund? && before[j].refund == r;
          assert ops[j] == before[j];
        } else {
          assert op.Refund? && op.refund == r;
        }
      }
    }
  }

  // In every run, each bucket of a supplier, as computed from the ledger alone, is the sum of what the
  // orders' payables and payouts say, plus what refunds notified again took from payables only.
  lemma {:induction false} LedgerIsOrdersPlusLoss(ops: seq<Op>, supplier: nat, bucket: Bucket)
    ensures Drift(Run(EMPTY, ops), supplier, bucket) == Loss(ops, supplier, bucket) >= 0
  {
    hide Drift, Structure, OrderOk, StepLoss, Step;
    if ops == [] {
      assert Drift(EMPTY, supplier, bucket) == 0 by { EmptyDrift(supplier, bucket); }
    } else {
      var before, op := ops[..|ops| - 1], ops[|ops| - 1];
      LedgerIsOrdersPlusLoss(before, supplier, bucket);
      RunStructure(before);
      StepKeeps(Run(EMPTY, before), op, supplier, bucket);
      LossNotNegative(Run(EMPTY, before), op, supplier, bucket);
    }
  }

  lemma EmptyDrift(supplier: nat, bucket: Bucket)
    ensures Drift(EMPTY, supplier, bucket) == 0
  {
  }

  // A refund notified again loses something exactly when it lowers the net of the order.
  lemma LossNotNegative(s: State, op: Op, supplier: nat, bucket: Bucket)
    ensures StepLoss(s, op, supplier, bucket) >= 0
    ensures LowersUnposted(s, op, supplier) <==>
            StepLoss(s, op, supplier, Pending) > 0 || StepLoss(s, op, supplier, Available) > 0
  {
    hide Keys;
  }

  // Every refund that lowers a net of the supplier has its entry posted.
  ghost predicate AllPosted(ops: seq<Op>, supplier: nat) {
    forall n :: 0 <= n < |ops| ==> !LowersUnposted(Run(EMPTY, ops[..n]), ops[n], supplier)
  }

  // The ledger and the orders tell the same balances exactly when no refund of the run, notified again,
  // lowered a net.
  lemma BooksMatchExactly(ops: seq<Op>, supplier: nat)
    ensures Books(Run(EMPTY, ops), supplier) <==> AllPosted(ops, supplier)
  {
    hide Run, Drift, Loss, AllPosted;
    LedgerIsOrdersPlusLoss(ops, supplier, Pending);
    LedgerIsOrdersPlusLoss(ops, supplier, Available);
    LossesAre(ops, supplier);
  }

  lemma {:induction false} LossesAre(ops: seq<Op>, supplier: nat)
    ensures Loss(ops, supplier, Pending) >= 0 && Loss(ops, supplier, Available) >= 0
    ensures Loss(ops, supplier, Pending) == 0 && Loss(ops, supplier, Available) == 0 <==> AllPosted(ops, supplier)
  {
    if ops != [] {
      hide LowersUnposted, StepLoss, Run, AllPosted;
      var before, op := ops[..|ops| - 1], ops[|ops| - 1];
      LossesAre(before, supplier);
      LossNotNegative(Run(EMPTY, before), op, supplier, Pending);
      LossNotNegative(Run(EMPTY, before), op, supplier, Available);
      AllPostedNext(ops, supplier);
    }
  }

  lemma AllPostedNext(ops: seq<Op>, supplier: nat)
    requires ops != []
    ensures var before := ops[..|ops| - 1];
            AllPosted(ops, supplier) <==>
            AllPosted(before, supplier) && !LowersUnposted(Run(EMPTY, before), ops[|ops| - 1], supplier)
  {
    hide LowersUnposted, Run;
    var before := ops[..|ops| - 1];
    assert forall n :: 0 <= n < |before| ==> ops[..n] == before[..n] && ops[n] == before[n];
  }

  // So they match in every run that notifies each refund once.
  lemma LedgerMatchesOrders(ops: seq<Op>, supplier: nat)
    requires RefundsOnce(ops)
    ensures var s := Run(EMPTY, ops);
            && SupplierBalance(s.ledger, supplier).pending == Sum(s.orders, PendingFor(supplier))
            && SupplierBalance(s.ledger, supplier).available == Sum(s.orders, AvailableFor(supplier))
  {
    forall n | 0 <= n < |ops| ensures !LowersUnposted(Run(EMPTY, ops[..n]), ops[n], supplier) {
      OnceIsPosted(ops, n, supplier);
    }
    BooksMatchExactly(ops, supplier);
    BooksAreBalances(Run(EMPTY, ops), supplier);
  }

  lemma BooksAreBalances(s: State, supplier: nat)
    requires Books(s, supplier)
    ensures SupplierBalance(s.ledger, supplier).pending == Sum(s.orders, PendingFor(supplier))
    ensures SupplierBalance(s.ledger, supplier).available == Sum(s.orders, AvailableFor(supplier))
  {
    hide Sum;
    assert Drift(s, supplier, Pending) == 0 && Drift(s, supplier, Available) == 0;
  }

  lemma OnceIsPosted(ops: seq<Op>, n: nat, supplier: nat)
    requires RefundsOnce(ops) && n < |ops|
    ensures !LowersUnposted(Run(EMPTY, ops[..n]), ops[n], supplier)
  {
    hide Run, Sum;
    var s, op := Run(EMPTY, ops[..n]), ops[n];
    RunStructure(ops[..n]);
    assert op.Refund? && RefundKey(op.refund) in Keys(s.ledger) ==> KeyKnown(s, RefundKey(op.refund));
  }

  // Available money is never negative, in any run: no payout, and no refund after release, even notified
  // again, overdraws a supplier.
  lemma AvailableNeverNegative(ops: seq<Op>, supplier: nat)
    ensures SupplierBalance(Run(EMPTY, ops).ledger, supplier).available >= 0
  {
    hide Run, Structure, Loss;
    var s := Run(EMPTY, ops);
    LedgerIsOrdersPlusLoss(ops, supplier, Available);
    RunStructure(ops);
    forall i | 0 <= i < |s.orders| ensures AvailableFor(supplier)(s.orders[i]) >= 0 {
      StructureAt(s, i);
    }
    SumNonNegative(s.orders, AvailableFor(supplier));
  }

  // What pending should show: the net of the paid, unreleased orders.
  function HeldNet(supplier: nat): Order -> int {
    (o: Order) => if o.supplier == supplier && o.byCheckout && !o.released then o.net else 0
  }

  // An order not paid at checkout has no SALE entry, yet release and refunds debit pending for it.
  function Overdrawn(supplier: nat): Order -> int {
    (o: Order) => if o.supplier == supplier && !o.byCheckout
                  then if o.released then Earned(o) else Earned(o) - o.net
                  else 0
  }

  // The pending balance of a supplier is the first less the second, plus what repeated refunds lost. It is
  // negative exactly when the second outweighs the rest.
  lemma PendingNegativeExactly(ops: seq<Op>, supplier: nat)
    ensures var s := Run(EMPTY, ops);
            var pending, held, overdrawn := SupplierBalance(s.ledger, supplier).pending,
                                            Sum(s.orders, HeldNet(supplier)), Sum(s.orders, Overdrawn(supplier));
            && held >= 0 && overdrawn >= 0
            && pending == held - overdrawn + Loss(ops, supplier, Pending)
            && (pending < 0 <==> held + Loss(ops, supplier, Pending) < overdrawn)
            && (RefundsOnce(ops) ==> pending == held - overdrawn && (pending < 0 <==> held < overdrawn))
  {
    hide Run, Structure, Loss, RefundsOnce, StepLoss;
    var s := Run(EMPTY, ops);
    LedgerIsOrdersPlusLoss(ops, supplier, Pending);
    RunStructure(ops);
    forall i | 0 <= i < |s.orders|
      ensures PendingFor(supplier)(s.orders[i]) == HeldNet(supplier)(s.orders[i]) - Overdrawn(supplier)(s.orders[i])
      ensures HeldNet(supplier)(s.orders[i]) >= 0 && Overdrawn(supplier)(s.orders[i]) >= 0
    {
      StructureAt(s, i);
    }
    SumDifference(s.orders, PendingFor(supplier), HeldNet(supplier), Overdrawn(supplier));
    SumNonNegative(s.orders, HeldNet(supplier));
    SumNonNegative(s.orders, Overdrawn(supplier));
    if RefundsOnce(ops) {
      LedgerMatchesOrders(ops, supplier);
    }
  }

  // Without orders that moved money without a sale pending is never negative, in any run, and is the held
  // net if no refund is notified twice.
  lemma PendingIsHeldNet(ops: seq<Op>, supplier: nat)
    requires forall i :: 0 <= i < |Run(EMPTY, ops).orders| ==>
               var o := Run(EMPTY, ops).orders[i];
               o.byCheckout || (if o.released then o.gross == o.commission else o.net == o.gross - o.commission)
    ensures var s := Run(EMPTY, ops);
            var pending, held := SupplierBalance(s.ledger, supplier).pending, Sum(s.orders, HeldNet(supplier));
            pending >= held >= 0 && (RefundsOnce(ops) ==> pending == held)
  {
    hide Run, Structure, Loss, RefundsOnce, SupplierBalance;
    var s := Run(EMPTY, ops);
    PendingNegativeExactly(ops, supplier);
    LedgerIsOrdersPlusLoss(ops, supplier, Pending);
    RunStructure(ops);
    forall i | 0 <= i < |s.orders| ensures Overdrawn(supplier)(s.orders[i]) == 0 {
      StructureAt(s, i);
    }
    SumZero(s.orders, Overdrawn(supplier));
  }

  // The defect itself: a hand-recorded payment followed by a release drives pending below zero.
  lemma HandPaymentOverdrawsPending()
    ensures var ops := [OpenOrder(0, 7, 1000, 1000, 500, Percentage), PayByHand(0, 1000), Release(0)];
            SupplierBalance(Run(EMPTY, ops).ledger, 7).pending < 0
  {
    var open, pay, release := OpenOrder(0, 7, 1000, 1000, 500, Percentage), PayByHand(0, 1000), Release(0);
    var ops := [open, pay, release];
    assert ops[..2] == [open, pay] && [open, pay][..1] == [open] && [open][..0] == [];
    assert RoundHalfUp(1000 * 500, RATE_SCALE) == 50;
    assert Run(EMPTY, []) == EMPTY;
    var o := Order(7, 1000, 50, 0, 950, CommissionPending, Open, false, false, false, None);
    assert Run(EMPTY, [open]).orders == [o];
    assert Run(EMPTY, ops[..2]).orders == [Order(7, 1000, 50, 0, 950, Recognized, Open, false, true, false, None)];
    var before := Run(EMPTY, ops[..2]);
    assert Run(EMPTY, ops) == StepRelease(before, 0);
    LedgerMatchesOrders(ops, 7);
    var orders := Run(EMPTY, ops).orders;
    assert |orders| == 1 && orders[..0] == [];
    assert Sum(orders, PendingFor(7)) == PendingFor(7)(orders[0]);
  }

  // Moving money between the buckets creates and destroys nothing: in every run, replays included,
  // the balance is sales - fees - payouts - adjustments.
  lemma {:induction false} BalanceIsConserved(ops: seq<Op>, supplier: nat)
    ensures var ledger := Run(EMPTY, ops).ledger; var b := SupplierBalance(ledger, supplier);
            b.pending + b.available == b.balance ==
            b.netEarnings - b.paidOut - Sum(ledger, OfType(supplier, Adjustment))
  {
    TypesPartition(ops, supplier);
    BucketsPartition(Run(EMPTY, ops).ledger, supplier);
  }

  lemma {:induction false} BucketsPartition(ledger: seq<Entry>, supplier: nat)
    ensures var b := SupplierBalance(ledger, supplier); b.pending + b.available == b.balance
  {
    if ledger != [] {
      BucketsPartition(ledger[..|ledger| - 1], supplier);
    }
  }

  function TypedWorth(ledger: seq<Entry>, supplier: nat): int {
    Sum(ledger, OfType(supplier, Sale)) - Sum(ledger, OfType(supplier, PlatformFee)) -
    Sum(ledger, OfType(supplier, PayoutEntry)) - Sum(ledger, OfType(supplier, Adjustment))
  }

  function BucketWorth(ledger: seq<Entry>, supplier: nat): int {
    Sum(ledger, InBucket(supplier, Pending)) + Sum(ledger, InBucket(supplier, Available))
  }

  function Gap(ledger: seq<Entry>, supplier: nat): int {
    BucketWorth(ledger, supplier) - TypedWorth(ledger, supplier)
  }

  // Only release entries tell the two worths apart.
  lemma PostedGap(ledger: seq<Entry>, e: Entry, supplier: nat)
    requires e.kind != FundsReleased ==> (e.kind == Sale <==> e.direction == Credit)
    ensures Gap(Posted(ledger, e), supplier) == Gap(ledger, supplier) +
            if e.key !in Keys(ledger) && e.supplier == supplier && e.kind == FundsReleased then Signed(e) else 0
  {
    PostedSum(ledger, e, InBucket(supplier, Pending));
    PostedSum(ledger, e, InBucket(supplier, Available));
    PostedSum(ledger, e, OfType(supplier, Sale));
    PostedSum(ledger, e, OfType(supplier, PlatformFee));
    PostedSum(ledger, e, OfType(supplier, PayoutEntry));
    PostedSum(ledger, e, OfType(supplier, Adjustment));
  }

  lemma StepGap(s: State, op: Op, supplier: nat)
    requires Structure(s)
    ensures Gap(Step(s, op).ledger, supplier) == Gap(s.ledger, supplier)
  {
    hide Sum, Keys, Posted, Gap;
    if !op.OpenOrder? && op.order < |s.orders| {
      var i, o := op.order, s.orders[op.order];
      assert KeysOk(s.ledger, i, o);
      if op.PayCheckout? {
        var sale := Entry(o.supplier, Sale, Credit, Pending, o.gross, SaleKey(i));
        PostedGap(s.ledger, sale, supplier);
        var fee := Entry(o.supplier, PlatformFee, Debit, Pending, o.commission, FeeKey(i));
        PostedGap(Posted(s.ledger, sale), fee, supplier);
      } else if op.Release? {
        var out, into := ReleaseEntry(o, i, Debit), ReleaseEntry(o, i, Credit);
        PostedKeys(s.ledger, out);
        PostedGap(s.ledger, out, supplier);
        PostedGap(Posted(s.ledger, out), into, supplier);
      } else if op.ProcessPayout? && o.payout.Some? {
        var paidOut := Entry(o.supplier, PayoutEntry, Debit, Available, o.payout.value.net, PayoutKey(i));
        PostedGap(s.ledger, paidOut, supplier);
      } else if op.Refund? {
        PostedGap(s.ledger, RefundEntry(o, op.refund, op.amount), supplier);
      }
    }
  }

  lemma {:induction false} TypesPartition(ops: seq<Op>, supplier: nat)
    ensures BucketWorth(Run(EMPTY, ops).ledger, supplier) == TypedWorth(Run(EMPTY, ops).ledger, supplier)
  {
    if ops != [] {
      var before := ops[..|ops| - 1];
      TypesPartition(before, supplier);
      RunStructure(before);
      StepGap(Run(EMPTY, before), ops[|ops| - 1], supplier);
    }
  }

  // The figures shown per type are those of the orders: sales and fees of the orders paid at checkout,
  // payouts of the completed ones. Refund replays do not matter here.
  function Figure(o: Order, kind: EntryType): int {
    match kind
    case Sale => if o.byCheckout then o.gross else 0
    case PlatformFee => if o.byCheckout then o.commission else 0
    case PayoutEntry => if o.PaidOut() then o.payout.value.net else 0
    case _ => 0
  }

  function FigureFor(supplier: nat, kind: EntryType): Order -> int {
    (o: Order) => if o.supplier == supplier then Figure(o, kind) else 0
  }

  ghost predicate FigureShift(s: State, s': State, i: nat, supplier: nat, kind: EntryType)
    requires i < |s.orders| == |s'.orders|
  {
    Sum(s'.ledger, OfType(supplier, kind)) - Sum(s.ledger, OfType(supplier, kind)) ==
    FigureFor(supplier, kind)(s'.orders[i]) - FigureFor(supplier, kind)(s.orders[i])
  }

  lemma PayCheckoutFigure(s: State, i: nat, paid: int, supplier: nat, kind: EntryType)
    requires i < |s.orders| && OrderOk(s.orders[i]) && KeysOk(s.ledger, i, s.orders[i])
    requires kind in {Sale, PlatformFee, PayoutEntry}
    ensures FigureShift(s, StepPayCheckout(s, i, paid), i, supplier, kind)
  {
    hide Sum, Keys, Posted;
    var o := s.orders[i];
    var sale := Entry(o.supplier, Sale, Credit, Pending, o.gross, SaleKey(i));
    var fee := Entry(o.supplier, PlatformFee, Debit, Pending, o.commission, FeeKey(i));
    PostedKeys(s.ledger, sale);
    PostedSum(s.ledger, sale, OfType(supplier, kind));
    PostedSum(Posted(s.ledger, sale), fee, OfType(supplier, kind));
  }

  lemma ReleaseFigure(s: State, i: nat, supplier: nat, kind: EntryType)
    requires i < |s.orders| && OrderOk(s.orders[i])
    requires kind in {Sale, PlatformFee, PayoutEntry}
    ensures FigureShift(s, StepRelease(s, i), i, supplier, kind)
  {
    hide Sum, Keys, Posted;
    var o := s.orders[i];
    PostedSum(s.ledger, ReleaseEntry(o, i, Debit), OfType(supplier, kind));
    PostedSum(Posted(s.ledger, ReleaseEntry(o, i, Debit)), ReleaseEntry(o, i, Credit), OfType(supplier, kind));
  }

  lemma ProcessPayoutFigure(s: State, i: nat, supplier: nat, kind: EntryType)
    requires i < |s.orders| && OrderOk(s.orders[i]) && KeysOk(s.ledger, i, s.orders[i])
    requires kind in {Sale, PlatformFee, PayoutEntry}
    ensures FigureShift(s, StepProcessPayout(s, i), i, supplier, kind)
  {
    hide Sum, Keys, Posted;
    var o := s.orders[i];
    if o.payout.Some? {
      PostedSum(s.ledger, Entry(o.supplier, PayoutEntry, Debit, Available, o.payout.value.net, PayoutKey(i)),
                OfType(supplier, kind));
    }
  }

  lemma RefundFigure(s: State, i: nat, refund: nat, amount: int, supplier: nat, kind: EntryType)
    requires i < |s.orders| && OrderOk(s.orders[i])
    requires kind in {Sale, PlatformFee, PayoutEntry}
    ensures FigureShift(s, StepRefund(s, i, refund, amount), i, supplier, kind)
  {
    hide Sum, Keys, Posted;
    PostedSum(s.ledger, RefundEntry(s.orders[i], refund, amount), OfType(supplier, kind));
  }

  lemma StepFigure(s: State, op: Op, supplier: nat, kind: EntryType)
    requires Structure(s) && kind in {Sale, PlatformFee, PayoutEntry}
    requires Sum(s.ledger, OfType(supplier, kind)) == Sum(s.orders, FigureFor(supplier, kind))
    ensures Sum(Step(s, op).ledger, OfType(supplier, kind)) == Sum(Step(s, op).orders, FigureFor(supplier, kind))
  {
    hide Sum, Keys, Posted, OfType, KeysOk;
    var s', g := Step(s, op), FigureFor(supplier, kind);
    if op.OpenOrder? {
      if s' != s {
        SumAppend(s.orders, s'.orders[|s.orders|], g);
      }
    } else if op.order < |s.orders| {
      var i := op.order;
      assert OrderOk(s.orders[i]) && KeysOk(s.ledger, i, s.orders[i]);
      if op.PayCheckout? {
        PayCheckoutFigure(s, i, op.paid, supplier, kind);
      } else if op.Release? {
        ReleaseFigure(s, i, supplier, kind);
      } else if op.ProcessPayout? {
        ProcessPayoutFigure(s, i, supplier, kind);
      } else if op.Refund? {
        RefundFigure(s, i, op.refund, op.amount, supplier, kind);
      }
      assert s'.orders == s.orders[i := s'.orders[i]];
      SumUpdate(s.orders, i, s'.orders[i], g);
    }
  }

  lemma {:induction false} FigureMatchesOrders(ops: seq<Op>, supplier: nat, kind: EntryType)
    requires kind in {Sale, PlatformFee, PayoutEntry}
    ensures Sum(Run(EMPTY, ops).ledger, OfType(supplier, kind)) ==
            Sum(Run(EMPTY, ops).orders, FigureFor(supplier, kind))
  {
    if ops != [] {
      FigureMatchesOrders(ops[..|ops| - 1], supplier, kind);
      RunStructure(ops[..|ops| - 1]);
      StepFigure(Run(EMPTY, ops[..|ops| - 1]), ops[|ops| - 1], supplier, kind);
    }
  }

  lemma FiguresMatchOrders(ops: seq<Op>, supplier: nat)
    ensures var s := Run(EMPTY, ops); var b := SupplierBalance(s.ledger, supplier);
            && b.grossSales == Sum(s.orders, FigureFor(supplier, Sale))
            && b.platformFees == Sum(s.orders, FigureFor(supplier, PlatformFee))
            && b.netEarnings == b.grossSales - b.platformFees
            && b.paidOut == Sum(s.orders, FigureFor(supplier, PayoutEntry))
  {
    hide Run, Sum;
    FigureMatchesOrders(ops, supplier, Sale);
    FigureMatchesOrders(ops, supplier, PlatformFee);
    FigureMatchesOrders(ops, supplier, PayoutEntry);
  }

  // ---------- replays ----------

  // Delivering any operation but a refund a second time changes nothing.
  lemma ReplayChangesNothing(ops: seq<Op>, op: Op)
    requires !op.Refund? && (op.OpenOrder? ==> op.order <= |Run(EMPTY, ops).orders|)
    ensures Step(Step(Run(EMPTY, ops), op), op) == Step(Run(EMPTY, ops), op)
  {
    hide *;
    var s := Run(EMPTY, ops);
    RunStructure(ops);
    StepKeeps(s, op, 0, Pending);
    StructureAt(Step(s, op), op.order);
    ReplayedStep(s, op);
  }

  lemma StructureAt(s: State, i: nat)
    requires Structure(s)
    ensures i < |s.orders| ==> OrderOk(s.orders[i]) && KeysOk(s.ledger, i, s.orders[i])
  {
  }

  lemma ReplayedStep(s: State, op: Op)
    requires !op.Refund? && (op.OpenOrder? ==> op.order <= |s.orders|)
    requires op.order < |Step(s, op).orders| ==>
               && OrderOk(Step(s, op).orders[op.order])
               && KeysOk(Step(s, op).ledger, op.order, Step(s, op).orders[op.order])
    ensures Step(Step(s, op), op) == Step(s, op)
  {
    hide Sum, Keys;
    var i, s' := op.order, Step(s, op);
    if i < |s'.orders| {
      assert s'.orders[i := s'.orders[i]] == s'.orders;
    }
  }

  // A refund that was already notified moves the payable again but not the ledger. Books that match survive
  // exactly when the replay leaves the net as it was.
  lemma RefundReplayBreaksBooksExactly(ops: seq<Op>, i: nat, refund: nat, amount: int)
    requires i < |Run(EMPTY, ops).orders|
    requires RefundKey(refund) in Keys(Run(EMPTY, ops).ledger)
    requires Books(Run(EMPTY, ops), Run(EMPTY, ops).orders[i].supplier)
    ensures var s := Run(EMPTY, ops); var o := s.orders[i];
            Books(StepRefund(s, i, refund, amount), o.supplier) <==>
            amount <= 0 || o.payable == Settled || NetAfterRefund(o, amount) == o.net
  {
    hide Run, Keys, Sum, Drift, OrderOk, KeysOk;
    var s, op := Run(EMPTY, ops), Refund(i, refund, amount);
    var o := s.orders[i];
    RunStructure(ops);
    StepKeeps(s, op, o.supplier, Pending);
    StepKeeps(s, op, o.supplier, Available);
    if amount > 0 {
      NetFalls(s, i, amount);
    }
    assert Step(s, op) == StepRefund(s, i, refund, amount);
  }

  lemma NetFalls(s: State, i: nat, amount: int)
    requires Structure(s) && i < |s.orders| && amount > 0
    ensures 0 <= NetAfterRefund(s.orders[i], amount) <= s.orders[i].net
    ensures NetAfterRefund(s.orders[i], amount) < s.orders[i].net <==> s.orders[i].net > 0
  {
    hide Sum, Keys, KeysOk;
    assert OrderOk(s.orders[i]);
  }

  // An order of 10.00 with a fee of 0.50, paid at checkout.
  const SAMPLE_OPEN := OpenOrder(0, 7, 1000, 1000, 500, Percentage)
  const SAMPLE_ORDER := Order(7, 1000, 50, 0, 950, CommissionPending, Open, false, false, false, None)
  const SAMPLE_SALE := Entry(7, Sale, Credit, Pending, 1000, SaleKey(0))
  const SAMPLE_FEE := Entry(7, PlatformFee, Debit, Pending, 50, FeeKey(0))
  const SAMPLE_PAID := SAMPLE_ORDER.(byCheckout := true, commissionStatus := Recognized)

  lemma RunAppend(ops: seq<Op>, op: Op)
    ensures Run(EMPTY, ops + [op]) == Step(Run(EMPTY, ops), op)
  {
    hide Step;
    assert (ops + [op])[..|ops|] == ops;
  }

  lemma SampleOpened()
    ensures Run(EMPTY, [SAMPLE_OPEN]) == State([SAMPLE_ORDER], [], {})
  {
    RunAppend([], SAMPLE_OPEN);
    assert [] + [SAMPLE_OPEN] == [SAMPLE_OPEN];
    assert RoundHalfUp(1000 * 500, RATE_SCALE) == 50;
  }

  lemma SamplePaid()
    ensures Run(EMPTY, [SAMPLE_OPEN, PayCheckout(0, 1000)]) == State([SAMPLE_PAID], [SAMPLE_SALE, SAMPLE_FEE], {})
  {
    hide Run;
    SampleOpened();
    RunAppend([SAMPLE_OPEN], PayCheckout(0, 1000));
    assert [SAMPLE_OPEN] + [PayCheckout(0, 1000)] == [SAMPLE_OPEN, PayCheckout(0, 1000)];
    assert [SAMPLE_SALE][..0] == [];
    assert Keys([SAMPLE_SALE]) == {SaleKey(0)};
    assert [] + [SAMPLE_SALE] == [SAMPLE_SALE] && [SAMPLE_SALE] + [SAMPLE_FEE] == [SAMPLE_SALE, SAMPLE_FEE];
  }

  // A run that reaches it: refunding 1.00 of that order twice leaves pending 1.00 too high.
  lemma RefundTwiceBreaksBooks()
    ensures var ops := [SAMPLE_OPEN, PayCheckout(0, 1000), Refund(0, 3, 100), Refund(0, 3, 100)];
            !Books(Run(EMPTY, ops), 7) && Drift(Run(EMPTY, ops), 7, Pending) == 100
  {
    hide Run, Drift, Step, OrderOk, KeysOk;
    var refund := Refund(0, 3, 100);
    var two := [SAMPLE_OPEN, PayCheckout(0, 1000)];
    var three := two + [refund];
    assert three + [refund] == [SAMPLE_OPEN, PayCheckout(0, 1000), refund, refund];
    SamplePaid();
    SampleRefunded();
    RunAppend(two, refund);
    RunAppend(three, refund);
    RunStructure(two);
    RunStructure(three);
    StepKeeps(Run(EMPTY, two), refund, 7, Pending);
    StepKeeps(Run(EMPTY, three), refund, 7, Pending);
    assert StepLoss(Run(EMPTY, two), refund, 7, Pending) == 0;
    assert StepLoss(Run(EMPTY, three), refund, 7, Pending) == 100;
    LedgerMatchesOrders(two, 7);
    DriftOf(Run(EMPTY, two), 7);
  }

  lemma DriftOf(s: State, supplier: nat)
    requires SupplierBalance(s.ledger, supplier).pending == Sum(s.orders, PendingFor(supplier))
    ensures Drift(s, supplier, Pending) == 0
  {
    hide Sum;
  }

  lemma SampleKeys()
    ensures Keys([SAMPLE_SALE, SAMPLE_FEE]) == {SaleKey(0), FeeKey(0)}
  {
    assert Keys([]) == {};
    PostedKeys([], SAMPLE_SALE);
    assert Posted([], SAMPLE_SALE) == [SAMPLE_SALE];
    PostedKeys([SAMPLE_SALE], SAMPLE_FEE);
    assert Posted([SAMPLE_SALE], SAMPLE_FEE) == [SAMPLE_SALE, SAMPLE_FEE];
  }

  lemma SampleRefunded()
    ensures var paid := State([SAMPLE_PAID], [SAMPLE_SALE, SAMPLE_FEE], {});
            var s := Step(paid, Refund(0, 3, 100));
            && RefundKey(3) !in Keys(paid.ledger)
            && s.orders == [SAMPLE_PAID.(adjustment := 100, net := 850)] && RefundKey(3) in Keys(s.ledger)
  {
    hide Keys;
    SampleKeys();
    PostedKeys([SAMPLE_SALE, SAMPLE_FEE], RefundEntry(SAMPLE_PAID, 3, 100));
  }

  // ---------- payouts ----------

  // The payout is larger than what is payable now.
  ghost predicate Stuck(s: State, i: nat) {
    && i < |s.orders|
    && s.orders[i].payout.Some?
    && s.orders[i].net < s.orders[i].payout.value.net
  }

  lemma StuckStays(s: State, op: Op, i: nat)
    requires Structure(s) && Stuck(s, i)
    ensures Stuck(Step(s, op), i) && !Step(s, op).orders[i].PaidOut()
  {
    hide Sum, Keys, Posted, KeysOk;
    assert OrderOk(s.orders[i]);
    if !op.OpenOrder? && op.order < |s.orders| {
      assert OrderOk(s.orders[op.order]);
    }
  }

  // A refund makes the payout of an order larger than its payable exactly when there is a payout, not
  // completed yet, and a net left to lower.
  lemma RefundMakesStuckExactly(ops: seq<Op>, i: nat, refund: nat, amount: int)
    requires i < |Run(EMPTY, ops).orders| && !Stuck(Run(EMPTY, ops), i)
    ensures var o := Run(EMPTY, ops).orders[i];
            Stuck(Step(Run(EMPTY, ops), Refund(i, refund, amount)), i) <==>
            o.payout.Some? && o.payable != Settled && amount > 0 && o.net > 0
  {
    hide Run, Sum, Keys, KeysOk;
    RunStructure(ops);
    assert OrderOk(Run(EMPTY, ops).orders[i]);
    if amount > 0 {
      NetFalls(Run(EMPTY, ops), i, amount);
    }
  }

  // Such a payout is locked for good: in no continuation of any run is it ever completed.
  lemma {:induction false} RefundAfterReleaseLocksPayout(ops: seq<Op>, more: seq<Op>, i: nat)
    requires Stuck(Run(EMPTY, ops), i)
    ensures Stuck(Run(Run(EMPTY, ops), more), i) && !Run(Run(EMPTY, ops), more).orders[i].PaidOut()
    ensures Structure(Run(Run(EMPTY, ops), more))
  {
    hide Structure, Step;
    var s := Run(EMPTY, ops);
    if more == [] {
      RunStructure(ops);
      StructureAt(s, i);
    } else {
      RefundAfterReleaseLocksPayout(ops, more[..|more| - 1], i);
      StuckStays(Run(s, more[..|more| - 1]), more[|more| - 1], i);
      StepKeeps(Run(s, more[..|more| - 1]), more[|more| - 1], 0, Pending);
    }
  }

  // From the refund on: whatever follows a refund between release and payout, the order is never paid out.
  lemma RefundThenNeverPaidOut(ops: seq<Op>, i: nat, refund: nat, amount: int, more: seq<Op>)
    requires i < |Run(EMPTY, ops).orders|
    requires var o := Run(EMPTY, ops).orders[i]; o.payout.Some? && o.payable != Settled && amount > 0 && o.net > 0
    ensures var s := Run(Step(Run(EMPTY, ops), Refund(i, refund, amount)), more);
            i < |s.orders| && !s.orders[i].PaidOut()
  {
    hide Run, Step, Stuck, Structure;
    var op := Refund(i, refund, amount);
    var s := Run(EMPTY, ops);
    RunStructure(ops);
    RunAppend(ops, op);
    if Stuck(s, i) {
      StuckStays(s, op, i);
    } else {
      RefundMakesStuckExactly(ops, i, refund, amount);
    }
    RefundAfterReleaseLocksPayout(ops + [op], more, i);
    StuckIs(Run(Step(s, op), more), i);
  }

  lemma StuckIs(s: State, i: nat)
    ensures Stuck(s, i) ==> i < |s.orders|
  {
  }

  // A run that reaches it: pay, release, refund 1.00.
  lemma ReleaseThenRefundIsStuck()
    ensures Stuck(Run(EMPTY, [SAMPLE_OPEN, PayCheckout(0, 1000), Release(0), Refund(0, 3, 100)]), 0)
  {
    hide Run, Keys, Posted;
    var two := [SAMPLE_OPEN, PayCheckout(0, 1000)];
    var three := two + [Release(0)];
    SamplePaid();
    RunAppend(two, Release(0));
    RunAppend(three, Refund(0, 3, 100));
    assert three + [Refund(0, 3, 100)] == [SAMPLE_OPEN, PayCheckout(0, 1000), Release(0), Refund(0, 3, 100)];
  }

  // ---------- who can still be paid out ----------

  predicate Pays(op: Op, i: nat) {
    || (op.PayCheckout? && op.order == i && op.paid > 0)
    || (op.PayByHand? && op.order == i && op.amount > 0)
  }

  // Nothing is released, and so nothing paid out, for an order without a positive payment before.
  lemma {:induction false} NothingReleasedUnpaid(ops: seq<Op>, i: nat)
    requires i < |Run(EMPTY, ops).orders|
    requires forall k :: 0 <= k < |ops| ==> !Pays(ops[k], i)
    ensures var o := Run(EMPTY, ops).orders[i]; !o.byCheckout && !o.byHand && !o.released && o.payout.None?
  {
    hide Sum, Keys, Posted;
    var before, op := ops[..|ops| - 1], ops[|ops| - 1];
    assert ops == before + [op];
    if i < |Run(EMPTY, before).orders| {
      NothingReleasedUnpaid(before, i);
    }
  }

  ghost predicate PaidOutIn(s: State, i: nat) {
    i < |s.orders| && s.orders[i].PaidOut()
  }

  // Something is left, and the payout, if there is one, neither ended nor exceeds it.
  predicate StillPayable(o: Order) {
    && o.net > 0
    && (o.payout.Some? ==> o.payout.value.status in {PayoutPending, Processing} && o.payout.value.net == o.net)
  }

  ghost predicate NoPayment(more: seq<Op>, i: nat) {
    forall k :: 0 <= k < |more| ==> !Pays(more[k], i)
  }

  lemma LostStays(s: State, op: Op, i: nat)
    requires Structure(s) && i < |s.orders|
    ensures i < |Step(s, op).orders|
    ensures !s.orders[i].PaidOut() && !StillPayable(s.orders[i]) ==>
            !Step(s, op).orders[i].PaidOut() && !StillPayable(Step(s, op).orders[i])
    ensures !s.orders[i].Held() && !Pays(op, i) ==> !Step(s, op).orders[i].Held()
  {
    hide Sum, Keys, Posted, KeysOk;
    assert OrderOk(s.orders[i]);
  }

  lemma {:induction false} LostForGood(ops: seq<Op>, more: seq<Op>, i: nat)
    requires i < |Run(EMPTY, ops).orders|
    ensures var s, s' := Run(EMPTY, ops), Run(Run(EMPTY, ops), more);
            && i < |s'.orders| && Structure(s')
            && (!s.orders[i].PaidOut() && !StillPayable(s.orders[i]) ==>
                  !s'.orders[i].PaidOut() && !StillPayable(s'.orders[i]))
            && (!s.orders[i].Held() && NoPayment(more, i) ==> !s'.orders[i].Held())
  {
    hide Structure, Step, Pays, StillPayable;
    if more == [] {
      RunStructure(ops);
    } else {
      var front, op := more[..|more| - 1], more[|more| - 1];
      LostForGood(ops, front, i);
      assert NoPayment(more, i) ==> NoPayment(front, i) && !Pays(op, i);
      LostStays(Run(Run(EMPTY, ops), front), op, i);
      StepKeeps(Run(Run(EMPTY, ops), front), op, 0, Pending);
    }
  }

  lemma ReleaseAndPayOut(s: State, i: nat)
    requires Structure(s) && i < |s.orders| && s.orders[i].Held() && StillPayable(s.orders[i])
    ensures PaidOutIn(Run(s, [Release(i), ProcessPayout(i)]), i)
  {
    hide Run, Step;
    ReleasePays(s, i);
    RunTwo(s, Release(i), ProcessPayout(i));
  }

  lemma ReleasePays(s: State, i: nat)
    requires Structure(s) && i < |s.orders| && s.orders[i].Held() && StillPayable(s.orders[i])
    ensures PaidOutIn(Step(Step(s, Release(i)), ProcessPayout(i)), i)
  {
    hide Sum, Keys, Posted, KeysOk;
    assert OrderOk(s.orders[i]);
    var o := Step(s, Release(i)).orders[i];
    assert o.payout.Some? && o.payout.value.net == o.net > 0 && o.payout.value.status in {PayoutPending, Processing};
  }

  lemma RunTwo(s: State, first: Op, second: Op)
    ensures Run(s, [first, second]) == Step(Step(s, first), second)
  {
    hide Step;
    assert [first, second][..1] == [first] && [first][..0] == [];
    assert Run(s, []) == s && Run(s, [first]) == Step(s, first);
  }

  // Some continuation of a run pays an order out exactly when it is paid out already or something is left
  // and no payout of it failed or exceeds that. Whether the order is cancelled plays no part.
  lemma PaidOutReachableExactly(ops: seq<Op>, i: nat)
    requires i < |Run(EMPTY, ops).orders|
    ensures var s := Run(EMPTY, ops);
            (exists more :: PaidOutIn(Run(s, more), i)) <==> s.orders[i].PaidOut() || StillPayable(s.orders[i])
  {
    hide Step, Structure, StillPayable;
    var s := Run(EMPTY, ops);
    RunStructure(ops);
    if s.orders[i].PaidOut() {
      assert Run(s, []) == s && PaidOutIn(Run(s, []), i);
    } else if StillPayable(s.orders[i]) {
      var pay, rest := PayByHand(i, 1), [Release(i), ProcessPayout(i)];
      HandPaymentHolds(s, i);
      StepKeeps(s, pay, 0, Pending);
      ReleaseAndPayOut(Step(s, pay), i);
      RunConcat(s, [pay], rest);
      assert [pay][..0] == [] && Run(s, [pay]) == Step(s, pay);
      assert PaidOutIn(Run(s, [pay] + rest), i);
    }
    if more: seq<Op> :| PaidOutIn(Run(s, more), i) {
      LostForGood(ops, more, i);
    }
  }

  // Nothing keeps a cancelled order that holds money from being released and paid out: without another
  // payment some continuation does so exactly when it holds money and is still payable.
  lemma CancelledPaidOutExactly(ops: seq<Op>, i: nat)
    requires i < |Run(EMPTY, ops).orders| && Run(EMPTY, ops).orders[i].payable == Cancelled
    ensures var s := Run(EMPTY, ops);
            (exists more :: NoPayment(more, i) && PaidOutIn(Run(s, more), i)) <==>
            s.orders[i].Held() && StillPayable(s.orders[i])
  {
    hide Step, Structure, StillPayable;
    var s := Run(EMPTY, ops);
    RunStructure(ops);
    StructureAt(s, i);
    if s.orders[i].Held() && StillPayable(s.orders[i]) {
      ReleaseAndPayOut(s, i);
      assert NoPayment([Release(i), ProcessPayout(i)], i);
    }
    forall more | NoPayment(more, i) && PaidOutIn(Run(s, more), i)
      ensures s.orders[i].Held() && StillPayable(s.orders[i])
    {
      LostForGood(ops, more, i);
      StructureAt(Run(s, more), i);
    }
  }

  lemma HandPaymentHolds(s: State, i: nat)
    requires i < |s.orders|
    ensures var s' := Step(s, PayByHand(i, 1));
            i < |s'.orders| && s'.orders[i].Held() && (StillPayable(s.orders[i]) ==> StillPayable(s'.orders[i]))
  {
  }

  lemma {:induction false} RunConcat(s: State, a: seq<Op>, b: seq<Op>)
    ensures Run(s, a + b) == Run(Run(s, a), b)
  {
    hide Step;
    if b == [] {
      assert a + b == a;
    } else {
      RunConcat(s, a, b[..|b| - 1]);
      assert (a + b)[..|a + b| - 1] == a + b[..|b| - 1];
    }
  }

  // A run that reaches it: the order is cancelled, then a payment recorded earlier is completed.
  lemma CancelledOrderPaidOut()
    ensures var ops := [SAMPLE_OPEN, CancelOrder(0), PayByHand(0, 1000)];
            && |Run(EMPTY, ops).orders| == 1 && Run(EMPTY, ops).orders[0].payable == Cancelled
            && PaidOutIn(Run(Run(EMPTY, ops), [Release(0), ProcessPayout(0)]), 0)
  {
    hide Run, Structure;
    var two, pay := [SAMPLE_OPEN] + [CancelOrder(0)], PayByHand(0, 1000);
    SampleOpened();
    RunAppend([SAMPLE_OPEN], CancelOrder(0));
    RunAppend(two, pay);
    assert two + [pay] == [SAMPLE_OPEN, CancelOrder(0), PayByHand(0, 1000)];
    RunStructure(two + [pay]);
    ReleaseAndPayOut(Run(EMPTY, two + [pay]), 0);
  }

  // A payout can still complete exactly when it neither failed nor exceeds the payable.
  lemma PayoutCompletesExactly(ops: seq<Op>, i: nat)
    requires i < |Run(EMPTY, ops).orders|
    ensures var o := Run(EMPTY, ops).orders[i];
            Step(Run(EMPTY, ops), ProcessPayout(i)).orders[i].PaidOut() <==>
            o.payout.Some? && o.payout.value.status != Failed && o.payout.value.net == o.net
  {
    RunStructure(ops);
    assert OrderOk(Run(EMPTY, ops).orders[i]);
  }

  // Nobody is paid twice: the ledger holds one payout entry per order at most, of the order's net.
  lemma {:induction false} PaidAtMostOnce(ops: seq<Op>, i: nat)
    requires i < |Run(EMPTY, ops).orders|
    ensures var s := Run(EMPTY, ops);
            PayoutKey(i) in Keys(s.ledger) <==> s.orders[i].PaidOut()
    ensures forall j, k :: 0 <= j < k < |Run(EMPTY, ops).ledger| ==>
              Run(EMPTY, ops).ledger[j].key != Run(EMPTY, ops).ledger[k].key
  {
    RunStructure(ops);
    assert KeysOk(Run(EMPTY, ops).ledger, i, Run(EMPTY, ops).orders[i]);
    KeysUnique(ops);
  }

  ghost predicate Distinct(ledger: seq<Entry>) {
    forall j, k :: 0 <= j < k < |ledger| ==> ledger[j].key != ledger[k].key
  }

  lemma PostedDistinct(ledger: seq<Entry>, e: Entry)
    requires Distinct(ledger)
    ensures Distinct(Posted(ledger, e))
  {
    KeysAre(ledger);
  }

  lemma {:induction false} KeysAre(ledger: seq<Entry>)
    ensures forall j :: 0 <= j < |ledger| ==> ledger[j].key in Keys(ledger)
    ensures forall key :: key in Keys(ledger) ==> exists j :: 0 <= j < |ledger| && ledger[j].key == key
  {
    if ledger != [] {
      KeysAre(ledger[..|ledger| - 1]);
    }
  }

  lemma {:induction false} KeysUnique(ops: seq<Op>)
    ensures Distinct(Run(EMPTY, ops).ledger)
  {
    if ops != [] {
      var s, op := Run(EMPTY, ops[..|ops| - 1]), ops[|ops| - 1];
      KeysUnique(ops[..|ops| - 1]);
      if !op.OpenOrder? && op.order < |s.orders| {
        var i, o := op.order, s.orders[op.order];
        var sale := Entry(o.supplier, Sale, Credit, Pending, o.gross, SaleKey(i));
        PostedDistinct(s.ledger, sale);
        PostedDistinct(Posted(s.ledger, sale), Entry(o.supplier, PlatformFee, Debit, Pending, o.commission, FeeKey(i)));
        PostedDistinct(s.ledger, ReleaseEntry(o, i, Debit));
        PostedDistinct(Posted(s.ledger, ReleaseEntry(o, i, Debit)), ReleaseEntry(o, i, Credit));
        if o.payout.Some? {
          PostedDistinct(s.ledger, Entry(o.supplier, PayoutEntry, Debit, Available, o.payout.value.net, PayoutKey(i)));
        }
        if op.Refund? {
          PostedDistinct(s.ledger, RefundEntry(o, op.refund, op.amount));
        }
      }
    }
  }
}
