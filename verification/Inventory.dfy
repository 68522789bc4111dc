/**
 Stock of one product (backend/app/modules/catalog/service.py, `_mutate_stock`, with the conditional
 updates of InventoryRepository). The inventory row holds two quantities; an append-only log of
 transactions records every change, and `held_quantity` reads from it how much an order still holds.

 Quantities are decimals, modelled as reals. One operation is one database transaction.
 */
module Inventory {
  import opened Wrappers

  datatype Kind = StockReceived | Reservation | ReservationRelease | Sale | OtherKind

  // `reference` is the order a change belongs to; None marks a manual change.
  datatype Tx = Tx(
    kind: Kind, quantity: real, reference: Option<nat>,
    previousAvailable: real, previousReserved: real, newAvailable: real, newReserved: real)

  datatype Error = InvalidQuantity | NotOwned | InsufficientStock | InsufficientReserved | UnsupportedKind

  datatype State = State(available: real, reserved: real, log: seq<Tx>)

  const EMPTY := State(0.0, 0.0, [])

  datatype Op = Op(kind: Kind, quantity: real, reference: Option<nat>, owned: bool)

  // ---------- held quantities, read from the log ----------

  // What one row adds to the quantity held: reservations count up, releases and sales down.
  function HeldChange(tx: Tx): real {
    match tx.kind
    case Reservation => tx.quantity
    case ReservationRelease => -tx.quantity
    case Sale => -tx.quantity
    case _ => 0.0
  }

  function HeldBy(log: seq<Tx>, reference: Option<nat>): real {
    if log == [] then 0.0 else
      var last := log[|log| - 1];
      HeldBy(log[..|log| - 1], reference) + if last.reference == reference then HeldChange(last) else 0.0
  }

  // The filter {"$ne": None}: everything held for any order.
  function HeldByOrders(log: seq<Tx>): real {
    if log == [] then 0.0 else
      var last := log[|log| - 1];
      HeldByOrders(log[..|log| - 1]) + if last.reference != None then HeldChange(last) else 0.0
  }

  // The amount a release or a sale may take.
  function Takeable(s: State, reference: Option<nat>): real {
    if reference.Some? then HeldBy(s.log, reference) else
      var orders := HeldByOrders(s.log);
      s.reserved - if orders > 0.0 then orders else 0.0
  }

  function Refusal(s: State, op: Op): Option<Error> {
    if op.quantity <= 0.0 then Some(InvalidQuantity)
    else if !op.owned then Some(NotOwned)
    else if op.kind in {ReservationRelease, Sale} && Takeable(s, op.reference) < op.quantity
    then Some(InsufficientReserved)
    else match op.kind
      case StockReceived => None
      case Reservation => if s.available >= op.quantity then None else Some(InsufficientStock)
      case ReservationRelease => if s.reserved >= op.quantity then None else Some(InsufficientReserved)
      case Sale => if s.reserved >= op.quantity then None else Some(InsufficientReserved)
      case OtherKind => Some(UnsupportedKind)
  }

  function AvailableChange(op: Op): real {
    match op.kind
    case StockReceived => op.quantity
    case Reservation => -op.quantity
    case ReservationRelease => op.quantity
    case _ => 0.0
  }

  function ReservedChange(op: Op): real {
    match op.kind
    case Reservation => op.quantity
    case ReservationRelease => -op.quantity
    case Sale => -op.quantity
    case _ => 0.0
  }

  function Step(s: State, op: Op): State {
    if Refusal(s, op).Some? then s else
      var available, reserved := s.available + AvailableChange(op), s.reserved + ReservedChange(op);
      State(available, reserved,
            s.log + [Tx(op.kind, op.quantity, op.reference, s.available, s.reserved, available, reserved)])
  }

  function Run(ops: seq<Op>): State {
    if ops == [] then EMPTY else Step(Run(ops[..|ops| - 1]), ops[|ops| - 1])
  }

  lemma RunIsSteps(ops: seq<Op>, op: Op)
    ensures Run([]) == EMPTY
    ensures Run(ops + [op]) == Step(Run(ops), op)
  {
    hide Step;
    assert (ops + [op])[..|ops|] == ops;
  }

  // ---------- the service ----------

  class Inventory {
    var available: real
    var reserved: real
    var log: seq<Tx>

    function Snapshot(): State
      reads this
    {
      State(available, reserved, log)
    }

    constructor ()
      ensures Snapshot() == EMPTY
    {
      available, reserved, log := 0.0, 0.0, [];
    }

    // The log row is written from the updated quantities, by undoing the change.
    method MutateStock(op: Op) returns (error: Option<Error>)
      modifies this
      ensures error == Refusal(old(Snapshot()), op)
      ensures Snapshot() == Step(old(Snapshot()), op)
      ensures error.Some? ==> Snapshot() == old(Snapshot())
      ensures error.None? && op.kind == StockReceived ==>
                available == old(available) + op.quantity && reserved == old(reserved)
    {
      if op.quantity <= 0.0 {
        return Some(InvalidQuantity);
      }
      if !op.owned {
        return Some(NotOwned);
      }
      if op.kind == ReservationRelease || op.kind == Sale {
        var held: real;
        if op.reference.Some? {
          held := HeldBy(log, op.reference);
        } else {
          var orderHeld := HeldByOrders(log);
          held := reserved - (if orderHeld > 0.0 then orderHeld else 0.0);
        }
        if held < op.quantity {
          return Some(InsufficientReserved);
        }
      }
      var previousAvailable, previousReserved: real;
      match op.kind {
        case StockReceived =>
          available := available + op.quantity;
          previousAvailable, previousReserved := available - op.quantity, reserved;
        case Reservation =>
          if available < op.quantity {
            return Some(InsufficientStock);
          }
          available, reserved := available - op.quantity, reserved + op.quantity;
          previousAvailable, previousReserved := available + op.quantity, reserved - op.quantity;
        case ReservationRelease =>
          if reserved < op.quantity {
            return Some(InsufficientReserved);
          }
          available, reserved := available + op.quantity, reserved - op.quantity;
          previousAvailable, previousReserved := available - op.quantity, reserved + op.quantity;
        case Sale =>
          if reserved < op.quantity {
            return Some(InsufficientReserved);
          }
          reserved := reserved - op.quantity;
          previousAvailable, previousReserved := available, reserved + op.quantity;
        case OtherKind =>
          return Some(UnsupportedKind);
      }
      log := log + [Tx(op.kind, op.quantity, op.reference, previousAvailable, previousReserved, available, reserved)];
      return None;
    }
  }

  // ---------- invariants of every run ----------

  function TotalOf(log: seq<Tx>, kind: Kind): real {
    if log == [] then 0.0 else
      var last := log[|log| - 1];
      TotalOf(log[..|log| - 1], kind) + if last.kind == kind then last.quantity else 0.0
  }

  // Each row starts where the row before it ended, and the last one ends at the stored quantities.
  ghost predicate Chained(s: State) {
    && (forall i :: 0 <= i < |s.log| - 1 ==>
          && s.log[i + 1].previousAvailable == s.log[i].newAvailable
          && s.log[i + 1].previousReserved == s.log[i].newReserved)
    && (if s.log == [] then s.available == 0.0 == s.reserved else
        var first, last := s.log[0], s.log[|s.log| - 1];
        && first.previousAvailable == 0.0 == first.previousReserved
        && last.newAvailable == s.available && last.newReserved == s.reserved)
  }

  ghost predicate Sound(s: State) {
    && s.available >= 0.0
    && s.reserved == HeldBy(s.log, None) + HeldByOrders(s.log)
    && s.available + s.reserved == TotalOf(s.log, StockReceived) - TotalOf(s.log, Sale)
    && HeldByOrders(s.log) >= 0.0
    && (forall reference :: HeldBy(s.log, reference) >= 0.0)
    && Chained(s)
  }

  lemma HeldAppend(log: seq<Tx>, tx: Tx, reference: Option<nat>)
    ensures HeldBy(log + [tx], reference) ==
            HeldBy(log, reference) + if tx.reference == reference then HeldChange(tx) else 0.0
    ensures HeldByOrders(log + [tx]) == HeldByOrders(log) + if tx.reference != None then HeldChange(tx) else 0.0
  {
    assert (log + [tx])[..|log|] == log;
  }

  lemma TotalStart(kind: Kind)
    ensures TotalOf([], kind) == 0.0
  {
  }

  lemma TotalAppend(log: seq<Tx>, tx: Tx, kind: Kind)
    ensures TotalOf(log + [tx], kind) == TotalOf(log, kind) + if tx.kind == kind then tx.quantity else 0.0
  {
    assert (log + [tx])[..|log|] == log;
  }

  // Orders never hold less together than one of them does, whatever the others hold.
  lemma {:induction false} OneOfTheOrders(log: seq<Tx>, reference: nat)
    requires forall other: Option<nat> :: HeldBy(log, other) >= 0.0
    ensures HeldBy(log, Some(reference)) <= HeldByOrders(log)
  {
    assert {} + {reference} == {reference};
    SplitOff(log, {}, reference);
    WithoutNone(log);
    OthersNonNegative(log, References(log), {reference});
  }

  // The log without the rows of some orders.
  function Without(log: seq<Tx>, orders: set<nat>): real {
    if log == [] then 0.0 else
      var last := log[|log| - 1];
      Without(log[..|log| - 1], orders) +
      if last.reference.Some? && last.reference.value !in orders then HeldChange(last) else 0.0
  }

  function References(log: seq<Tx>): set<nat> {
    if log == [] then {} else
      var last := log[|log| - 1];
      References(log[..|log| - 1]) + if last.reference.Some? then {last.reference.value} else {}
  }

  lemma {:induction false} WithoutNone(log: seq<Tx>)
    ensures Without(log, {}) == HeldByOrders(log)
  {
    if log != [] {
      WithoutNone(log[..|log| - 1]);
    }
  }

  lemma {:induction false} SplitOff(log: seq<Tx>, orders: set<nat>, reference: nat)
    requires reference !in orders
    ensures Without(log, orders) == HeldBy(log, Some(reference)) + Without(log, orders + {reference})
  {
    if log != [] {
      SplitOff(log[..|log| - 1], orders, reference);
    }
  }

  lemma {:induction false} WithoutAll(log: seq<Tx>, orders: set<nat>)
    requires References(log) <= orders
    ensures Without(log, orders) == 0.0
  {
    if log != [] {
      WithoutAll(log[..|log| - 1], orders);
    }
  }

  lemma {:induction false} OthersNonNegative(log: seq<Tx>, todo: set<nat>, orders: set<nat>)
    requires forall other: Option<nat> :: HeldBy(log, other) >= 0.0
    requires References(log) <= todo + orders
    ensures Without(log, orders) >= 0.0
    decreases todo
  {
    if todo <= orders {
      WithoutAll(log, orders);
    } else {
      var next :| next in todo && next !in orders;
      SplitOff(log, orders, next);
      OthersNonNegative(log, todo - {next}, orders + {next});
    }
  }

  lemma StepSound(s: State, op: Op)
    requires Sound(s)
    ensures Sound(Step(s, op))
  {
    hide HeldBy, HeldByOrders, TotalOf;
    var s' := Step(s, op);
    if s' != s {
      var tx := s'.log[|s.log|];
      TotalAppend(s.log, tx, StockReceived);
      TotalAppend(s.log, tx, Sale);
      HeldAppend(s.log, tx, None);
      forall reference ensures HeldBy(s'.log, reference) >= 0.0 {
        HeldAppend(s.log, tx, reference);
      }
      if op.reference.Some? {
        OneOfTheOrders(s.log, op.reference.value);
      }
    }
  }

  // In every run, whatever is asked: stock is never negative, all stock ever received is available,
  // reserved or sold, the reserved quantity is exactly what the log says is held, no order and no
  // manual hold goes below zero, and the log replays to the stored quantities.
  lemma {:induction false} EveryRunSound(ops: seq<Op>)
    ensures Sound(Run(ops))
  {
    if ops != [] {
      EveryRunSound(ops[..|ops| - 1]);
      StepSound(Run(ops[..|ops| - 1]), ops[|ops| - 1]);
    }
  }

  // A release or sale is refused exactly when it asks for more than its own reference holds; the manual
  // formula is the same quantity, and the second guard on the inventory row never decides.
  lemma TakeRefusedExactly(ops: seq<Op>, op: Op)
    requires op.kind in {ReservationRelease, Sale} && op.owned && op.quantity > 0.0
    ensures Refusal(Run(ops), op).Some? <==> op.quantity > HeldBy(Run(ops).log, op.reference)
  {
    hide HeldBy, Sound, Run, Refusal;
    EveryRunSound(ops);
    SoundTakes(Run(ops), op);
  }

  lemma SoundTakes(s: State, op: Op)
    requires Sound(s)
    requires (op.kind == ReservationRelease || op.kind == Sale) && op.owned && op.quantity > 0.0
    ensures Refusal(s, op).Some? <==> op.quantity > HeldBy(s.log, op.reference)
  {
    var orders, manual := HeldByOrders(s.log), HeldBy(s.log, None);
    assert manual >= 0.0;
    if op.reference.Some? {
      OneOfTheOrders(s.log, op.reference.value);
      assert Takeable(s, op.reference) == HeldBy(s.log, op.reference) <= s.reserved;
    } else {
      assert Takeable(s, op.reference) == manual <= s.reserved;
    }
  }

  // After any run, which operations are accepted, and how each other one is refused.
  lemma AcceptedExactly(ops: seq<Op>, op: Op)
    ensures var s := Run(ops); var held := HeldBy(s.log, op.reference);
            && (Refusal(s, op) == None <==>
                  && op.owned && op.quantity > 0.0
                  && (|| op.kind == StockReceived
                      || (op.kind == Reservation && op.quantity <= s.available)
                      || (op.kind == ReservationRelease && op.quantity <= held)
                      || (op.kind == Sale && op.quantity <= held)))
            && (Refusal(s, op) == Some(InvalidQuantity) <==> op.quantity <= 0.0)
            && (Refusal(s, op) == Some(NotOwned) <==> op.quantity > 0.0 && !op.owned)
            && (Refusal(s, op) == Some(InsufficientStock) <==>
                  op.quantity > 0.0 && op.owned && op.kind == Reservation && op.quantity > s.available)
            && (Refusal(s, op) == Some(InsufficientReserved) <==>
                  op.quantity > 0.0 && op.owned && op.kind in {ReservationRelease, Sale} && op.quantity > held)
            && (Refusal(s, op) == Some(UnsupportedKind) <==> op.quantity > 0.0 && op.owned && op.kind == OtherKind)
  {
    hide HeldBy, HeldByOrders, Run, Sound;
    if op.kind in {ReservationRelease, Sale} && op.owned && op.quantity > 0.0 {
      EveryRunSound(ops);
      SoundTakes(Run(ops), op);
    }
  }

  // What an accepted operation does: the quantities it moves, and the row it adds to the log.
  lemma AcceptedMoves(s: State, op: Op)
    requires Refusal(s, op).None?
    ensures var s' := Step(s, op); var q := op.quantity;
            && (op.kind == StockReceived ==> s'.available == s.available + q && s'.reserved == s.reserved)
            && (op.kind == Reservation ==> s'.available == s.available - q && s'.reserved == s.reserved + q)
            && (op.kind == ReservationRelease ==> s'.available == s.available + q && s'.reserved == s.reserved - q)
            && (op.kind == Sale ==> s'.available == s.available && s'.reserved == s.reserved - q)
            && s'.log == s.log + [Tx(op.kind, q, op.reference, s.available, s.reserved, s'.available, s'.reserved)]
  {
  }

  // No operation changes what another reference holds.
  lemma OthersKeepTheirHold(s: State, op: Op, reference: Option<nat>)
    requires reference != op.reference
    ensures HeldBy(Step(s, op).log, reference) == HeldBy(s.log, reference)
  {
    if Step(s, op) != s {
      HeldAppend(s.log, Step(s, op).log[|s.log|], reference);
    }
  }

  // Whatever happened in between, cancelling returns exactly what the order still holds, and after it
  // the order holds nothing.
  lemma CancellingAlwaysWorks(ops: seq<Op>, reference: nat)
    requires HeldBy(Run(ops).log, Some(reference)) > 0.0
    ensures var s := Run(ops); var held := HeldBy(s.log, Some(reference));
            var s' := Step(s, Op(ReservationRelease, held, Some(reference), true));
            && s'.available == s.available + held
            && s'.reserved == s.reserved - held
            && HeldBy(s'.log, Some(reference)) == 0.0
  {
    hide HeldBy, HeldByOrders, Refusal, Run;
    var s := Run(ops);
    var op := Op(ReservationRelease, HeldBy(s.log, Some(reference)), Some(reference), true);
    TakeRefusedExactly(ops, op);
    AcceptedStep(s, op);
  }

  // What an accepted operation does to the two quantities and to its own reference's hold.
  lemma AcceptedStep(s: State, op: Op)
    requires Refusal(s, op).None?
    ensures var s' := Step(s, op);
            && s'.available == s.available + AvailableChange(op)
            && s'.reserved == s.reserved + ReservedChange(op)
            && |s'.log| == |s.log| + 1
            && HeldBy(s'.log, op.reference) == HeldBy(s.log, op.reference) + ReservedChange(op)
  {
    hide HeldBy, HeldByOrders, Refusal;
    HeldAppend(s.log, Step(s, op).log[|s.log|], op.reference);
  }

  // Reserving and releasing the same quantity gives back both quantities.
  lemma ReserveThenRelease(ops: seq<Op>, quantity: real, reference: Option<nat>)
    requires 0.0 < quantity <= Run(ops).available
    ensures var s := Run(ops);
            var s' := Step(Step(s, Op(Reservation, quantity, reference, true)),
                           Op(ReservationRelease, quantity, reference, true));
            s'.available == s.available && s'.reserved == s.reserved && |s'.log| == |s.log| + 2
  {
    hide HeldBy, HeldByOrders, Takeable, Run, Sound, Step;
    var s := Run(ops);
    var reserve := Op(Reservation, quantity, reference, true);
    var release := Op(ReservationRelease, quantity, reference, true);
    EveryRunSound(ops);
    SoundHolds(s, reference);
    AcceptedStep(s, reserve);
    StepSound(s, reserve);
    SoundTakes(Step(s, reserve), release);
    AcceptedStep(Step(s, reserve), release);
  }

  lemma SoundHolds(s: State, reference: Option<nat>)
    requires Sound(s)
    ensures HeldBy(s.log, reference) >= 0.0
  {
  }
}
