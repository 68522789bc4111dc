/**
 Placing an order: the checkout page (frontend/components/commerce/CheckoutView.tsx, `place`) with its
 idempotency key, the server (backend/app/modules/checkout/service.py, `place` and `_place_tx`), and a
 network that may lose any reply. One buyer, one mounted page; clicks, server phases and replies
 interleave in any order.

 A key is named by its position among the keys the page has drawn, since drawn keys are distinct.
 */
module Checkout {
  import opened Wrappers

  type Key = nat

  type Item = nat

  datatype Order = Order(id: nat, items: set<Item>)

  datatype Reply = Placed(id: nat) | TotalChanged | Failed

  // How far a request has got.
  datatype Phase =
    | Sent
    | NotFoundYet
    | Quoted(items: set<Item>)
    | Answered(reply: Reply)
    | Finished

  datatype Request = Request(key: Key, phase: Phase)

  // ---------- the page ----------

  datatype Page = Page(keyRef: Option<Key>, drawn: nat, ready: bool, successes: nat, totalChanges: nat)

  // The start of `place`, up to the request: the key it sends, if it sends any.
  function BeginPlace(page: Page): (Page, Option<Key>) {
    if !page.ready then (page, None)
    else if page.keyRef.Some? then (page, page.keyRef)
    else (page.(keyRef := Some(page.drawn), drawn := page.drawn + 1), Some(page.drawn))
  }

  // Its end, once the call returned or threw.
  function EndPlace(page: Page, reply: Reply): Page {
    match reply
    case Placed(_) => page.(keyRef := None, successes := page.successes + 1)
    case TotalChanged => page.(keyRef := None, totalChanges := page.totalChanges + 1)
    case Failed => page
  }

  class CheckoutView {
    var keyRef: Option<Key>
    var drawn: nat
    var ready: bool
    ghost var successes: nat
    ghost var totalChanges: nat

    ghost function Snapshot(): Page
      reads this
    {
      Page(keyRef, drawn, ready, successes, totalChanges)
    }

    constructor ()
      ensures Snapshot() == Page(None, 0, false, 0, 0)
    {
      keyRef, drawn, ready := None, 0, false;
      successes, totalChanges := 0, 0;
    }

    method Begin() returns (key: Option<Key>)
      modifies this`keyRef, this`drawn
      ensures (Snapshot(), key) == BeginPlace(old(Snapshot()))
      ensures key == if !ready then None else if old(keyRef).Some? then old(keyRef) else Some(old(drawn))
      ensures keyRef == (if ready then key else old(keyRef))
      ensures drawn == old(drawn) + if ready && old(keyRef).None? then 1 else 0
    {
      if !ready {
        return None;
      }
      if keyRef.None? {
        keyRef := Some(drawn);
        drawn := drawn + 1;
      }
      return keyRef;
    }

    method End(reply: Reply)
      modifies this
      ensures Snapshot() == EndPlace(old(Snapshot()), reply)
      ensures keyRef == if reply == Failed then old(keyRef) else None
    {
      match reply {
        case Placed(_) =>
          keyRef := None;
          successes := successes + 1;
        case TotalChanged =>
          keyRef := None;
          totalChanges := totalChanges + 1;
        case Failed =>
      }
    }
  }

  // ---------- the server ----------

  // checkouts: unique (buyer, key); cart: the buyer's cart rows, each with an id of its own.
  datatype Store = Store(checkouts: map<Key, Order>, cart: set<Item>, nextItem: nat, nextId: nat)

  // The lookup before anything else.
  function Lookup(store: Store, key: Key): Phase {
    if key in store.checkouts then Answered(Placed(store.checkouts[key].id)) else NotFoundYet
  }

  // The quote is built from the cart; whether its total differs from the expected one is up to prices.
  function Quote(store: Store, differs: bool): Phase {
    if store.cart == {} then Answered(Failed)
    else if differs then Answered(TotalChanged)
    else Quoted(store.cart)
  }

  // What a failed transaction answers: the checkout of the request that won, if there is one.
  function Winner(store: Store, key: Key): Reply {
    if key in store.checkouts then Placed(store.checkouts[key].id) else Failed
  }

  // The transaction: all quoted cart rows must still be there, and the key must be new.
  function PlaceTx(store: Store, key: Key, items: set<Item>): (Store, Reply) {
    if !(items <= store.cart) || key in store.checkouts then (store, Winner(store, key))
    else (store.(checkouts := store.checkouts[key := Order(store.nextId, items)],
                 cart := store.cart - items, nextId := store.nextId + 1),
          Placed(store.nextId))
  }

  class CheckoutServer {
    var checkouts: map<Key, Order>
    var cart: set<Item>
    var nextItem: nat
    var nextId: nat

    function Snapshot(): Store
      reads this
    {
      Store(checkouts, cart, nextItem, nextId)
    }

    constructor ()
      ensures Snapshot() == Store(map[], {}, 0, 0)
    {
      checkouts, cart, nextItem, nextId := map[], {}, 0, 0;
    }

    method FindExisting(key: Key) returns (phase: Phase)
      ensures phase == Lookup(Snapshot(), key)
      ensures phase == if key in checkouts then Answered(Placed(checkouts[key].id)) else NotFoundYet
    {
      if key in checkouts {
        return Answered(Placed(checkouts[key].id));
      }
      return NotFoundYet;
    }

    // The rows are deleted first; a duplicate key raises at the insert and rolls everything back.
    method Place(key: Key, items: set<Item>) returns (reply: Reply)
      modifies this
      ensures (Snapshot(), reply) == PlaceTx(old(Snapshot()), key, items)
      // spelled out: a checkout is written if every quoted row is still there and the key is new
      ensures items <= old(cart) && key !in old(checkouts) ==>
                && reply == Placed(old(nextId)) && nextId == old(nextId) + 1 && nextItem == old(nextItem)
                && checkouts == old(checkouts)[key := Order(old(nextId), items)]
                && cart == old(cart) - items
      ensures !(items <= old(cart)) || key in old(checkouts) ==>
                && Snapshot() == old(Snapshot())
                && reply == if key in checkouts then Placed(checkouts[key].id) else Failed
    {
      var consumed := items * cart;
      var rollback := cart;
      cart := cart - items;
      var conflict := |consumed| != |items|;
      SameSize(items, consumed);
      if !conflict && key !in checkouts {
        checkouts := checkouts[key := Order(nextId, items)];
        nextId := nextId + 1;
        return Placed(nextId - 1);
      }
      cart := rollback;
      return if key in checkouts then Placed(checkouts[key].id) else Failed;
    }
  }

  lemma SameSize(a: set<Item>, b: set<Item>)
    requires b <= a
    ensures |a| == |b| <==> a == b
  {
    assert a == b + (a - b);
    assert |a| == |b| + |a - b|;
  }

  // ---------- interleavings ----------

  datatype State = State(page: Page, store: Store, requests: seq<Request>)

  // What can happen to a request.
  datatype Action =
    | ServerLookup
    | ServerQuote(differs: bool)
    | ServerPlace
    | ServerError
    | Deliver
    | Lose

  datatype Event =
    | AddToCart
    | RemoveFromCart(item: Item)
    | SetReady(ready: bool)
    | Click
    | On(r: nat, action: Action)

  const START := State(Page(None, 0, false, 0, 0), Store(map[], {}, 0, 0), [])

  function SetPhase(s: State, r: nat, phase: Phase): State
    requires r < |s.requests|
  {
    s.(requests := s.requests[r := s.requests[r].(phase := phase)])
  }

  // Actions that do not fit the phase do nothing. A lost reply, or an error after the transaction, reaches
  // the page as a failure, which changes nothing there.
  function Act(s: State, r: nat, action: Action): State
    requires r < |s.requests|
  {
    var request := s.requests[r];
    match action
    case ServerLookup => if request.phase == Sent then SetPhase(s, r, Lookup(s.store, request.key)) else s
    case ServerQuote(differs) => if request.phase == NotFoundYet then SetPhase(s, r, Quote(s.store, differs)) else s
    case ServerPlace =>
      if !request.phase.Quoted? then s else
        var (store, reply) := PlaceTx(s.store, request.key, request.phase.items);
        SetPhase(s.(store := store), r, Answered(reply))
    case ServerError =>
      if request.phase.Answered? || request.phase.Finished? then s else SetPhase(s, r, Answered(Failed))
    case Deliver =>
      if !request.phase.Answered? then s else SetPhase(s.(page := EndPlace(s.page, request.phase.reply)), r, Finished)
    case Lose => SetPhase(s, r, Finished)
  }

  function Step(s: State, e: Event): State {
    match e
    case AddToCart =>
      s.(store := s.store.(cart := s.store.cart + {s.store.nextItem}, nextItem := s.store.nextItem + 1))
    case RemoveFromCart(item) => s.(store := s.store.(cart := s.store.cart - {item}))
    case SetReady(ready) => s.(page := s.page.(ready := ready))
    case Click =>
      var (page, key) := BeginPlace(s.page);
      s.(page := page, requests := if key.Some? then s.requests + [Request(key.value, Sent)] else s.requests)
    case On(r, action) => if r < |s.requests| then Act(s, r, action) else s
  }

  function Run(s: State, events: seq<Event>): State {
    if events == [] then s else Step(Run(s, events[..|events| - 1]), events[|events| - 1])
  }

  // ---------- invariants ----------

  ghost predicate ItemsOf(s: State, items: set<Item>) {
    forall item :: item in items ==> item < s.store.nextItem
  }

  ghost predicate PhaseOk(s: State, request: Request) {
    match request.phase
    case Quoted(items) => ItemsOf(s, items)
    case Answered(reply) =>
      reply.Placed? ==> request.key in s.store.checkouts && reply.id == s.store.checkouts[request.key].id
    case _ => true
  }

  ghost predicate PageOk(page: Page) {
    && (page.keyRef.Some? ==> page.keyRef.value < page.drawn)
    && page.drawn + (if page.keyRef.None? then 1 else 0) <= 1 + page.successes + page.totalChanges
  }

  // No cart row is in two checkouts, or in one and still in the cart.
  ghost predicate StoreOk(s: State) {
    && ItemsOf(s, s.store.cart)
    && (forall key :: key in s.store.checkouts ==>
          key < s.page.drawn && s.store.checkouts[key].id < s.store.nextId &&
          ItemsOf(s, s.store.checkouts[key].items) && s.store.checkouts[key].items !! s.store.cart)
    && (forall k1, k2 :: k1 in s.store.checkouts && k2 in s.store.checkouts && k1 != k2 ==>
          && s.store.checkouts[k1].items !! s.store.checkouts[k2].items
          && s.store.checkouts[k1].id != s.store.checkouts[k2].id)
  }

  ghost predicate RequestsOk(s: State) {
    forall r :: 0 <= r < |s.requests| ==> s.requests[r].key < s.page.drawn && PhaseOk(s, s.requests[r])
  }

  ghost predicate Inv(s: State) {
    PageOk(s.page) && StoreOk(s) && RequestsOk(s)
  }

  lemma PlaceTxKeeps(s: State, r: nat)
    requires Inv(s) && r < |s.requests|
    ensures Inv(Act(s, r, ServerPlace))
  {
    var s' := Act(s, r, ServerPlace);
    assert PhaseOk(s, s.requests[r]);
    if s' != s {
      assert StoreOk(s');
      forall k | 0 <= k < |s'.requests| ensures s'.requests[k].key < s'.page.drawn && PhaseOk(s', s'.requests[k]) {
        assert PhaseOk(s, s.requests[k]);
      }
    }
  }

  lemma ActKeeps(s: State, r: nat, action: Action)
    requires Inv(s) && r < |s.requests|
    ensures Inv(Act(s, r, action))
  {
    if action == ServerPlace {
      PlaceTxKeeps(s, r);
    } else {
      var s' := Act(s, r, action);
      forall k | 0 <= k < |s'.requests| ensures s'.requests[k].key < s'.page.drawn && PhaseOk(s', s'.requests[k]) {
        assert PhaseOk(s, s.requests[k]);
      }
    }
  }

  lemma StepKeeps(s: State, e: Event)
    requires Inv(s)
    ensures Inv(Step(s, e))
  {
    if e.On? {
      if e.r < |s.requests| {
        ActKeeps(s, e.r, e.action);
      }
    } else {
      var s' := Step(s, e);
      forall k | 0 <= k < |s'.requests| ensures s'.requests[k].key < s'.page.drawn && PhaseOk(s', s'.requests[k]) {
        if k < |s.requests| {
          assert PhaseOk(s, s.requests[k]);
        }
      }
    }
  }

  // ---------- main results, over every interleaving ----------

  lemma {:induction false} RunInv(events: seq<Event>)
    ensures Inv(Run(START, events))
  {
    if events != [] {
      RunInv(events[..|events| - 1]);
      StepKeeps(Run(START, events[..|events| - 1]), events[|events| - 1]);
    }
  }

  lemma {:induction false} BelowCount(keys: set<nat>, n: nat)
    requires forall key :: key in keys ==> key < n
    ensures |keys| <= n
  {
    if n == 0 {
      assert keys == {};
    } else {
      BelowCount(keys - {n - 1}, n - 1);
      assert n - 1 in keys ==> |keys - {n - 1}| == |keys| - 1;
      assert n - 1 !in keys ==> keys - {n - 1} == keys;
    }
  }

  // Checkouts created <= keys drawn <= 1 + successful replies + total-changed replies.
  lemma CheckoutsBounded(events: seq<Event>)
    ensures var s := Run(START, events);
            |s.store.checkouts| <= s.page.drawn <= 1 + s.page.successes + s.page.totalChanges
  {
    RunInv(events);
    var s := Run(START, events);
    BelowCount(s.store.checkouts.Keys, s.page.drawn);
  }

  // No cart row is ever ordered twice, whatever keys the page drew and however requests overlapped; and an
  // ordered row has left the cart.
  lemma NoRowOrderedTwice(events: seq<Event>, item: Item, k1: Key, k2: Key)
    requires var checkouts := Run(START, events).store.checkouts;
             k1 in checkouts && k2 in checkouts && item in checkouts[k1].items && item in checkouts[k2].items
    ensures k1 == k2 && item !in Run(START, events).store.cart
  {
    RunInv(events);
    var s := Run(START, events);
    assert s.store.checkouts[k1].items !! s.store.cart;
  }

  lemma {:induction false} CheckoutsPersist(s: State, more: seq<Event>, key: Key)
    requires key in s.store.checkouts
    ensures var checkouts := Run(s, more).store.checkouts; key in checkouts && checkouts[key] == s.store.checkouts[key]
  {
    if more != [] {
      CheckoutsPersist(s, more[..|more| - 1], key);
      var before, e := Run(s, more[..|more| - 1]), more[|more| - 1];
      assert e.On? && e.r < |before.requests| && e.action == ServerPlace ==> key in Step(before, e).store.checkouts;
    }
  }

  // All successful answers to one key, at any two times of a run, name the same checkout.
  lemma OneCheckoutPerKey(events: seq<Event>, more: seq<Event>, r1: nat, r2: nat)
    requires var s, s' := Run(START, events), Run(START, events + more);
             && r1 < |s.requests| && s.requests[r1].phase.Answered? && s.requests[r1].phase.reply.Placed?
             && r2 < |s'.requests| && s'.requests[r2].phase.Answered? && s'.requests[r2].phase.reply.Placed?
             && s.requests[r1].key == s'.requests[r2].key
    ensures Run(START, events).requests[r1].phase.reply == Run(START, events + more).requests[r2].phase.reply
  {
    RunInv(events);
    RunInv(events + more);
    RunConcat(START, events, more);
    var s, s' := Run(START, events), Run(START, events + more);
    assert PhaseOk(s, s.requests[r1]) && PhaseOk(s', s'.requests[r2]);
    CheckoutsPersist(s, more, s.requests[r1].key);
  }

  lemma {:induction false} RunConcat(s: State, events: seq<Event>, more: seq<Event>)
    ensures Run(s, events + more) == Run(Run(s, events), more)
  {
    if more == [] {
      assert events + more == events;
    } else {
      RunConcat(s, events, more[..|more| - 1]);
      assert (events + more)[..|events + more| - 1] == events + more[..|more| - 1];
    }
  }

  // A retry under the key of a checkout whose reply was lost is answered with that checkout.
  lemma RetryFindsCheckout(s: State, more: seq<Event>, key: Key, r: nat)
    requires key in s.store.checkouts
    requires r < |Run(s, more).requests| && Run(s, more).requests[r] == Request(key, Sent)
    ensures Step(Run(s, more), On(r, ServerLookup)).requests[r].phase == Answered(Placed(s.store.checkouts[key].id))
  {
    CheckoutsPersist(s, more, key);
  }

  // ---------- retries ----------

  // The key the page sends next.
  function NextKey(page: Page): Key {
    if page.keyRef.Some? then page.keyRef.value else page.drawn
  }

  lemma {:induction false} RetriesUseOneKey(s: State, more: seq<Event>)
    requires PageOk(s.page)
    requires Run(s, more).page.successes == s.page.successes && Run(s, more).page.totalChanges == s.page.totalChanges
    ensures var s' := Run(s, more);
            && NextKey(s'.page) == NextKey(s.page)
            && |s.requests| <= |s'.requests|
            && (forall r :: |s.requests| <= r < |s'.requests| ==> s'.requests[r].key == NextKey(s.page))
    ensures Run(s, more).page.drawn <= s.page.drawn + 1
    ensures PageOk(Run(s, more).page)
  {
    hide Step;
    if more != [] {
      var front, e := more[..|more| - 1], more[|more| - 1];
      CountersGrow(s, front);
      StepCounters(Run(s, front), e);
      RetriesUseOneKey(s, front);
      StepUsesKey(Run(s, front), e);
    }
  }

  lemma StepUsesKey(s: State, e: Event)
    requires PageOk(s.page)
    requires Step(s, e).page.successes == s.page.successes && Step(s, e).page.totalChanges == s.page.totalChanges
    ensures var s' := Step(s, e);
            && NextKey(s'.page) == NextKey(s.page) && PageOk(s'.page)
            && s'.page.drawn <= s.page.drawn + (if s.page.keyRef.None? then 1 else 0)
            && |s.requests| <= |s'.requests|
            && (forall r :: 0 <= r < |s.requests| ==> s'.requests[r].key == s.requests[r].key)
            && (forall r :: |s.requests| <= r < |s'.requests| ==> s'.requests[r].key == NextKey(s.page))
  {
  }

  lemma StepCounters(s: State, e: Event)
    ensures Step(s, e).page.successes >= s.page.successes && Step(s, e).page.totalChanges >= s.page.totalChanges
  {
  }

  lemma {:induction false} CountersGrow(s: State, more: seq<Event>)
    ensures Run(s, more).page.successes >= s.page.successes && Run(s, more).page.totalChanges >= s.page.totalChanges
  {
    if more != [] {
      CountersGrow(s, more[..|more| - 1]);
      StepCounters(Run(s, more[..|more| - 1]), more[|more| - 1]);
    }
  }

  // Clicks over any stretch that sees neither a success nor a changed total all use one key, so together
  // they create at most one checkout.
  lemma RetriesCreateOneCheckout(events: seq<Event>, more: seq<Event>, k1: Key, k2: Key, r1: nat, r2: nat)
    requires var s, s' := Run(START, events), Run(Run(START, events), more);
             && s'.page.successes == s.page.successes && s'.page.totalChanges == s.page.totalChanges
             && |s.requests| <= r1 < |s'.requests| && |s.requests| <= r2 < |s'.requests|
             && s'.requests[r1].key == k1 && s'.requests[r2].key == k2
             && k1 in s'.store.checkouts && k2 in s'.store.checkouts
    ensures k1 == k2
  {
    RunInv(events);
    RetriesUseOneKey(Run(START, events), more);
  }

  // ---------- orders do get placed ----------

  // The key that a click sends is known to no checkout once the page has dropped its last key.
  lemma FreshKeyIsNew(events: seq<Event>)
    requires Run(START, events).page.keyRef.None?
    ensures var s := Run(START, events);
            NextKey(s.page) !in s.store.checkouts &&
            forall r :: 0 <= r < |s.requests| ==> s.requests[r].key != NextKey(s.page)
  {
    RunInv(events);
  }

  // Adding to the cart gives it one row that no checkout has; removing takes out just that row.
  lemma CartChanges(events: seq<Event>, item: Item)
    ensures var s := Run(START, events); var s' := Step(s, AddToCart);
            && (exists row :: row !in s.store.cart && s'.store.cart == s.store.cart + {row}
                              && forall k :: k in s.store.checkouts ==> row !in s.store.checkouts[k].items)
            && s'.store.checkouts == s.store.checkouts && s'.page == s.page && s'.requests == s.requests
    ensures var s := Run(START, events);
            Step(s, RemoveFromCart(item)) == s.(store := s.store.(cart := s.store.cart - {item}))
    ensures forall ready :: Step(Run(START, events), SetReady(ready)).page.ready == ready
  {
    RunInv(events);
    var s := Run(START, events);
    var row := s.store.nextItem;
    assert row !in s.store.cart && Step(s, AddToCart).store.cart == s.store.cart + {row};
  }

  // A click on a ready page sends the key it holds or a new one.
  lemma ClickSends(s: State)
    requires s.page.ready
    ensures var s' := Step(s, Click);
            && s'.store == s.store && s'.requests == s.requests + [Request(NextKey(s.page), Sent)]
            && s'.page == s.page.(keyRef := Some(NextKey(s.page)),
                                  drawn := s.page.drawn + if s.page.keyRef.None? then 1 else 0)
  {
  }

  // The server's way through an undisturbed request: nothing found, and a quote of the whole cart.
  lemma ServerQuotes(s: State, r: nat, differs: bool)
    requires r < |s.requests| && s.requests[r].phase == Sent && s.requests[r].key !in s.store.checkouts
    ensures var s' := Step(Step(s, On(r, ServerLookup)), On(r, ServerQuote(differs)));
            && s'.page == s.page && s'.store == s.store && |s'.requests| == |s.requests|
            && s'.requests[r].key == s.requests[r].key
            && s'.requests[r].phase == if s.store.cart == {} then Answered(Failed)
                                       else if differs then Answered(TotalChanged) else Quoted(s.store.cart)
  {
  }

  // An undisturbed click on a ready page with a filled cart, under a key without a checkout, places the
  // whole cart as one new checkout, empties the cart, and leaves the page to draw a key never sent before.
  lemma ClickPlacesOrder(events: seq<Event>)
    requires var s := Run(START, events);
             s.page.ready && s.store.cart != {} && NextKey(s.page) !in s.store.checkouts
    ensures var s := Run(START, events); var r, key := |s.requests|, NextKey(s.page);
            var s' := Run(START, events + PlacingRun(r));
            && s'.store.checkouts == s.store.checkouts[key := Order(s.store.nextId, s.store.cart)]
            && (forall k :: k in s.store.checkouts ==> s.store.checkouts[k].id != s.store.nextId)
            && s'.store.cart == {}
            && r < |s'.requests| && s'.requests[r] == Request(key, Finished)
            && s'.page.successes == s.page.successes + 1
            && s'.page.keyRef == None
            && (forall q :: 0 <= q < |s'.requests| ==> s'.requests[q].key != NextKey(s'.page))
  {
    hide Run, Inv, PlaceTx, EndPlace, BeginPlace;
    var s := Run(START, events);
    var r, key := |s.requests|, NextKey(s.page);
    RunFive(s, Click, On(r, ServerLookup), On(r, ServerQuote(false)), On(r, ServerPlace), On(r, Deliver));
    RunConcat(START, events, PlacingRun(r));
    ClickSends(s);
    ServerQuotes(Step(s, Click), r, false);
    var quoted := Step(Step(Step(s, Click), On(r, ServerLookup)), On(r, ServerQuote(false)));
    PlacesQuoted(quoted, r, s.store.cart);
    IdsAreNew(events);
    FreshKeyIsNew(events + PlacingRun(r));
  }

  // Lookup, an unchanged quote, the transaction and the delivered reply.
  function PlacingRun(r: nat): seq<Event> {
    [Click, On(r, ServerLookup), On(r, ServerQuote(false)), On(r, ServerPlace), On(r, Deliver)]
  }

  // When the reply to a written checkout is lost and the buyer clicks again, the same key is sent, the
  // lookup answers with the checkout already there, and nothing more is written.
  lemma LostReplyRetried(events: seq<Event>)
    requires var s := Run(START, events);
             s.page.ready && s.store.cart != {} && NextKey(s.page) !in s.store.checkouts
    ensures var s := Run(START, events); var r, key := |s.requests|, NextKey(s.page);
            var lost := Run(START, events + LosingRun(r));
            var s' := Step(Step(Step(lost, Click), On(r + 1, ServerLookup)), On(r + 1, Deliver));
            && lost.page.keyRef == Some(key) && lost.page.successes == s.page.successes
            && lost.store.checkouts == s.store.checkouts[key := Order(s.store.nextId, s.store.cart)]
            && s'.store == lost.store
            && |s'.requests| == r + 2 && s'.requests[r + 1] == Request(key, Finished)
            && s'.page.successes == s.page.successes + 1 && s'.page.keyRef == None
  {
    hide Run, Inv, PlaceTx, BeginPlace;
    var s := Run(START, events);
    var r := |s.requests|;
    RunFive(s, Click, On(r, ServerLookup), On(r, ServerQuote(false)), On(r, ServerPlace), On(r, Lose));
    RunConcat(START, events, LosingRun(r));
    ClickSends(s);
    ServerQuotes(Step(s, Click), r, false);
    var quoted := Step(Step(Step(s, Click), On(r, ServerLookup)), On(r, ServerQuote(false)));
    WritesAndLoses(quoted, r, s.store.cart);
    var lost := Step(Step(quoted, On(r, ServerPlace)), On(r, Lose));
    ClickSends(lost);
    AnswersKnownKey(Step(lost, Click), r + 1);
  }

  function LosingRun(r: nat): seq<Event> {
    [Click, On(r, ServerLookup), On(r, ServerQuote(false)), On(r, ServerPlace), On(r, Lose)]
  }

  lemma WritesAndLoses(s: State, r: nat, items: set<Item>)
    requires r < |s.requests| && s.requests[r].phase == Quoted(items) && items == s.store.cart
    requires s.requests[r].key !in s.store.checkouts
    ensures var s' := Step(Step(s, On(r, ServerPlace)), On(r, Lose));
            && s'.store.checkouts == s.store.checkouts[s.requests[r].key := Order(s.store.nextId, items)]
            && s'.page == s.page && |s'.requests| == |s.requests|
  {
  }

  lemma AnswersKnownKey(s: State, r: nat)
    requires r < |s.requests| && s.requests[r].phase == Sent && s.requests[r].key in s.store.checkouts
    ensures var s' := Step(Step(s, On(r, ServerLookup)), On(r, Deliver));
            && s'.store == s.store && |s'.requests| == |s.requests|
            && s'.requests[r] == Request(s.requests[r].key, Finished)
            && s'.page == s.page.(keyRef := None, successes := s.page.successes + 1)
  {
  }

  // A request that fails before its transaction writes nothing, and the next click sends the same key.
  lemma FailureKeepsKey(s: State)
    requires s.page.ready
    ensures var r := |s.requests|;
            var s' := Step(Step(Step(s, Click), On(r, ServerError)), On(r, Deliver));
            && s'.store == s.store && s'.page.successes == s.page.successes
            && NextKey(s'.page) == NextKey(s.page) && s'.page.keyRef.Some?
            && s'.requests == s.requests + [Request(NextKey(s.page), Finished)]
  {
  }

  // No action out of its turn has an effect: the steps of one request come in order, and an answer given
  // is never taken back.
  lemma OutOfTurnIdle(s: State, r: nat, differs: bool)
    requires r < |s.requests|
    ensures s.requests[r].phase != Sent ==> Step(s, On(r, ServerLookup)) == s
    ensures s.requests[r].phase != NotFoundYet ==> Step(s, On(r, ServerQuote(differs))) == s
    ensures !s.requests[r].phase.Quoted? ==> Step(s, On(r, ServerPlace)) == s
    ensures !s.requests[r].phase.Answered? ==> Step(s, On(r, Deliver)) == s
    ensures s.requests[r].phase.Answered? || s.requests[r].phase.Finished? ==> Step(s, On(r, ServerError)) == s
  {
  }

  lemma IdsAreNew(events: seq<Event>)
    ensures var store := Run(START, events).store;
            forall k :: k in store.checkouts ==> store.checkouts[k].id != store.nextId
  {
    RunInv(events);
  }

  lemma PlacesQuoted(s: State, r: nat, items: set<Item>)
    requires r < |s.requests| && s.requests[r].phase == Quoted(items) && items == s.store.cart
    requires s.requests[r].key !in s.store.checkouts
    ensures var s' := Step(Step(s, On(r, ServerPlace)), On(r, Deliver));
            && s'.store.checkouts == s.store.checkouts[s.requests[r].key := Order(s.store.nextId, items)]
            && s'.store.cart == {} && |s'.requests| == |s.requests|
            && s'.requests[r] == Request(s.requests[r].key, Finished)
            && s'.page == s.page.(keyRef := None, successes := s.page.successes + 1)
  {
  }

  lemma RunFive(s: State, a: Event, b: Event, c: Event, d: Event, e: Event)
    ensures Run(s, [a, b, c, d, e]) == Step(Step(Step(Step(Step(s, a), b), c), d), e)
  {
    hide Step;
    assert [a, b, c, d, e][..4] == [a, b, c, d] && [a, b, c, d][..3] == [a, b, c];
    assert [a, b, c][..2] == [a, b] && [a, b][..1] == [a] && [a][..0] == [];
    assert Run(s, []) == s && Run(s, [a]) == Step(s, a);
    assert Run(s, [a, b]) == Step(Step(s, a), b);
    assert Run(s, [a, b, c]) == Step(Step(Step(s, a), b), c);
    assert Run(s, [a, b, c, d]) == Step(Step(Step(Step(s, a), b), c), d);
  }

  // If the total changed meanwhile, nothing is written and the page draws a new key for the next click.
  lemma ChangedTotalRefused(events: seq<Event>)
    requires var s := Run(START, events);
             s.page.ready && s.store.cart != {} && NextKey(s.page) !in s.store.checkouts
    ensures var s := Run(START, events); var r := |s.requests|;
            var quoted := Step(Step(Step(s, Click), On(r, ServerLookup)), On(r, ServerQuote(true)));
            var s' := Step(quoted, On(r, Deliver));
            && s'.store == s.store && s'.page.keyRef == None && s'.page.totalChanges == s.page.totalChanges + 1
            && NextKey(s'.page) != NextKey(s.page) && NextKey(s'.page) !in s'.store.checkouts
  {
    hide Run, Inv, BeginPlace;
    var s := Run(START, events);
    var r := |s.requests|;
    ClickSends(s);
    ServerQuotes(Step(s, Click), r, true);
    KeysBelow(events);
  }

  lemma KeysBelow(events: seq<Event>)
    ensures var s := Run(START, events);
            && (s.page.keyRef.Some? ==> s.page.keyRef.value < s.page.drawn)
            && forall k :: k in s.store.checkouts ==> k < s.page.drawn
  {
    RunInv(events);
  }
}
