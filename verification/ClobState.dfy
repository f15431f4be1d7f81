/**
 The whole representation of the book as one value, seen from one side: that side's queues, the
 other side's, both best-price caches, the free stack and the lookup. Each structural change of the
 book is a step on that value, and is proved to be the matching step on the abstract book.
 */
module ClobState {
  import opened Types
  import opened Matcher
  import opened MatchingLaws
  import opened LevelQueues
  import opened SlotLedger
  import opened OrderIndexTable

  datatype State = State(
    r: SideRep, s: SideRep, best: Option<Price>, otherBest: Option<Price>,
    free: seq<OrderIndex>, names: map<OrderId, OrderIndex>)
  {
    ghost predicate Core() {
      && r.Ok() && s.Ok() && r.orders == s.orders && s.side == r.side.Opposite()
      && s.minPrice == r.minPrice && |s.levels| == |r.levels| > 0
      && Slots(|r.orders|, r.queue, s.queue, free)
      && Lookup(r.orders, r.queue, s.queue, names)
    }

    /** The best-price caches are the best prices, and absent exactly on an empty side. */
    ghost predicate Ok() {
      Core() && best == BestPrice(r.Entries()) && otherBest == BestPrice(s.Entries())
    }

    /** The abstract book that the representation stands for. */
    ghost function Book(): Book
      requires Core()
    {
      Matcher.Book(r.minPrice, r.minPrice + |r.levels| - 1, |r.orders|,
                   if r.side.Buy? then r.Entries() else s.Entries(),
                   if r.side.Buy? then s.Entries() else r.Entries())
    }

    function Flipped(): State { State(s, r, otherBest, best, free, names) }
  }

  lemma FlippedOk(a: State)
    requires a.Ok()
    ensures a.Flipped().Ok() && a.Flipped().Book() == a.Book()
  {
    FlippedCore(a);
    hide State.Core;
    FlippedBook(a);
    hide SideRep.Entries;
    hide State.Book;
  }

  lemma FlippedCore(a: State)
    requires a.Core()
    ensures a.Flipped().Core() && a.r.Placed() && a.s.Placed()
  {
    assert a.r.Placed() && a.s.Placed();
    hide SideRep.Ok;
    hide SideRep.Placed;
    hide Slots;
    hide Lookup;
    SlotsSwap(|a.r.orders|, a.r.queue, a.s.queue, a.free);
    LookupSwap(a.r.orders, a.r.queue, a.s.queue, a.names);
  }

  lemma FlippedBook(a: State)
    requires a.Core() && a.Flipped().Core()
    ensures a.Flipped().Book() == a.Book()
  {
    hide SideRep.Ok;
    hide Slots;
    hide Lookup;
    hide SideRep.Entries;
  }

  /** Two states of the same geometry whose sides differ only in r's entries. */
  lemma BookWith(a: State, b: State)
    requires a.Core() && b.Core() && b.r.side == a.r.side && b.r.minPrice == a.r.minPrice
    requires |b.r.levels| == |a.r.levels| && |b.r.orders| == |a.r.orders| && b.s.Entries() == a.s.Entries()
    ensures b.Book() == a.Book().With(a.r.side, b.r.Entries())
  {
    hide SideRep.Ok;
    hide Slots;
    hide Lookup;
  }

  /** What a consistent state says about the abstract book and about id. */
  lemma StateFacts(a: State, id: OrderId)
    requires a.Core()
    ensures a.r.Placed() && a.s.Placed()
    ensures a.Book().Orders(a.r.side) == a.r.Entries() && a.Book().Orders(a.r.side.Opposite()) == a.s.Entries()
    ensures a.Book().Active() + |a.free| == |a.r.orders| == a.Book().capacity && |a.names| <= |a.r.orders|
    ensures Below(|a.r.orders|, a.free)
    ensures id in a.names <==> a.Book().Live(id)
  {
    LiveIffNamed(a.r, a.s, a.names, id);
  }

  lemma BookIsWellFormed(a: State)
    requires a.Core()
    ensures a.Book().WellFormed()
  {
    NamedDistinct(a.r, a.s, a.names);
    StateFacts(a, 0);
    hide SideRep.Placed;
    hide Slots;
    hide Lookup;
    hide SideRep.Linked;
    hide SideRep.Headed;
    hide SideRep.Tallied;
    SideIsOk(a.r, a.Book());
    SideIsOk(a.s, a.Book());
    hide SideRep.Ok;
    hide Matcher.Book.SideOk;
    hide Distinct;
    hide Apart;
  }

  lemma SideIsOk(r: SideRep, b: Book)
    requires r.Placed() && Sorted(r.side, r.Entries())
    requires b.Orders(r.side) == r.Entries() && b.minPrice == r.minPrice && b.maxPrice == r.minPrice + |r.levels| - 1
    ensures b.SideOk(r.side)
  {
    QueuedFit(r);
    hide SideRep.Placed;
  }

  lemma QueuedFit(r: SideRep)
    requires r.Placed()
    ensures forall i :: 0 <= i < |r.Entries()| ==>
              r.Entries()[i].qty > 0 && r.minPrice <= r.Entries()[i].price <= r.minPrice + |r.levels| - 1
  {
    assert forall i :: 0 <= i < |r.Entries()| ==> r.Fits(r.At(i));
  }

  /** No orders anywhere: empty levels, and every slot free. */
  lemma EmptyStateOk(a: State)
    requires a.r.queue == [] && a.s.queue == [] && a.best == None && a.otherBest == None && a.names == map[]
    requires a.r.orders == a.s.orders && a.s.side == a.r.side.Opposite() && a.s.minPrice == a.r.minPrice
    requires |a.s.levels| == |a.r.levels| > 0 && |a.r.orders| <= NULL_ORDER_INDEX && a.r.minPrice + |a.r.levels| <= U64
    requires forall x :: 0 <= x < |a.r.levels| ==> a.r.levels[x] == EMPTY_LEVEL && a.s.levels[x] == EMPTY_LEVEL
    requires |a.free| == |a.r.orders| && forall i :: 0 <= i < |a.free| ==> a.free[i] == i
    ensures a.Ok() && a.Book() == EmptyBook(a.r.minPrice, a.r.minPrice + |a.r.levels| - 1, |a.r.orders|)
  {
    EmptyRepOk(a.r);
    EmptyRepOk(a.s);
  }

  // ---- Adding ----

  /** The side with slot idx filled, not yet queued. */
  ghost function Filled(r: SideRep, idx: OrderIndex, o: Order): SideRep
    requires idx < |r.orders|
  {
    r.(orders := r.orders[idx := o])
  }

  /** Slot idx, the top of the free stack, is filled with o, named and queued; `best` is the best price after it. */
  ghost function Added(a: State, free: seq<OrderIndex>, idx: OrderIndex, o: Order, k: nat, best: Option<Price>): State
    requires idx < |a.r.orders| && Appendable(Filled(a.r, idx, o), idx, k)
  {
    var t := AppendRep(Filled(a.r, idx, o), idx, k);
    State(t, a.s.(orders := t.orders), best, a.otherBest, free, a.names[o.orderId := idx])
  }

  lemma AddedSide(a: State, free: seq<OrderIndex>, idx: OrderIndex, o: Order, k: nat)
    requires a.Core() && a.free == free + [idx] && a.r.Fits(o)
    requires k == QueuePos(a.r.side, a.r.Entries(), o.price)
    ensures idx < |a.r.orders| && idx !in a.r.queue && idx !in a.s.queue
    ensures Appendable(Filled(a.r, idx, o), idx, k)
    ensures var t := AppendRep(Filled(a.r, idx, o), idx, k);
            && t.Ok() && t.Entries() == InsertAt(a.r.Entries(), k, EntryOf(o))
            && Filled(a.r, idx, o).ChangedOnlyAt(t.orders, idx)
  {
    assert a.free[|free|] == idx;
    SlotsInsert(|a.r.orders|, a.r.queue, a.s.queue, free, idx, k);
    OtherSlotsStay(a.r, Filled(a.r, idx, o));
    AppendKeeps(Filled(a.r, idx, o), idx, k);
  }

  lemma AddedCore(a: State, free: seq<OrderIndex>, idx: OrderIndex, o: Order, k: nat, best: Option<Price>)
    requires a.Core() && a.free == free + [idx] && a.r.Fits(o)
    requires k == QueuePos(a.r.side, a.r.Entries(), o.price)
    requires o.orderId != 0 && o.orderId !in a.names
    ensures idx < |a.r.orders| && Appendable(Filled(a.r, idx, o), idx, k)
    ensures var b := Added(a, free, idx, o, k, best);
            && b.Core()
            && b.r.Entries() == InsertAt(a.r.Entries(), k, EntryOf(o))
            && b.s.Entries() == a.s.Entries()
  {
    hide SideRep.Linked;
    hide SideRep.Headed;
    hide SideRep.Tallied;
    AddedSide(a, free, idx, o, k);
    var t := AppendRep(Filled(a.r, idx, o), idx, k);
    OtherSlotsStay(a.s, a.s.(orders := t.orders));
    hide SideRep.Placed;
    SlotsInsert(|a.r.orders|, a.r.queue, a.s.queue, free, idx, k);
    LookupInsert(a.r.orders, t.orders, a.r.queue, a.s.queue, a.names, o.orderId, idx, k);
    hide SideRep.Ok;
  }

  /** The step is the abstract `Add`. */
  lemma AddedIsAdd(a: State, free: seq<OrderIndex>, idx: OrderIndex, o: Order, k: nat, best: Option<Price>)
    requires a.Ok() && a.free == free + [idx] && a.r.Fits(o)
    requires k == QueuePos(a.r.side, a.r.Entries(), o.price)
    requires o.orderId != 0 && o.orderId !in a.names
    requires best == BestPrice(InsertAt(a.r.Entries(), k, EntryOf(o)))
    ensures idx < |a.r.orders| && Appendable(Filled(a.r, idx, o), idx, k)
    ensures var b := Added(a, free, idx, o, k, best);
            && b.Ok()
            && Add(a.Book(), o.orderId, a.r.side, o.price, o.qty) == StepResult(true, b.Book(), [])
  {
    hide SideRep.Ok;
    hide SideRep.Placed;
    hide Slots;
    hide Lookup;
    hide InsertAt;
    hide QueuePos;
    AddedCore(a, free, idx, o, k, best);
    StateFacts(a, o.orderId);
    var b := Added(a, free, idx, o, k, best);
    assert b.r.side == a.r.side && b.r.minPrice == a.r.minPrice && |b.r.levels| == |a.r.levels|;
    assert a.Book().ValidPrice(o.price);
    assert |b.r.orders| == |a.r.orders| && b.otherBest == a.otherBest && b.best == best;
    hide Added;
    BookWith(a, b);
    hide State.Core;
    hide State.Book;
  }

  // ---- Removing ----

  /** Position k is unlinked, its id forgotten and its slot freed. */
  ghost function Removed(a: State, k: nat, best: Option<Price>): State
    requires Unlinkable(a.r, k)
  {
    var t := UnlinkRep(a.r, k);
    State(t, a.s.(orders := t.orders), best, a.otherBest, a.free + [a.r.queue[k]],
          Without(a.names, a.r.orders[a.r.queue[k]].orderId))
  }

  lemma RemovedCore(a: State, k: nat, best: Option<Price>)
    requires a.Core() && k < |a.r.queue|
    ensures Unlinkable(a.r, k) && |a.free| < |a.r.orders|
    ensures a.r.orders[a.r.queue[k]].orderId in a.names && a.r.orders[a.r.queue[k]].orderId != 0
    ensures var b := Removed(a, k, best);
            && b.Core()
            && b.r.Entries() == RemoveAt(a.r.Entries(), k)
            && b.s.Entries() == a.s.Entries()
  {
    UnlinkKeeps(a.r, k);
    var t := UnlinkRep(a.r, k);
    OtherSlotsStay(a.s, a.s.(orders := t.orders));
    SlotsRemove(|a.r.orders|, a.r.queue, a.s.queue, a.free, k);
    LookupRemove(a.r.orders, t.orders, a.r.queue, a.s.queue, a.names, k);
  }

  /** The step takes exactly the order at position k out of the abstract book. */
  lemma RemovedIsRemove(a: State, k: nat, best: Option<Price>)
    requires a.Ok() && k < |a.r.queue| && best == BestPrice(RemoveAt(a.r.Entries(), k))
    ensures Unlinkable(a.r, k)
    ensures var b := Removed(a, k, best);
            && b.Ok()
            && b.Book() == a.Book().With(a.r.side, RemoveAt(a.r.Entries(), k))
  {
    hide SideRep.Ok;
    hide SideRep.Placed;
    hide Slots;
    hide Lookup;
    hide RemoveAt;
    RemovedCore(a, k, best);
    var b := Removed(a, k, best);
    assert b.r.side == a.r.side && b.r.minPrice == a.r.minPrice && |b.r.levels| == |a.r.levels|;
    assert |b.r.orders| == |a.r.orders| && b.otherBest == a.otherBest && b.best == best;
    hide Removed;
    BookWith(a, b);
    hide State.Core;
    hide State.Book;
  }

  /**
   A best price that may be stale: right as long as the level of p still has orders or was not the
   best; otherwise every order left is worse than p.
   */
  ghost predicate StaleBest(side: Side, best: Option<Price>, p: Price, s: seq<Entry>) {
    if CountAt(s, p) > 0 || best != Some(p) then best == BestPrice(s)
    else forall i :: 0 <= i < |s| ==> Better(side, p, s[i].price)
  }

  lemma BestAfterRemove(side: Side, s: seq<Entry>, k: nat)
    requires Sorted(side, s) && k < |s|
    ensures StaleBest(side, BestPrice(s), s[k].price, RemoveAt(s, k))
  {
    var t, p := RemoveAt(s, k), s[k].price;
    RemoveIndices(s, k);
    CountWitness(t, p);
    if CountAt(t, p) > 0 {
      var i :| 0 <= i < |t| && t[i].price == p;
      assert k == 0 ==> !Better(side, t[0].price, s[0].price) && (i == 0 || !Better(side, t[i].price, t[0].price));
    } else if BestPrice(s) == Some(p) {
      forall i | 0 <= i < |t| ensures Better(side, p, t[i].price) {
        var j := if i < k then i else i + 1;
        assert t[i] == s[j];
        assert j == 0 || !Better(side, s[j].price, s[0].price);
      }
    }
  }

  /** The level headers count the orders of s, price by price, and s has its prices in range. */
  ghost predicate HeadersCount(levels: seq<PriceLevel>, minPrice: Price, s: seq<Entry>) {
    && (forall x :: 0 <= x < |levels| ==> minPrice + x < U64 && levels[x].orderCount == CountAt(s, minPrice + x))
    && (forall i :: 0 <= i < |s| ==> minPrice <= s[i].price < minPrice + |levels|)
  }

  lemma OkHeadersCount(r: SideRep)
    requires r.Ok()
    ensures HeadersCount(r.levels, r.minPrice, r.Entries()) && Sorted(r.side, r.Entries())
  {
    QueuedFit(r);
    forall x | 0 <= x < |r.levels|
      ensures r.minPrice + x < U64 && r.levels[x].orderCount == CountAt(r.Entries(), r.minPrice + x)
    {
      assert LevelTallied(r.levels[x], r.Entries(), r.minPrice + x);
    }
  }

  /** The order at position k, as `remove_order_by_index` reads it. */
  lemma RemovableOrder(a: State, k: nat)
    requires a.Core() && k < |a.r.queue|
    ensures Unlinkable(a.r, k) && a.r.Placed() && |a.free| < |a.r.orders|
    ensures var o := a.r.orders[a.r.queue[k]];
            && o.orderId in a.names && o.orderId != 0
            && o.side == a.r.side && a.r.minPrice <= o.price < a.r.minPrice + |a.r.levels|
            && o.price == a.r.Entries()[k].price
  {
    RemovedCore(a, k, a.best);
    assert a.r.Fits(a.r.At(k));
  }

  /** The levels and the stale best price that the refresh then starts from. */
  lemma LevelsAfterRemove(a: State, k: nat)
    requires a.Ok() && k < |a.r.queue|
    ensures a.r.Placed() && Unlinkable(a.r, k)
    ensures var s := RemoveAt(a.r.Entries(), k);
            && Sorted(a.r.side, s)
            && HeadersCount(Removed(a, k, a.best).r.levels, a.r.minPrice, s)
            && StaleBest(a.r.side, a.best, a.r.Entries()[k].price, s)
  {
    RemovedCore(a, k, a.best);
    BestAfterRemove(a.r.side, a.r.Entries(), k);
    OkHeadersCount(Removed(a, k, a.best).r);
    hide HeadersCount;
    hide StaleBest;
    hide Sorted;
    hide SideRep.Ok;
    hide SideRep.Placed;
    hide Slots;
    hide Lookup;
  }

  // ---- Finding by id ----

  /** A named id sits at its slot's position, on the side that queues the slot. */
  lemma FindNamed(a: State, id: OrderId) returns (own: bool, k: nat)
    requires a.Core() && id in a.names
    ensures var r := if own then a.r else a.s;
            && k < |r.queue| && r.queue[k] == a.names[id]
            && r.Placed() && IndexOf(r.Entries(), id) == k
    ensures !own ==> a.r.Placed() && !HasId(a.r.Entries(), id)
  {
    own := a.names[id] in a.r.queue;
    var r := if own then a.r else a.s;
    k :| 0 <= k < |r.queue| && r.queue[k] == a.names[id];
    NamedPosition(r, a.names, k);
    assert HasId(a.r.Entries(), id) ==> a.r.At(IndexOf(a.r.Entries(), id)).orderId == id;
  }

  // ---- Partial fills ----

  ghost function Reduced(a: State, k: nat, traded: Quantity): State
    requires a.r.Placed() && k < |a.r.queue| && traded < a.r.At(k).qty
  {
    var t := ReduceRep(a.r, k, traded);
    State(t, a.s.(orders := t.orders), a.best, a.otherBest, a.free, a.names)
  }

  lemma ReducedCore(a: State, k: nat, traded: Quantity)
    requires a.Core() && k < |a.r.queue| && traded < a.r.At(k).qty
    ensures var b := Reduced(a, k, traded);
            var e := a.r.Entries()[k];
            && b.Core()
            && b.r.Entries() == a.r.Entries()[k := e.(qty := e.qty - traded)]
            && b.s.Entries() == a.s.Entries()
  {
    hide SideRep.Linked;
    hide SideRep.Headed;
    hide SideRep.Tallied;
    ReduceKeeps(a.r, k, traded);
    var t := ReduceRep(a.r, k, traded);
    OtherSlotsStay(a.s, a.s.(orders := t.orders));
    LookupSame(a.r.orders, t.orders, a.r.queue, a.s.queue, a.names);
    assert t.queue == a.r.queue && |t.orders| == |a.r.orders| && |t.levels| == |a.r.levels|;
    hide LevelQueues.ReduceRep;
    hide SideRep.Placed;
    hide SideRep.Ok;
  }

  /** The step takes the traded quantity off that one order of the abstract book. */
  lemma ReducedIsReduce(a: State, k: nat, traded: Quantity)
    requires a.Ok() && k < |a.r.queue| && traded < a.r.At(k).qty
    ensures var b := Reduced(a, k, traded);
            var e := a.r.Entries()[k];
            && b.Ok()
            && b.Book() == a.Book().With(a.r.side, a.r.Entries()[k := e.(qty := e.qty - traded)])
  {
    ReducedCore(a, k, traded);
    ReducedBest(a.r.Entries(), k, a.r.Entries()[k].qty - traded);
    BookWith(a, Reduced(a, k, traded));
    hide SideRep.Ok;
    hide Slots;
    hide Lookup;
  }

  lemma ReducedBest(s: seq<Entry>, k: nat, qty: Quantity)
    requires k < |s|
    ensures BestPrice(s[k := s[k].(qty := qty)]) == BestPrice(s)
  {}

  /** A non-empty level with nothing better on its side is headed by the order with the highest priority. */
  lemma HeadIsFront(a: State, price: Price)
    requires a.Ok() && a.r.minPrice <= price < a.r.minPrice + |a.r.levels|
    requires a.r.levels[price - a.r.minPrice].orderCount > 0
    requires a.r.Placed() && NoneBetter(a.r.side, a.r.Entries(), price)
    ensures a.r.queue != [] && a.r.queue[0] < |a.r.orders|
    ensures a.r.levels[price - a.r.minPrice].head == a.r.queue[0]
    ensures var o := a.r.orders[a.r.queue[0]];
            o.price == price && o.qty > 0 && a.r.Entries()[0] == EntryOf(o)
  {
    hide SideRep.Linked;
    hide Slots;
    hide Lookup;
    var s := a.r.Entries();
    assert LevelTallied(a.r.levels[price - a.r.minPrice], s, a.r.minPrice + (price - a.r.minPrice));
    CountWitness(s, price);
    var i :| 0 <= i < |s| && s[i].price == price;
    assert i == 0 || !Better(a.r.side, s[i].price, s[0].price);
    assert s[0].price == price && a.r.At(0).price == price && a.r.Fits(a.r.At(0));
    assert a.r.First(0);
  }

  /** The best price heads a non-empty level, and no order is better. */
  lemma BestLevelNotEmpty(a: State)
    requires a.Ok() && a.best.Some?
    ensures a.r.Placed() && a.r.minPrice <= a.best.value < a.r.minPrice + |a.r.levels|
    ensures a.r.levels[a.best.value - a.r.minPrice].orderCount > 0
    ensures a.r.Entries() != [] && a.r.Entries()[0].price == a.best.value
    ensures NoneBetter(a.r.side, a.r.Entries(), a.best.value)
  {
    hide SideRep.Linked;
    hide SideRep.Headed;
    hide Slots;
    hide Lookup;
    LevelNotEmpty(a.r, 0);
    assert a.r.Entries()[0].price == a.r.At(0).price && a.r.Fits(a.r.At(0));
  }

  // ---- Level ends ----

  lemma {:induction false} FrontIdIs(s: seq<Entry>, price: Price, i: nat)
    requires i < |s| && s[i].price == price && forall j :: 0 <= j < i ==> s[j].price != price
    ensures FrontIdAt(s, price) == Some(s[i].id)
  {
    if i > 0 { FrontIdIs(s[1..], price, i - 1); }
  }

  lemma {:induction false} BackIdIs(s: seq<Entry>, price: Price, i: nat)
    requires i < |s| && s[i].price == price && forall j :: i < j < |s| ==> s[j].price != price
    ensures BackIdAt(s, price) == Some(s[i].id)
  {
    if i + 1 < |s| { BackIdIs(s[..|s| - 1], price, i); }
  }

  lemma {:induction false} NoFront(s: seq<Entry>, price: Price)
    requires forall j :: 0 <= j < |s| ==> s[j].price != price
    ensures FrontIdAt(s, price) == None
  {
    if s != [] { NoFront(s[1..], price); }
  }

  lemma {:induction false} NoBack(s: seq<Entry>, price: Price)
    requires forall j :: 0 <= j < |s| ==> s[j].price != price
    ensures BackIdAt(s, price) == None
  {
    if s != [] { NoBack(s[..|s| - 1], price); }
  }

  lemma {:induction false} LastAt(s: seq<Entry>, price: Price) returns (i: nat)
    requires CountAt(s, price) > 0
    ensures i < |s| && s[i].price == price && forall j :: i < j < |s| ==> s[j].price != price
  {
    var most, last := s[..|s| - 1], s[|s| - 1];
    i := |s| - 1;
    if last.price != price {
      assert s == most + [last];
      CountSumConcat(most, [last], price);
      i := LastAt(most, price);
      assert forall j :: 0 <= j < |most| ==> most[j] == s[j];
    }
  }

  /** The ends of a level are the earliest and latest orders of its price, and null exactly when it is empty. */
  lemma LevelEnds(a: State, price: Price)
    requires a.Core() && a.r.minPrice <= price < a.r.minPrice + |a.r.levels|
    ensures a.r.Placed()
    ensures var l, s := a.r.levels[price - a.r.minPrice], a.r.Entries();
            && l.orderCount == CountAt(s, price) && l.totalQty == SumAt(s, price) % U64
            && (l.head == NULL_ORDER_INDEX ==> FrontIdAt(s, price) == None)
            && (l.tail == NULL_ORDER_INDEX ==> BackIdAt(s, price) == None)
            && (l.head != NULL_ORDER_INDEX ==>
                  l.head < |a.r.orders| && FrontIdAt(s, price) == Some(a.r.orders[l.head].orderId))
            && (l.tail != NULL_ORDER_INDEX ==>
                  l.tail < |a.r.orders| && BackIdAt(s, price) == Some(a.r.orders[l.tail].orderId))
  {
    hide SideRep.Linked;
    hide SideRep.Headed;
    hide SideRep.Tallied;
    hide SideRep.Placed;
    hide Slots;
    hide Lookup;
    hide CountAt;
    hide SumAt;
    hide FrontIdAt;
    hide BackIdAt;
    var r, s := a.r, a.r.Entries();
    TalliedAt(r, price);
    CountWitness(s, price);
    if r.levels[price - r.minPrice].orderCount == 0 {
      NoFront(s, price);
      NoBack(s, price);
    } else {
      var i := FirstAt(s, price);
      var j := LastAt(s, price);
      FrontIdIs(s, price, i);
      BackIdIs(s, price, j);
      EndsAt(r, i);
      EndsAt(r, j);
      assert r.First(i) && r.Last(j);
    }
  }

  lemma TalliedAt(r: SideRep, price: Price)
    requires r.Placed() && r.Tallied() && r.minPrice <= price < r.minPrice + |r.levels|
    ensures LevelTallied(r.levels[price - r.minPrice], r.Entries(), price)
  {
    assert LevelTallied(r.levels[price - r.minPrice], r.Entries(), r.minPrice + (price - r.minPrice));
    hide SideRep.Tallied;
    hide SideRep.Placed;
  }

  /** The level ends at position i, and the slot there. */
  lemma EndsAt(r: SideRep, i: nat)
    requires r.Placed() && r.Linked() && r.Headed() && i < |r.queue|
    ensures PositionOk(r, i) && r.queue[i] < |r.orders| <= NULL_ORDER_INDEX && r.Entries()[i] == EntryOf(r.At(i))
  {
    PositionIs(r, i);
    hide SideRep.Linked;
    hide SideRep.Headed;
  }
}
