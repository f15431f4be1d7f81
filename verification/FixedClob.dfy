/**
 FixedClob: the fixed-capacity limit order book. Its pool, price levels, id lookup and cached best
 prices are updated in place; every operation is proved to do to the abstract book exactly what the
 matching functions say.
 */
module FixedClob {
  import opened Types
  import opened Bits
  import opened Matcher
  import opened MatchingLaws
  import opened LevelQueues
  import opened LevelWalk
  import opened SlotLedger
  import opened ClobState
  import opened OrderIndexTable
  import opened OrderPool
  import opened ExecutionSink

  /** The writes of `append_to_level`; x is the position of the level. */
  method LinkAtTail(orders: array<Order>, levels: array<PriceLevel>, x: nat, idx: OrderIndex)
    requires idx < orders.Length && x < levels.Length && (levels[x].orderCount != 0 ==> levels[x].tail < orders.Length)
    modifies orders, levels
    ensures orders[..] == Appended(old(orders[..]), old(levels[x]), idx)
    ensures levels[..] == old(levels[..])[x := AppendedLevel(old(levels[x]), idx, old(orders[idx].qty))]
  {
    var qty := orders[idx].qty;
    if levels[x].orderCount == 0 {
      levels[x] := levels[x].(head := idx, tail := idx);
      orders[idx] := orders[idx].(prev := NULL_ORDER_INDEX, next := NULL_ORDER_INDEX);
    } else {
      var tail := levels[x].tail;
      orders[tail] := orders[tail].(next := idx);
      orders[idx] := orders[idx].(prev := tail, next := NULL_ORDER_INDEX);
      levels[x] := levels[x].(tail := idx);
    }
    levels[x] := levels[x].(totalQty := AddWrap(levels[x].totalQty, qty), orderCount := levels[x].orderCount + 1);
  }

  /** The writes of `unlink_from_level`. */
  method LinkPast(orders: array<Order>, levels: array<PriceLevel>, x: nat, idx: OrderIndex)
    requires idx < orders.Length && x < levels.Length && levels[x].orderCount > 0
    requires var o := orders[idx];
             && (o.prev != NULL_ORDER_INDEX ==> o.prev < orders.Length) && o.prev != idx
             && (o.next != NULL_ORDER_INDEX ==> o.next < orders.Length) && o.next != idx
    modifies orders, levels
    ensures orders[..] == Unlinked(old(orders[..]), idx)
    ensures levels[..] == old(levels[..])[x := UnlinkedLevel(old(levels[x]), old(orders[idx]))]
  {
    var prev, next := orders[idx].prev, orders[idx].next;
    if prev != NULL_ORDER_INDEX {
      orders[prev] := orders[prev].(next := next);
    } else {
      levels[x] := levels[x].(head := next);
    }
    if next != NULL_ORDER_INDEX {
      orders[next] := orders[next].(prev := prev);
    } else {
      levels[x] := levels[x].(tail := prev);
    }
    orders[idx] := orders[idx].(prev := NULL_ORDER_INDEX, next := NULL_ORDER_INDEX);
    levels[x] := levels[x].(totalQty := SubWrap(levels[x].totalQty, orders[idx].qty),
                            orderCount := levels[x].orderCount - 1);
  }

  class Clob {
    const minPrice: Price
    const maxPrice: Price
    const pool: Pool
    const bidLevels: array<PriceLevel>
    const askLevels: array<PriceLevel>
    const lookup: FixedOrderIndex
    var bestBid: Option<Price>
    var bestAsk: Option<Price>

    /** The slots of each side in matching priority. */
    ghost var bids: seq<OrderIndex>
    ghost var asks: seq<OrderIndex>

    ghost function Objects(): set<object> {
      {this, bidLevels, askLevels, pool, pool.orders, pool.freeStack,
       lookup, lookup.keys, lookup.values, lookup.states}
    }

    ghost predicate OutsideLookup(o: object) {
      o != lookup && o != lookup.keys && o != lookup.values && o != lookup.states
    }

    ghost predicate Shape() {
      && minPrice <= maxPrice
      && bidLevels.Length == askLevels.Length == maxPrice - minPrice + 1
      && pool.orders.Length == pool.freeStack.Length <= NULL_ORDER_INDEX
      && lookup.Capacity() == 2 * pool.Capacity()
      && bidLevels != askLevels
      && pool.orders as object != bidLevels && pool.orders as object != askLevels
      && pool.freeStack as object != bidLevels && pool.freeStack as object != askLevels
      && pool.freeStack as object != pool.orders
      && OutsideLookup(bidLevels) && OutsideLookup(askLevels)
      && OutsideLookup(pool.orders) && OutsideLookup(pool.freeStack) && OutsideLookup(this) && OutsideLookup(pool)
    }

    function Levels(side: Side): array<PriceLevel> { if side.Buy? then bidLevels else askLevels }

    ghost function Queue(side: Side): seq<OrderIndex>
      reads this
    {
      if side.Buy? then bids else asks
    }

    function Best(side: Side): Option<Price>
      reads this
    {
      if side.Buy? then bestBid else bestAsk
    }

    ghost function Rep(side: Side): SideRep
      reads this, pool.orders, Levels(side)
    {
      SideRep(side, minPrice, pool.orders[..], Levels(side)[..], Queue(side))
    }

    predicate ValidPrice(price: Price) { minPrice <= price <= maxPrice }

    /**
     The representation invariant. Every pool slot is free or in exactly one level queue; the queues
     are linked, headed and tallied; the cached best prices are the best prices; and the lookup maps
     exactly the live ids to their slots.
     */
    ghost predicate Valid()
      reads Objects()
    {
      Shape() && pool.Valid() && lookup.Valid() && View(Buy).Ok()
    }

    /** The representation seen from one side. */
    ghost function View(side: Side): State
      requires Shape() && pool.Valid()
      reads this, pool, pool.orders, pool.freeStack, bidLevels, askLevels, lookup
    {
      State(Rep(side), Rep(side.Opposite()), Best(side), Best(side.Opposite()), pool.Free(), lookup.contents)
    }

    /** The abstract book that the structure represents. */
    ghost function Book(): Book
      requires Valid()
      reads Objects()
    {
      View(Buy).Book()
    }

    lemma ViewsAgree(side: Side)
      requires Shape() && pool.Valid()
      ensures View(Buy).Ok() <==> View(side).Ok()
      ensures View(Buy).Ok() ==> View(side).Book() == View(Buy).Book()
    {
      if View(Buy).Ok() { FlippedOk(View(Buy)); }
      if View(Sell).Ok() { FlippedOk(View(Sell)); }
      hide State.Core;
    }

    /** What a valid structure offers, seen from either side... */
    lemma Opens(side: Side)
      requires Valid()
      ensures Shape() && pool.Valid() && lookup.Valid()
      ensures View(side).Ok() && View(side).Book() == Book()
      ensures Rep(side).Placed() && Book().Orders(side) == Rep(side).Entries()
    {
      hide State.Core;
      hide State.Book;
      hide SideRep.Ok;
      hide SideRep.Placed;
      hide FixedOrderIndex.Valid;
      ViewsAgree(side);
      StateFacts(View(side), 0);
    }

    /** ...and what it takes to be one again. */
    lemma Closes(side: Side)
      requires Shape() && pool.Valid() && lookup.Valid() && View(side).Ok()
      ensures Valid() && Book() == View(side).Book()
    {
      hide State.Core;
      hide State.Book;
      hide FixedOrderIndex.Valid;
      ViewsAgree(side);
    }

    /** A new structure is valid and empty. */
    lemma EmptyIsValid()
      requires Shape() && pool.Valid() && lookup.Valid() && lookup.contents == map[]
      requires bids == [] && asks == [] && bestBid == None && bestAsk == None
      requires forall x :: 0 <= x < bidLevels.Length ==> bidLevels[x] == EMPTY_LEVEL && askLevels[x] == EMPTY_LEVEL
      requires |pool.Free()| == pool.Capacity() && forall i :: 0 <= i < |pool.Free()| ==> pool.Free()[i] == i
      ensures Valid() && Book() == EmptyBook(minPrice, maxPrice, pool.Capacity())
    {
      hide SideRep.Ok;
      hide Slots;
      hide Lookup;
      hide IsPow2;
      hide FixedOrderIndex.Valid;
      EmptyStateOk(View(Buy));
      hide State.Core;
    }

    constructor (maxOrders: nat, minPrice: Price, maxPrice: Price, hash: OrderId -> u64)
      requires IsPow2(maxOrders) && maxOrders <= NULL_ORDER_INDEX
      requires minPrice <= maxPrice && maxPrice - minPrice + 1 < U64
      ensures Valid() && fresh(bidLevels) && fresh(askLevels) && fresh(pool.Objects()) && fresh(lookup.Objects())
      ensures this.minPrice == minPrice && this.maxPrice == maxPrice
      ensures Book() == EmptyBook(minPrice, maxPrice, maxOrders)
    {
      hide IsPow2;
      hide MaskedHome;
      hide Pool.Free;
      hide FixedOrderIndex.Valid;
      hide Clob.Valid;
      hide Clob.Book;
      hide State.Ok;
      DoublePow2(maxOrders);
      this.minPrice, this.maxPrice := minPrice, maxPrice;
      pool := new Pool(maxOrders);
      bidLevels := new PriceLevel[maxPrice - minPrice + 1](_ => EMPTY_LEVEL);
      askLevels := new PriceLevel[maxPrice - minPrice + 1](_ => EMPTY_LEVEL);
      lookup := new FixedOrderIndex(2 * maxOrders, hash);
      bestBid, bestAsk := None, None;
      bids, asks := [], [];
      new;
      assert Shape();
      hide Clob.Shape;
      hide Pool.Valid;
      EmptyIsValid();
    }

    /** What the pool and the lookup of a valid structure say of the abstract book. */
    lemma Tells(id: OrderId)
      requires Valid()
      ensures pool.Valid() && lookup.Valid()
      ensures var b := Book();
              && b.minPrice == minPrice && b.maxPrice == maxPrice && b.capacity == pool.Capacity()
              && b.Active() + |pool.Free()| == pool.Capacity() && |lookup.contents| <= pool.Capacity()
              && Below(pool.Capacity(), pool.Free())
              && (id in lookup.contents <==> b.Live(id))
    {
      hide SideRep.Ok;
      hide SideRep.Placed;
      hide Slots;
      hide Lookup;
      hide FixedOrderIndex.Valid;
      StateFacts(View(Buy), id);
    }

    /** So every law of the abstract book holds of the book that the structure represents. */
    lemma BookWellFormed()
      requires Valid()
      ensures Book().WellFormed()
    {
      BookIsWellFormed(View(Buy));
    }

    // ---- Level queues ----

    /** The representation becomes what AppendRep says: the writes, and the order's place in the priority sequence. */
    method AppendToLevel(side: Side, price: Price, idx: OrderIndex, ghost k: nat)
      requires Shape() && Appendable(Rep(side), idx, k) && pool.orders[idx].price == price
      modifies this`bids, this`asks, pool.orders, Levels(side)
      ensures Rep(side) == AppendRep(old(Rep(side)), idx, k)
      ensures Rep(side.Opposite()) == old(Rep(side.Opposite())).(orders := Rep(side).orders)
    {
      if side.Buy? { bids := InsertAt(bids, k, idx); } else { asks := InsertAt(asks, k, idx); }
      LinkAtTail(pool.orders, Levels(side), price - minPrice, idx);
    }

    method UnlinkFromLevel(side: Side, price: Price, idx: OrderIndex, ghost k: nat)
      requires Shape() && Unlinkable(Rep(side), k) && Queue(side)[k] == idx && pool.orders[idx].price == price
      modifies this`bids, this`asks, pool.orders, Levels(side)
      ensures Rep(side) == UnlinkRep(old(Rep(side)), k)
      ensures Rep(side.Opposite()) == old(Rep(side.Opposite())).(orders := Rep(side).orders)
    {
      if side.Buy? { bids := RemoveAt(bids, k); } else { asks := RemoveAt(asks, k); }
      LinkPast(pool.orders, Levels(side), price - minPrice, idx);
    }

    method ReduceOrderQuantity(side: Side, price: Price, idx: OrderIndex, traded: Quantity, ghost k: nat)
      requires Shape() && Rep(side).Placed() && k < |Queue(side)| && Queue(side)[k] == idx
      requires pool.orders[idx].price == price && pool.orders[idx].qty > traded
      modifies pool.orders, Levels(side)
      ensures Rep(side) == ReduceRep(old(Rep(side)), k, traded)
      ensures Rep(side.Opposite()) == old(Rep(side.Opposite())).(orders := Rep(side).orders)
    {
      var levels, x := Levels(side), price - minPrice;
      pool.orders[idx] := pool.orders[idx].(qty := pool.orders[idx].qty - traded);
      levels[x] := levels[x].(totalQty := SubWrap(levels[x].totalQty, traded));
    }

    // ---- Best prices ----

    method UpdateBestAfterAdd(side: Side, price: Price, ghost s: seq<Entry>, ghost e: Entry)
      requires Best(side) == BestPrice(s) && e.price == price
      modifies this`bestBid, this`bestAsk
      ensures Best(side) == BestPrice(InsertAt(s, QueuePos(side, s, price), e))
      ensures Best(side.Opposite()) == old(Best(side.Opposite()))
    {
      if side.Buy? {
        if bestBid.None? || price > bestBid.value {
          bestBid := Some(price);
        }
      } else {
        if bestAsk.None? || price < bestAsk.value {
          bestAsk := Some(price);
        }
      }
    }

    /** The scan that repairs the best price when its level has emptied; any other emptied level leaves it alone. */
    method RefreshBestAfterEmptyLevel(side: Side, emptied: Price, ghost s: seq<Entry>)
      requires Shape() && ValidPrice(emptied) && HeadersCount(Levels(side)[..], minPrice, s) && Sorted(side, s)
      requires if Best(side) == Some(emptied) then forall i :: 0 <= i < |s| ==> Better(side, emptied, s[i].price)
               else Best(side) == BestPrice(s)
      modifies this`bestBid, this`bestAsk
      ensures Best(side) == BestPrice(s)
      ensures Best(side.Opposite()) == old(Best(side.Opposite()))
    {
      var price := emptied;
      if side.Buy? {
        if bestBid.None? || price != bestBid.value {
          return;
        }
        while price > minPrice
          invariant minPrice <= price <= maxPrice && bestAsk == old(bestAsk)
          invariant forall i :: 0 <= i < |s| ==> s[i].price < price
        {
          price := price - 1;
          CountWitness(s, price);
          assert Levels(side)[..][price - minPrice].orderCount == CountAt(s, minPrice + (price - minPrice));
          if bidLevels[price - minPrice].orderCount != 0 {
            bestBid := Some(price);
            return;
          }
        }
        bestBid := None;
      } else {
        if bestAsk.None? || price != bestAsk.value {
          return;
        }
        while price < maxPrice
          invariant minPrice <= price <= maxPrice && bestBid == old(bestBid)
          invariant forall i :: 0 <= i < |s| ==> s[i].price > price
        {
          price := price + 1;
          CountWitness(s, price);
          assert Levels(side)[..][price - minPrice].orderCount == CountAt(s, minPrice + (price - minPrice));
          if askLevels[price - minPrice].orderCount != 0 {
            bestAsk := Some(price);
            return;
          }
        }
        bestAsk := None;
      }
    }

    // ---- Adding and removing orders ----

    /** Takes a slot and names it, or takes nothing: a slot whose id is refused goes straight back. */
    method AllocateNamed(orderId: OrderId, ghost a: State) returns (slot: Option<OrderIndex>)
      requires Shape() && pool.Valid() && lookup.Valid()
      requires a.free == pool.Free() && a.names == lookup.contents && |a.names| <= pool.Capacity() == |a.r.orders|
      requires Below(pool.Capacity(), a.free)
      requires a.free != [] ==> orderId != 0
      modifies pool`top, pool.freeStack, lookup, lookup.keys, lookup.values, lookup.states
      ensures pool.Valid() && lookup.Valid()
      ensures slot.None? <==> a.free == [] || orderId in a.names
      ensures slot.None? ==> pool.Free() == a.free && lookup.contents == a.names
      ensures slot.Some? ==> pool.Free() + [slot.value] == a.free && lookup.contents == a.names[orderId := slot.value]
    {
      slot := pool.Allocate();
      if slot.Some? {
        assert a.free[|a.free| - 1] == slot.value;
        var inserted := lookup.Insert(orderId, slot.value);
        if !inserted {
          pool.Release(slot.value);
          slot := None;
        }
      }
    }

    /** The same, seen from the side that the order is for. */
    method TakeSlot(orderId: OrderId, ghost side: Side, ghost a: State) returns (slot: Option<OrderIndex>)
      requires Shape() && pool.Valid() && lookup.Valid() && a == View(side)
      requires |a.names| <= pool.Capacity() && Below(pool.Capacity(), a.free) && (a.free != [] ==> orderId != 0)
      modifies pool`top, pool.freeStack, lookup, lookup.keys, lookup.values, lookup.states
      ensures pool.Valid() && lookup.Valid()
      ensures slot.None? <==> a.free == [] || orderId in a.names
      ensures slot.None? ==> View(side) == a
      ensures slot.Some? ==> pool.Free() + [slot.value] == a.free
                             && View(side) == a.(free := pool.Free(), names := a.names[orderId := slot.value])
    {
      hide FixedOrderIndex.Valid;
      hide Below;
      slot := AllocateNamed(orderId, a);
    }

    method FillAndAppend(orderId: OrderId, side: Side, price: Price, qty: Quantity, idx: OrderIndex,
                         ghost o: Order, ghost k: nat)
      requires Shape() && idx < pool.Capacity()
      requires o == pool.orders[idx].(orderId := orderId, price := price, qty := qty, side := side)
      requires Appendable(Filled(Rep(side), idx, o), idx, k)
      modifies this`bids, this`asks, pool.orders, Levels(side)
      ensures Rep(side) == AppendRep(Filled(old(Rep(side)), idx, o), idx, k)
      ensures Rep(side.Opposite()) == old(Rep(side.Opposite())).(orders := Rep(side).orders)
    {
      pool.orders[idx] := pool.orders[idx].(orderId := orderId, price := price, qty := qty, side := side);
      assert Rep(side) == Filled(old(Rep(side)), idx, o);
      AppendToLevel(side, price, idx, k);
    }

    /** Fills a named slot, queues it at its level and repairs the best price. */
    method RestOrder(orderId: OrderId, side: Side, price: Price, qty: Quantity, idx: OrderIndex, ghost a: State)
      requires Shape() && pool.Valid() && ValidPrice(price) && qty > 0
      requires a.Ok() && View(side) == a.(free := pool.Free(), names := a.names[orderId := idx])
      requires pool.Free() + [idx] == a.free && orderId != 0 && orderId !in a.names
      modifies this, pool.orders, Levels(side)
      ensures View(side).Ok()
      ensures Add(a.Book(), orderId, side, price, qty) == StepResult(true, View(side).Book(), [])
    {
      hide State.Core;
      hide State.Book;
      hide SideRep.Ok;
      hide SideRep.Placed;
      hide LevelQueues.AppendRep;
      hide Appendable;
      hide QueuePos;
      hide InsertAt;
      hide Filled;
      hide Matcher.Add;
      StateFacts(a, orderId);
      assert a.free[|a.free| - 1] == idx;
      ghost var s := a.r.Entries();
      ghost var k := QueuePos(side, s, price);
      ghost var o := pool.orders[idx].(orderId := orderId, price := price, qty := qty, side := side);
      ghost var best := BestPrice(InsertAt(s, k, EntryOf(o)));
      AddedIsAdd(a, pool.Free(), idx, o, k, best);
      FillAndAppend(orderId, side, price, qty, idx, o, k);
      UpdateBestAfterAdd(side, price, s, EntryOf(o));
      hide Clob.Rep;
      assert View(side) == Added(a, pool.Free(), idx, o, k, best);
    }

    method AddOrder(orderId: OrderId, side: Side, price: Price, qty: Quantity) returns (ok: bool)
      requires Valid()
      requires qty > 0 && ValidPrice(price) && Book().Active() < Book().capacity ==> orderId != 0
      modifies Objects()
      ensures Valid()
      ensures StepResult(ok, Book(), []) == Add(old(Book()), orderId, side, price, qty)
    {
      hide Clob.Valid;
      hide Clob.Book;
      hide State.Ok;
      hide State.Book;
      hide FixedOrderIndex.Valid;
      hide Below;
      hide Matcher.Add;
      Opens(side);
      Tells(orderId);
      AddRefused(Book(), orderId, side, price, qty);
      ghost var a := View(side);
      if qty == 0 || !ValidPrice(price) {
        return false;
      }
      var slot := TakeSlot(orderId, side, a);
      if slot.None? {
        Closes(side);
        return false;
      }
      label named:
      RestOrder(orderId, side, price, qty, slot.value, a);
      assert forall o :: o in lookup.Objects() ==> unchanged@named(o);
      Closes(side);
      return true;
    }

    /** The id leaves the lookup and the slot returns to the pool; the queues do not notice. */
    method Forget(orderId: OrderId, idx: OrderIndex)
      requires Shape() && pool.Valid() && lookup.Valid()
      requires orderId != 0 && idx < pool.Capacity() && |pool.Free()| < pool.Capacity()
      modifies pool`top, pool.freeStack, lookup, lookup.keys, lookup.values, lookup.states
      ensures pool.Valid() && lookup.Valid()
      ensures pool.Free() == old(pool.Free()) + [idx]
      ensures lookup.contents == if orderId in old(lookup.contents) then Without(old(lookup.contents), orderId)
                                 else old(lookup.contents)
      ensures Rep(Buy) == old(Rep(Buy)) && Rep(Sell) == old(Rep(Sell))
    {
      hide FixedOrderIndex.Valid;
      var erased := lookup.Erase(orderId);
      label forgotten:
      pool.Release(idx);
      assert forall o :: o in lookup.Objects() ==> unchanged@forgotten(o);
    }

    /** Takes position k out of its level, the lookup and the pool; the best price is repaired afterwards. */
    method Detach(side: Side, price: Price, idx: OrderIndex, ghost k: nat, ghost a: State)
      requires Shape() && pool.Valid() && lookup.Valid() && a == View(side)
      requires Unlinkable(a.r, k) && a.r.queue[k] == idx && a.r.orders[idx].price == price
      requires a.r.orders[idx].orderId in a.names && a.r.orders[idx].orderId != 0 && |a.free| < pool.Capacity()
      modifies this`bids, this`asks, pool`top, pool.orders, pool.freeStack, Levels(side),
               lookup, lookup.keys, lookup.values, lookup.states
      ensures pool.Valid() && lookup.Valid()
      ensures View(side) == Removed(a, k, a.best)
    {
      hide FixedOrderIndex.Valid;
      var orderId := pool.orders[idx].orderId;
      assert a.r == Rep(side) && a.s == Rep(side.Opposite());
      assert pool.orders[idx] == a.r.orders[idx];
      UnlinkFromLevel(side, price, idx, k);
      assert forall o :: o in lookup.Objects() ==> unchanged(o);
      hide Clob.Rep;
      hide LevelQueues.UnlinkRep;
      Forget(orderId, idx);
    }

    method RefreshIfEmpty(side: Side, price: Price, ghost s: seq<Entry>)
      requires Shape() && ValidPrice(price) && HeadersCount(Levels(side)[..], minPrice, s) && Sorted(side, s)
      requires StaleBest(side, Best(side), price, s)
      modifies this`bestBid, this`bestAsk
      ensures Best(side) == BestPrice(s)
      ensures Best(side.Opposite()) == old(Best(side.Opposite()))
    {
      assert Levels(side)[..][price - minPrice].orderCount == CountAt(s, minPrice + (price - minPrice));
      if Levels(side)[price - minPrice].orderCount == 0 {
        RefreshBestAfterEmptyLevel(side, price, s);
      }
    }

    method DetachAndRefresh(side: Side, price: Price, idx: OrderIndex,
                            ghost k: nat, ghost a: State, ghost s: seq<Entry>)
      requires Shape() && pool.Valid() && lookup.Valid() && a == View(side) && ValidPrice(price)
      requires Unlinkable(a.r, k) && a.r.queue[k] == idx && a.r.orders[idx].price == price
      requires a.r.orders[idx].orderId in a.names && a.r.orders[idx].orderId != 0 && |a.free| < pool.Capacity()
      requires Sorted(side, s) && HeadersCount(Removed(a, k, a.best).r.levels, minPrice, s)
      requires StaleBest(side, a.best, price, s)
      modifies Objects()
      ensures pool.Valid() && lookup.Valid()
      ensures View(side) == Removed(a, k, BestPrice(s))
    {
      hide FixedOrderIndex.Valid;
      hide HeadersCount;
      hide StaleBest;
      hide Sorted;
      Detach(side, price, idx, k, a);
      label detached:
      RefreshIfEmpty(side, price, s);
      assert forall o :: o in lookup.Objects() ==> unchanged@detached(o);
      hide LevelQueues.UnlinkRep;
      hide Clob.Rep;
    }

    /** Unlinks the order, forgets its id, frees its slot and repairs the best price. */
    method RemoveOrderByIndex(idx: OrderIndex, ghost side: Side, ghost k: nat)
      requires Valid() && k < |Queue(side)| && Queue(side)[k] == idx
      modifies Objects()
      ensures Valid()
      ensures Book() == old(Book()).With(side, RemoveAt(old(Book()).Orders(side), k))
    {
      hide State.Core;
      hide State.Book;
      hide SideRep.Ok;
      hide SideRep.Placed;
      hide FixedOrderIndex.Valid;
      hide HeadersCount;
      hide StaleBest;
      hide Sorted;
      hide Unlinkable;
      ViewsAgree(side);
      ghost var a := View(side);
      StateFacts(a, 0);
      RemovableOrder(a, k);
      LevelsAfterRemove(a, k);
      ghost var s := RemoveAt(a.r.Entries(), k);
      RemovedIsRemove(a, k, BestPrice(s));
      assert pool.orders[idx] == a.r.orders[idx];
      hide Removed;
      DetachAndRefresh(pool.orders[idx].side, pool.orders[idx].price, idx, k, a, s);
      ViewsAgree(side);
    }

    method CancelOrder(orderId: OrderId) returns (ok: bool)
      requires Valid() && orderId != 0
      modifies Objects()
      ensures Valid()
      ensures StepResult(ok, Book(), []) == Cancel(old(Book()), orderId)
    {
      hide State.Core;
      hide State.Book;
      hide SideRep.Ok;
      hide SideRep.Placed;
      hide FixedOrderIndex.Valid;
      ghost var a := View(Buy);
      StateFacts(a, orderId);
      var found := lookup.Find(orderId);
      if found.None? {
        return false;
      }
      ghost var own, k := FindNamed(a, orderId);
      RemoveOrderByIndex(found.value, if own then Buy else Sell, k);
      return true;
    }

    // ---- Matching ----

    /** The caller's sink is none of the book's own objects. */
    ghost predicate SinkApart(sink: ExecutionBuffer)
      reads sink
    {
      sink.Valid() && sink !in Objects() && (sink.data != null ==> sink.data !in Objects())
    }

    /** The slot at the front of a side's queue holds the side's first order. */
    lemma FrontSlot(side: Side)
      requires Valid() && Queue(side) != []
      ensures var idx, s := Queue(side)[0], Book().Orders(side);
              && idx < pool.Capacity() && s != [] && s[0] == EntryOf(pool.orders[idx])
              && ValidPrice(s[0].price) && s[0].qty > 0
    {
      hide Clob.Valid;
      hide Clob.Book;
      hide State.Ok;
      Opens(side);
      assert Rep(side).Fits(Rep(side).At(0));
    }

    /** A non-empty level with nothing better on its side is headed by the front of the side's queue. */
    lemma HeadOfLevel(side: Side, price: Price)
      requires Valid() && ValidPrice(price) && NoneBetter(side, Book().Orders(side), price)
      requires Levels(side)[price - minPrice].orderCount > 0
      ensures Shape() && Queue(side) != [] && Levels(side)[price - minPrice].head == Queue(side)[0]
      ensures Book().Orders(side) != [] && Book().Orders(side)[0].price == price
    {
      hide Clob.Valid;
      hide Clob.Book;
      hide State.Ok;
      hide SideRep.Placed;
      hide NoneBetter;
      Opens(side);
      HeadIsFront(View(side), price);
    }

    /** A partial fill of the order with the highest priority. */
    method FillFront(side: Side, price: Price, idx: OrderIndex, traded: Quantity)
      requires Valid() && Queue(side) != [] && Queue(side)[0] == idx
      requires var s := Book().Orders(side); s != [] && s[0].price == price && traded < s[0].qty
      modifies pool.orders, Levels(side)
      ensures Valid()
      ensures var s := old(Book()).Orders(side);
              Book() == old(Book()).With(side, ReduceFront(s, traded))
    {
      hide Clob.Valid;
      hide Clob.Book;
      hide State.Ok;
      hide State.Book;
      hide SideRep.Placed;
      hide FixedOrderIndex.Valid;
      hide LevelQueues.ReduceRep;
      FrontSlot(side);
      Opens(side);
      ghost var a := View(side);
      ReducedIsReduce(a, 0, traded);
      ReduceOrderQuantity(side, price, idx, traded, 0);
      assert forall o :: o in lookup.Objects() ==> unchanged(o);
      assert View(side) == Reduced(a, 0, traded);
      hide Reduced;
      Closes(side);
    }

    /** Reports an execution; the book does not notice. */
    method Report(sink: ExecutionBuffer, x: Execution)
      requires Valid() && SinkApart(sink) && |sink.Contents()| < sink.capacity
      modifies sink`size, sink.data
      ensures Valid() && SinkApart(sink) && Book() == old(Book()) && bids == old(bids) && asks == old(asks)
      ensures sink.Contents() == old(sink.Contents()) + [x]
    {
      hide Clob.Valid;
      hide Clob.Book;
      sink.EmplaceBack(x.incomingId, x.restingId, x.price, x.qty);
    }

    /** The incoming order ends within the front order. */
    method TradePart(side: Side, price: Price, idx: OrderIndex, incomingId: OrderId, qty: Quantity,
                     sink: ExecutionBuffer)
      requires Valid() && SinkApart(sink) && |sink.Contents()| < sink.capacity
      requires Queue(side) != [] && Queue(side)[0] == idx
      requires var s := Book().Orders(side); s != [] && s[0].price == price && qty < s[0].qty
      modifies Objects(), sink`size, sink.data
      ensures Valid() && SinkApart(sink)
      ensures var s := old(Book()).Orders(side);
              && Book() == old(Book()).With(side, ReduceFront(s, qty))
              && sink.Contents() == old(sink.Contents()) + [Execution(incomingId, s[0].id, price, qty)]
    {
      hide Clob.Valid;
      hide Clob.Book;
      FrontSlot(side);
      var o := pool.orders[idx];
      Report(sink, Execution(incomingId, o.orderId, o.price, qty));
      FillFront(side, price, idx, qty);
    }

    /** The incoming order takes the whole front order. */
    method TradeWhole(ghost side: Side, idx: OrderIndex, incomingId: OrderId, sink: ExecutionBuffer)
      requires Valid() && SinkApart(sink) && |sink.Contents()| < sink.capacity
      requires Queue(side) != [] && Queue(side)[0] == idx && Book().Orders(side) != []
      modifies Objects(), sink`size, sink.data
      ensures Valid() && SinkApart(sink)
      ensures var s := old(Book()).Orders(side);
              && Book() == old(Book()).With(side, RemoveAt(s, 0))
              && sink.Contents() == old(sink.Contents()) + [Execution(incomingId, s[0].id, s[0].price, s[0].qty)]
    {
      hide Clob.Valid;
      hide Clob.Book;
      hide RemoveAt;
      FrontSlot(side);
      var o := pool.orders[idx];
      Report(sink, Execution(incomingId, o.orderId, o.price, o.qty));
      RemoveOrderByIndex(idx, side, 0);
    }

    /** One turn of the matching loop: the incoming order trades with the order that heads the level. */
    method TradeWithHead(resting: Side, price: Price, incomingId: OrderId, qty: Quantity,
                         ghost limit: Price, sink: ExecutionBuffer) returns (left: Quantity)
      requires Valid() && SinkApart(sink) && ValidPrice(price) && NoneBetter(resting, Book().Orders(resting), price)
      requires Crosses(resting.Opposite(), limit, price)
      requires qty > 0 && Levels(resting)[price - minPrice].orderCount > 0
      requires |Pending(sink.Contents(), incomingId, resting.Opposite(), limit, qty, Book().Orders(resting)).execs|
               <= sink.capacity
      modifies Objects(), sink`size, sink.data
      ensures Valid() && SinkApart(sink) && NoneBetter(resting, Book().Orders(resting), price)
      ensures left < qty
      ensures Book() == old(Book()).With(resting, Book().Orders(resting))
      ensures Pending(sink.Contents(), incomingId, resting.Opposite(), limit, left, Book().Orders(resting))
              == old(Pending(sink.Contents(), incomingId, resting.Opposite(), limit, qty, Book().Orders(resting)))
    {
      hide Clob.Valid;
      hide Clob.Book;
      hide Pending;
      hide NoneBetter;
      hide RemoveAt;
      hide ReduceFront;
      ghost var s := Book().Orders(resting);
      ghost var incoming := resting.Opposite();
      HeadOfLevel(resting, price);
      FrontSlot(resting);
      var idx := Levels(resting)[price - minPrice].head;
      var o := pool.orders[idx];
      NoneBetterStays(resting, s, price, qty);
      if qty < o.qty {
        PartialFillStep(sink.Contents(), incomingId, incoming, limit, qty, s);
        TradePart(resting, price, idx, incomingId, qty, sink);
        left := 0;
      } else {
        FullFillStep(sink.Contents(), incomingId, incoming, limit, qty, s);
        left := qty - o.qty;
        TradeWhole(resting, idx, incomingId, sink);
      }
    }

    /** Trades with the queue of one level, front first, until the order is spent or the level is empty. */
    method MatchAtLevel(resting: Side, price: Price, incomingId: OrderId, incomingQty: Quantity,
                        ghost limit: Price, sink: ExecutionBuffer) returns (qty: Quantity)
      requires Valid() && SinkApart(sink) && ValidPrice(price) && NoneBetter(resting, Book().Orders(resting), price)
      requires Crosses(resting.Opposite(), limit, price)
      requires incomingQty > 0 && Levels(resting)[price - minPrice].orderCount > 0
      requires |Pending(sink.Contents(), incomingId, resting.Opposite(), limit, incomingQty,
                        Book().Orders(resting)).execs| <= sink.capacity
      modifies Objects(), sink`size, sink.data
      ensures Valid() && SinkApart(sink)
      ensures qty < incomingQty && (qty == 0 || Levels(resting)[price - minPrice].orderCount == 0)
      ensures Book() == old(Book()).With(resting, Book().Orders(resting))
      ensures Pending(sink.Contents(), incomingId, resting.Opposite(), limit, qty, Book().Orders(resting))
              == old(Pending(sink.Contents(), incomingId, resting.Opposite(), limit, incomingQty,
                             Book().Orders(resting)))
    {
      hide State.Ok;
      hide State.Book;
      hide FixedOrderIndex.Valid;
      hide Pending;
      hide NoneBetter;
      ghost var b := Book();
      qty := incomingQty;
      while qty > 0 && Levels(resting)[price - minPrice].orderCount > 0
        invariant Valid() && SinkApart(sink) && NoneBetter(resting, Book().Orders(resting), price)
        invariant Book() == b.With(resting, Book().Orders(resting))
        invariant Pending(sink.Contents(), incomingId, resting.Opposite(), limit, qty, Book().Orders(resting))
                  == old(Pending(sink.Contents(), incomingId, resting.Opposite(), limit, incomingQty,
                                 Book().Orders(resting)))
        invariant qty < incomingQty || (qty == incomingQty && Levels(resting)[price - minPrice].orderCount > 0)
        decreases qty
      {
        qty := TradeWithHead(resting, price, incomingId, qty, limit, sink);
      }
    }

    /** `crosses`: the best opposite price is within the incoming order's limit. */
    predicate BestCrosses(side: Side, limit: Price)
      reads this
    {
      Best(side.Opposite()).Some? && Crosses(side, limit, Best(side.Opposite()).value)
    }

    /** Level by level, best first. Each turn trades at least once, because the cached best level is never empty. */
    method MatchOrder(incomingId: OrderId, side: Side, limit: Price, incomingQty: Quantity, sink: ExecutionBuffer)
      returns (qty: Quantity)
      requires Valid() && SinkApart(sink)
      requires |sink.Contents()| + |Match(incomingId, side, limit, incomingQty, Book().Orders(side.Opposite())).execs|
               <= sink.capacity
      modifies Objects(), sink`size, sink.data
      ensures Valid() && SinkApart(sink)
      ensures var m := Match(incomingId, side, limit, incomingQty, old(Book()).Orders(side.Opposite()));
              && qty == m.left
              && sink.Contents() == old(sink.Contents()) + m.execs
              && Book() == old(Book()).With(side.Opposite(), m.rest)
    {
      hide Clob.Valid;
      hide Clob.Book;
      hide Match;
      hide NoneBetter;
      var resting := side.Opposite();
      ghost var b := Book();
      ghost var all := Pending(sink.Contents(), incomingId, side, limit, incomingQty, b.Orders(resting));
      assert |all.execs| <= sink.capacity;
      hide Pending;
      qty := incomingQty;
      while qty > 0 && BestCrosses(side, limit)
        invariant Valid() && SinkApart(sink)
        invariant Book() == b.With(resting, Book().Orders(resting))
        invariant Pending(sink.Contents(), incomingId, side, limit, qty, Book().Orders(resting)) == all
        decreases qty
      {
        BestOfView(resting);
        qty := MatchAtLevel(resting, Best(resting).value, incomingId, qty, limit, sink);
      }
      BestOfView(resting);
      MatchStops(sink.Contents(), old(sink.Contents()), incomingId, side, limit, qty, incomingQty,
                 Book().Orders(resting), b.Orders(resting));
    }

    lemma BestOfView(side: Side)
      requires Valid()
      ensures var s := Book().Orders(side);
              && Best(side) == BestPrice(s)
              && (s != [] ==>
                    && ValidPrice(s[0].price) && NoneBetter(side, s, s[0].price)
                    && Levels(side)[s[0].price - minPrice].orderCount > 0)
    {
      hide Clob.Valid;
      hide Clob.Book;
      hide State.Core;
      hide State.Book;
      hide SideRep.Ok;
      hide SideRep.Placed;
      hide FixedOrderIndex.Valid;
      hide NoneBetter;
      Opens(side);
      if Best(side).Some? {
        BestLevelNotEmpty(View(side));
      }
    }

    /** `add_order` as submit calls it: nothing is reported. */
    method AddResidual(orderId: OrderId, side: Side, price: Price, qty: Quantity, ghost sink: ExecutionBuffer)
      returns (ok: bool)
      requires Valid() && SinkApart(sink)
      requires qty > 0 && ValidPrice(price) && Book().Active() < Book().capacity ==> orderId != 0
      modifies Objects()
      ensures Valid() && SinkApart(sink) && sink.Contents() == old(sink.Contents())
      ensures StepResult(ok, Book(), []) == Add(old(Book()), orderId, side, price, qty)
    {
      hide Clob.Valid;
      hide Clob.Book;
      hide Matcher.Add;
      ok := AddOrder(orderId, side, price, qty);
    }

    /** Matches the order against the other side and rests what is left of it. */
    method SubmitLimitOrder(orderId: OrderId, side: Side, price: Price, qty: Quantity, sink: ExecutionBuffer)
      returns (ok: bool)
      requires Valid() && SinkApart(sink)
      requires qty > 0 && ValidPrice(price) ==> orderId != 0
      requires |sink.Contents()| + |Submit(Book(), orderId, side, price, qty).execs| <= sink.capacity
      modifies Objects(), sink`size, sink.data
      ensures Valid() && SinkApart(sink)
      ensures var r := Submit(old(Book()), orderId, side, price, qty);
              && ok == r.ok
              && Book() == r.book
              && sink.Contents() == old(sink.Contents()) + r.execs
    {
      hide Clob.Valid;
      hide Clob.Book;
      hide FixedOrderIndex.Valid;
      hide Below;
      hide Submit;
      hide Match;
      hide Matcher.Add;
      Tells(orderId);
      ghost var b := Book();
      SubmitParts(b, orderId, side, price, qty);
      if qty == 0 || !ValidPrice(price) {
        return false;
      }
      var known := lookup.Contains(orderId);
      assert Valid() && Book() == b && sink.Contents() == old(sink.Contents());
      hide Clob.Objects;
      hide ExecutionBuffer.Contents;
      if known {
        return false;
      }
      var left := MatchOrder(orderId, side, price, qty, sink);
      if left == 0 {
        return true;
      }
      ok := AddResidual(orderId, side, price, left, sink);
    }

    // ---- Queries ----

    /** Every header field of a level, in terms of the abstract book. */
    lemma LevelMeans(side: Side, price: Price)
      requires Valid() && ValidPrice(price)
      ensures var l, s := Levels(side)[price - minPrice], Book().Orders(side);
              && l.orderCount == CountAt(s, price) && l.totalQty == ShownQty(s, price)
              && (l.head == NULL_ORDER_INDEX ==> FrontIdAt(s, price) == None)
              && (l.tail == NULL_ORDER_INDEX ==> BackIdAt(s, price) == None)
              && (l.head != NULL_ORDER_INDEX ==>
                    l.head < pool.Capacity() && FrontIdAt(s, price) == Some(pool.orders[l.head].orderId))
              && (l.tail != NULL_ORDER_INDEX ==>
                    l.tail < pool.Capacity() && BackIdAt(s, price) == Some(pool.orders[l.tail].orderId))
    {
      hide State.Core;
      hide State.Book;
      hide SideRep.Ok;
      hide SideRep.Placed;
      hide FixedOrderIndex.Valid;
      hide CountAt;
      hide SumAt;
      hide FrontIdAt;
      hide BackIdAt;
      ViewsAgree(side);
      ghost var a := View(side);
      StateFacts(a, 0);
      LevelEnds(a, price);
      assert a.r.levels[price - minPrice] == Levels(side)[price - minPrice];
    }

    /** How many orders a level header counts. */
    function HeaderCount(side: Side, price: Price): nat
      requires Shape() && ValidPrice(price)
      reads Levels(side)
    {
      Levels(side)[price - minPrice].orderCount
    }

    /** The cached best price is exact: its own level has orders, and no level better than it has any. */
    lemma CachedBestIsExact(side: Side, price: Price)
      requires Valid() && ValidPrice(price)
      ensures Best(side) == Some(price) <==>
                && HeaderCount(side, price) > 0
                && forall q: Price :: ValidPrice(q) && Better(side, q, price) ==> HeaderCount(side, q) == 0
      ensures Best(side) == None <==> forall q: Price :: ValidPrice(q) ==> HeaderCount(side, q) == 0
    {
      hide State.Ok;
      hide State.Book;
      hide FixedOrderIndex.Valid;
      BestOfView(side);
      ghost var s := Book().Orders(side);
      forall q: Price | ValidPrice(q)
        ensures HeaderCount(side, q) > 0 <==> exists i :: 0 <= i < |s| && s[i].price == q
      {
        LevelMeans(side, q);
        CountWitness(s, q);
      }
    }

    /**
     Following the stored links: from the head of a level, `next_idx` leads through exactly the orders
     of its price in arrival order, and is null after `order_count` of them.
     */
    lemma LevelIsLinked(side: Side, price: Price)
      requires Valid() && ValidPrice(price)
      ensures var l, s := Levels(side)[price - minPrice], AtPrice(Book().Orders(side), price);
              |s| == l.orderCount && Walks(pool.orders[..], l.head, s)
    {
      hide Clob.Valid;
      hide Clob.Book;
      hide State.Book;
      hide SideRep.Ok;
      hide SideRep.Placed;
      hide Slots;
      hide Lookup;
      hide Walks;
      hide AtPrice;
      hide FixedOrderIndex.Valid;
      Opens(side);
      LevelIsWalked(Rep(side), price);
      assert Rep(side).levels[price - minPrice] == Levels(side)[price - minPrice];
    }

    /** The links of every queued slot: its neighbour, of the same price, points back. */
    lemma LinksPointBack(side: Side, i: nat)
      requires Valid() && i < |Queue(side)|
      ensures var idx := Queue(side)[i];
              && idx < pool.Capacity()
              && var o := pool.orders[idx];
              && (o.next != NULL_ORDER_INDEX ==>
                    o.next < pool.Capacity() && pool.orders[o.next].prev == idx && pool.orders[o.next].price == o.price)
              && (o.prev != NULL_ORDER_INDEX ==>
                    o.prev < pool.Capacity() && pool.orders[o.prev].next == idx && pool.orders[o.prev].price == o.price)
    {
      hide Clob.Valid;
      hide Clob.Book;
      hide State.Book;
      hide SideRep.Ok;
      hide Slots;
      hide Lookup;
      Opens(side);
      assert Rep(side).queue[i] < |Rep(side).orders|;
      hide SideRep.Placed;
      LinksAreMutual(Rep(side), i);
    }

    /** Every pool slot is, exactly once, in one of the two sides' level queues or on the free stack. */
    lemma EachSlotOnce(slot: OrderIndex)
      requires Valid() && slot < pool.Capacity()
      ensures multiset(bids)[slot] + multiset(asks)[slot] + multiset(pool.Free())[slot] == 1
    {
      hide SideRep.Ok;
      hide Slots;
      hide Lookup;
      hide FixedOrderIndex.Valid;
      EverySlotOnce(pool.Capacity(), bids, asks, pool.Free(), slot);
    }

    /** The best price of a side and the quantity its level reports. */
    method BestLevel(side: Side) returns (r: Option<(Price, Quantity)>)
      requires Valid()
      ensures Valid() && Book() == old(Book())
      ensures r == BestLevelOf(Book().Orders(side))
      ensures var s := Book().Orders(side);
              match r
              case None => s == []
              case Some((price, qty)) =>
                && (exists i :: 0 <= i < |s| && s[i].price == price)
                && (forall i :: 0 <= i < |s| ==> if side.Buy? then s[i].price <= price else s[i].price >= price)
                && qty == SumAt(s, price) % U64
    {
      hide Clob.Valid;
      hide Clob.Book;
      hide State.Ok;
      hide SideRep.Placed;
      hide FixedOrderIndex.Valid;
      hide NoneBetter;
      hide SumAt;
      hide Matcher.Book.SideOk;
      Opens(side);
      BookWellFormed();
      BestOfView(side);
      SideSorted(Book(), side);
      BestLevelIsBest(side, Book().Orders(side));
      hide Sorted;
      var best := Best(side);
      if best.None? {
        return None;
      }
      LevelMeans(side, best.value);
      return Some((best.value, Levels(side)[best.value - minPrice].totalQty));
    }

    /** Off the price range no order rests. */
    lemma NoLevel(side: Side, price: Price)
      requires Valid() && !(minPrice <= price <= maxPrice)
      ensures var s := Book().Orders(side);
              && CountAt(s, price) == 0 && SumAt(s, price) == 0
              && FrontIdAt(s, price) == None && BackIdAt(s, price) == None
    {
      hide Clob.Valid;
      hide Clob.Book;
      BookWellFormed();
      Tells(0);
      var s := Book().Orders(side);
      assert Book().SideOk(side);
      hide Sorted;
      NothingAt(s, price);
      NoFront(s, price);
      NoBack(s, price);
    }

    method QuantityAt(side: Side, price: Price) returns (q: Quantity)
      requires Valid()
      ensures Valid() && Book() == old(Book())
      ensures q == SumAt(Book().Orders(side), price) % U64
    {
      hide State.Ok;
      hide FixedOrderIndex.Valid;
      hide SumAt;
      if !ValidPrice(price) {
        NoLevel(side, price);
        return 0;
      }
      LevelMeans(side, price);
      q := Levels(side)[price - minPrice].totalQty;
    }

    method OrderCountAt(side: Side, price: Price) returns (n: nat)
      requires Valid()
      ensures Valid() && Book() == old(Book())
      ensures n == CountAt(Book().Orders(side), price)
    {
      hide State.Ok;
      hide FixedOrderIndex.Valid;
      hide CountAt;
      if !ValidPrice(price) {
        NoLevel(side, price);
        return 0;
      }
      LevelMeans(side, price);
      n := Levels(side)[price - minPrice].orderCount;
    }

    method FrontOrderId(side: Side, price: Price) returns (r: Option<OrderId>)
      requires Valid()
      ensures Valid() && Book() == old(Book())
      ensures r == FrontIdAt(Book().Orders(side), price)
    {
      hide State.Ok;
      hide FixedOrderIndex.Valid;
      hide FrontIdAt;
      if !ValidPrice(price) {
        NoLevel(side, price);
        return None;
      }
      LevelMeans(side, price);
      var head := Levels(side)[price - minPrice].head;
      r := if head == NULL_ORDER_INDEX then None else Some(pool.orders[head].orderId);
    }

    method BackOrderId(side: Side, price: Price) returns (r: Option<OrderId>)
      requires Valid()
      ensures Valid() && Book() == old(Book())
      ensures r == BackIdAt(Book().Orders(side), price)
    {
      hide State.Ok;
      hide FixedOrderIndex.Valid;
      hide BackIdAt;
      if !ValidPrice(price) {
        NoLevel(side, price);
        return None;
      }
      LevelMeans(side, price);
      var tail := Levels(side)[price - minPrice].tail;
      r := if tail == NULL_ORDER_INDEX then None else Some(pool.orders[tail].orderId);
    }

    method ActiveOrders() returns (n: nat)
      requires Valid()
      ensures Valid() && Book() == old(Book())
      ensures n == Book().Active()
    {
      hide Clob.Valid;
      hide Clob.Book;
      hide FixedOrderIndex.Valid;
      hide Below;
      Tells(0);
      n := pool.Used();
      assert forall o :: o in Objects() ==> unchanged(o);
    }

    method AvailableSlots() returns (n: nat)
      requires Valid()
      ensures Valid() && Book() == old(Book())
      ensures n == Book().capacity - Book().Active()
    {
      hide Clob.Valid;
      hide Clob.Book;
      hide FixedOrderIndex.Valid;
      hide Below;
      Tells(0);
      n := pool.Available();
      assert forall o :: o in Objects() ==> unchanged(o);
    }
  }
}
