/**
 How one side of the book is stored: a FIFO queue per price, threaded through the pool's slots, with
 a header per price. All queues of a side are described together by one sequence of slots in
 matching priority; the links and headers are then facts about neighbours in that sequence.
 */
module LevelQueues {
  import opened Types
  import opened Bits
  import opened Matcher
  import opened MatchingLaws

  function EntryOf(o: Order): Entry { Entry(o.orderId, o.price, o.qty) }

  ghost predicate NoRepeats(q: seq<OrderIndex>) {
    forall i, j :: 0 <= i < j < |q| ==> q[i] != q[j]
  }

  datatype SideRep = SideRep(
    side: Side, minPrice: Price, orders: seq<Order>, levels: seq<PriceLevel>, queue: seq<OrderIndex>)
  {
    /** Every queued slot exists and holds an order of this side at a price that has a level. */
    ghost predicate Placed() {
      && |orders| <= NULL_ORDER_INDEX
      && minPrice + |levels| <= U64
      && (forall k :: 0 <= k < |queue| ==> queue[k] < |orders| && Fits(orders[queue[k]]))
    }

    ghost predicate Fits(o: Order) {
      o.side == side && o.qty > 0 && minPrice <= o.price < minPrice + |levels|
    }

    ghost function At(k: nat): Order
      requires Placed() && k < |queue|
    {
      orders[queue[k]]
    }

    ghost function Entries(): (s: seq<Entry>)
      requires Placed()
      ensures |s| == |queue|
      ensures forall k :: 0 <= k < |s| ==> s[k] == EntryOf(At(k))
    {
      seq(|queue|, k requires 0 <= k < |queue| => EntryOf(At(k)))
    }

    ghost function LevelOf(k: nat): PriceLevel
      requires Placed() && k < |queue|
    {
      levels[At(k).price - minPrice]
    }

    /** Slot k opens (closes) the queue of its price. */
    ghost predicate First(k: nat)
      requires Placed() && k < |queue|
    {
      k == 0 || At(k - 1).price != At(k).price
    }

    ghost predicate Last(k: nat)
      requires Placed() && k < |queue|
    {
      k + 1 == |queue| || At(k + 1).price != At(k).price
    }

    /** `prev_idx` and `next_idx` are the neighbours of the same price, or null at either end. */
    ghost predicate Linked()
      requires Placed()
    {
      && (forall k {:trigger At(k).prev} :: 0 <= k < |queue| ==>
            At(k).prev == if First(k) then NULL_ORDER_INDEX else queue[k - 1])
      && (forall k {:trigger At(k).next} :: 0 <= k < |queue| ==>
            At(k).next == if Last(k) then NULL_ORDER_INDEX else queue[k + 1])
    }

    /** `head_idx` and `tail_idx` are the ends of the queue. */
    ghost predicate Headed()
      requires Placed()
    {
      && (forall k {:trigger First(k)} :: 0 <= k < |queue| && First(k) ==> LevelOf(k).head == queue[k])
      && (forall k {:trigger Last(k)} :: 0 <= k < |queue| && Last(k) ==> LevelOf(k).tail == queue[k])
    }

    /** `order_count` is the queue's length, `total_qty` its quantity modulo 2^64, and an empty level has no ends. */
    ghost predicate Tallied()
      requires Placed()
    {
      forall x :: 0 <= x < |levels| ==> LevelTallied(levels[x], Entries(), minPrice + x)
    }

    ghost predicate Ok() {
      Placed() && NoRepeats(queue) && Sorted(side, Entries()) && Linked() && Headed() && Tallied()
    }

    ghost predicate ChangedOnlyAt(orders': seq<Order>, idx: OrderIndex) {
      && |orders'| == |orders|
      && (forall i: OrderIndex :: i < |orders| ==> orders'[i].orderId == orders[i].orderId)
      && (forall i: OrderIndex :: i < |orders| && i != idx && i !in queue ==> orders'[i] == orders[i])
    }
  }

  /** Position i is linked to its neighbours and heads or closes its level as it should. */
  ghost predicate PositionOk(r: SideRep, i: nat)
    requires r.Placed() && i < |r.queue|
  {
    && r.At(i).prev == (if r.First(i) then NULL_ORDER_INDEX else r.queue[i - 1])
    && r.At(i).next == (if r.Last(i) then NULL_ORDER_INDEX else r.queue[i + 1])
    && (r.First(i) ==> r.LevelOf(i).head == r.queue[i])
    && (r.Last(i) ==> r.LevelOf(i).tail == r.queue[i])
  }

  lemma PositionIs(r: SideRep, i: nat)
    requires r.Placed() && r.Linked() && r.Headed() && i < |r.queue|
    ensures PositionOk(r, i) && r.minPrice <= r.At(i).price < r.minPrice + |r.levels|
    ensures (i > 0 ==> r.queue[i - 1] != NULL_ORDER_INDEX) && (i + 1 < |r.queue| ==> r.queue[i + 1] != NULL_ORDER_INDEX)
  {
    assert r.At(i).prev == (if r.First(i) then NULL_ORDER_INDEX else r.queue[i - 1]);
    assert r.At(i).next == (if r.Last(i) then NULL_ORDER_INDEX else r.queue[i + 1]);
    assert r.Fits(r.At(i));
    hide SideRep.First;
    hide SideRep.Last;
  }

  lemma PositionsOk(r: SideRep)
    requires r.Placed() && forall i :: 0 <= i < |r.queue| ==> PositionOk(r, i)
    ensures r.Linked() && r.Headed()
  {
    hide SideRep.Placed;
    hide SideRep.First;
    hide SideRep.Last;
    assert forall i {:trigger r.At(i)} :: 0 <= i < |r.queue| ==> PositionOk(r, i);
    assert forall i {:trigger r.First(i)} :: 0 <= i < |r.queue| ==> PositionOk(r, i);
    assert forall i {:trigger r.Last(i)} :: 0 <= i < |r.queue| ==> PositionOk(r, i);
  }

  ghost predicate LevelTallied(l: PriceLevel, s: seq<Entry>, price: int) {
    && 0 <= price < U64
    && l.orderCount == CountAt(s, price)
    && l.totalQty == SumAt(s, price) % U64
    && (l.orderCount == 0 ==> l.head == NULL_ORDER_INDEX && l.tail == NULL_ORDER_INDEX)
  }

  /** Totals kept in a 64-bit word follow the true sums modulo 2^64. */
  lemma WordTotals(sum: nat, qty: Quantity)
    ensures AddWrap(sum % U64, qty) == (sum + qty) % U64
    ensures sum >= qty ==> SubWrap(sum % U64, qty) == (sum - qty) % U64
  {
    var q, r := sum / U64, sum % U64;
    Wraps(r + qty, q);
    Wraps(r - qty, q);
  }

  lemma Wraps(x: int, q: int)
    requires -U64 <= x < 2 * U64
    ensures (U64 * q + x) % U64 == x % U64
  {
    var carry := if x < 0 then -1 else if x < U64 then 0 else 1;
    DivModUnique(x, U64, carry, x - U64 * carry);
    DivModUnique(U64 * q + x, U64, q + carry, x - U64 * carry);
  }

  // ---- Counting and summing over a price ----

  lemma {:induction false} CountSumConcat(s: seq<Entry>, t: seq<Entry>, price: Price)
    ensures CountAt(s + t, price) == CountAt(s, price) + CountAt(t, price)
    ensures SumAt(s + t, price) == SumAt(s, price) + SumAt(t, price)
  {
    if s == [] {
      assert s + t == t;
    } else {
      CountSumConcat(s[1..], t, price);
      assert (s + t)[1..] == s[1..] + t;
    }
  }

  lemma CountSumInsert(s: seq<Entry>, k: nat, e: Entry, price: Price)
    requires k <= |s|
    ensures CountAt(InsertAt(s, k, e), price) == CountAt(s, price) + if e.price == price then 1 else 0
    ensures SumAt(InsertAt(s, k, e), price) == SumAt(s, price) + if e.price == price then e.qty else 0
  {
    assert s == s[..k] + s[k..];
    assert InsertAt(s, k, e) == s[..k] + ([e] + s[k..]);
    CountSumConcat(s[..k], s[k..], price);
    CountSumConcat(s[..k], [e] + s[k..], price);
    CountSumOne(e, s[k..], price);
  }

  lemma CountSumRemove(s: seq<Entry>, k: nat, price: Price)
    requires k < |s|
    ensures CountAt(s, price) == CountAt(RemoveAt(s, k), price) + if s[k].price == price then 1 else 0
    ensures SumAt(s, price) == SumAt(RemoveAt(s, k), price) + if s[k].price == price then s[k].qty else 0
  {
    assert InsertAt(RemoveAt(s, k), k, s[k]) == s;
    CountSumInsert(RemoveAt(s, k), k, s[k], price);
  }

  lemma {:induction false} CountWitness(s: seq<Entry>, price: Price)
    ensures CountAt(s, price) > 0 <==> exists i :: 0 <= i < |s| && s[i].price == price
  {
    if s != [] {
      CountWitness(s[1..], price);
      if CountAt(s[1..], price) > 0 {
        var i :| 0 <= i < |s[1..]| && s[1..][i].price == price;
        assert s[i + 1].price == price;
      }
      assert forall i :: 0 < i < |s| ==> s[i] == s[1..][i - 1];
    }
  }

  lemma {:induction false} FirstAt(s: seq<Entry>, price: Price) returns (i: nat)
    requires CountAt(s, price) > 0
    ensures i < |s| && s[i].price == price && forall j :: 0 <= j < i ==> s[j].price != price
  {
    i := 0;
    if s[0].price != price {
      var t := FirstAt(s[1..], price);
      i := t + 1;
      assert forall j :: 0 < j < i ==> s[j] == s[1..][j - 1];
    }
  }

  // ---- Where a new order queues ----

  /** The order queues right behind the last one of its price, and nothing of its price is behind it. */
  lemma QueueBoundary(side: Side, s: seq<Entry>, price: Price)
    requires Sorted(side, s)
    ensures var k := QueuePos(side, s, price);
            && (CountAt(s, price) > 0 <==> k > 0 && s[k - 1].price == price)
            && (forall i :: k <= i < |s| ==> s[i].price != price)
            && (CountAt(s, price) == 0 ==> forall i :: 0 <= i < |s| ==> s[i].price != price)
            && (0 < k < |s| ==> s[k - 1].price != s[k].price)
  {
    var k := QueuePos(side, s, price);
    CountWitness(s, price);
    BehindIsWorse(side, s, price);
    if CountAt(s, price) > 0 {
      var i :| 0 <= i < |s| && s[i].price == price;
      assert i < k;
      assert i == k - 1 || !Better(side, s[k - 1].price, s[i].price);
    }
  }

  // ---- Appending ----

  /** The slot writes of `append_to_level`: the old tail, if any, points to the new slot. */
  function Appended(orders: seq<Order>, l: PriceLevel, idx: OrderIndex): seq<Order>
    requires idx < |orders| && (l.orderCount != 0 ==> l.tail < |orders|)
  {
    if l.orderCount == 0 then
      orders[idx := orders[idx].(prev := NULL_ORDER_INDEX, next := NULL_ORDER_INDEX)]
    else
      var linked := orders[l.tail := orders[l.tail].(next := idx)];
      linked[idx := linked[idx].(prev := l.tail, next := NULL_ORDER_INDEX)]
  }

  function AppendedLevel(l: PriceLevel, idx: OrderIndex, qty: Quantity): PriceLevel {
    PriceLevel(if l.orderCount == 0 then idx else l.head, idx, AddWrap(l.totalQty, qty), l.orderCount + 1)
  }

  lemma AppendedWrites(orders: seq<Order>, l: PriceLevel, idx: OrderIndex)
    requires idx < |orders| && (l.orderCount != 0 ==> l.tail < |orders| && l.tail != idx)
    ensures var t := Appended(orders, l, idx);
            && |t| == |orders|
            && t[idx] == orders[idx].(prev := if l.orderCount == 0 then NULL_ORDER_INDEX else l.tail,
                                      next := NULL_ORDER_INDEX)
            && (l.orderCount != 0 ==> t[l.tail] == orders[l.tail].(next := idx))
            && (forall i: OrderIndex :: i < |orders| && i != idx && (l.orderCount == 0 || i != l.tail) ==>
                  t[i] == orders[i])
  {}

  ghost function LevelFor(r: SideRep, o: Order): PriceLevel
    requires r.Fits(o)
  {
    r.levels[o.price - r.minPrice]
  }

  /** Slot idx, outside the queue, holds an order that belongs at position k, behind the tail of its level if any. */
  ghost predicate Threads(r: SideRep, idx: OrderIndex, k: nat)
    requires r.Placed()
  {
    && idx < |r.orders| && idx !in r.queue && r.Fits(r.orders[idx]) && k <= |r.queue|
    && var o := r.orders[idx];
    && var l := LevelFor(r, o);
    && (l.orderCount != 0 <==> k > 0 && r.At(k - 1).price == o.price)
    && (l.orderCount != 0 ==> l.tail == r.queue[k - 1])
    && (l.orderCount == 0 ==> forall i :: 0 <= i < |r.queue| ==> r.At(i).price != o.price)
    && (forall i :: k <= i < |r.queue| ==> r.At(i).price != o.price)
    && (0 < k < |r.queue| ==> r.At(k - 1).price != r.At(k).price)
  }

  /** What keeps the writes of `append_to_level` inside the arrays. */
  ghost predicate Appendable(r: SideRep, idx: OrderIndex, k: nat) {
    && idx < |r.orders| && k <= |r.queue| && r.Fits(r.orders[idx])
    && var l := LevelFor(r, r.orders[idx]);
    && (l.orderCount != 0 ==> l.tail < |r.orders|)
  }

  /** The representation after `append_to_level` of slot idx, queued at position k. */
  ghost function AppendRep(r: SideRep, idx: OrderIndex, k: nat): SideRep
    requires Appendable(r, idx, k)
  {
    var o := r.orders[idx];
    var l := LevelFor(r, o);
    SideRep(r.side, r.minPrice, Appended(r.orders, l, idx),
            r.levels[o.price - r.minPrice := AppendedLevel(l, idx, o.qty)],
            InsertAt(r.queue, k, idx))
  }

  lemma AppendThreads(r: SideRep, idx: OrderIndex)
    requires r.Placed() && Sorted(r.side, r.Entries()) && r.Headed() && r.Tallied()
    requires idx < |r.orders| && idx !in r.queue && r.Fits(r.orders[idx])
    ensures Threads(r, idx, QueuePos(r.side, r.Entries(), r.orders[idx].price))
  {
    var o := r.orders[idx];
    var s := r.Entries();
    var k := QueuePos(r.side, s, o.price);
    QueueBoundary(r.side, s, o.price);
    assert LevelTallied(LevelFor(r, o), s, r.minPrice + (o.price - r.minPrice));
    assert forall i :: 0 <= i < |s| ==> s[i].price == r.At(i).price;
    if k > 0 && r.At(k - 1).price == o.price {
      assert k < |s| ==> s[k].price != o.price;
      assert r.Last(k - 1);
    }
    hide QueuePos;
    hide Sorted;
    hide CountAt;
    hide SumAt;
    hide SideRep.Placed;
    hide SideRep.Tallied;
    hide SideRep.Headed;
  }

  lemma InsertNoRepeats(q: seq<OrderIndex>, k: nat, idx: OrderIndex)
    requires NoRepeats(q) && k <= |q| && idx !in q
    ensures NoRepeats(InsertAt(q, k, idx))
  {
    InsertIndices(q, k, idx);
  }

  /** What each position of the queue holds after the append: the same orders, but for links at the insertion point. */
  lemma AppendPlaced(r: SideRep, idx: OrderIndex, k: nat)
    requires r.Placed() && NoRepeats(r.queue) && Threads(r, idx, k)
    ensures var t := AppendRep(r, idx, k);
            var o := r.orders[idx];
            var joins := k > 0 && r.At(k - 1).price == o.price;
            && |t.orders| == |r.orders|
            && t.orders[idx] == o.(prev := if joins then r.queue[k - 1] else NULL_ORDER_INDEX, next := NULL_ORDER_INDEX)
            && (forall i :: 0 <= i < |r.queue| ==>
                  t.orders[r.queue[i]] == if joins && i == k - 1 then r.At(i).(next := idx) else r.At(i))
            && r.ChangedOnlyAt(t.orders, idx)
  {
    AppendedWrites(r.orders, LevelFor(r, r.orders[idx]), idx);
  }

  lemma AppendPlacedToo(r: SideRep, idx: OrderIndex, k: nat)
    requires r.Placed() && NoRepeats(r.queue) && Threads(r, idx, k)
    ensures var t := AppendRep(r, idx, k);
            && t.Placed()
            && t.Entries() == InsertAt(r.Entries(), k, EntryOf(r.orders[idx]))
  {
    AppendHolds(r, idx, k);
    var t := AppendRep(r, idx, k);
    assert t.side == r.side && t.minPrice == r.minPrice && |t.levels| == |r.levels|;
    assert t.queue == InsertAt(r.queue, k, idx);
    InsertIndices(r.queue, k, idx);
    InsertIndices(r.Entries(), k, EntryOf(r.orders[idx]));
    hide AppendRep;
    hide InsertAt;
    hide Threads;
  }

  /** Every slot queued after the append holds what belongs at its position. */
  lemma AppendHolds(r: SideRep, idx: OrderIndex, k: nat)
    requires r.Placed() && NoRepeats(r.queue) && Threads(r, idx, k)
    ensures var t, s := AppendRep(r, idx, k), InsertAt(r.Entries(), k, EntryOf(r.orders[idx]));
            && |t.orders| == |r.orders| && |t.queue| == |r.queue| + 1 == |s|
            && forall j :: 0 <= j < |t.queue| ==>
                 t.queue[j] < |t.orders| && r.Fits(t.orders[t.queue[j]]) && EntryOf(t.orders[t.queue[j]]) == s[j]
  {
    var t, o := AppendRep(r, idx, k), r.orders[idx];
    AppendPlaced(r, idx, k);
    assert t.queue == InsertAt(r.queue, k, idx) && r.Fits(o);
    InsertIndices(r.queue, k, idx);
    InsertIndices(r.Entries(), k, EntryOf(o));
    hide AppendRep;
    hide InsertAt;
    hide Threads;
    hide NoRepeats;
    hide SideRep.ChangedOnlyAt;
    forall j | 0 <= j < |t.queue|
      ensures t.queue[j] < |t.orders| && r.Fits(t.orders[t.queue[j]])
              && EntryOf(t.orders[t.queue[j]]) == InsertAt(r.Entries(), k, EntryOf(o))[j]
    {
      if j != k {
        var i := if j < k then j else j - 1;
        assert t.queue[j] == r.queue[i] && r.Fits(r.At(i));
      }
    }
  }

  ghost predicate Joins(r: SideRep, idx: OrderIndex, k: nat)
    requires r.Placed() && Threads(r, idx, k)
  {
    k > 0 && r.At(k - 1).price == r.orders[idx].price
  }

  /** Each position of the queue after the append: its slot and its order. */
  ghost predicate AppendFacts(r: SideRep, idx: OrderIndex, k: nat, t: SideRep)
    requires r.Placed() && Threads(r, idx, k)
  {
    && t.Placed() && |t.queue| == |r.queue| + 1
    && (forall i {:trigger t.queue[i]} {:trigger t.At(i)} :: 0 <= i < k ==>
          t.queue[i] == r.queue[i]
          && t.At(i) == if Joins(r, idx, k) && i == k - 1 then r.At(i).(next := idx) else r.At(i))
    && t.queue[k] == idx
    && t.At(k) == r.orders[idx].(prev := if Joins(r, idx, k) then r.queue[k - 1] else NULL_ORDER_INDEX,
                                 next := NULL_ORDER_INDEX)
    && (forall i {:trigger t.queue[i]} {:trigger t.At(i)} :: k < i < |t.queue| ==>
          t.queue[i] == r.queue[i - 1] && t.At(i) == r.At(i - 1))
  }

  lemma AppendHasFacts(r: SideRep, idx: OrderIndex, k: nat)
    requires r.Placed() && NoRepeats(r.queue) && Threads(r, idx, k)
    ensures AppendFacts(r, idx, k, AppendRep(r, idx, k))
  {
    AppendPlaced(r, idx, k);
    AppendPlacedToo(r, idx, k);
    InsertIndices(r.queue, k, idx);
  }

  /** The ends of the price queues move only at the insertion point. */
  lemma AppendFirst(r: SideRep, idx: OrderIndex, k: nat, t: SideRep, i: nat)
    requires r.Placed() && Threads(r, idx, k) && AppendFacts(r, idx, k, t) && i < |t.queue|
    ensures t.First(i) == if i < k then r.First(i) else if i == k then !Joins(r, idx, k) else r.First(i - 1)
  {}

  lemma AppendLast(r: SideRep, idx: OrderIndex, k: nat, t: SideRep, i: nat)
    requires r.Placed() && Threads(r, idx, k) && AppendFacts(r, idx, k, t) && i < |t.queue|
    ensures t.Last(i) == if i < k then r.Last(i) && !(Joins(r, idx, k) && i == k - 1) else i == k || r.Last(i - 1)
  {}

  /** AppendFacts for one position, and the ends on either side of the insertion point. */
  lemma AppendAt(r: SideRep, idx: OrderIndex, k: nat, t: SideRep, i: nat)
    requires r.Placed() && Threads(r, idx, k) && AppendFacts(r, idx, k, t) && i < |t.queue|
    ensures t.Placed() && |t.queue| == |r.queue| + 1 && k <= |r.queue|
    ensures (k < |r.queue| ==> r.First(k)) && (k > 0 ==> r.Last(k - 1))
    ensures t.queue[i] == if i < k then r.queue[i] else if i == k then idx else r.queue[i - 1]
    ensures t.At(i) == if i > k then r.At(i - 1)
                       else if i == k then
                         r.orders[idx].(prev := if Joins(r, idx, k) then r.queue[k - 1] else NULL_ORDER_INDEX,
                                        next := NULL_ORDER_INDEX)
                       else if Joins(r, idx, k) && i == k - 1 then r.At(i).(next := idx)
                       else r.At(i)
  {}

  lemma AppendPrevAt(r: SideRep, idx: OrderIndex, k: nat, t: SideRep, i: nat)
    requires r.Placed() && r.Linked() && r.Headed() && Threads(r, idx, k) && AppendFacts(r, idx, k, t) && i < |t.queue|
    ensures t.At(i).prev == if t.First(i) then NULL_ORDER_INDEX else t.queue[i - 1]
  {
    hide SideRep.Placed;
    hide SideRep.Linked;
    hide SideRep.Headed;
    hide AppendFacts;
    hide Threads;
    AppendFirst(r, idx, k, t, i);
    AppendAt(r, idx, k, t, i);
    if i > 0 { AppendAt(r, idx, k, t, i - 1); }
    if i != k { PositionIs(r, if i < k then i else i - 1); }
  }

  lemma AppendNextAt(r: SideRep, idx: OrderIndex, k: nat, t: SideRep, i: nat)
    requires r.Placed() && r.Linked() && r.Headed() && Threads(r, idx, k) && AppendFacts(r, idx, k, t) && i < |t.queue|
    ensures t.At(i).next == if t.Last(i) then NULL_ORDER_INDEX else t.queue[i + 1]
  {
    hide SideRep.Placed;
    hide SideRep.Linked;
    hide SideRep.Headed;
    hide AppendFacts;
    hide Threads;
    AppendLast(r, idx, k, t, i);
    AppendAt(r, idx, k, t, i);
    if i + 1 < |t.queue| { AppendAt(r, idx, k, t, i + 1); }
    if i != k { PositionIs(r, if i < k then i else i - 1); }
  }

  /** Only the header of the order's own price changes. */
  lemma AppendLevels(r: SideRep, idx: OrderIndex, k: nat, x: nat)
    requires r.Placed() && Threads(r, idx, k) && x < |r.levels|
    ensures var t, o := AppendRep(r, idx, k), r.orders[idx];
            && t.minPrice == r.minPrice && |t.levels| == |r.levels|
            && t.levels[x] == if x == o.price - r.minPrice then AppendedLevel(LevelFor(r, o), idx, o.qty)
                              else r.levels[x]
  {}

  lemma AppendHeadedAt(r: SideRep, idx: OrderIndex, k: nat, t: SideRep, i: nat)
    requires r.Placed() && NoRepeats(r.queue) && r.Headed() && Threads(r, idx, k) && i < |t.queue|
    requires t == AppendRep(r, idx, k) && AppendFacts(r, idx, k, t)
    ensures t.First(i) ==> t.LevelOf(i).head == t.queue[i]
    ensures t.Last(i) ==> t.LevelOf(i).tail == t.queue[i]
  {
    hide AppendRep;
    AppendLevels(r, idx, k, t.At(i).price - r.minPrice);
    AppendFirst(r, idx, k, t, i);
    AppendLast(r, idx, k, t, i);
    if Joins(r, idx, k) && i < k - 1 && r.Last(i) {
      assert r.queue[i] != r.queue[k - 1];
      assert r.LevelOf(i).tail == r.queue[i];
    }
  }

  lemma AppendLinked(r: SideRep, idx: OrderIndex, k: nat)
    requires r.Placed() && NoRepeats(r.queue) && r.Linked() && r.Headed() && Threads(r, idx, k)
    ensures var t := AppendRep(r, idx, k); t.Placed() && t.Linked() && t.Headed()
  {
    var t := AppendRep(r, idx, k);
    AppendHasFacts(r, idx, k);
    forall i | 0 <= i < |t.queue| ensures PositionOk(t, i) {
      AppendPrevAt(r, idx, k, t, i);
      AppendNextAt(r, idx, k, t, i);
      AppendHeadedAt(r, idx, k, t, i);
    }
    PositionsOk(t);
  }

  lemma AppendTallied(r: SideRep, idx: OrderIndex, k: nat)
    requires r.Placed() && NoRepeats(r.queue) && r.Tallied() && Threads(r, idx, k)
    ensures var t := AppendRep(r, idx, k); t.Placed() && t.Tallied()
  {
    var t := AppendRep(r, idx, k);
    AppendPlacedToo(r, idx, k);
    forall x | 0 <= x < |t.levels| ensures LevelTallied(t.levels[x], t.Entries(), t.minPrice + x) {
      AppendTalliedAt(r, idx, k, x);
    }
  }

  lemma AppendTalliedAt(r: SideRep, idx: OrderIndex, k: nat, x: nat)
    requires r.Placed() && Appendable(r, idx, k) && x < |r.levels|
    requires LevelTallied(r.levels[x], r.Entries(), r.minPrice + x)
    ensures var s := InsertAt(r.Entries(), k, EntryOf(r.orders[idx]));
            LevelTallied(AppendRep(r, idx, k).levels[x], s, r.minPrice + x)
  {
    var o := r.orders[idx];
    CountSumInsert(r.Entries(), k, EntryOf(o), r.minPrice + x);
    AppendLevelAt(r, idx, k, x);
    hide AppendRep;
    hide Appendable;
    hide SideRep.Placed;
    if x == o.price - r.minPrice {
      MoreTallied(r.levels[x], r.Entries(), k, idx, o);
    }
    hide CountAt;
    hide SumAt;
    hide InsertAt;
  }

  lemma AppendLevelAt(r: SideRep, idx: OrderIndex, k: nat, x: nat)
    requires Appendable(r, idx, k) && x < |r.levels|
    ensures var o := r.orders[idx];
            AppendRep(r, idx, k).levels[x]
            == if x == o.price - r.minPrice then AppendedLevel(r.levels[x], idx, o.qty) else r.levels[x]
  {}

  /** The header of the order's price counts and sums one order more. */
  lemma MoreTallied(l: PriceLevel, s: seq<Entry>, k: nat, idx: OrderIndex, o: Order)
    requires k <= |s| && LevelTallied(l, s, o.price)
    ensures LevelTallied(AppendedLevel(l, idx, o.qty), InsertAt(s, k, EntryOf(o)), o.price)
  {
    CountSumInsert(s, k, EntryOf(o), o.price);
    WordTotals(SumAt(s, o.price), o.qty);
    hide CountAt;
    hide SumAt;
    hide InsertAt;
    hide AddWrap;
  }

  /** `append_to_level` keeps the representation and queues the order behind every order it has no priority over. */
  lemma AppendKeeps(r: SideRep, idx: OrderIndex, k: nat)
    requires r.Ok() && idx < |r.orders| && idx !in r.queue && r.Fits(r.orders[idx])
    requires k == QueuePos(r.side, r.Entries(), r.orders[idx].price)
    ensures Appendable(r, idx, k)
    ensures var t := AppendRep(r, idx, k);
            && t.Ok()
            && t.Entries() == InsertAt(r.Entries(), k, EntryOf(r.orders[idx]))
            && r.ChangedOnlyAt(t.orders, idx)
  {
    AppendThreads(r, idx);
    AppendPlaced(r, idx, k);
    AppendPlacedToo(r, idx, k);
    InsertNoRepeats(r.queue, k, idx);
    InsertKeepsSorted(r.side, r.Entries(), EntryOf(r.orders[idx]));
    AppendLinked(r, idx, k);
    AppendTallied(r, idx, k);
  }

  // ---- Unlinking ----

  /** The slot writes of `unlink_from_level`: the neighbours point past the slot, and its own links are cleared. */
  function Unlinked(orders: seq<Order>, idx: OrderIndex): seq<Order>
    requires idx < |orders|
    requires var o := orders[idx];
             && (o.prev != NULL_ORDER_INDEX ==> o.prev < |orders|) && (o.next != NULL_ORDER_INDEX ==> o.next < |orders|)
  {
    var o := orders[idx];
    var a := if o.prev != NULL_ORDER_INDEX then orders[o.prev := orders[o.prev].(next := o.next)] else orders;
    var b := if o.next != NULL_ORDER_INDEX then a[o.next := a[o.next].(prev := o.prev)] else a;
    b[idx := b[idx].(prev := NULL_ORDER_INDEX, next := NULL_ORDER_INDEX)]
  }

  function UnlinkedLevel(l: PriceLevel, o: Order): PriceLevel
    requires l.orderCount > 0
  {
    PriceLevel(
      if o.prev == NULL_ORDER_INDEX then o.next else l.head,
      if o.next == NULL_ORDER_INDEX then o.prev else l.tail,
      SubWrap(l.totalQty, o.qty),
      l.orderCount - 1)
  }

  /** What the code relies on to unlink position k: its links are its neighbours and its level is not empty. */
  ghost predicate CanUnlink(r: SideRep, k: nat)
    requires r.Placed()
  {
    && k < |r.queue|
    && r.At(k).prev == (if r.First(k) then NULL_ORDER_INDEX else r.queue[k - 1])
    && r.At(k).next == (if r.Last(k) then NULL_ORDER_INDEX else r.queue[k + 1])
    && r.LevelOf(k).orderCount > 0
    && (0 < k < |r.queue| - 1 && r.At(k - 1).price == r.At(k + 1).price ==> r.At(k).price == r.At(k + 1).price)
  }

  /** What keeps the writes of `unlink_from_level` inside the arrays. */
  ghost predicate Unlinkable(r: SideRep, k: nat) {
    && k < |r.queue| && r.queue[k] < |r.orders|
    && var idx := r.queue[k];
    && var o := r.orders[idx];
    && r.Fits(o) && LevelFor(r, o).orderCount > 0
    && (o.prev != NULL_ORDER_INDEX ==> o.prev < |r.orders|) && o.prev != idx
    && (o.next != NULL_ORDER_INDEX ==> o.next < |r.orders|) && o.next != idx
  }

  /** The representation after `unlink_from_level` of position k. */
  ghost function UnlinkRep(r: SideRep, k: nat): SideRep
    requires Unlinkable(r, k)
  {
    var o := r.orders[r.queue[k]];
    SideRep(r.side, r.minPrice, Unlinked(r.orders, r.queue[k]),
            r.levels[o.price - r.minPrice := UnlinkedLevel(LevelFor(r, o), o)], RemoveAt(r.queue, k))
  }

  lemma OkUnlinks(r: SideRep, k: nat)
    requires r.Placed() && Sorted(r.side, r.Entries()) && r.Linked() && r.Tallied() && k < |r.queue|
    ensures CanUnlink(r, k)
  {
    LevelNotEmpty(r, k);
    var s := r.Entries();
    assert r.At(k).prev == r.At(k).prev && r.At(k).next == r.At(k).next;
    if 0 < k < |r.queue| - 1 {
      assert s[k - 1].price == r.At(k - 1).price && s[k].price == r.At(k).price && s[k + 1].price == r.At(k + 1).price;
    }
  }

  lemma LevelNotEmpty(r: SideRep, k: nat)
    requires r.Placed() && r.Tallied() && k < |r.queue|
    ensures r.LevelOf(k).orderCount > 0
  {
    var x := r.At(k).price - r.minPrice;
    assert LevelTallied(r.levels[x], r.Entries(), r.minPrice + x);
    CountWitness(r.Entries(), r.At(k).price);
    assert r.Entries()[k].price == r.At(k).price;
  }

  lemma UnlinkedWrites(orders: seq<Order>, idx: OrderIndex)
    requires idx < |orders|
    requires var o := orders[idx];
             && o.prev != idx && o.next != idx && (o.prev == o.next ==> o.prev == NULL_ORDER_INDEX)
             && (o.prev != NULL_ORDER_INDEX ==> o.prev < |orders|) && (o.next != NULL_ORDER_INDEX ==> o.next < |orders|)
    ensures var t := Unlinked(orders, idx);
            var o := orders[idx];
            && |t| == |orders|
            && t[idx] == o.(prev := NULL_ORDER_INDEX, next := NULL_ORDER_INDEX)
            && (o.prev != NULL_ORDER_INDEX ==> t[o.prev] == orders[o.prev].(next := o.next))
            && (o.next != NULL_ORDER_INDEX ==> t[o.next] == orders[o.next].(prev := o.prev))
            && (forall i: OrderIndex :: i < |orders| && i != idx && i != o.prev && i != o.next ==> t[i] == orders[i])
  {}

  /** Each position of the queue after the removal. */
  ghost predicate UnlinkFacts(r: SideRep, k: nat, t: SideRep)
    requires r.Placed() && CanUnlink(r, k)
  {
    && t.Placed() && |t.queue| == |r.queue| - 1
    && (forall i {:trigger t.queue[i]} {:trigger t.At(i)} :: 0 <= i < k ==>
          t.queue[i] == r.queue[i]
          && t.At(i) == if i == k - 1 && !r.First(k) then r.At(i).(next := r.At(k).next) else r.At(i))
    && (forall i {:trigger t.queue[i]} {:trigger t.At(i)} :: k <= i < |t.queue| ==>
          t.queue[i] == r.queue[i + 1]
          && t.At(i) == if i == k && !r.Last(k) then r.At(i + 1).(prev := r.At(k).prev) else r.At(i + 1))
  }

  lemma UnlinkOrders(r: SideRep, k: nat)
    requires r.Placed() && NoRepeats(r.queue) && CanUnlink(r, k)
    ensures Unlinkable(r, k)
    ensures var t := UnlinkRep(r, k).orders;
            && |t| == |r.orders|
            && (forall i :: 0 <= i < |r.queue| && i != k ==>
                  t[r.queue[i]] == if i == k - 1 && !r.First(k) then r.At(i).(next := r.At(k).next)
                                   else if i == k + 1 && !r.Last(k) then r.At(i).(prev := r.At(k).prev)
                                   else r.At(i))
            && r.ChangedOnlyAt(t, r.queue[k])
  {
    UnlinkedWrites(r.orders, r.queue[k]);
  }

  lemma UnlinkHasFacts(r: SideRep, k: nat)
    requires r.Placed() && NoRepeats(r.queue) && CanUnlink(r, k)
    ensures Unlinkable(r, k)
    ensures UnlinkFacts(r, k, UnlinkRep(r, k))
    ensures NoRepeats(UnlinkRep(r, k).queue)
  {
    UnlinkOrders(r, k);
    RemoveIndices(r.queue, k);
    hide SideRep.ChangedOnlyAt;
    hide Unlinked;
    assert UnlinkRep(r, k).Placed();
  }

  lemma UnlinkEntries(r: SideRep, k: nat)
    requires r.Placed() && NoRepeats(r.queue) && CanUnlink(r, k)
    ensures Unlinkable(r, k)
    ensures var t := UnlinkRep(r, k); t.Placed() && t.Entries() == RemoveAt(r.Entries(), k)
  {
    UnlinkHasFacts(r, k);
    RemoveIndices(r.Entries(), k);
  }

  lemma UnlinkFirst(r: SideRep, k: nat, t: SideRep, i: nat)
    requires r.Placed() && CanUnlink(r, k) && UnlinkFacts(r, k, t) && i < |t.queue|
    ensures t.First(i) == if i < k then r.First(i) else if i == k then r.First(k) || r.Last(k) else r.First(i + 1)
  {}

  lemma UnlinkLast(r: SideRep, k: nat, t: SideRep, i: nat)
    requires r.Placed() && CanUnlink(r, k) && UnlinkFacts(r, k, t) && i < |t.queue|
    ensures t.Last(i) == if i + 1 < k then r.Last(i) else if i + 1 == k then r.First(k) || r.Last(k) else r.Last(i + 1)
  {}

  /** UnlinkFacts for one position. */
  lemma UnlinkAt(r: SideRep, k: nat, t: SideRep, i: nat)
    requires r.Placed() && CanUnlink(r, k) && UnlinkFacts(r, k, t) && i < |t.queue|
    ensures t.Placed() && |t.queue| == |r.queue| - 1
    ensures t.queue[i] == r.queue[if i < k then i else i + 1]
    ensures i < k ==> t.At(i) == if i == k - 1 && !r.First(k) then r.At(i).(next := r.At(k).next) else r.At(i)
    ensures i >= k ==> t.At(i) == if i == k && !r.Last(k) then r.At(i + 1).(prev := r.At(k).prev) else r.At(i + 1)
  {}

  lemma UnlinkPrevAt(r: SideRep, k: nat, t: SideRep, i: nat)
    requires r.Placed() && r.Linked() && r.Headed() && CanUnlink(r, k) && UnlinkFacts(r, k, t) && i < |t.queue|
    ensures t.At(i).prev == if t.First(i) then NULL_ORDER_INDEX else t.queue[i - 1]
  {
    hide SideRep.Placed;
    hide SideRep.Linked;
    hide SideRep.Headed;
    hide UnlinkFacts;
    UnlinkFirst(r, k, t, i);
    UnlinkAt(r, k, t, i);
    if i > 0 { UnlinkAt(r, k, t, i - 1); }
    PositionIs(r, if i < k then i else i + 1);
  }

  lemma UnlinkNextAt(r: SideRep, k: nat, t: SideRep, i: nat)
    requires r.Placed() && r.Linked() && r.Headed() && CanUnlink(r, k) && UnlinkFacts(r, k, t) && i < |t.queue|
    ensures t.At(i).next == if t.Last(i) then NULL_ORDER_INDEX else t.queue[i + 1]
  {
    hide SideRep.Placed;
    hide SideRep.Linked;
    hide SideRep.Headed;
    hide UnlinkFacts;
    UnlinkLast(r, k, t, i);
    UnlinkAt(r, k, t, i);
    if i + 1 < |t.queue| { UnlinkAt(r, k, t, i + 1); }
    PositionIs(r, if i < k then i else i + 1);
  }

  /** Only the header of the order's own price changes. */
  lemma UnlinkLevels(r: SideRep, k: nat, x: nat)
    requires r.Placed() && CanUnlink(r, k) && Unlinkable(r, k) && x < |r.levels|
    ensures var t := UnlinkRep(r, k);
            && t.minPrice == r.minPrice && |t.levels| == |r.levels|
            && t.levels[x] == if x == r.At(k).price - r.minPrice then UnlinkedLevel(r.LevelOf(k), r.At(k))
                              else r.levels[x]
  {}

  lemma TwoSlots(q: seq<OrderIndex>, j: nat, k: nat)
    requires NoRepeats(q) && j < |q| && k < |q| && j != k
    ensures q[j] != q[k]
  {}

  lemma UnlinkHeadAt(r: SideRep, k: nat, t: SideRep, i: nat)
    requires r.Placed() && NoRepeats(r.queue) && r.Linked() && r.Headed() && CanUnlink(r, k) && i < |t.queue|
    requires Unlinkable(r, k) && t == UnlinkRep(r, k) && UnlinkFacts(r, k, t)
    ensures t.First(i) ==> t.LevelOf(i).head == t.queue[i]
  {
    hide NoRepeats;
    hide SideRep.Placed;
    hide SideRep.Linked;
    hide SideRep.Headed;
    hide UnlinkFacts;
    hide UnlinkRep;
    hide Unlinkable;
    hide SubWrap;
    var j := if i < k then i else i + 1;
    UnlinkAt(r, k, t, i);
    TwoSlots(r.queue, j, k);
    PositionIs(r, j);
    PositionIs(r, k);
    UnlinkFirst(r, k, t, i);
    UnlinkLevels(r, k, r.At(j).price - r.minPrice);
    assert t.At(i).price == r.At(j).price;
    if t.First(i) && r.First(k) && r.At(j).price == r.At(k).price {
      assert r.LevelOf(k).head == r.queue[k] && !r.First(j);
    }
  }

  lemma UnlinkTailAt(r: SideRep, k: nat, t: SideRep, i: nat)
    requires r.Placed() && NoRepeats(r.queue) && r.Linked() && r.Headed() && CanUnlink(r, k) && i < |t.queue|
    requires Unlinkable(r, k) && t == UnlinkRep(r, k) && UnlinkFacts(r, k, t)
    ensures t.Last(i) ==> t.LevelOf(i).tail == t.queue[i]
  {
    hide NoRepeats;
    hide SideRep.Placed;
    hide SideRep.Linked;
    hide SideRep.Headed;
    hide UnlinkFacts;
    hide UnlinkRep;
    hide Unlinkable;
    hide SubWrap;
    var j := if i < k then i else i + 1;
    UnlinkAt(r, k, t, i);
    TwoSlots(r.queue, j, k);
    PositionIs(r, j);
    PositionIs(r, k);
    UnlinkLast(r, k, t, i);
    UnlinkLevels(r, k, r.At(j).price - r.minPrice);
    assert t.At(i).price == r.At(j).price;
    if t.Last(i) && r.Last(k) && r.At(j).price == r.At(k).price {
      assert r.LevelOf(k).tail == r.queue[k] && !r.Last(j);
    }
  }

  lemma UnlinkLinked(r: SideRep, k: nat)
    requires r.Placed() && NoRepeats(r.queue) && r.Linked() && r.Headed() && CanUnlink(r, k)
    ensures Unlinkable(r, k)
    ensures var t := UnlinkRep(r, k); t.Placed() && t.Linked() && t.Headed()
  {
    UnlinkHasFacts(r, k);
    var t := UnlinkRep(r, k);
    hide NoRepeats;
    forall i | 0 <= i < |t.queue| ensures PositionOk(t, i) {
      UnlinkPrevAt(r, k, t, i);
      UnlinkNextAt(r, k, t, i);
      UnlinkHeadAt(r, k, t, i);
      UnlinkTailAt(r, k, t, i);
      hide SideRep.Linked;
      hide SideRep.Headed;
      hide CanUnlink;
      hide Unlinkable;
      hide UnlinkFacts;
      hide UnlinkRep;
    }
    hide CanUnlink;
    hide UnlinkFacts;
    PositionsOk(t);
  }

  /** The header of the order's price counts and sums one order less; emptied, it has no ends. */
  lemma LessTallied(l: PriceLevel, s: seq<Entry>, k: nat, o: Order)
    requires k < |s| && s[k] == EntryOf(o) && l.orderCount > 0 && LevelTallied(l, s, o.price)
    requires CountAt(RemoveAt(s, k), o.price) == 0 ==> o.prev == NULL_ORDER_INDEX && o.next == NULL_ORDER_INDEX
    ensures LevelTallied(UnlinkedLevel(l, o), RemoveAt(s, k), o.price)
  {
    CountSumRemove(s, k, o.price);
    WordTotals(SumAt(s, o.price), o.qty);
    hide CountAt;
    hide SumAt;
    hide RemoveAt;
    hide SubWrap;
  }

  lemma UnlinkTalliedAt(r: SideRep, k: nat, x: nat)
    requires r.Placed() && NoRepeats(r.queue) && CanUnlink(r, k) && Unlinkable(r, k) && x < |r.levels|
    requires LevelTallied(r.levels[x], r.Entries(), r.minPrice + x)
    ensures LevelTallied(UnlinkRep(r, k).levels[x], RemoveAt(r.Entries(), k), r.minPrice + x)
  {
    hide UnlinkRep;
    UnlinkLevels(r, k, x);
    CountSumRemove(r.Entries(), k, r.minPrice + x);
    hide Unlinkable;
    hide CountAt;
    hide SumAt;
    hide RemoveAt;
    if x == r.At(k).price - r.minPrice {
      if CountAt(RemoveAt(r.Entries(), k), r.At(k).price) == 0 {
        LoneOrder(r, k);
      }
      LessTallied(r.levels[x], r.Entries(), k, r.At(k));
    }
  }

  lemma UnlinkTallied(r: SideRep, k: nat)
    requires r.Placed() && NoRepeats(r.queue) && r.Tallied() && CanUnlink(r, k)
    ensures Unlinkable(r, k)
    ensures var t := UnlinkRep(r, k); t.Placed() && t.Tallied()
  {
    UnlinkEntries(r, k);
    var t := UnlinkRep(r, k);
    assert t.minPrice == r.minPrice && |t.levels| == |r.levels|;
    forall x | 0 <= x < |t.levels| ensures LevelTallied(t.levels[x], t.Entries(), t.minPrice + x) {
      UnlinkTalliedAt(r, k, x);
    }
    hide UnlinkRep;
    hide Unlinkable;
    hide CanUnlink;
    hide LevelTallied;
  }

  /** A position that is alone at its price is both ends of its queue. */
  lemma LoneOrder(r: SideRep, k: nat)
    requires r.Placed() && k < |r.queue|
    requires CountAt(RemoveAt(r.Entries(), k), r.At(k).price) == 0
    ensures r.First(k) && r.Last(k)
  {
    var s := RemoveAt(r.Entries(), k);
    CountWitness(s, r.At(k).price);
    RemoveIndices(r.Entries(), k);
    if k > 0 { assert s[k - 1].price == r.At(k - 1).price; }
    if k + 1 < |r.queue| { assert s[k].price == r.At(k + 1).price; }
  }

  /** `unlink_from_level` keeps the representation and takes exactly the one order out of the queue. */
  lemma UnlinkKeeps(r: SideRep, k: nat)
    requires r.Ok() && k < |r.queue|
    ensures Unlinkable(r, k)
    ensures var t := UnlinkRep(r, k);
            && t.Ok()
            && t.Entries() == RemoveAt(r.Entries(), k)
            && r.ChangedOnlyAt(t.orders, r.queue[k])
  {
    OkUnlinks(r, k);
    UnlinkOrders(r, k);
    UnlinkHasFacts(r, k);
    UnlinkEntries(r, k);
    RemoveKeepsSorted(r.side, r.Entries(), k);
    UnlinkLinked(r, k);
    UnlinkTallied(r, k);
  }

  lemma RemoveKeepsSorted(side: Side, s: seq<Entry>, k: nat)
    requires k < |s| && Sorted(side, s)
    ensures Sorted(side, RemoveAt(s, k))
  {
    RemoveIndices(s, k);
  }

  // ---- Partial fills and frames ----

  /** The representation after `reduce_order_quantity` of position k. */
  ghost function ReduceRep(r: SideRep, k: nat, traded: Quantity): SideRep
    requires r.Placed() && k < |r.queue| && traded < r.At(k).qty
  {
    var o := r.At(k);
    var l := r.LevelOf(k);
    SideRep(r.side, r.minPrice, r.orders[r.queue[k] := o.(qty := o.qty - traded)],
            r.levels[o.price - r.minPrice := l.(totalQty := SubWrap(l.totalQty, traded))], r.queue)
  }

  lemma ReducedSums(s: seq<Entry>, k: nat, traded: Quantity, price: Price)
    requires k < |s| && traded <= s[k].qty
    ensures var t := s[k := s[k].(qty := s[k].qty - traded)];
            && CountAt(t, price) == CountAt(s, price)
            && SumAt(t, price) == SumAt(s, price) - if s[k].price == price then traded else 0
  {
    var e := s[k].(qty := s[k].qty - traded);
    assert s[k := e] == InsertAt(RemoveAt(s, k), k, e);
    CountSumRemove(s, k, price);
    CountSumInsert(RemoveAt(s, k), k, e, price);
  }

  lemma ReduceTalliedAt(r: SideRep, k: nat, traded: Quantity, x: nat)
    requires r.Placed() && k < |r.queue| && traded < r.At(k).qty && x < |r.levels|
    requires LevelTallied(r.levels[x], r.Entries(), r.minPrice + x)
    ensures var s := r.Entries();
            LevelTallied(ReduceRep(r, k, traded).levels[x], s[k := s[k].(qty := s[k].qty - traded)], r.minPrice + x)
  {
    ReducedSums(r.Entries(), k, traded, r.minPrice + x);
    ReducedLevels(r, k, traded, x);
    hide ReduceRep;
    hide SideRep.Placed;
    if x == r.At(k).price - r.minPrice {
      LessTotal(r.levels[x], r.Entries(), k, traded, r.minPrice + x);
    }
    hide CountAt;
    hide SumAt;
  }

  lemma ReducedLevels(r: SideRep, k: nat, traded: Quantity, x: nat)
    requires r.Placed() && k < |r.queue| && traded < r.At(k).qty && x < |r.levels|
    ensures ReduceRep(r, k, traded).levels[x]
            == if x == r.At(k).price - r.minPrice then r.levels[x].(totalQty := SubWrap(r.levels[x].totalQty, traded))
               else r.levels[x]
  {}

  /** A total that gives up the traded quantity, modulo 2^64, is the total of what is left. */
  lemma LessTotal(l: PriceLevel, s: seq<Entry>, k: nat, traded: Quantity, price: Price)
    requires k < |s| && traded <= s[k].qty && s[k].price == price && LevelTallied(l, s, price)
    ensures LevelTallied(l.(totalQty := SubWrap(l.totalQty, traded)), s[k := s[k].(qty := s[k].qty - traded)], price)
  {
    ReducedSums(s, k, traded, price);
    WordTotals(SumAt(s, price), traded);
    hide CountAt;
    hide SumAt;
    hide SubWrap;
  }

  lemma ReduceEntries(r: SideRep, k: nat, traded: Quantity)
    requires r.Placed() && NoRepeats(r.queue) && k < |r.queue| && traded < r.At(k).qty
    ensures var t, s := ReduceRep(r, k, traded), r.Entries();
            t.Placed() && t.Entries() == s[k := s[k].(qty := s[k].qty - traded)]
  {}

  lemma ReduceTallied(r: SideRep, k: nat, traded: Quantity)
    requires r.Placed() && NoRepeats(r.queue) && r.Tallied() && k < |r.queue| && traded < r.At(k).qty
    ensures var t := ReduceRep(r, k, traded); t.Placed() && t.Tallied()
  {
    var t := ReduceRep(r, k, traded);
    ReduceEntries(r, k, traded);
    forall x | 0 <= x < |t.levels| ensures LevelTallied(t.levels[x], t.Entries(), t.minPrice + x) {
      ReduceTalliedAt(r, k, traded, x);
    }
  }

  /** t has the links, prices and queue ends of r. */
  ghost predicate SameShape(r: SideRep, t: SideRep)
    requires r.Placed() && t.Placed()
  {
    && t.queue == r.queue && t.minPrice == r.minPrice && |t.levels| == |r.levels|
    && (forall i {:trigger t.At(i)} :: 0 <= i < |r.queue| ==>
          t.At(i).price == r.At(i).price && t.At(i).prev == r.At(i).prev && t.At(i).next == r.At(i).next)
    && (forall x {:trigger t.levels[x]} :: 0 <= x < |r.levels| ==>
          t.levels[x].head == r.levels[x].head && t.levels[x].tail == r.levels[x].tail)
  }

  lemma SameEnds(r: SideRep, t: SideRep, i: nat)
    requires r.Placed() && t.Placed() && SameShape(r, t) && i < |r.queue|
    ensures t.First(i) == r.First(i) && t.Last(i) == r.Last(i)
  {}

  /** SameShape for one position. */
  lemma SameAt(r: SideRep, t: SideRep, i: nat)
    requires r.Placed() && t.Placed() && SameShape(r, t) && i < |r.queue|
    ensures t.queue == r.queue && t.minPrice == r.minPrice && |t.levels| == |r.levels|
    ensures t.At(i).price == r.At(i).price && t.At(i).prev == r.At(i).prev && t.At(i).next == r.At(i).next
    ensures t.LevelOf(i).head == r.LevelOf(i).head && t.LevelOf(i).tail == r.LevelOf(i).tail
    ensures t.First(i) == r.First(i) && t.Last(i) == r.Last(i)
  {
    var x := t.At(i).price - t.minPrice;
    assert r.Fits(r.At(i)) && t.levels[x].head == r.levels[x].head;
    SameEnds(r, t, i);
    hide SideRep.First;
    hide SideRep.Last;
  }

  lemma SamePosition(r: SideRep, t: SideRep, i: nat)
    requires r.Placed() && r.Linked() && r.Headed() && t.Placed() && SameShape(r, t) && i < |r.queue|
    ensures PositionOk(t, i)
  {
    hide SideRep.Placed;
    hide SideRep.Linked;
    hide SideRep.Headed;
    hide SameShape;
    PositionIs(r, i);
    SameAt(r, t, i);
    hide SideRep.First;
    hide SideRep.Last;
    hide SideRep.LevelOf;
  }

  lemma SameShapeLinked(r: SideRep, t: SideRep)
    requires r.Placed() && r.Linked() && r.Headed() && t.Placed() && SameShape(r, t)
    ensures t.Linked() && t.Headed()
  {
    forall i | 0 <= i < |t.queue| ensures PositionOk(t, i) {
      SamePosition(r, t, i);
    }
    hide SameShape;
    hide SideRep.Placed;
    PositionsOk(t);
  }

  /** `reduce_order_quantity` keeps the representation and takes the traded quantity off that one order. */
  lemma ReduceKeeps(r: SideRep, k: nat, traded: Quantity)
    requires r.Ok() && k < |r.queue| && traded < r.At(k).qty
    ensures var t := ReduceRep(r, k, traded);
            var e := r.Entries()[k];
            && t.Ok() && t.Entries() == r.Entries()[k := e.(qty := e.qty - traded)]
            && r.ChangedOnlyAt(t.orders, r.queue[k])
  {
    ReduceEntries(r, k, traded);
    ReduceTallied(r, k, traded);
    ReduceShape(r, k, traded);
    SameShapeLinked(r, ReduceRep(r, k, traded));
  }

  lemma ReduceShape(r: SideRep, k: nat, traded: Quantity)
    requires r.Placed() && NoRepeats(r.queue) && k < |r.queue| && traded < r.At(k).qty
    ensures var t := ReduceRep(r, k, traded); t.Placed() && SameShape(r, t)
  {}

  /** Writes to slots outside the queue do not touch the side. */
  lemma OtherSlotsStay(r: SideRep, t: SideRep)
    requires r.Ok() && |t.orders| == |r.orders| && t == r.(orders := t.orders)
    requires forall i :: 0 <= i < |r.queue| ==> t.orders[r.queue[i]] == r.orders[r.queue[i]]
    ensures t.Ok() && t.Entries() == r.Entries()
  {
    hide SideRep.Linked;
    hide SideRep.Headed;
    assert forall i :: 0 <= i < |r.queue| ==> r.Fits(r.At(i)) && t.orders[t.queue[i]] == r.At(i);
    assert t.Placed() && SameShape(r, t);
    SameShapeLinked(r, t);
    assert t.Entries() == r.Entries();
    hide SideRep.Placed;
    hide SameShape;
  }

  lemma EmptyRepOk(r: SideRep)
    requires r.queue == [] && |r.orders| <= NULL_ORDER_INDEX && r.minPrice + |r.levels| <= U64
    requires forall x :: 0 <= x < |r.levels| ==> r.levels[x] == EMPTY_LEVEL
    ensures r.Ok() && r.Entries() == []
  {}
}
