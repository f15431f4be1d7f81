/**
 Following the links that are stored in the slots: from the head of a level, `next_idx` leads through
 exactly the orders of its price, in arrival order, and then to null.
 */
module LevelWalk {
  import opened Types
  import opened Matcher
  import opened LevelQueues

  /** The slots met in at most n steps along `next_idx` from idx; the walk ends at null. */
  function Walk(orders: seq<Order>, idx: OrderIndex, n: nat): seq<OrderIndex>
    decreases n
  {
    if n == 0 || idx >= |orders| then [] else [idx] + Walk(orders, orders[idx].next, n - 1)
  }

  /** Where n steps along `next_idx` from idx lead. */
  function Follow(orders: seq<Order>, idx: OrderIndex, n: nat): OrderIndex
    decreases n
  {
    if n == 0 || idx >= |orders| then idx else Follow(orders, orders[idx].next, n - 1)
  }

  /** The orders of one price, in arrival order. */
  function AtPrice(s: seq<Entry>, price: Price): seq<Entry> {
    if s == [] then [] else (if s[0].price == price then [s[0]] else []) + AtPrice(s[1..], price)
  }

  /** What the slots hold. */
  function EntriesIn(orders: seq<Order>, slots: seq<OrderIndex>): (s: seq<Entry>)
    requires forall k :: 0 <= k < |slots| ==> slots[k] < |orders|
  {
    if slots == [] then [] else [EntryOf(orders[slots[0]])] + EntriesIn(orders, slots[1..])
  }

  lemma {:induction false} AtPriceCounts(s: seq<Entry>, price: Price)
    ensures |AtPrice(s, price)| == CountAt(s, price)
  {
    if s != [] { AtPriceCounts(s[1..], price); }
  }

  /** The sum at a price is the whole quantity of the orders that have it. */
  lemma {:induction false} AtPriceSums(s: seq<Entry>, price: Price)
    ensures SumAt(s, price) == TotalQty(AtPrice(s, price))
  {
    if s != [] {
      AtPriceSums(s[1..], price);
      if s[0].price == price {
        assert AtPrice(s, price)[1..] == AtPrice(s[1..], price);
      } else {
        assert AtPrice(s, price) == AtPrice(s[1..], price);
      }
    }
  }

  lemma {:induction false} NoneAtPrice(s: seq<Entry>, price: Price)
    requires forall i :: 0 <= i < |s| ==> s[i].price != price
    ensures AtPrice(s, price) == []
  {
    if s != [] { NoneAtPrice(s[1..], price); }
  }

  /** Orders in front of the first one of a price are not of that price. */
  lemma {:induction false} AtPriceFrom(s: seq<Entry>, price: Price, i: nat)
    requires i <= |s| && forall j :: 0 <= j < i ==> s[j].price != price
    ensures AtPrice(s, price) == AtPrice(s[i..], price)
  {
    if i > 0 {
      AtPriceFrom(s[1..], price, i - 1);
      assert s[1..][i - 1..] == s[i..];
    } else {
      assert s[0..] == s;
    }
  }

  /** The links of neighbours point at each other, and only within one price. */
  lemma LinksAreMutual(r: SideRep, i: nat)
    requires r.Ok() && i < |r.queue|
    ensures var o := r.At(i);
            && (o.next != NULL_ORDER_INDEX ==>
                  && o.next < |r.orders|
                  && r.orders[o.next].prev == r.queue[i] && r.orders[o.next].price == o.price)
            && (o.prev != NULL_ORDER_INDEX ==>
                  && o.prev < |r.orders|
                  && r.orders[o.prev].next == r.queue[i] && r.orders[o.prev].price == o.price)
  {
    hide SideRep.Tallied;
    PositionIs(r, i);
    if i > 0 { PositionIs(r, i - 1); }
    if i + 1 < |r.queue| { PositionIs(r, i + 1); }
    assert (i > 0 ==> r.queue[i - 1] < |r.orders|) && (i + 1 < |r.queue| ==> r.queue[i + 1] < |r.orders|);
    hide SideRep.Linked;
    hide SideRep.Headed;
    hide SideRep.Placed;
    hide Sorted;
  }

  /** The walk from a slot that the stored link leads to: the slots in `rest`, and then null. */
  ghost predicate Walks(orders: seq<Order>, idx: OrderIndex, rest: seq<Entry>) {
    var walk := Walk(orders, idx, |rest|);
    && |walk| == |rest|
    && (forall k :: 0 <= k < |walk| ==> walk[k] < |orders|)
    && EntriesIn(orders, walk) == rest
    && Follow(orders, idx, |rest|) == NULL_ORDER_INDEX
  }

  lemma WalksOn(orders: seq<Order>, idx: OrderIndex, rest: seq<Entry>)
    requires idx < |orders| && Walks(orders, orders[idx].next, rest)
    ensures Walks(orders, idx, [EntryOf(orders[idx])] + rest)
  {
    var after := Walk(orders, orders[idx].next, |rest|);
    var walk := Walk(orders, idx, 1 + |rest|);
    assert walk == [idx] + after && walk[1..] == after;
    assert forall k :: 0 < k < |walk| ==> walk[k] == after[k - 1];
    hide Walk;
  }

  /** From position i on: the walk meets what is left of that price, and nothing else. */
  lemma {:induction false} WalkFrom(r: SideRep, i: nat)
    requires r.Ok() && i < |r.queue|
    ensures Walks(r.orders, r.queue[i], AtPrice(r.Entries()[i..], r.At(i).price))
    decreases |r.queue| - i
  {
    assert r.Placed();
    hide SideRep.Ok;
    hide SideRep.Placed;
    var s, p, idx := r.Entries(), r.At(i).price, r.queue[i];
    NextIs(r, i);
    AtPriceFirst(s, i);
    if i + 1 < |r.queue| && r.At(i + 1).price == p {
      hide Walks;
      WalkFrom(r, i + 1);
    } else {
      NoneBehind(r, i);
      assert Walks(r.orders, r.orders[idx].next, []);
    }
    WalksOn(r.orders, idx, AtPrice(s[i + 1..], p));
  }

  lemma AtPriceFirst(s: seq<Entry>, i: nat)
    requires i < |s|
    ensures AtPrice(s[i..], s[i].price) == [s[i]] + AtPrice(s[i + 1..], s[i].price)
  {
    assert s[i..][0] == s[i] && s[i..][1..] == s[i + 1..];
  }

  /** The stored link of position i: the next position of the same price, or null. */
  lemma NextIs(r: SideRep, i: nat)
    requires r.Ok() && i < |r.queue|
    ensures r.queue[i] < |r.orders| <= NULL_ORDER_INDEX
    ensures r.orders[r.queue[i]].next
            == if i + 1 < |r.queue| && r.At(i + 1).price == r.At(i).price then r.queue[i + 1] else NULL_ORDER_INDEX
  {
    hide SideRep.Tallied;
    PositionIs(r, i);
    assert r.queue[i] < |r.orders|;
    hide SideRep.Linked;
    hide SideRep.Headed;
  }

  /** Behind the last order of its price there is none of that price. */
  lemma NoneBehind(r: SideRep, i: nat)
    requires r.Ok() && i < |r.queue| && (i + 1 < |r.queue| ==> r.At(i + 1).price != r.At(i).price)
    ensures AtPrice(r.Entries()[i + 1..], r.At(i).price) == []
  {
    hide SideRep.Linked;
    hide SideRep.Headed;
    hide SideRep.Tallied;
    var s, p := r.Entries(), r.At(i).price;
    forall j | i < j < |s| ensures s[j].price != p {
      assert !Better(r.side, s[j].price, s[i + 1].price) || j == i + 1;
      assert !Better(r.side, s[i + 1].price, s[i].price);
    }
    var t := s[i + 1..];
    forall k | 0 <= k < |t| ensures t[k].price != p {
      assert t[k] == s[i + 1 + k];
    }
    NoneAtPrice(t, p);
  }

  /**
   Walking `next_idx` from the head of a level meets exactly the orders of its price in arrival order,
   and reaches null after `order_count` steps.
   */
  lemma LevelIsWalked(r: SideRep, price: Price)
    requires r.Ok() && r.minPrice <= price < r.minPrice + |r.levels|
    ensures var l := r.levels[price - r.minPrice];
            |AtPrice(r.Entries(), price)| == l.orderCount && Walks(r.orders, l.head, AtPrice(r.Entries(), price))
  {
    hide SideRep.Linked;
    var l, s := r.levels[price - r.minPrice], r.Entries();
    assert LevelTallied(l, s, r.minPrice + (price - r.minPrice));
    AtPriceCounts(s, price);
    if l.orderCount > 0 {
      var i := FirstAt(s, price);
      AtPriceFrom(s, price, i);
      assert r.At(i).price == price && r.First(i);
      hide SideRep.Headed;
      hide SideRep.Ok;
      WalkFrom(r, i);
    }
    hide AtPrice;
  }
}
