/**
 What a command does to the book, and what a direct add does, said without the operations that model
 them: who trades with whom and at what price, what rests where, and what is left alone.
 */
module CommandLaws {
  import opened Types
  import opened Matcher
  import opened MatchingLaws
  import opened RunLaws

  /** The order rests at position k of the side, behind all of the same or a better price and before all worse. */
  ghost predicate RestsAt(side: Side, s: seq<Entry>, t: seq<Entry>, k: nat, e: Entry) {
    && k < |t| && t[k] == e && t[..k] + t[k + 1..] == s
    && (forall i :: 0 <= i < k ==> if side.Buy? then t[i].price >= e.price else t[i].price <= e.price)
    && (forall i :: k < i < |t| ==> if side.Buy? then t[i].price < e.price else t[i].price > e.price)
  }

  /** The incoming order may trade at the best price of the other side. */
  ghost predicate Meets(side: Side, price: Price, opp: seq<Entry>) {
    opp != [] && if side.Buy? then opp[0].price <= price else opp[0].price >= price
  }

  /**
   A limit command is accepted iff it has quantity, its price is in range, its id is not live, and a
   slot is free or it meets the other side. Accepted, it trades with the other side by price-time
   priority, and what is left of it rests under its own id and price; refused, it does nothing.
   */
  lemma LimitCommandTradesAndRests(b: Book, c: OrderCommand) returns (left: Quantity, k: nat)
    requires b.WellFormed() && c.kind.AddLimit?
    ensures var r := Step(b, OpOf(c));
            var own, opp := b.Orders(c.side), b.Orders(c.side.Opposite());
            var own', opp' := r.book.Orders(c.side), r.book.Orders(c.side.Opposite());
            && (r.ok <==>
                  && c.qty > 0 && b.minPrice <= c.price <= b.maxPrice && !b.Live(c.orderId)
                  && (b.Active() < b.capacity || Meets(c.side, c.price, opp)))
            && (!r.ok ==> r.book == b && r.execs == [])
            && (r.ok ==>
                  && IsPriceTimeFill(c.orderId, c.side, c.price, c.qty, opp, MatchResult(r.execs, left, opp'))
                  && (left == 0 ==> own' == own)
                  && (left > 0 ==> RestsAt(c.side, own, own', k, Entry(c.orderId, c.price, left)))
                  && r.book == b.With(c.side, own').With(c.side.Opposite(), opp'))
  {
    var opp := b.Orders(c.side.Opposite());
    var m := Match(c.orderId, c.side, c.price, c.qty, opp);
    var matched := b.With(c.side.Opposite(), m.rest);
    left := m.left;
    k := 0;
    assert AllPositive(opp);
    assert Step(b, OpOf(c)) == Submit(b, c.orderId, c.side, c.price, c.qty);
    SubmitAllOrNothing(b, c.orderId, c.side, c.price, c.qty);
    SubmitParts(b, c.orderId, c.side, c.price, c.qty);
    MatchIsPriceTimeFill(c.orderId, c.side, c.price, c.qty, opp);
    if c.qty > 0 && b.ValidPrice(c.price) && !b.Live(c.orderId) {
      SubmitMatchKeeps(b, c.orderId, c.side, c.price, c.qty);
      if left > 0 {
        k := AddQueuesBehind(matched, c.orderId, c.side, c.price, left);
        RestsWhereAdded(matched, c.orderId, c.side, c.price, left, k);
      }
    }
    hide Match;
    hide Matcher.Add;
    hide Submit;
    hide Step;
    hide IsPriceTimeFill;
    hide RestsAt;
    hide Book.SideOk;
    hide Distinct;
    hide Apart;
  }

  /** Where an accepted add has queued, in the words of RestsAt. */
  lemma RestsWhereAdded(b: Book, id: OrderId, side: Side, price: Price, qty: Quantity, k: nat)
    requires var t := Add(b, id, side, price, qty).book.Orders(side);
             Add(b, id, side, price, qty).ok ==>
               && k < |t| && t[k] == Entry(id, price, qty) && RemoveAt(t, k) == b.Orders(side)
               && (forall i :: 0 <= i < k ==> !Better(side, price, t[i].price))
               && (forall i :: k < i < |t| ==> Better(side, price, t[i].price))
    ensures var r := Add(b, id, side, price, qty);
            r.ok ==> RestsAt(side, b.Orders(side), r.book.Orders(side), k, Entry(id, price, qty))
                     && r.book == b.With(side, r.book.Orders(side))
  {
    hide QueuePos;
    hide InsertAt;
  }

  /**
   A cancel command is accepted iff its id is live. Accepted, it takes that one order out, wherever it
   rests, and the id is not live any more; it never trades, and nothing else moves.
   */
  lemma CancelCommandRemovesOne(b: Book, c: OrderCommand) returns (side: Side, k: nat)
    requires b.WellFormed() && c.kind.CancelOrder?
    ensures var r := Step(b, OpOf(c));
            && (r.ok <==> b.Live(c.orderId)) && r.execs == []
            && (!r.ok ==> r.book == b)
            && (r.ok ==>
                  && k < |b.Orders(side)| && b.Orders(side)[k].id == c.orderId
                  && r.book == b.With(side, b.Orders(side)[..k] + b.Orders(side)[k + 1..])
                  && !r.book.Live(c.orderId))
  {
    side, k := CancelRemovesOne(b, c.orderId);
    assert Step(b, OpOf(c)) == Cancel(b, c.orderId) && Cancel(b, c.orderId).execs == [];
    hide Cancel;
    hide IndexOf;
    hide Book.WellFormed;
  }

  /** A direct add is accepted iff it is valid, a slot is free and its id is not live; it rests, untraded. */
  lemma DirectAddOnlyRests(b: Book, id: OrderId, side: Side, price: Price, qty: Quantity) returns (k: nat)
    requires b.WellFormed()
    ensures var r := Step(b, AddOp(id, side, price, qty));
            && (r.ok <==> qty > 0 && b.minPrice <= price <= b.maxPrice && b.Active() < b.capacity && !b.Live(id))
            && r.execs == []
            && (!r.ok ==> r.book == b)
            && (r.ok ==>
                  && RestsAt(side, b.Orders(side), r.book.Orders(side), k, Entry(id, price, qty))
                  && r.book == b.With(side, r.book.Orders(side)))
  {
    k := AddQueuesBehind(b, id, side, price, qty);
    RestsWhereAdded(b, id, side, price, qty, k);
    AddRefused(b, id, side, price, qty);
    assert Add(b, id, side, price, qty).execs == [];
    hide Matcher.Add;
    hide RestsAt;
    hide Book.WellFormed;
  }

  /** From an uncrossed book, whatever the commands: no bid ever reaches an ask. */
  lemma CommandsNeverCross(b: Book, commands: seq<OrderCommand>)
    requires b.WellFormed()
    requires forall i, j :: 0 <= i < |b.bids| && 0 <= j < |b.asks| ==> b.bids[i].price < b.asks[j].price
    ensures var e := Run(b, OpsOf(commands)).book;
            forall i, j :: 0 <= i < |e.bids| && 0 <= j < |e.asks| ==> e.bids[i].price < e.asks[j].price
  {
    hide Run;
    NeverCrossed(b, OpsOf(commands));
    RunKeeps(b, OpsOf(commands));
    FrontsSpeakForAll(Run(b, OpsOf(commands)).book);
  }

  lemma FrontsSpeakForAll(b: Book)
    requires b.WellFormed() && b.Uncrossed()
    ensures forall i, j :: 0 <= i < |b.bids| && 0 <= j < |b.asks| ==> b.bids[i].price < b.asks[j].price
  {
    forall i, j | 0 <= i < |b.bids| && 0 <= j < |b.asks| ensures b.bids[i].price < b.asks[j].price {
      assert b.SideOk(Buy) && b.SideOk(Sell);
      assert i == 0 || !Better(Buy, b.bids[i].price, b.bids[0].price);
      assert j == 0 || !Better(Sell, b.asks[j].price, b.asks[0].price);
    }
  }
}
