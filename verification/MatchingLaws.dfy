/** What the matching function computes, stated without it, and what every operation keeps of the book. */
module MatchingLaws {
  import opened Types
  import opened Matcher

  // ---- Price-time priority, declaratively ----

  /** Execution x trades incoming order `id` with resting order e, at e's price and within the limit. */
  ghost predicate Fills(id: OrderId, side: Side, limit: Price, x: Execution, e: Entry) {
    && x.incomingId == id
    && x.restingId == e.id
    && x.price == e.price
    && Crosses(side, limit, e.price)
    && 0 < x.qty <= e.qty
  }

  /**
   The outcome of one incoming order against the opposite side, as price-time priority demands it:
   the i-th execution is with the i-th order in priority, at that order's own price and within the
   limit; all but the last take the whole resting order; the order stops only when it is spent, or
   nothing is left that it crosses; and what remains of the side is exactly what was not taken.
   */
  ghost predicate IsPriceTimeFill(
    id: OrderId, side: Side, limit: Price, qty: Quantity, opp: seq<Entry>, m: MatchResult)
  {
    var n := |m.execs|;
    && n <= |opp|
    && (forall i :: 0 <= i < n ==> Fills(id, side, limit, m.execs[i], opp[i]))
    && (forall i :: 0 <= i < n - 1 ==> m.execs[i].qty == opp[i].qty)
    && Traded(m.execs) + m.left == qty
    && (if n > 0 && m.execs[n - 1].qty < opp[n - 1].qty then
          m.left == 0 && m.rest == [opp[n - 1].(qty := opp[n - 1].qty - m.execs[n - 1].qty)] + opp[n..]
        else
          m.rest == opp[n..] && (m.left == 0 || n == |opp| || !Crosses(side, limit, opp[n].price)))
  }

  ghost predicate AllPositive(s: seq<Entry>) { forall i :: 0 <= i < |s| ==> s[i].qty > 0 }

  /** Taking the whole first order and then filling the rest by priority fills the side by priority. */
  lemma FullFillFirst(id: OrderId, side: Side, limit: Price, qty: Quantity, opp: seq<Entry>, t: MatchResult)
    requires opp != [] && 0 < opp[0].qty <= qty && Crosses(side, limit, opp[0].price)
    requires IsPriceTimeFill(id, side, limit, qty - opp[0].qty, opp[1..], t)
    ensures var x := Execution(id, opp[0].id, opp[0].price, opp[0].qty);
            IsPriceTimeFill(id, side, limit, qty, opp, MatchResult([x] + t.execs, t.left, t.rest))
  {
    var x := Execution(id, opp[0].id, opp[0].price, opp[0].qty);
    var execs := [x] + t.execs;
    assert execs[1..] == t.execs;
    assert Traded(execs) == x.qty + Traded(t.execs);
    hide Traded;
    assert opp[1..][|t.execs|..] == opp[|execs|..];
    assert forall i :: 0 < i < |execs| ==> execs[i] == t.execs[i - 1] && opp[i] == opp[1..][i - 1];
  }

  /** An order that is spent, or crosses nothing, fills nothing. */
  lemma NothingToFill(id: OrderId, side: Side, limit: Price, qty: Quantity, opp: seq<Entry>)
    requires qty == 0 || opp == [] || !Crosses(side, limit, opp[0].price)
    ensures IsPriceTimeFill(id, side, limit, qty, opp, MatchResult([], qty, opp))
  {}

  /** An order that ends within the first resting order fills part of it. */
  lemma PartOfFirst(id: OrderId, side: Side, limit: Price, qty: Quantity, opp: seq<Entry>)
    requires opp != [] && 0 < qty < opp[0].qty && Crosses(side, limit, opp[0].price)
    ensures IsPriceTimeFill(id, side, limit, qty, opp, Match(id, side, limit, qty, opp))
  {
    assert Traded([Execution(id, opp[0].id, opp[0].price, qty)]) == qty + Traded([]);
  }

  lemma {:induction false} MatchIsPriceTimeFill(id: OrderId, side: Side, limit: Price, qty: Quantity, opp: seq<Entry>)
    requires AllPositive(opp)
    ensures IsPriceTimeFill(id, side, limit, qty, opp, Match(id, side, limit, qty, opp))
  {
    hide IsPriceTimeFill;
    if qty == 0 || opp == [] || !Crosses(side, limit, opp[0].price) {
      NothingToFill(id, side, limit, qty, opp);
    } else if qty < opp[0].qty {
      PartOfFirst(id, side, limit, qty, opp);
    } else {
      MatchIsPriceTimeFill(id, side, limit, qty - opp[0].qty, opp[1..]);
      FullFillFirst(id, side, limit, qty, opp, Match(id, side, limit, qty - opp[0].qty, opp[1..]));
    }
  }

  /** A fill that begins with the whole first order goes on as a fill of the others. */
  lemma FullFillRest(id: OrderId, side: Side, limit: Price, qty: Quantity, opp: seq<Entry>, m: MatchResult)
    requires AllPositive(opp) && IsPriceTimeFill(id, side, limit, qty, opp, m)
    requires m.execs != [] && m.execs[0].qty == opp[0].qty
    ensures opp[0].qty <= qty
    ensures IsPriceTimeFill(id, side, limit, qty - opp[0].qty, opp[1..], MatchResult(m.execs[1..], m.left, m.rest))
  {
    var n := |m.execs|;
    assert opp[1..][n - 1..] == opp[n..];
    assert forall i :: 0 <= i < n - 1 ==> m.execs[1..][i] == m.execs[i + 1] && opp[1..][i] == opp[i + 1];
  }

  /** A fill without executions has nothing to fill; one that begins with part of the first order is only that. */
  lemma FillWithoutWhole(id: OrderId, side: Side, limit: Price, qty: Quantity, opp: seq<Entry>, m: MatchResult)
    requires IsPriceTimeFill(id, side, limit, qty, opp, m)
    requires m.execs == [] || m.execs[0].qty < opp[0].qty
    ensures m == Match(id, side, limit, qty, opp)
  {
    if m.execs == [] {
      assert m.rest == opp;
    } else {
      assert Fills(id, side, limit, m.execs[0], opp[0]);
      assert m.execs == [m.execs[0]];
      assert Traded(m.execs) == m.execs[0].qty + Traded([]);
    }
  }

  /** Price-time priority leaves no choice: any outcome that satisfies the specification is the computed one. */
  lemma {:induction false} PriceTimeFillIsUnique(
    id: OrderId, side: Side, limit: Price, qty: Quantity, opp: seq<Entry>, m: MatchResult)
    requires AllPositive(opp) && IsPriceTimeFill(id, side, limit, qty, opp, m)
    ensures m == Match(id, side, limit, qty, opp)
    decreases |opp|
  {
    hide *;
    FirstFill(id, side, limit, qty, opp, m);
    if m.execs == [] || m.execs[0].qty < opp[0].qty {
      FillWithoutWhole(id, side, limit, qty, opp, m);
    } else {
      FullFillRest(id, side, limit, qty, opp, m);
      PriceTimeFillIsUnique(id, side, limit, qty - opp[0].qty, opp[1..], MatchResult(m.execs[1..], m.left, m.rest));
      MatchGoesOn(id, side, limit, qty, opp);
      HeadAndTail(m.execs);
    }
  }

  lemma HeadAndTail<T>(s: seq<T>)
    requires s != []
    ensures s == [s[0]] + s[1..]
  {}

  lemma MatchGoesOn(id: OrderId, side: Side, limit: Price, qty: Quantity, opp: seq<Entry>)
    requires opp != [] && 0 < opp[0].qty <= qty && Crosses(side, limit, opp[0].price)
    ensures var t := Match(id, side, limit, qty - opp[0].qty, opp[1..]);
            Match(id, side, limit, qty, opp)
            == MatchResult([Execution(id, opp[0].id, opp[0].price, opp[0].qty)] + t.execs, t.left, t.rest)
  {}

  lemma FirstFill(id: OrderId, side: Side, limit: Price, qty: Quantity, opp: seq<Entry>, m: MatchResult)
    requires AllPositive(opp) && IsPriceTimeFill(id, side, limit, qty, opp, m)
    ensures m.execs != [] ==>
              && opp != [] && opp[0].qty > 0 && AllPositive(opp[1..])
              && Crosses(side, limit, opp[0].price) && m.execs[0].qty <= opp[0].qty
              && m.execs[0] == Execution(id, opp[0].id, opp[0].price, m.execs[0].qty)
  {
    if m.execs != [] {
      assert Fills(id, side, limit, m.execs[0], opp[0]);
    }
    hide IsPriceTimeFill;
  }

  /** Execution prices never get better for the incoming order from one execution to the next. */
  lemma ExecutionPricesAreMonotone(id: OrderId, side: Side, limit: Price, qty: Quantity, opp: seq<Entry>)
    requires AllPositive(opp) && Sorted(side.Opposite(), opp)
    ensures var execs := Match(id, side, limit, qty, opp).execs;
            forall i, j :: 0 <= i < j < |execs| ==> !Better(side.Opposite(), execs[j].price, execs[i].price)
  {
    MatchIsPriceTimeFill(id, side, limit, qty, opp);
  }

  /** The front of a side in priority order is its best price: some order has it, and none has a better one. */
  lemma BestPriceIsBest(side: Side, s: seq<Entry>, price: Price)
    requires Sorted(side, s)
    ensures BestPrice(s) == Some(price) <==>
              && (exists i :: 0 <= i < |s| && s[i].price == price)
              && forall i :: 0 <= i < |s| ==> !Better(side, s[i].price, price)
  {
    if i :| 0 <= i < |s| && s[i].price == price {
      assert i == 0 || !Better(side, s[i].price, s[0].price);
    }
  }

  /**
   The best level of a side: the highest bid or lowest ask that any order has, with the quantity of all
   its orders in a 64-bit word; none iff the side is empty.
   */
  lemma BestLevelIsBest(side: Side, s: seq<Entry>)
    requires Sorted(side, s)
    ensures BestLevelOf(s) == None <==> s == []
    ensures forall price: Price, qty: Quantity :: BestLevelOf(s) == Some((price, qty)) <==>
              && (exists i :: 0 <= i < |s| && s[i].price == price)
              && (forall i :: 0 <= i < |s| ==> if side.Buy? then s[i].price <= price else s[i].price >= price)
              && qty == SumAt(s, price) % U64
  {
    forall price: Price, qty: Quantity
      ensures BestLevelOf(s) == Some((price, qty)) <==>
                && (exists i :: 0 <= i < |s| && s[i].price == price)
                && (forall i :: 0 <= i < |s| ==> if side.Buy? then s[i].price <= price else s[i].price >= price)
                && qty == SumAt(s, price) % U64
    {
      BestPriceIsBest(side, s, price);
    }
    hide SumAt;
    hide Sorted;
  }

  lemma SideSorted(b: Book, side: Side)
    requires b.WellFormed()
    ensures Sorted(side, b.Orders(side))
  {}

  /** The front order of a price is the first one that has it; none iff there is none. */
  lemma {:induction false} FrontIdIsFirst(s: seq<Entry>, price: Price)
    ensures match FrontIdAt(s, price)
            case None => forall i :: 0 <= i < |s| ==> s[i].price != price
            case Some(id) =>
              exists i :: 0 <= i < |s| && s[i].id == id && s[i].price == price
                          && forall j :: 0 <= j < i ==> s[j].price != price
  {
    if s != [] && s[0].price != price {
      FrontIdIsFirst(s[1..], price);
      if FrontIdAt(s, price).Some? {
        var i :| 0 <= i < |s[1..]| && s[1..][i].id == FrontIdAt(s, price).value && s[1..][i].price == price
                 && forall j :: 0 <= j < i ==> s[1..][j].price != price;
        assert s[i + 1] == s[1..][i];
        assert forall j :: 0 < j < i + 1 ==> s[j] == s[1..][j - 1];
      } else {
        assert forall i :: 0 < i < |s| ==> s[i] == s[1..][i - 1];
      }
    }
  }

  /** The back order of a price is the last one that has it. */
  lemma {:induction false} BackIdIsLast(s: seq<Entry>, price: Price)
    ensures match BackIdAt(s, price)
            case None => forall i :: 0 <= i < |s| ==> s[i].price != price
            case Some(id) =>
              exists i :: 0 <= i < |s| && s[i].id == id && s[i].price == price
                          && forall j :: i < j < |s| ==> s[j].price != price
  {
    if s != [] && s[|s| - 1].price != price {
      var most := s[..|s| - 1];
      BackIdIsLast(most, price);
      assert forall i :: 0 <= i < |most| ==> s[i] == most[i];
      if BackIdAt(s, price).Some? {
        var i :| 0 <= i < |most| && most[i].id == BackIdAt(s, price).value && most[i].price == price
                 && forall j :: i < j < |most| ==> most[j].price != price;
        assert s[i] == most[i];
      }
    }
  }

  /** A price that no order has. */
  lemma {:induction false} NothingAt(s: seq<Entry>, price: Price)
    requires forall i :: 0 <= i < |s| ==> s[i].price != price
    ensures CountAt(s, price) == 0 && SumAt(s, price) == 0
  {
    if s != [] { NothingAt(s[1..], price); }
  }

  lemma CountSumOne(e: Entry, t: seq<Entry>, price: Price)
    ensures CountAt([e] + t, price) == CountAt(t, price) + if e.price == price then 1 else 0
    ensures SumAt([e] + t, price) == SumAt(t, price) + if e.price == price then e.qty else 0
  {
    assert ([e] + t)[1..] == t;
  }

  // ---- Matching in progress ----

  /** No resting order of s has priority over the price. */
  ghost predicate NoneBetter(side: Side, s: seq<Entry>, price: Price) {
    forall i :: 0 <= i < |s| ==> !Better(side, s[i].price, price)
  }

  lemma NoneBetterStays(side: Side, s: seq<Entry>, price: Price, traded: Quantity)
    requires NoneBetter(side, s, price) && s != []
    ensures NoneBetter(side, RemoveAt(s, 0), price)
    ensures traded < s[0].qty ==> NoneBetter(side, ReduceFront(s, traded), price)
  {
    RemoveFront(s);
  }

  /** The outcome of a match that has already reported `done` and has qty left against opp. */
  function Pending(
    done: seq<Execution>, id: OrderId, side: Side, limit: Price, qty: Quantity, opp: seq<Entry>): MatchResult
  {
    var m := Match(id, side, limit, qty, opp);
    MatchResult(done + m.execs, m.left, m.rest)
  }

  /** A partial fill of the front order ends the match... */
  lemma PartialFillStep(done: seq<Execution>, id: OrderId, side: Side, limit: Price, qty: Quantity, opp: seq<Entry>)
    requires 0 < qty && opp != [] && Crosses(side, limit, opp[0].price) && qty < opp[0].qty
    ensures var x := Execution(id, opp[0].id, opp[0].price, qty);
            Pending(done, id, side, limit, qty, opp)
            == Pending(done + [x], id, side, limit, 0, ReduceFront(opp, qty))
    ensures |Pending(done, id, side, limit, qty, opp).execs| > |done|
  {
    var x := Execution(id, opp[0].id, opp[0].price, qty);
    assert done + [x] + [] == done + [x];
    assert opp[0 := opp[0].(qty := opp[0].qty - qty)] == [opp[0].(qty := opp[0].qty - qty)] + opp[1..];
  }

  /** ...and a full fill of it leaves the rest of the match to do. */
  lemma FullFillStep(done: seq<Execution>, id: OrderId, side: Side, limit: Price, qty: Quantity, opp: seq<Entry>)
    requires 0 < qty && opp != [] && Crosses(side, limit, opp[0].price) && qty >= opp[0].qty
    ensures var x := Execution(id, opp[0].id, opp[0].price, opp[0].qty);
            Pending(done, id, side, limit, qty, opp)
            == Pending(done + [x], id, side, limit, qty - opp[0].qty, RemoveAt(opp, 0))
    ensures |Pending(done, id, side, limit, qty, opp).execs| > |done|
  {
    var x := Execution(id, opp[0].id, opp[0].price, opp[0].qty);
    var t := Match(id, side, limit, qty - opp[0].qty, opp[1..]);
    RemoveFront(opp);
    ConcatAssoc(done, [x], t.execs);
  }

  /** When the order is spent or no longer crosses, nothing is pending: what was done is the whole match. */
  lemma MatchStops(done: seq<Execution>, before: seq<Execution>, id: OrderId, side: Side, limit: Price,
                   left: Quantity, qty: Quantity, rest: seq<Entry>, opp: seq<Entry>)
    requires left == 0 || rest == [] || !Crosses(side, limit, rest[0].price)
    requires Pending(done, id, side, limit, left, rest) == Pending(before, id, side, limit, qty, opp)
    ensures var m := Match(id, side, limit, qty, opp);
            left == m.left && done == before + m.execs && rest == m.rest
  {
    assert done + [] == done;
  }

  lemma RemoveFront<T>(s: seq<T>)
    requires s != []
    ensures RemoveAt(s, 0) == s[1..]
  {}

  lemma ConcatAssoc<T>(r: seq<T>, s: seq<T>, t: seq<T>)
    ensures r + (s + t) == r + s + t
  {}

  // ---- What matching leaves behind ----

  /** The remaining side is a suffix of the old one, but for the quantity of its first order. */
  lemma MatchRest(id: OrderId, side: Side, limit: Price, qty: Quantity, opp: seq<Entry>)
    returns (m: MatchResult, c: nat)
    requires AllPositive(opp)
    ensures m == Match(id, side, limit, qty, opp)
    ensures |m.rest| == |opp| - c && |m.execs| <= c + 1 && c <= |m.execs|
    ensures m.left > 0 ==> |m.execs| == c && (m.rest == [] || !Crosses(side, limit, m.rest[0].price))
    ensures forall i :: 0 <= i < |m.rest| ==>
              && m.rest[i].id == opp[c + i].id
              && m.rest[i].price == opp[c + i].price
              && 0 < m.rest[i].qty
  {
    m := Match(id, side, limit, qty, opp);
    MatchIsPriceTimeFill(id, side, limit, qty, opp);
    c := |opp| - |m.rest|;
  }

  lemma SubmitMatchKeeps(b: Book, id: OrderId, side: Side, limit: Price, qty: Quantity)
    requires b.WellFormed() && !b.Live(id)
    ensures var m := Match(id, side, limit, qty, b.Orders(side.Opposite()));
            var matched := b.With(side.Opposite(), m.rest);
            matched.WellFormed() && !matched.Live(id) && matched.Active() <= b.Active()
  {
    var opp := b.Orders(side.Opposite());
    ApartSwap(opp, b.Orders(side));
    var m, c := MatchRest(id, side, limit, qty, opp);
    RestKeeps(side.Opposite(), opp, m.rest, c, b.Orders(side), id);
    RestSideOk(b, side.Opposite(), m.rest, c);
    ApartSwap(m.rest, b.Orders(side));
    hide Match;
    hide HasId;
    hide Book.SideOk;
    hide Distinct;
    hide Apart;
  }

  lemma ApartSwap(s: seq<Entry>, t: seq<Entry>)
    ensures Apart(s, t) <==> Apart(t, s)
  {
    assert Apart(s, t) ==> forall i, j :: 0 <= i < |t| && 0 <= j < |s| ==> s[j].id != t[i].id;
    assert Apart(t, s) ==> forall i, j :: 0 <= i < |s| && 0 <= j < |t| ==> t[j].id != s[i].id;
  }

  lemma RestSideOk(b: Book, side: Side, t: seq<Entry>, c: nat)
    requires b.SideOk(side) && Sorted(side, t) && c <= |b.Orders(side)| && |t| == |b.Orders(side)| - c
    requires forall i :: 0 <= i < |t| ==> t[i].price == b.Orders(side)[c + i].price && 0 < t[i].qty
    ensures b.With(side, t).SideOk(side) && (b.SideOk(side.Opposite()) ==> b.With(side, t).SideOk(side.Opposite()))
  {
    forall i | 0 <= i < |t| ensures b.ValidPrice(t[i].price) {
      assert b.ValidPrice(b.Orders(side)[c + i].price);
    }
    hide Sorted;
  }

  lemma RestKeeps(side: Side, s: seq<Entry>, t: seq<Entry>, c: nat, o: seq<Entry>, id: OrderId)
    requires Sorted(side, s) && Distinct(s) && Apart(s, o) && !HasId(s, id)
    requires c <= |s| && |t| == |s| - c
    requires forall i :: 0 <= i < |t| ==> t[i].id == s[c + i].id && t[i].price == s[c + i].price
    ensures Sorted(side, t) && Distinct(t) && Apart(t, o) && !HasId(t, id)
  {}

  // ---- Inserting and removing ----

  lemma InsertKeepsSide(b: Book, side: Side, id: OrderId, price: Price, qty: Quantity)
    requires b.SideOk(side) && b.ValidPrice(price) && qty > 0
    ensures var s := b.Orders(side);
            b.With(side, InsertAt(s, QueuePos(side, s, price), Entry(id, price, qty))).SideOk(side)
  {
    var s := b.Orders(side);
    InsertKeepsSorted(side, s, Entry(id, price, qty));
  }

  lemma BehindIsWorse(side: Side, s: seq<Entry>, price: Price)
    requires Sorted(side, s)
    ensures forall i :: QueuePos(side, s, price) <= i < |s| ==> Better(side, price, s[i].price)
  {
    var k := QueuePos(side, s, price);
    forall i | k <= i < |s| ensures Better(side, price, s[i].price) {
      assert i == k || !Better(side, s[i].price, s[k].price);
    }
  }

  lemma InsertKeepsSorted(side: Side, s: seq<Entry>, e: Entry)
    requires Sorted(side, s)
    ensures Sorted(side, InsertAt(s, QueuePos(side, s, e.price), e))
  {
    var k := QueuePos(side, s, e.price);
    BehindIsWorse(side, s, e.price);
    InsertIndices(s, k, e);
    hide QueuePos;
    hide InsertAt;
  }

  lemma InsertKeepsDistinct(s: seq<Entry>, k: nat, e: Entry)
    requires Distinct(s) && k <= |s| && !HasId(s, e.id)
    ensures Distinct(InsertAt(s, k, e))
  {
    var t := InsertAt(s, k, e);
    assert forall i :: 0 <= i < |t| ==> t[i] == if i < k then s[i] else if i == k then e else s[i - 1];
  }

  lemma InsertKeepsApart(s: seq<Entry>, k: nat, e: Entry, o: seq<Entry>)
    requires Apart(s, o) && k <= |s| && !HasId(o, e.id)
    ensures Apart(InsertAt(s, k, e), o) && Apart(o, InsertAt(s, k, e))
  {
    var t := InsertAt(s, k, e);
    assert forall i :: 0 <= i < |t| ==> t[i] == if i < k then s[i] else if i == k then e else s[i - 1];
  }

  /** A submit is a refusal, or a match followed by an add of what is left. */
  lemma SubmitParts(b: Book, id: OrderId, side: Side, price: Price, qty: Quantity)
    ensures var r, m := Submit(b, id, side, price, qty), Match(id, side, price, qty, b.Orders(side.Opposite()));
            var matched := b.With(side.Opposite(), m.rest);
            if qty == 0 || !b.ValidPrice(price) || b.Live(id) then r == StepResult(false, b, [])
            else
              && r.execs == m.execs
              && (if m.left == 0 then r.ok && r.book == matched
                  else StepResult(r.ok, r.book, []) == Add(matched, id, side, price, m.left))
  {}

  lemma AddRefused(b: Book, id: OrderId, side: Side, price: Price, qty: Quantity)
    ensures qty == 0 || !b.ValidPrice(price) || b.Active() >= b.capacity || b.Live(id)
       ==> Add(b, id, side, price, qty) == StepResult(false, b, [])
  {}

  lemma AddKeeps(b: Book, id: OrderId, side: Side, price: Price, qty: Quantity)
    requires b.WellFormed()
    ensures Add(b, id, side, price, qty).book.WellFormed()
  {
    if Add(b, id, side, price, qty).ok {
      var s, o := b.Orders(side), b.Orders(side.Opposite());
      var k := QueuePos(side, s, price);
      InsertKeepsSide(b, side, id, price, qty);
      InsertKeepsDistinct(s, k, Entry(id, price, qty));
      assert Apart(s, o);
      InsertKeepsApart(s, k, Entry(id, price, qty), o);
      hide QueuePos;
      hide InsertAt;
      hide Sorted;
      hide Distinct;
    }
  }

  lemma RemoveKeeps(side: Side, s: seq<Entry>, k: nat, o: seq<Entry>)
    requires k < |s| && Sorted(side, s) && Distinct(s) && Apart(s, o)
    ensures var t := RemoveAt(s, k);
            && Sorted(side, t) && Distinct(t) && Apart(t, o)
            && forall i :: 0 <= i < |t| ==> t[i] == s[if i < k then i else i + 1]
  {
    var t := RemoveAt(s, k);
    assert forall i :: 0 <= i < |t| ==> t[i] == s[if i < k then i else i + 1];
  }

  lemma CancelKeeps(b: Book, id: OrderId)
    requires b.WellFormed()
    ensures Cancel(b, id).book.WellFormed()
  {
    var side := if HasId(b.bids, id) then Buy else Sell;
    var s, o := b.Orders(side), b.Orders(side.Opposite());
    if HasId(s, id) {
      ApartSwap(s, o);
      RemoveKeeps(side, s, IndexOf(s, id), o);
      RemoveKeepsSide(b, side, IndexOf(s, id));
      ApartSwap(RemoveAt(s, IndexOf(s, id)), o);
    }
    hide RemoveAt;
    hide IndexOf;
    hide Book.SideOk;
    hide Distinct;
    hide Apart;
  }

  lemma RemoveKeepsSide(b: Book, side: Side, k: nat)
    requires b.SideOk(side) && k < |b.Orders(side)|
    ensures var c := b.With(side, RemoveAt(b.Orders(side), k));
            c.SideOk(side) && (b.SideOk(side.Opposite()) ==> c.SideOk(side.Opposite()))
  {
    RemoveIndices(b.Orders(side), k);
    hide RemoveAt;
  }

  lemma SubmitKeeps(b: Book, id: OrderId, side: Side, price: Price, qty: Quantity)
    requires b.WellFormed()
    ensures Submit(b, id, side, price, qty).book.WellFormed()
  {
    if qty > 0 && b.ValidPrice(price) && !b.Live(id) {
      SubmitMatchKeeps(b, id, side, price, qty);
      var m := Match(id, side, price, qty, b.Orders(side.Opposite()));
      AddKeeps(b.With(side.Opposite(), m.rest), id, side, price, m.left);
    }
  }

  /** Every operation keeps the book well formed: sorted, ids unique, quantities positive, within capacity. */
  lemma StepKeeps(b: Book, op: Op)
    requires b.WellFormed()
    ensures Step(b, op).book.WellFormed()
  {
    match op
    case SubmitOp(id, side, price, qty) => SubmitKeeps(b, id, side, price, qty);
    case AddOp(id, side, price, qty) => AddKeeps(b, id, side, price, qty);
    case CancelOp(id) => CancelKeeps(b, id);
  }

  lemma {:induction false} RunKeeps(b: Book, ops: seq<Op>)
    requires b.WellFormed()
    ensures Run(b, ops).book.WellFormed()
  {
    if ops != [] {
      RunKeeps(b, ops[..|ops| - 1]);
      StepKeeps(Run(b, ops[..|ops| - 1]).book, ops[|ops| - 1]);
    }
  }
}
