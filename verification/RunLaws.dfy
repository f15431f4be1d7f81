/** Theorems about whole runs of book operations. */
module RunLaws {
  import opened Types
  import opened Matcher
  import opened MatchingLaws

  // ---- Submit is all or nothing ----

  lemma NoCrossNoMatch(id: OrderId, side: Side, limit: Price, qty: Quantity, opp: seq<Entry>)
    requires opp == [] || !Crosses(side, limit, opp[0].price)
    ensures Match(id, side, limit, qty, opp) == MatchResult([], qty, opp)
  {}

  /**
   A submit is accepted exactly when it is valid, its id is not live, and there is a free slot or it
   crosses the best opposite price; a refused submit has reported nothing and changed nothing.
   */
  lemma SubmitAllOrNothing(b: Book, id: OrderId, side: Side, price: Price, qty: Quantity)
    requires b.WellFormed()
    ensures var r := Submit(b, id, side, price, qty);
            var opp := b.Orders(side.Opposite());
            && (r.ok <==> qty > 0 && b.minPrice <= price <= b.maxPrice && !b.Live(id)
                          && (b.Active() < b.capacity || (opp != [] && Crosses(side, price, opp[0].price))))
            && (!r.ok ==> r.book == b && r.execs == [])
  {
    var opp := b.Orders(side.Opposite());
    if qty > 0 && b.ValidPrice(price) && !b.Live(id) {
      if opp == [] || !Crosses(side, price, opp[0].price) {
        NoCrossNoMatch(id, side, price, qty, opp);
        assert b.With(side.Opposite(), opp) == b;
      } else {
        var m, c := MatchRest(id, side, price, qty, opp);
        SubmitMatchKeeps(b, id, side, price, qty);
        assert m.execs != [];
      }
    }
  }

  /** The submitted quantity is split exactly between its executions and the residual that rests under its id. */
  lemma SubmitSplitsQuantity(b: Book, id: OrderId, side: Side, price: Price, qty: Quantity)
    requires b.WellFormed() && Submit(b, id, side, price, qty).ok
    ensures var r := Submit(b, id, side, price, qty);
            var s := r.book.Orders(side);
            qty == Traded(r.execs) + if HasId(s, id) then s[IndexOf(s, id)].qty else 0
  {
    MatchIsPriceTimeFill(id, side, price, qty, b.Orders(side.Opposite()));
    var m := Match(id, side, price, qty, b.Orders(side.Opposite()));
    if m.left > 0 {
      var s := b.Orders(side);
      IndexOfInserted(s, QueuePos(side, s, price), Entry(id, price, m.left));
    }
  }

  lemma {:induction false} IndexOfInserted(s: seq<Entry>, k: nat, e: Entry)
    requires k <= |s| && !HasId(s, e.id)
    ensures IndexOf(InsertAt(s, k, e), e.id) == k
    ensures RemoveAt(InsertAt(s, k, e), k) == s
  {
    var t := InsertAt(s, k, e);
    assert forall i :: 0 <= i < k ==> t[i] == s[i];
    assert t[k] == e;
  }

  /** Adding an order and cancelling it returns to the very same book. */
  lemma AddThenCancelIsIdentity(b: Book, id: OrderId, side: Side, price: Price, qty: Quantity)
    requires Add(b, id, side, price, qty).ok
    ensures Cancel(Add(b, id, side, price, qty).book, id) == StepResult(true, b, [])
  {
    var s := b.Orders(side);
    IndexOfInserted(s, QueuePos(side, s, price), Entry(id, price, qty));
  }

  /**
   An add is accepted exactly when it is valid, there is a free slot and its id is not live. It then
   queues, whole, behind everything of the same or a better price and before everything worse; the
   rest of its side keeps its order and the other side does not change.
   */
  lemma AddQueuesBehind(b: Book, id: OrderId, side: Side, price: Price, qty: Quantity) returns (k: nat)
    requires b.WellFormed()
    ensures var r := Add(b, id, side, price, qty);
            var s, t := b.Orders(side), r.book.Orders(side);
            && (r.ok <==> qty > 0 && b.minPrice <= price <= b.maxPrice && b.Active() < b.capacity && !b.Live(id))
            && (!r.ok ==> r.book == b)
            && (r.ok ==>
                  && k < |t| && t[k] == Entry(id, price, qty) && RemoveAt(t, k) == s
                  && (forall i :: 0 <= i < k ==> !Better(side, price, t[i].price))
                  && (forall i :: k < i < |t| ==> Better(side, price, t[i].price))
                  && r.book.Orders(side.Opposite()) == b.Orders(side.Opposite()))
  {
    var s := b.Orders(side);
    k := QueuePos(side, s, price);
    InsertedInPriority(side, s, Entry(id, price, qty));
    hide Sorted;
    hide Distinct;
    hide Apart;
    hide InsertAt;
    hide RemoveAt;
    hide QueuePos;
    hide IndexOf;
  }

  lemma InsertedInPriority(side: Side, s: seq<Entry>, e: Entry)
    requires Sorted(side, s)
    ensures var k := QueuePos(side, s, e.price);
            var t := InsertAt(s, k, e);
            && k < |t| && t[k] == e && RemoveAt(t, k) == s
            && (forall i :: 0 <= i < k ==> !Better(side, e.price, t[i].price))
            && (forall i :: k < i < |t| ==> Better(side, e.price, t[i].price))
  {
    var k := QueuePos(side, s, e.price);
    BehindIsWorse(side, s, e.price);
    InsertIndices(s, k, e);
    RemoveInserted(s, k, e);
    hide Sorted;
    hide QueuePos;
    hide InsertAt;
    hide RemoveAt;
  }

  /** A cancel is accepted exactly for a live id; it takes out that order and leaves every other where it was. */
  lemma CancelRemovesOne(b: Book, id: OrderId) returns (side: Side, k: nat)
    requires b.WellFormed()
    ensures var r := Cancel(b, id);
            && (r.ok <==> b.Live(id)) && (!r.ok ==> r.book == b)
            && (r.ok ==>
                  && k < |b.Orders(side)| && b.Orders(side)[k].id == id
                  && r.book == b.With(side, RemoveAt(b.Orders(side), k))
                  && !r.book.Live(id))
  {
    side := if HasId(b.bids, id) then Buy else Sell;
    var s := b.Orders(side);
    k := IndexOf(s, id);
    if k < |s| {
      assert b.Live(id);
      RemovedId(s, k, b.Orders(side.Opposite()));
      ApartSwap(s, b.Orders(side.Opposite()));
    }
    hide Book.SideOk;
    hide Sorted;
    hide Distinct;
    hide Apart;
    hide RemoveAt;
    hide IndexOf;
  }

  lemma RemovedId(s: seq<Entry>, k: nat, o: seq<Entry>)
    requires k < |s| && Distinct(s) && (Apart(s, o) || Apart(o, s))
    ensures !HasId(RemoveAt(s, k), s[k].id) && !HasId(o, s[k].id)
  {
    RemoveIndices(s, k);
    ApartSwap(s, o);
    hide RemoveAt;
  }

  // ---- The book is never crossed ----

  lemma AddUncrossedIff(b: Book, id: OrderId, side: Side, price: Price, qty: Quantity)
    requires b.WellFormed() && b.Uncrossed() && Add(b, id, side, price, qty).ok
    ensures var opp := b.Orders(side.Opposite());
            Add(b, id, side, price, qty).book.Uncrossed() <==> opp == [] || !Crosses(side, price, opp[0].price)
  {}

  lemma SubmitKeepsUncrossed(b: Book, id: OrderId, side: Side, price: Price, qty: Quantity)
    requires b.WellFormed() && b.Uncrossed()
    ensures Submit(b, id, side, price, qty).book.Uncrossed()
  {
    if qty > 0 && b.ValidPrice(price) && !b.Live(id) {
      var m, c := MatchRest(id, side, price, qty, b.Orders(side.Opposite()));
      var matched := b.With(side.Opposite(), m.rest);
      SubmitMatchKeeps(b, id, side, price, qty);
      SubmitParts(b, id, side, price, qty);
      assert matched.Uncrossed();
      hide Submit;
      hide Match;
      hide Book.WellFormed;
      if m.left > 0 && Add(matched, id, side, price, m.left).ok {
        AddUncrossedIff(matched, id, side, price, m.left);
      }
    }
  }

  /** From an uncrossed book, no run of submits and cancels ever crosses or locks it. */
  lemma {:induction false} NeverCrossed(b: Book, ops: seq<Op>)
    requires b.WellFormed() && b.Uncrossed()
    requires forall i :: 0 <= i < |ops| ==> !ops[i].AddOp?
    ensures Run(b, ops).book.Uncrossed()
  {
    if ops != [] {
      hide Submit;
      hide Cancel;
      hide Book.WellFormed;
      hide Book.Uncrossed;
      var before := Run(b, ops[..|ops| - 1]).book;
      NeverCrossed(b, ops[..|ops| - 1]);
      RunKeeps(b, ops[..|ops| - 1]);
      match ops[|ops| - 1]
      case SubmitOp(id, side, price, qty) => SubmitKeepsUncrossed(before, id, side, price, qty);
      case CancelOp(id) => CancelKeepsUncrossed(before, id);
    }
  }

  lemma CancelKeepsUncrossed(b: Book, id: OrderId)
    requires b.WellFormed() && b.Uncrossed()
    ensures Cancel(b, id).book.Uncrossed()
  {
    if HasId(b.bids, id) {
      RemovedFront(Buy, b.bids, IndexOf(b.bids, id));
    } else if HasId(b.asks, id) {
      RemovedFront(Sell, b.asks, IndexOf(b.asks, id));
    }
    hide IndexOf;
    hide RemoveAt;
    hide Book.WellFormed;
  }

  /** What is left in front is no better than what was. */
  lemma RemovedFront(side: Side, s: seq<Entry>, k: nat)
    requires Sorted(side, s) && k < |s|
    ensures RemoveAt(s, k) != [] ==> !Better(side, RemoveAt(s, k)[0].price, s[0].price)
  {
    RemoveIndices(s, k);
    hide RemoveAt;
  }

  /** `add_order` called directly does not match, so two of them can cross the book. */
  lemma DirectAddsCanCross()
    ensures !Run(EmptyBook(0, 9, 2), [AddOp(1, Sell, 4, 1), AddOp(2, Buy, 5, 1)]).book.Uncrossed()
  {
    var b, ops := EmptyBook(0, 9, 2), [AddOp(1, Sell, 4, 1), AddOp(2, Buy, 5, 1)];
    var one, two := b.(asks := [Entry(1, 4, 1)]), b.(asks := [Entry(1, 4, 1)], bids := [Entry(2, 5, 1)]);
    assert Add(b, 1, Sell, 4, 1) == StepResult(true, one, []);
    assert Add(one, 2, Buy, 5, 1) == StepResult(true, two, []);
    hide Run;
    hide Matcher.Add;
    RunNothing(b, ops);
    RunSnoc(b, ops, 0);
    RunSnoc(b, ops, 1);
    assert ops[..2] == ops;
  }

  // ---- Executions are paid for by accepted orders ----

  function Accepts(op: Op, ok: bool): nat {
    if ok && !op.CancelOp? then 1 else 0
  }

  function AcceptedOrders(ops: seq<Op>, oks: seq<bool>): (n: nat)
    requires |ops| == |oks|
    ensures n <= |ops|
  {
    if ops == [] then 0
    else AcceptedOrders(ops[..|ops| - 1], oks[..|ops| - 1]) + Accepts(ops[|ops| - 1], oks[|ops| - 1])
  }

  lemma SubmitPays(b: Book, id: OrderId, side: Side, price: Price, qty: Quantity)
    requires b.WellFormed()
    ensures var r := Submit(b, id, side, price, qty); |r.execs| + r.book.Active() <= b.Active() + if r.ok then 1 else 0
  {
    SubmitAllOrNothing(b, id, side, price, qty);
    SubmitParts(b, id, side, price, qty);
    var m, c := MatchRest(id, side, price, qty, b.Orders(side.Opposite()));
    hide Match;
    hide Submit;
    hide Book.WellFormed;
    AddSize(b.With(side.Opposite(), m.rest), id, side, price, m.left);
    hide Matcher.Add;
  }

  lemma AddSize(b: Book, id: OrderId, side: Side, price: Price, qty: Quantity)
    ensures var r := Add(b, id, side, price, qty); r.book.Active() == b.Active() + if r.ok then 1 else 0
  {}

  lemma StepPaysForExecutions(b: Book, op: Op)
    requires b.WellFormed()
    ensures var r := Step(b, op); |r.execs| + r.book.Active() <= b.Active() + Accepts(op, r.ok)
  {
    match op {
      case SubmitOp(id, side, price, qty) => SubmitPays(b, id, side, price, qty);
      case AddOp(id, side, price, qty) => AddSize(b, id, side, price, qty);
      case CancelOp(_) =>
    }
    hide Submit;
    hide Book.WellFormed;
  }

  /** Amortised: over a run, executions plus resting orders never exceed accepted orders, whatever one submit emits. */
  lemma {:induction false} ExecutionsAreBounded(b: Book, ops: seq<Op>)
    requires b.WellFormed()
    ensures var r := Run(b, ops);
            |r.execs| + r.book.Active() <= b.Active() + AcceptedOrders(ops, r.oks) <= b.Active() + |ops|
  {
    if ops != [] {
      var before := Run(b, ops[..|ops| - 1]);
      ExecutionsAreBounded(b, ops[..|ops| - 1]);
      RunKeeps(b, ops[..|ops| - 1]);
      StepPaysForExecutions(before.book, ops[|ops| - 1]);
      assert Run(b, ops).oks[..|ops| - 1] == before.oks;
    }
  }

  // ---- Conservation of quantity ----

  function Resting(b: Book): nat { TotalQty(b.bids) + TotalQty(b.asks) }

  /** Quantity accepted, cancelled and traded. */
  datatype Ledger = Ledger(accepted: nat, cancelled: nat, traded: nat)

  function Posted(l: Ledger, b: Book, op: Op): Ledger {
    var r := Step(b, op);
    if !r.ok then l
    else if op.CancelOp? then
      var s := if HasId(b.bids, op.id) then b.bids else b.asks;
      if HasId(s, op.id) then l.(cancelled := l.cancelled + s[IndexOf(s, op.id)].qty) else l
    else l.(accepted := l.accepted + op.qty, traded := l.traded + Traded(r.execs))
  }

  function LedgerOf(b: Book, ops: seq<Op>): Ledger {
    if ops == [] then Ledger(0, 0, 0)
    else Posted(LedgerOf(b, ops[..|ops| - 1]), Run(b, ops[..|ops| - 1]).book, ops[|ops| - 1])
  }

  lemma {:induction false} TotalQtyConcat(s: seq<Entry>, t: seq<Entry>)
    ensures TotalQty(s + t) == TotalQty(s) + TotalQty(t)
  {
    if s == [] {
      assert s + t == t;
    } else {
      TotalQtyConcat(s[1..], t);
      assert (s + t)[1..] == s[1..] + t;
    }
  }

  lemma {:induction false} TradedConcat(s: seq<Execution>, t: seq<Execution>)
    ensures Traded(s + t) == Traded(s) + Traded(t)
  {
    if s == [] {
      assert s + t == t;
    } else {
      TradedConcat(s[1..], t);
      assert (s + t)[1..] == s[1..] + t;
    }
  }

  lemma TotalQtyInsertRemove(s: seq<Entry>, k: nat, e: Entry)
    requires k <= |s|
    ensures TotalQty(InsertAt(s, k, e)) == TotalQty(s) + e.qty
    ensures k < |s| ==> TotalQty(RemoveAt(s, k)) == TotalQty(s) - s[k].qty
  {
    TotalQtyConcat(s[..k], [e] + s[k..]);
    TotalQtyConcat(s[..k], s[k..]);
    assert s[..k] + ([e] + s[k..]) == InsertAt(s, k, e);
    assert s[..k] + s[k..] == s;
    assert ([e] + s[k..])[1..] == s[k..];
    if k < |s| {
      TotalQtyConcat(s[..k], s[k + 1..]);
      assert s[k..][1..] == s[k + 1..];
    }
  }

  lemma {:induction false} MatchConserves(id: OrderId, side: Side, limit: Price, qty: Quantity, opp: seq<Entry>)
    ensures var m := Match(id, side, limit, qty, opp);
            TotalQty(opp) == TotalQty(m.rest) + Traded(m.execs) && qty == Traded(m.execs) + m.left
  {
    if qty == 0 || opp == [] || !Crosses(side, limit, opp[0].price) {
    } else if qty < opp[0].qty {
      var m := Match(id, side, limit, qty, opp);
      assert m.rest[1..] == opp[1..];
      assert m.execs[1..] == [];
    } else {
      MatchConserves(id, side, limit, qty - opp[0].qty, opp[1..]);
      var m, t := Match(id, side, limit, qty, opp), Match(id, side, limit, qty - opp[0].qty, opp[1..]);
      assert m.execs[1..] == t.execs;
    }
  }

  /** What one operation does to the ledger balances what it does to the book. */
  ghost predicate Balanced(b: Book, op: Op, l: Ledger) {
    var r, l' := Step(b, op), Posted(l, b, op);
    && Resting(b) + l'.accepted - l.accepted
       == Resting(r.book) + (l'.cancelled - l.cancelled) + 2 * (l'.traded - l.traded)
    && l'.traded - l.traded == Traded(r.execs)
  }

  lemma AddBalances(b: Book, id: OrderId, side: Side, price: Price, qty: Quantity)
    ensures var r := Add(b, id, side, price, qty); Resting(r.book) == Resting(b) + if r.ok then qty else 0
  {
    var s := b.Orders(side);
    TotalQtyInsertRemove(s, QueuePos(side, s, price), Entry(id, price, qty));
    hide QueuePos;
    hide InsertAt;
    hide IndexOf;
    hide TotalQty;
  }

  lemma SubmitBalances(b: Book, id: OrderId, side: Side, price: Price, qty: Quantity, l: Ledger)
    requires b.WellFormed()
    ensures Balanced(b, SubmitOp(id, side, price, qty), l)
  {
    hide Matcher.Add;
    hide Match;
    hide Book.WellFormed;
    SubmitAllOrNothing(b, id, side, price, qty);
    SubmitParts(b, id, side, price, qty);
    var opp := b.Orders(side.Opposite());
    var m := Match(id, side, price, qty, opp);
    MatchConserves(id, side, price, qty, opp);
    AddBalances(b.With(side.Opposite(), m.rest), id, side, price, m.left);
    hide Submit;
    hide TotalQty;
  }

  lemma CancelBalances(b: Book, id: OrderId, l: Ledger)
    ensures Balanced(b, CancelOp(id), l)
  {
    TotalQtyInsertRemove(b.bids, IndexOf(b.bids, id), Entry(0, 0, 0));
    TotalQtyInsertRemove(b.asks, IndexOf(b.asks, id), Entry(0, 0, 0));
    hide TotalQty;
    hide IndexOf;
    hide RemoveAt;
    hide InsertAt;
  }

  lemma StepConserves(b: Book, op: Op, l: Ledger)
    requires b.WellFormed()
    ensures var r, l' := Step(b, op), Posted(l, b, op);
            && Resting(b) + l'.accepted - l.accepted
               == Resting(r.book) + (l'.cancelled - l.cancelled) + 2 * (l'.traded - l.traded)
            && l'.traded - l.traded == Traded(r.execs)
  {
    match op {
      case SubmitOp(id, side, price, qty) => SubmitBalances(b, id, side, price, qty, l);
      case AddOp(id, side, price, qty) => AddBalances(b, id, side, price, qty);
      case CancelOp(id) => CancelBalances(b, id, l);
    }
    assert Balanced(b, op, l) by {
      hide Matcher.Add;
      hide Submit;
      hide Cancel;
    }
    hide Step;
    hide Posted;
  }

  /** Over any run, accepted quantity is what still rests, what was cancelled, and twice what was traded. */
  lemma {:induction false} QuantityIsConserved(b: Book, ops: seq<Op>)
    requires b.WellFormed()
    ensures var r, l := Run(b, ops), LedgerOf(b, ops);
            && Resting(b) + l.accepted == Resting(r.book) + l.cancelled + 2 * l.traded
            && l.traded == Traded(r.execs)
  {
    if ops != [] {
      var before := Run(b, ops[..|ops| - 1]);
      QuantityIsConserved(b, ops[..|ops| - 1]);
      RunKeeps(b, ops[..|ops| - 1]);
      StepConserves(before.book, ops[|ops| - 1], LedgerOf(b, ops[..|ops| - 1]));
      TradedConcat(before.execs, Step(before.book, ops[|ops| - 1]).execs);
    }
  }

  /** The quantity of the submits and adds that were accepted. */
  function AcceptedQty(ops: seq<Op>, oks: seq<bool>): nat
    requires |ops| == |oks|
  {
    if ops == [] then 0
    else
      var n, op := |ops| - 1, ops[|ops| - 1];
      AcceptedQty(ops[..n], oks[..n]) + if oks[n] && !op.CancelOp? then op.qty else 0
  }

  /** What the ledger calls accepted is that quantity; so the balance above decides what it calls cancelled. */
  lemma {:induction false} LedgerAccepts(b: Book, ops: seq<Op>)
    ensures LedgerOf(b, ops).accepted == AcceptedQty(ops, Run(b, ops).oks)
  {
    if ops != [] {
      LedgerAccepts(b, ops[..|ops| - 1]);
      assert Run(b, ops).oks[..|ops| - 1] == Run(b, ops[..|ops| - 1]).oks;
      hide Step;
    }
  }

  /** A level reports its quantity exactly when the quantity fits in 64 bits; otherwise it reports less. */
  lemma ShownQuantityFits(s: seq<Entry>, price: Price)
    ensures ShownQty(s, price) == SumAt(s, price) <==> SumAt(s, price) < U64
    ensures ShownQty(s, price) <= SumAt(s, price)
  {}

  /** Two accepted orders are enough for a level with orders to report no quantity at all. */
  lemma ShownQuantityCanWrap()
    ensures var half := U64 / 2;
            var r := Run(EmptyBook(0, 9, 2), [SubmitOp(1, Buy, 4, half), SubmitOp(2, Buy, 4, half)]);
            && r.oks == [true, true] && CountAt(r.book.bids, 4) == 2
            && SumAt(r.book.bids, 4) == U64 && ShownQty(r.book.bids, 4) == 0
  {
    hide Run;
    hide Submit;
    hide CountAt;
    hide SumAt;
    var half := U64 / 2;
    var b := EmptyBook(0, 9, 2);
    var ops := [SubmitOp(1, Buy, 4, half), SubmitOp(2, Buy, 4, half)];
    FirstSubmit(half);
    SecondSubmit(half);
    CountAndSumOfTwo(half);
    RunNothing(b, ops);
    RunSnoc(b, ops, 0);
    RunSnoc(b, ops, 1);
    assert ops[..2] == ops;
  }

  lemma FirstSubmit(q: Quantity)
    requires q > 0
    ensures Submit(EmptyBook(0, 9, 2), 1, Buy, 4, q)
            == StepResult(true, EmptyBook(0, 9, 2).(bids := [Entry(1, 4, q)]), [])
  {}

  lemma SecondSubmit(q: Quantity)
    requires q > 0
    ensures Submit(EmptyBook(0, 9, 2).(bids := [Entry(1, 4, q)]), 2, Buy, 4, q)
            == StepResult(true, EmptyBook(0, 9, 2).(bids := [Entry(1, 4, q), Entry(2, 4, q)]), [])
  {
    assert QueuePos(Buy, [Entry(1, 4, q)], 4) == 1;
    assert InsertAt([Entry(1, 4, q)], 1, Entry(2, 4, q)) == [Entry(1, 4, q), Entry(2, 4, q)];
  }

  lemma CountAndSumOfTwo(q: Quantity)
    ensures CountAt([Entry(1, 4, q), Entry(2, 4, q)], 4) == 2 && SumAt([Entry(1, 4, q), Entry(2, 4, q)], 4) == q + q
  {
    var first, second := Entry(1, 4, q), Entry(2, 4, q);
    assert [second] + [] == [second] && [first] + [second] == [first, second];
    CountSumOne(second, [], 4);
    CountSumOne(first, [second], 4);
  }

  // ---- Runs, command by command ----

  lemma OpsOfAt(commands: seq<OrderCommand>, n: nat)
    requires n < |commands|
    ensures |OpsOf(commands)| == |commands| && OpsOf(commands)[n] == OpOf(commands[n])
  {}

  lemma RunNothing(b: Book, ops: seq<Op>)
    ensures Run(b, ops[..0]) == Outcome(b, [], [])
  {}

  lemma RunSnoc(b: Book, ops: seq<Op>, i: nat)
    requires i < |ops|
    ensures var before := Run(b, ops[..i]);
            var x := Step(before.book, ops[i]);
            Run(b, ops[..i + 1]) == Outcome(x.book, before.oks + [x.ok], before.execs + x.execs)
  {
    assert ops[..i + 1][..i] == ops[..i];
  }

  /** Running longer only adds executions. */
  lemma {:induction false} RunGrows(b: Book, ops: seq<Op>, i: nat)
    requires i <= |ops|
    ensures Run(b, ops[..i]).execs <= Run(b, ops).execs
    decreases |ops| - i
  {
    if i == |ops| {
      assert ops[..i] == ops;
    } else {
      RunSnoc(b, ops, i);
      RunGrows(b, ops, i + 1);
    }
  }
}
