/** The parametric command lists of the benchmarks, and what running them on a book comes to. */
module Workload {
  import opened Types
  import opened Bits
  import opened Matcher
  import opened MatchingLaws
  import opened RunLaws

  const BASE_BID: Price := 10000
  const BASE_ASK: Price := 10001
  const LEVELS: nat := 1024
  const MATCH_PRICE: Price := 10000

  function QtyOf(i: nat): Quantity { i % 100 + 1 }

  /** `(i * 37) % levels` in 64-bit arithmetic. */
  function OffsetOf(i: nat): nat { ((i * 37) % U64) % LEVELS }

  function Limit(id: OrderId, side: Side, price: Price, qty: Quantity): OrderCommand {
    OrderCommand(id, price, qty, AddLimit, side)
  }

  function AddOnlyCommand(i: u64): OrderCommand {
    if i % 2 == 1 then Limit((i + 1) % U64, Buy, BASE_BID - OffsetOf(i), QtyOf(i))
    else Limit((i + 1) % U64, Sell, BASE_ASK + OffsetOf(i), QtyOf(i))
  }

  function RestingAskCommand(i: u64): OrderCommand {
    Limit((i + 1) % U64, Sell, BASE_ASK + OffsetOf(i), QtyOf(i))
  }

  function NonCrossingBuyCommand(i: u64): OrderCommand {
    Limit((i + 1) % U64, Buy, BASE_BID - OffsetOf(i), QtyOf(i))
  }

  function FullMatchCommand(n: u64, i: nat): OrderCommand
    requires i < 2 * n
  {
    if i < n then Limit((i + 1) % U64, Sell, MATCH_PRICE, QtyOf(i))
    else Limit((i + 1) % U64, Buy, MATCH_PRICE, QtyOf(i - n))
  }

  // ---- The commands in plain numbers ----

  /** 64-bit wrap-around does not show in an offset: 1024 divides 2^64. */
  lemma OffsetIs(i: u64)
    ensures OffsetOf(i) == (37 * i) % 1024
  {
    ModMod(37 * i, 1024, 0x40_0000_0000_0000);
  }

  /** Command number i of each list; ids count from 1, quantities go round 1..100. */
  lemma CommandsAre(i: u64)
    requires i < U64 - 1
    ensures AddOnlyCommand(i)
            == if i % 2 == 1 then OrderCommand(i + 1, 10000 - (37 * i) % 1024, i % 100 + 1, AddLimit, Buy)
               else OrderCommand(i + 1, 10001 + (37 * i) % 1024, i % 100 + 1, AddLimit, Sell)
    ensures RestingAskCommand(i) == OrderCommand(i + 1, 10001 + (37 * i) % 1024, i % 100 + 1, AddLimit, Sell)
    ensures NonCrossingBuyCommand(i) == OrderCommand(i + 1, 10000 - (37 * i) % 1024, i % 100 + 1, AddLimit, Buy)
  {
    OffsetIs(i);
    hide OffsetOf;
  }

  /** Sells 0..n-1 and then buys of the same quantities, all at one price; and their pairings. */
  lemma FullMatchIs(n: u64, i: nat)
    requires i < n && 2 * n < U64
    ensures FullMatchCommand(n, i) == OrderCommand(i + 1, 10000, i % 100 + 1, AddLimit, Sell)
    ensures FullMatchCommand(n, n + i) == OrderCommand(n + i + 1, 10000, i % 100 + 1, AddLimit, Buy)
    ensures Pairings(n, n)[i] == Execution(n + i + 1, i + 1, 10000, i % 100 + 1)
  {}

  method MakeAddOnlyCommands(n: u64) returns (commands: seq<OrderCommand>)
    ensures |commands| == n && forall i :: 0 <= i < n ==> commands[i] == AddOnlyCommand(i)
    ensures forall i :: 0 <= i < n ==>
              commands[i] == if i % 2 == 1 then
                               OrderCommand(i + 1, 10000 - (37 * i) % 1024, i % 100 + 1, AddLimit, Buy)
                             else
                               OrderCommand(i + 1, 10001 + (37 * i) % 1024, i % 100 + 1, AddLimit, Sell)
  {
    commands := [];
    for i := 0 to n
      invariant |commands| == i && forall j :: 0 <= j < i ==> commands[j] == AddOnlyCommand(j)
    {
      var side := if i % 2 == 1 then Buy else Sell;
      var offset := ((i * 37) % U64) % LEVELS;
      var price: Price := if side == Buy then BASE_BID - offset else BASE_ASK + offset;
      commands := commands + [OrderCommand((i + 1) % U64, price, i % 100 + 1, AddLimit, side)];
    }
    forall i | 0 <= i < n {
      CommandsAre(i);
    }
  }

  method MakeRestingAsksCommands(n: u64) returns (commands: seq<OrderCommand>)
    ensures |commands| == n && forall i :: 0 <= i < n ==> commands[i] == RestingAskCommand(i)
    ensures forall i :: 0 <= i < n ==>
              commands[i] == OrderCommand(i + 1, 10001 + (37 * i) % 1024, i % 100 + 1, AddLimit, Sell)
  {
    commands := [];
    for i := 0 to n
      invariant |commands| == i && forall j :: 0 <= j < i ==> commands[j] == RestingAskCommand(j)
    {
      var offset := ((i * 37) % U64) % LEVELS;
      commands := commands + [OrderCommand((i + 1) % U64, BASE_ASK + offset, i % 100 + 1, AddLimit, Sell)];
    }
    forall i | 0 <= i < n {
      CommandsAre(i);
    }
  }

  method MakeNonCrossingBuysCommands(n: u64) returns (commands: seq<OrderCommand>)
    ensures |commands| == n && forall i :: 0 <= i < n ==> commands[i] == NonCrossingBuyCommand(i)
    ensures forall i :: 0 <= i < n ==>
              commands[i] == OrderCommand(i + 1, 10000 - (37 * i) % 1024, i % 100 + 1, AddLimit, Buy)
  {
    commands := [];
    for i := 0 to n
      invariant |commands| == i && forall j :: 0 <= j < i ==> commands[j] == NonCrossingBuyCommand(j)
    {
      var offset := ((i * 37) % U64) % LEVELS;
      commands := commands + [OrderCommand((i + 1) % U64, BASE_BID - offset, i % 100 + 1, AddLimit, Buy)];
    }
    forall i | 0 <= i < n {
      CommandsAre(i);
    }
  }

  method MakeFullMatchCommands(n: u64) returns (commands: seq<OrderCommand>)
    ensures |commands| == 2 * n && forall i :: 0 <= i < 2 * n ==> commands[i] == FullMatchCommand(n, i)
    ensures forall i :: 0 <= i < n ==>
              && commands[i] == OrderCommand((i + 1) % U64, 10000, i % 100 + 1, AddLimit, Sell)
              && commands[n + i] == OrderCommand((n + i + 1) % U64, 10000, i % 100 + 1, AddLimit, Buy)
  {
    commands := [];
    for i := 0 to n
      invariant |commands| == i && forall j :: 0 <= j < i ==> commands[j] == FullMatchCommand(n, j)
    {
      commands := commands + [OrderCommand((i + 1) % U64, MATCH_PRICE, i % 100 + 1, AddLimit, Sell)];
    }
    for i := 0 to n
      invariant |commands| == n + i && forall j :: 0 <= j < n + i ==> commands[j] == FullMatchCommand(n, j)
    {
      commands := commands + [OrderCommand((n + i + 1) % U64, MATCH_PRICE, i % 100 + 1, AddLimit, Buy)];
    }
  }

  // ---- Full match ----

  /** The asks numbered from..to-1, resting in arrival order. */
  function Asks(from: nat, to: nat): (s: seq<Entry>)
    requires from <= to < U64
    ensures |s| == to - from && forall k :: 0 <= k < |s| ==> s[k] == Entry(from + k + 1, MATCH_PRICE, QtyOf(from + k))
  {
    seq(to - from, k requires 0 <= k < to - from => Entry(from + k + 1, MATCH_PRICE, QtyOf(from + k)))
  }

  /** Buy n+i trades with ask i, for the whole of both. */
  function Pairing(n: nat, i: nat): Execution
    requires n + i + 1 < U64
  {
    Execution(n + i + 1, i + 1, MATCH_PRICE, QtyOf(i))
  }

  function Pairings(n: nat, m: nat): (s: seq<Execution>)
    requires n + m < U64
    ensures |s| == m && forall k :: 0 <= k < m ==> s[k] == Pairing(n, k)
  {
    seq(m, k requires 0 <= k < m => Pairing(n, k))
  }

  function AllTrue(m: nat): (s: seq<bool>)
    ensures |s| == m && forall k :: 0 <= k < m ==> s[k]
  {
    seq(m, _ => true)
  }

  lemma MoreTrue(m: nat)
    ensures AllTrue(m) + [true] == AllTrue(m + 1)
  {}

  lemma MorePairings(n: nat, m: nat)
    requires n + m + 1 < U64
    ensures Pairings(n, m) + [Pairing(n, m)] == Pairings(n, m + 1)
  {}

  ghost predicate Covers(b: Book, lo: Price, hi: Price) { b.minPrice <= lo && hi <= b.maxPrice }

  lemma {:induction false} EqualPricesQueueBehind(side: Side, s: seq<Entry>, price: Price)
    requires forall i :: 0 <= i < |s| ==> !Better(side, price, s[i].price)
    ensures QueuePos(side, s, price) == |s|
  {
    if s != [] { EqualPricesQueueBehind(side, s[1..], price); }
  }

  lemma RestOneAsk(b: Book, i: nat)
    requires i + 1 < U64 && b.bids == [] && b.asks == Asks(0, i)
    requires Covers(b, MATCH_PRICE, MATCH_PRICE) && i < b.capacity
    ensures Submit(b, i + 1, Sell, MATCH_PRICE, QtyOf(i)) == StepResult(true, b.(asks := Asks(0, i + 1)), [])
  {
    EqualPricesQueueBehind(Sell, b.asks, MATCH_PRICE);
    assert InsertAt(b.asks, i, Entry(i + 1, MATCH_PRICE, QtyOf(i))) == Asks(0, i + 1);
    assert !HasId(b.asks, i + 1);
    NoCrossNoMatch(i + 1, Sell, MATCH_PRICE, QtyOf(i), []);
    assert b.With(Buy, []) == b;
  }

  lemma TakeOneAsk(b: Book, n: nat, i: nat)
    requires i < n && n + i + 1 < U64 && b.bids == [] && b.asks == Asks(i, n) && Covers(b, MATCH_PRICE, MATCH_PRICE)
    ensures Submit(b, n + i + 1, Buy, MATCH_PRICE, QtyOf(i))
            == StepResult(true, b.(asks := Asks(i + 1, n)), [Pairing(n, i)])
  {
    assert !HasId(b.asks, n + i + 1);
    assert b.asks[1..] == Asks(i + 1, n);
    var m := Match(n + i + 1, Buy, MATCH_PRICE, QtyOf(i), b.asks);
    assert Match(n + i + 1, Buy, MATCH_PRICE, 0, b.asks[1..]) == MatchResult([], 0, b.asks[1..]);
    assert m == MatchResult([Pairing(n, i)] + [], 0, b.asks[1..]);
  }

  /** The outcome of the first j asks. */
  function AfterAsks(b: Book, j: nat): Outcome
    requires j < U64
  {
    Outcome(b.(asks := Asks(0, j)), AllTrue(j), [])
  }

  lemma RestingStep(b: Book, n: nat, i: nat, op: Op)
    requires i < n <= b.capacity && 2 * n < U64 && b.bids == [] && Covers(b, MATCH_PRICE, MATCH_PRICE)
    requires op == OpOf(FullMatchCommand(n, i))
    ensures var before := AfterAsks(b, i);
            var x := Step(before.book, op);
            AfterAsks(b, i + 1) == Outcome(x.book, before.oks + [x.ok], before.execs + x.execs)
  {
    hide Submit;
    assert op == SubmitOp(i + 1, Sell, MATCH_PRICE, QtyOf(i));
    RestOneAsk(b.(asks := Asks(0, i)), i);
    MoreTrue(i);
    hide Asks;
    hide AllTrue;
  }

  lemma {:induction false} RestingPhase(b: Book, n: nat, ops: seq<Op>, j: nat)
    requires b.bids == [] && b.asks == [] && Covers(b, MATCH_PRICE, MATCH_PRICE) && n <= b.capacity && 2 * n < U64
    requires |ops| == 2 * n && forall i :: 0 <= i < 2 * n ==> ops[i] == OpOf(FullMatchCommand(n, i))
    requires j <= n
    ensures Run(b, ops[..j]) == AfterAsks(b, j)
  {
    hide FullMatchCommand;
    hide OpOf;
    hide Run;
    hide Step;
    if j == 0 {
      RunNothing(b, ops);
      assert b.(asks := Asks(0, 0)) == b && AllTrue(0) == [];
    } else {
      RestingPhase(b, n, ops, j - 1);
      RestingStep(b, n, j - 1, ops[j - 1]);
      RunSnoc(b, ops, j - 1);
      hide AfterAsks;
    }
  }

  /** The book and outcome after every ask and the first j buys. */
  function AfterTaking(b: Book, n: nat, j: nat): Outcome
    requires j <= n && 2 * n < U64
  {
    Outcome(b.(asks := Asks(j, n)), AllTrue(n + j), Pairings(n, j))
  }

  lemma TakingStep(b: Book, n: nat, i: nat, op: Op)
    requires i < n && 2 * n < U64 && b.bids == [] && Covers(b, MATCH_PRICE, MATCH_PRICE)
    requires op == OpOf(FullMatchCommand(n, n + i))
    ensures var before := AfterTaking(b, n, i);
            var x := Step(before.book, op);
            AfterTaking(b, n, i + 1) == Outcome(x.book, before.oks + [x.ok], before.execs + x.execs)
  {
    hide Submit;
    assert op == SubmitOp(n + i + 1, Buy, MATCH_PRICE, QtyOf(i));
    TakeOneAsk(b.(asks := Asks(i, n)), n, i);
    MoreTrue(n + i);
    MorePairings(n, i);
    hide Asks;
    hide AllTrue;
    hide Pairings;
  }

  lemma {:induction false} TakingPhase(b: Book, n: nat, ops: seq<Op>, j: nat)
    requires b.bids == [] && b.asks == [] && Covers(b, MATCH_PRICE, MATCH_PRICE) && n <= b.capacity && 2 * n < U64
    requires |ops| == 2 * n && forall i :: 0 <= i < 2 * n ==> ops[i] == OpOf(FullMatchCommand(n, i))
    requires j <= n
    ensures Run(b, ops[..n + j]) == AfterTaking(b, n, j)
  {
    hide FullMatchCommand;
    hide OpOf;
    hide Run;
    hide Step;
    if j == 0 {
      RestingPhase(b, n, ops, n);
      assert Pairings(n, 0) == [];
    } else {
      TakingPhase(b, n, ops, j - 1);
      TakingStep(b, n, j - 1, ops[n + j - 1]);
      RunSnoc(b, ops, n + j - 1);
      hide AfterTaking;
    }
  }

  /**
   Running the full-match workload on an empty book that covers the price and has room for n orders
   accepts every command, pairs order n+i with order i, and ends with the empty book.
   */
  lemma FullMatchOutcome(b: Book, n: u64, commands: seq<OrderCommand>)
    requires b.bids == [] && b.asks == [] && Covers(b, MATCH_PRICE, MATCH_PRICE) && n <= b.capacity && 2 * n < U64
    requires |commands| == 2 * n && forall i :: 0 <= i < 2 * n ==> commands[i] == FullMatchCommand(n, i)
    ensures Run(b, OpsOf(commands)) == Outcome(b, AllTrue(2 * n), Pairings(n, n))
  {
    var ops := OpsOf(commands);
    TakingPhase(b, n, ops, n);
    assert ops[..n + n] == ops;
    assert b.(asks := Asks(n, n)) == b;
  }

  // ---- Lists that never cross ----

  /** Limit orders with distinct ids whose buys stay below every sell. */
  ghost predicate NonCrossing(commands: seq<OrderCommand>, bid: Price, ask: Price, lo: Price, hi: Price) {
    && bid < ask
    && (forall i :: 0 <= i < |commands| ==>
          && commands[i].kind.AddLimit? && commands[i].qty > 0 && lo <= commands[i].price <= hi
          && (if commands[i].side.Buy? then commands[i].price <= bid else commands[i].price >= ask))
    && (forall i, j :: 0 <= i < j < |commands| ==> commands[i].orderId != commands[j].orderId)
  }

  /** Each resting order came from one of the first j commands, and stays on its side of the spread. */
  ghost predicate RestsFrom(s: seq<Entry>, commands: seq<OrderCommand>, j: nat)
    requires j <= |commands|
  {
    forall k :: 0 <= k < |s| ==> exists i :: 0 <= i < j && commands[i].orderId == s[k].id
  }

  function EntryFor(c: OrderCommand): Entry { Entry(c.orderId, c.price, c.qty) }

  /** Each of the first j commands rests on its side, with its price and its whole quantity. */
  ghost predicate Rested(b: Book, commands: seq<OrderCommand>, j: nat)
    requires j <= |commands|
  {
    forall i :: 0 <= i < j ==> EntryFor(commands[i]) in b.Orders(commands[i].side)
  }

  lemma RestedMore(b: Book, commands: seq<OrderCommand>, j: nat, k: nat)
    requires j < |commands| && Rested(b, commands, j) && k <= |b.Orders(commands[j].side)|
    ensures var s := InsertAt(b.Orders(commands[j].side), k, EntryFor(commands[j]));
            Rested(b.With(commands[j].side, s), commands, j + 1)
  {
    var s, e := b.Orders(commands[j].side), EntryFor(commands[j]);
    var t := InsertAt(s, k, e);
    assert t[k] == e;
    forall x | x in s ensures x in t {
      var i :| 0 <= i < |s| && s[i] == x;
      assert t[if i < k then i else i + 1] == x;
    }
  }

  ghost predicate Within(s: seq<Entry>, lo: Price, hi: Price) {
    forall k :: 0 <= k < |s| ==> lo <= s[k].price <= hi
  }

  ghost predicate InSpread(b: Book, bid: Price, ask: Price) {
    Within(b.bids, 0, bid) && Within(b.asks, ask, U64 - 1)
  }

  lemma NotYetLive(s: seq<Entry>, commands: seq<OrderCommand>, j: nat)
    requires j < |commands| && RestsFrom(s, commands, j)
    requires forall i, k :: 0 <= i < k < |commands| ==> commands[i].orderId != commands[k].orderId
    ensures !HasId(s, commands[j].orderId)
  {}

  lemma RestsFromMore(s: seq<Entry>, commands: seq<OrderCommand>, j: nat, k: nat, e: Entry)
    requires j < |commands| && RestsFrom(s, commands, j) && k <= |s| && e.id == commands[j].orderId
    ensures RestsFrom(InsertAt(s, k, e), commands, j + 1) && RestsFrom(s, commands, j + 1)
  {
    var t := InsertAt(s, k, e);
    forall x | 0 <= x < |t| ensures exists i :: 0 <= i < j + 1 && commands[i].orderId == t[x].id {
      if x != k {
        var y := if x < k then x else x - 1;
        assert t[x] == s[y];
        var i :| 0 <= i < j && commands[i].orderId == s[y].id;
      }
    }
    forall x | 0 <= x < |s| ensures exists i :: 0 <= i < j + 1 && commands[i].orderId == s[x].id {
      var i :| 0 <= i < j && commands[i].orderId == s[x].id;
    }
  }

  lemma RestOne(b: Book, commands: seq<OrderCommand>, j: nat, bid: Price, ask: Price)
    requires NonCrossing(commands, bid, ask, b.minPrice, b.maxPrice) && j < |commands| <= b.capacity
    requires InSpread(b, bid, ask) && b.Active() == j
    requires RestsFrom(b.bids, commands, j) && RestsFrom(b.asks, commands, j)
    requires Rested(b, commands, j)
    ensures var r := Step(b, OpOf(commands[j]));
            && r.ok && r.execs == []
            && InSpread(r.book, bid, ask)
            && RestsFrom(r.book.bids, commands, j + 1) && RestsFrom(r.book.asks, commands, j + 1)
            && r.book.Active() == j + 1 && Rested(r.book, commands, j + 1)
            && r.book.minPrice == b.minPrice && r.book.maxPrice == b.maxPrice && r.book.capacity == b.capacity
  {
    hide QueuePos;
    hide RestsFrom;
    hide Rested;
    hide InsertAt;
    hide IndexOf;
    var c := commands[j];
    var s, opp := b.Orders(c.side), b.Orders(c.side.Opposite());
    var k, e := QueuePos(c.side, s, c.price), EntryFor(c);
    NotYetLive(b.bids, commands, j);
    NotYetLive(b.asks, commands, j);
    NoCrossNoMatch(c.orderId, c.side, c.price, c.qty, opp);
    hide Match;
    assert b.With(c.side.Opposite(), opp) == b;
    assert Step(b, OpOf(c)) == StepResult(true, b.With(c.side, InsertAt(s, k, e)), []);
    hide Step;
    RestedMore(b, commands, j, k);
    RestsFromMore(s, commands, j, k, e);
    RestsFromMore(opp, commands, j, 0, e);
    assert commands[j].kind.AddLimit?;
    if c.side.Buy? {
      InsertedWithin(s, k, e, 0, bid);
    } else {
      InsertedWithin(s, k, e, ask, U64 - 1);
    }
  }

  lemma InsertedWithin(s: seq<Entry>, k: nat, e: Entry, lo: Price, hi: Price)
    requires k <= |s| && Within(s, lo, hi) && lo <= e.price <= hi
    ensures Within(InsertAt(s, k, e), lo, hi) && |InsertAt(s, k, e)| == |s| + 1
  {
    var t := InsertAt(s, k, e);
    assert forall x :: 0 <= x < |t| ==> t[x] == if x < k then s[x] else if x == k then e else s[x - 1];
  }

  /** The book after the first j commands of a non-crossing list, run on b. */
  ghost predicate AfterResting(b: Book, commands: seq<OrderCommand>, j: nat, bid: Price, ask: Price, now: Book)
    requires j <= |commands|
  {
    && InSpread(now, bid, ask) && now.Active() == j && Rested(now, commands, j)
    && RestsFrom(now.bids, commands, j) && RestsFrom(now.asks, commands, j)
    && now.minPrice == b.minPrice && now.maxPrice == b.maxPrice && now.capacity == b.capacity
  }

  lemma RestOneMore(b: Book, commands: seq<OrderCommand>, j: nat, bid: Price, ask: Price, now: Book)
    requires NonCrossing(commands, bid, ask, b.minPrice, b.maxPrice) && j < |commands| <= b.capacity
    requires AfterResting(b, commands, j, bid, ask, now)
    ensures var r := Step(now, OpOf(commands[j]));
            r.ok && r.execs == [] && AfterResting(b, commands, j + 1, bid, ask, r.book)
  {
    hide NonCrossing;
    hide RestsFrom;
    hide Rested;
    hide InSpread;
    hide Step;
    RestOne(now, commands, j, bid, ask);
  }

  lemma {:induction false} RestAll(b: Book, commands: seq<OrderCommand>, ops: seq<Op>, j: nat, bid: Price, ask: Price)
    requires b.bids == [] && b.asks == [] && ops == OpsOf(commands)
    requires NonCrossing(commands, bid, ask, b.minPrice, b.maxPrice) && j <= |commands| <= b.capacity
    ensures var r := Run(b, ops[..j]);
            r.oks == AllTrue(j) && r.execs == [] && AfterResting(b, commands, j, bid, ask, r.book)
  {
    hide *;
    if j == 0 {
      RunNothing(b, ops);
      NothingRests(b, commands, bid, ask);
    } else {
      OpsOfAt(commands, j - 1);
      RestAll(b, commands, ops, j - 1, bid, ask);
      RunSnoc(b, ops, j - 1);
      RestOneMore(b, commands, j - 1, bid, ask, Run(b, ops[..j - 1]).book);
      MoreTrue(j - 1);
    }
  }

  lemma NothingRests(b: Book, commands: seq<OrderCommand>, bid: Price, ask: Price)
    requires b.bids == [] && b.asks == []
    ensures AfterResting(b, commands, 0, bid, ask, b) && AllTrue(0) == []
  {}

  /** A list whose buys stay below its sells, run on an empty book with room, trades nothing and rests everything. */
  lemma NonCrossingOutcome(b: Book, commands: seq<OrderCommand>, bid: Price, ask: Price)
    requires b.bids == [] && b.asks == []
    requires NonCrossing(commands, bid, ask, b.minPrice, b.maxPrice) && |commands| <= b.capacity
    ensures var r := Run(b, OpsOf(commands));
            && r.oks == AllTrue(|commands|) && r.execs == []
            && r.book.Active() == |commands| && Rested(r.book, commands, |commands|)
  {
    RestAll(b, commands, OpsOf(commands), |commands|, bid, ask);
    assert OpsOf(commands)[..|commands|] == OpsOf(commands);
  }

  ghost predicate Generated(commands: seq<OrderCommand>, n: u64, make: u64 -> OrderCommand) {
    |commands| == n && forall i :: 0 <= i < n ==> commands[i] == make(i)
  }

  lemma GeneratedNonCrossing(commands: seq<OrderCommand>, n: u64, make: u64 -> OrderCommand)
    requires Generated(commands, n, make)
    requires make == AddOnlyCommand || make == RestingAskCommand || make == NonCrossingBuyCommand
    ensures NonCrossing(commands, BASE_BID, BASE_ASK, BASE_BID - (LEVELS - 1), BASE_ASK + (LEVELS - 1))
  {
    forall i: u64 | 0 <= i < n
      ensures var c := make(i);
              && c.kind.AddLimit? && c.qty > 0 && c.orderId == i + 1
              && BASE_BID - (LEVELS - 1) <= c.price <= BASE_ASK + (LEVELS - 1)
              && (if c.side.Buy? then c.price <= BASE_BID else c.price >= BASE_ASK)
    {
      assert make(i) == AddOnlyCommand(i) || make(i) == RestingAskCommand(i) || make(i) == NonCrossingBuyCommand(i);
    }
    assert forall i: u64 :: 0 <= i < n ==> commands[i] == make(i) && commands[i].orderId == i + 1;
  }

  /** The three workloads that do not cross, on a book that covers their prices, trade nothing and rest everything. */
  lemma AddOnlyOutcome(b: Book, n: u64, commands: seq<OrderCommand>, make: u64 -> OrderCommand)
    requires b.bids == [] && b.asks == [] && Covers(b, BASE_BID - (LEVELS - 1), BASE_ASK + (LEVELS - 1))
    requires n <= b.capacity && Generated(commands, n, make)
    requires make == AddOnlyCommand || make == RestingAskCommand || make == NonCrossingBuyCommand
    ensures var r := Run(b, OpsOf(commands));
            && r.oks == AllTrue(n) && r.execs == []
            && r.book.Active() == n && Rested(r.book, commands, n)
  {
    GeneratedNonCrossing(commands, n, make);
    NonCrossingOutcome(b, commands, BASE_BID, BASE_ASK);
  }

  // ---- How the lists spread over the levels ----

  /** 37 is odd, and 941 its inverse modulo 1024: equal offsets are a multiple of 1024 commands apart. */
  lemma EqualOffsetsApart(i: nat, j: nat)
    requires i < j && (37 * i) % 1024 == (37 * j) % 1024
    ensures j - i >= 1024
  {
    var q := 37 * j / 1024 - 37 * i / 1024;
    assert 37 * (j - i) == 1024 * q;
    assert 941 * 37 == 1 + 1024 * 34;
    assert j - i == 1024 * (941 * q - 34 * (j - i));
  }

  /** So of any 1024 consecutive commands no two have the same offset. */
  lemma OffsetsDiffer(i: nat, j: nat)
    requires i < j < i + 1024
    ensures (37 * i) % 1024 != (37 * j) % 1024
  {
    if (37 * i) % 1024 == (37 * j) % 1024 {
      EqualOffsetsApart(i, j);
    }
  }

  /** Orders of pairwise different prices: at most one at each. */
  lemma {:induction false} OnePerPrice(s: seq<Entry>, price: Price)
    requires forall i, j :: 0 <= i < j < |s| ==> s[i].price != s[j].price
    ensures CountAt(s, price) <= 1
  {
    if s != [] {
      if s[0].price == price {
        assert forall i :: 0 <= i < |s[1..]| ==> s[1..][i].price != price;
        NothingAt(s[1..], price);
      } else {
        OnePerPrice(s[1..], price);
      }
    }
  }

  /** An order that rests after the list came from one of its commands, with that command's price. */
  lemma RestingCommand(b: Book, commands: seq<OrderCommand>, side: Side, k: nat) returns (i: nat)
    requires b.WellFormed() && Rested(b, commands, |commands|) && k < |b.Orders(side)|
    requires RestsFrom(b.bids, commands, |commands|) && RestsFrom(b.asks, commands, |commands|)
    ensures i < |commands| && commands[i].side == side
    ensures commands[i].orderId == b.Orders(side)[k].id && commands[i].price == b.Orders(side)[k].price
  {
    var e := b.Orders(side)[k];
    i :| 0 <= i < |commands| && commands[i].orderId == e.id;
    assert EntryFor(commands[i]) in b.Orders(commands[i].side);
    var x :| 0 <= x < |b.Orders(commands[i].side)| && b.Orders(commands[i].side)[x] == EntryFor(commands[i]);
    OneOrder(b, side, k, commands[i].side, x);
  }

  /** An id is at one place of the book. */
  lemma OneOrder(b: Book, side: Side, k: nat, other: Side, x: nat)
    requires Distinct(b.bids) && Distinct(b.asks) && Apart(b.bids, b.asks)
    requires k < |b.Orders(side)| && x < |b.Orders(other)| && b.Orders(side)[k].id == b.Orders(other)[x].id
    ensures side == other && k == x
  {}

  /** After up to 1024 commands of any of the three lists, no level has more than one order. */
  lemma ListsSpread(b: Book, n: u64, commands: seq<OrderCommand>, make: u64 -> OrderCommand, side: Side, price: Price)
    requires b.WellFormed() && b.bids == [] && b.asks == []
    requires Covers(b, BASE_BID - (LEVELS - 1), BASE_ASK + (LEVELS - 1))
    requires n <= b.capacity && n <= 1024 && Generated(commands, n, make)
    requires make == AddOnlyCommand || make == RestingAskCommand || make == NonCrossingBuyCommand
    ensures CountAt(Run(b, OpsOf(commands)).book.Orders(side), price) <= 1
  {
    GeneratedNonCrossing(commands, n, make);
    RestAll(b, commands, OpsOf(commands), n, BASE_BID, BASE_ASK);
    WholeOps(commands);
    RunKeeps(b, OpsOf(commands));
    var now := Run(b, OpsOf(commands)).book;
    var s := now.Orders(side);
    hide NonCrossing;
    hide Run;
    hide OpsOf;
    forall x, y | 0 <= x < y < |s| ensures s[x].price != s[y].price {
      TwoPrices(now, n, commands, make, side, x, y);
    }
    OnePerPrice(s, price);
  }

  lemma WholeOps(commands: seq<OrderCommand>)
    ensures OpsOf(commands)[..|commands|] == OpsOf(commands)
  {}

  lemma TwoPrices(b: Book, n: u64, commands: seq<OrderCommand>, make: u64 -> OrderCommand, side: Side, x: nat, y: nat)
    requires b.WellFormed() && Rested(b, commands, |commands|) && x < y < |b.Orders(side)|
    requires RestsFrom(b.bids, commands, |commands|) && RestsFrom(b.asks, commands, |commands|)
    requires n <= 1024 && Generated(commands, n, make)
    requires make == AddOnlyCommand || make == RestingAskCommand || make == NonCrossingBuyCommand
    ensures b.Orders(side)[x].price != b.Orders(side)[y].price
  {
    hide *;
    var i := RestingCommand(b, commands, side, x);
    var j := RestingCommand(b, commands, side, y);
    IdsDiffer(b, side, x, y);
    GeneratedAt(commands, n, make, i);
    GeneratedAt(commands, n, make, j);
    if i < j { PricesDiffer(make, i, j); } else { PricesDiffer(make, j, i); }
  }

  lemma GeneratedAt(commands: seq<OrderCommand>, n: u64, make: u64 -> OrderCommand, i: nat)
    requires Generated(commands, n, make) && i < |commands|
    ensures |commands| == n && commands[i] == make(i)
  {}

  lemma IdsDiffer(b: Book, side: Side, x: nat, y: nat)
    requires b.WellFormed() && x < y < |b.Orders(side)|
    ensures b.Orders(side)[x].id != b.Orders(side)[y].id
  {}

  /** Two commands of one side in any 1024 consecutive ones have different prices. */
  lemma PricesDiffer(make: u64 -> OrderCommand, i: u64, j: u64)
    requires i < j < i + 1024 && j < U64 - 1 && make(i).side == make(j).side
    requires make == AddOnlyCommand || make == RestingAskCommand || make == NonCrossingBuyCommand
    ensures make(i).price != make(j).price
  {
    CommandsAre(i);
    CommandsAre(j);
    OffsetsDiffer(i, j);
    hide AddOnlyCommand;
    hide RestingAskCommand;
    hide NonCrossingBuyCommand;
    assert make(i) == AddOnlyCommand(i) || make(i) == RestingAskCommand(i) || make(i) == NonCrossingBuyCommand(i);
  }
}
