/** Feeding a list of commands to the book, one after another, as the benchmark and profiling loops do. */
module Replay {
  import opened Types
  import opened Bits
  import opened Matcher
  import opened MatchingLaws
  import opened RunLaws
  import opened FixedClob
  import opened ExecutionSink
  import opened OrderIndexTable
  import opened SlotLedger
  import opened Workload

  /** The id a command looks up must not be 0; a submit that is refused before the lookup may carry any id. */
  predicate Askable(minPrice: Price, maxPrice: Price, c: OrderCommand) {
    c.orderId != 0 || (c.kind.AddLimit? && (c.qty == 0 || !(minPrice <= c.price <= maxPrice)))
  }

  predicate AllAskable(minPrice: Price, maxPrice: Price, commands: seq<OrderCommand>) {
    forall i :: 0 <= i < |commands| ==> Askable(minPrice, maxPrice, commands[i])
  }

  method Apply(book: Clob, c: OrderCommand, sink: ExecutionBuffer) returns (ok: bool)
    requires book.Valid() && book.SinkApart(sink) && Askable(book.minPrice, book.maxPrice, c)
    requires |sink.Contents()| + |Step(book.Book(), OpOf(c)).execs| <= sink.capacity
    modifies book.Objects(), sink`size, sink.data
    ensures book.Valid() && book.SinkApart(sink) && sink.Valid()
    ensures var r := Step(old(book.Book()), OpOf(c));
            && ok == r.ok
            && book.Book() == r.book
            && sink.Contents() == old(sink.Contents()) + r.execs
  {
    hide Clob.Valid;
    hide Clob.Book;
    hide Submit;
    if c.kind.AddLimit? {
      ok := book.SubmitLimitOrder(c.orderId, c.side, c.price, c.qty, sink);
    } else {
      ok := book.CancelOrder(c.orderId);
    }
  }

  /** Book, results and executions are those of the first i operations, run on b after the executions `before`. */
  ghost predicate HasRun(b: Book, ops: seq<Op>, i: nat, before: seq<Execution>,
                         now: Book, oks: seq<bool>, execs: seq<Execution>)
    requires i <= |ops|
  {
    var r := Run(b, ops[..i]);
    now == r.book && oks == r.oks && execs == before + r.execs
  }

  lemma HasRunStep(b: Book, ops: seq<Op>, i: nat, before: seq<Execution>,
                   now: Book, oks: seq<bool>, execs: seq<Execution>)
    requires i < |ops| && HasRun(b, ops, i, before, now, oks, execs)
    ensures var x := Step(now, ops[i]);
            && |execs| + |x.execs| <= |before| + |Run(b, ops).execs|
            && HasRun(b, ops, i + 1, before, x.book, oks + [x.ok], execs + x.execs)
  {
    RunSnoc(b, ops, i);
    RunGrows(b, ops, i + 1);
    hide Run;
    hide Step;
    ConcatAssoc(before, Run(b, ops[..i]).execs, Step(now, ops[i]).execs);
  }

  lemma HasRunEnds(b: Book, ops: seq<Op>, before: seq<Execution>)
    ensures HasRun(b, ops, 0, before, b, [], before)
    ensures ops[..|ops|] == ops
  {
    assert before + [] == before;
  }

  /** The outcome is the abstract run, whatever the slot numbering, tombstones or hash of the book happen to be. */
  method RunCommands(book: Clob, commands: seq<OrderCommand>, sink: ExecutionBuffer) returns (oks: seq<bool>)
    requires book.Valid() && book.SinkApart(sink) && AllAskable(book.minPrice, book.maxPrice, commands)
    requires |sink.Contents()| + |Run(book.Book(), OpsOf(commands)).execs| <= sink.capacity
    modifies book.Objects(), sink`size, sink.data
    ensures book.Valid() && book.SinkApart(sink) && sink.Valid()
    ensures var r := Run(old(book.Book()), OpsOf(commands));
            && oks == r.oks
            && book.Book() == r.book
            && sink.Contents() == old(sink.Contents()) + r.execs
  {
    hide Clob.Valid;
    hide Clob.Book;
    hide Run;
    hide Step;
    hide OpsOf;
    hide OpOf;
    hide Askable;
    ghost var ops := OpsOf(commands);
    ghost var b, before := book.Book(), sink.Contents();
    HasRunEnds(b, ops, before);
    oks := [];
    for i := 0 to |commands|
      invariant book.Valid() && book.SinkApart(sink)
      invariant HasRun(b, ops, i, before, book.Book(), oks, sink.Contents())
    {
      HasRunStep(b, ops, i, before, book.Book(), oks, sink.Contents());
      hide HasRun;
      var ok := Apply(book, commands[i], sink);
      oks := oks + [ok];
    }
  }

  // ---- Operations in general, direct adds included ----

  /** As above for any operation; an add looks its id up only once it has a slot. */
  predicate OpAskable(b: Book, op: Op) {
    match op
    case SubmitOp(id, _, price, qty) => id != 0 || qty == 0 || !b.ValidPrice(price)
    case AddOp(id, _, price, qty) => id != 0 || qty == 0 || !b.ValidPrice(price) || b.Active() >= b.capacity
    case CancelOp(id) => id != 0
  }

  predicate RunAskable(b: Book, ops: seq<Op>) {
    forall i :: 0 <= i < |ops| ==> OpAskable(Run(b, ops[..i]).book, ops[i])
  }

  method ApplyOp(book: Clob, op: Op, sink: ExecutionBuffer) returns (ok: bool)
    requires book.Valid() && book.SinkApart(sink) && OpAskable(book.Book(), op)
    requires |sink.Contents()| + |Step(book.Book(), op).execs| <= sink.capacity
    modifies book.Objects(), sink`size, sink.data
    ensures book.Valid() && book.SinkApart(sink) && sink.Valid()
    ensures var r := Step(old(book.Book()), op);
            && ok == r.ok
            && book.Book() == r.book
            && sink.Contents() == old(sink.Contents()) + r.execs
  {
    hide Clob.Valid;
    hide Clob.Book;
    hide Below;
    hide FixedOrderIndex.Valid;
    hide Submit;
    hide Cancel;
    hide Matcher.Add;
    book.Tells(0);
    AddIsSilent(book.Book(), op);
    match op {
      case SubmitOp(id, side, price, qty) => ok := book.SubmitLimitOrder(id, side, price, qty, sink);
      case AddOp(id, side, price, qty) => ok := book.AddResidual(id, side, price, qty, sink);
      case CancelOp(id) => ok := book.CancelOrder(id);
    }
  }

  /** Adds and cancels report nothing. */
  lemma AddIsSilent(b: Book, op: Op)
    ensures !op.SubmitOp? ==> Step(b, op).execs == []
  {}

  method RunOps(book: Clob, ops: seq<Op>, sink: ExecutionBuffer) returns (oks: seq<bool>)
    requires book.Valid() && book.SinkApart(sink) && RunAskable(book.Book(), ops)
    requires |sink.Contents()| + |Run(book.Book(), ops).execs| <= sink.capacity
    modifies book.Objects(), sink`size, sink.data
    ensures book.Valid() && book.SinkApart(sink) && sink.Valid()
    ensures var r := Run(old(book.Book()), ops);
            && oks == r.oks
            && book.Book() == r.book
            && sink.Contents() == old(sink.Contents()) + r.execs
  {
    hide Clob.Valid;
    hide Clob.Book;
    hide Run;
    hide Step;
    hide OpAskable;
    ghost var b, before := book.Book(), sink.Contents();
    HasRunEnds(b, ops, before);
    oks := [];
    for i := 0 to |ops|
      invariant book.Valid() && book.SinkApart(sink)
      invariant HasRun(b, ops, i, before, book.Book(), oks, sink.Contents())
    {
      HasRunStep(b, ops, i, before, book.Book(), oks, sink.Contents());
      assert OpAskable(book.Book(), ops[i]);
      hide HasRun;
      var ok := ApplyOp(book, ops[i], sink);
      oks := oks + [ok];
    }
  }

  // ---- Two books with the same orders ----

  /** No object of one book is an object of the other, nor the other's sink. */
  ghost predicate Separate(a: Clob, sinkA: ExecutionBuffer, b: Clob, sinkB: ExecutionBuffer)
    reads sinkA, sinkB
  {
    && (forall o :: o in a.Objects() ==> o !in b.Objects() && o != sinkB && o != sinkB.data)
    && (forall o :: o in b.Objects() ==> o != sinkA && o != sinkA.data)
    && sinkA as object != sinkB && sinkA as object != sinkB.data && sinkB as object != sinkA.data
    && (sinkA.data != null ==> sinkA.data != sinkB.data)
  }

  /**
   Layout independence: two books with the same orders, whatever their tombstones, slot numbers and
   hash policies, answer every operation alike, report the same executions and stay the same book.
   */
  method RunTwins(a: Clob, sinkA: ExecutionBuffer, b: Clob, sinkB: ExecutionBuffer, ops: seq<Op>)
    returns (oksA: seq<bool>, oksB: seq<bool>)
    requires a.Valid() && a.SinkApart(sinkA) && b.Valid() && b.SinkApart(sinkB) && Separate(a, sinkA, b, sinkB)
    requires a.Book() == b.Book() && RunAskable(a.Book(), ops)
    requires |sinkA.Contents()| + |Run(a.Book(), ops).execs| <= sinkA.capacity
    requires |sinkB.Contents()| + |Run(a.Book(), ops).execs| <= sinkB.capacity
    modifies a.Objects(), sinkA`size, sinkA.data, b.Objects(), sinkB`size, sinkB.data
    ensures a.Valid() && b.Valid() && a.SinkApart(sinkA) && b.SinkApart(sinkB)
    ensures oksA == oksB && a.Book() == b.Book()
    ensures exists execs ::
              && sinkA.Contents() == old(sinkA.Contents()) + execs
              && sinkB.Contents() == old(sinkB.Contents()) + execs
  {
    hide Run;
    hide Clob.Valid;
    hide Clob.Book;
    hide RunAskable;
    oksA := RunOps(a, ops, sinkA);
    assert b.Valid() && b.SinkApart(sinkB) && b.Book() == old(b.Book());
    label first:
    oksB := RunOps(b, ops, sinkB);
    assert a.Valid() && a.SinkApart(sinkA) && a.Book() == old@first(a.Book());
    assert sinkA.Contents() == old@first(sinkA.Contents());
  }

  /** Everything that the public queries report about a side and a price. */
  datatype Answers = Answers(
    best: Option<(Price, Quantity)>, quantity: Quantity, count: nat,
    front: Option<OrderId>, back: Option<OrderId>, active: nat, available: int)

  /** What each of them reports depends on the abstract book only. */
  method Ask(book: Clob, side: Side, price: Price) returns (r: Answers)
    requires book.Valid()
    ensures var b := book.Book();
            var s := b.Orders(side);
            && r.best == BestLevelOf(s)
            && r.quantity == SumAt(s, price) % U64 && r.count == CountAt(s, price)
            && r.front == FrontIdAt(s, price) && r.back == BackIdAt(s, price)
            && r.active == b.Active() && r.available == b.capacity - b.Active()
  {
    hide Clob.Valid;
    hide Clob.Book;
    hide SumAt;
    hide CountAt;
    hide FrontIdAt;
    hide BackIdAt;
    hide BestLevelOf;
    var best := book.BestLevel(side);
    var quantity := book.QuantityAt(side, price);
    var count := book.OrderCountAt(side, price);
    var front := book.FrontOrderId(side, price);
    var back := book.BackOrderId(side, price);
    var active := book.ActiveOrders();
    var available := book.AvailableSlots();
    r := Answers(best, quantity, count, front, back, active, available);
  }

  /** And two such books answer every query alike. */
  method AskTwins(a: Clob, b: Clob, side: Side, price: Price) returns (x: Answers, y: Answers)
    requires a.Valid() && b.Valid() && a.Book() == b.Book()
    ensures x == y
  {
    hide Clob.Valid;
    hide Clob.Book;
    hide SumAt;
    hide CountAt;
    hide FrontIdAt;
    hide BackIdAt;
    hide BestLevelOf;
    x := Ask(a, side, price);
    assert unchanged(a.Objects()) && unchanged(b.Objects());
    y := Ask(b, side, price);
    assert unchanged(a.Objects()) && unchanged(b.Objects());
  }

  // ---- From a new book ----

  /** An empty book and an empty sink reserved for `room` executions. */
  method NewBook(maxOrders: nat, minPrice: Price, maxPrice: Price, hash: OrderId -> u64, room: nat)
    returns (book: Clob, sink: ExecutionBuffer)
    requires IsPow2(maxOrders) && maxOrders <= NULL_ORDER_INDEX
    requires minPrice <= maxPrice && maxPrice - minPrice + 1 < U64
    ensures book.Valid() && book.SinkApart(sink)
    ensures fresh(book.Objects()) && fresh(sink) && (sink.data != null ==> fresh(sink.data))
    ensures book.minPrice == minPrice && book.maxPrice == maxPrice
    ensures book.Book() == EmptyBook(minPrice, maxPrice, maxOrders)
    ensures sink.Contents() == [] && sink.capacity == room
  {
    hide Clob.Valid;
    hide Clob.Book;
    hide IsPow2;
    book := new Clob(maxOrders, minPrice, maxPrice, hash);
    label made:
    sink := new ExecutionBuffer();
    sink.Reserve(room);
    assert forall o :: o in book.Objects() ==> unchanged@made(o);
  }

  /** A new book and a sink with room for one execution per command: the sink's capacity is never exceeded. */
  method Replay(maxOrders: nat, minPrice: Price, maxPrice: Price, hash: OrderId -> u64, commands: seq<OrderCommand>)
    returns (book: Clob, sink: ExecutionBuffer, oks: seq<bool>)
    requires IsPow2(maxOrders) && maxOrders <= NULL_ORDER_INDEX
    requires minPrice <= maxPrice && maxPrice - minPrice + 1 < U64
    requires AllAskable(minPrice, maxPrice, commands)
    ensures book.Valid() && sink.Valid()
    ensures Outcome(book.Book(), oks, sink.Contents()) == Run(EmptyBook(minPrice, maxPrice, maxOrders), OpsOf(commands))
    ensures |sink.Contents()| <= |commands| == sink.capacity
  {
    hide Clob.Valid;
    hide Clob.Book;
    hide Run;
    hide OpsOf;
    hide AllAskable;
    hide IsPow2;
    book, sink := NewBook(maxOrders, minPrice, maxPrice, hash, |commands|);
    ExecutionsAreBounded(EmptyBook(minPrice, maxPrice, maxOrders), OpsOf(commands));
    oks := RunCommands(book, commands, sink);
  }

  lemma FullMatchAskable(minPrice: Price, maxPrice: Price, n: u64, commands: seq<OrderCommand>)
    requires 2 * n < U64 && |commands| == 2 * n && forall i :: 0 <= i < 2 * n ==> commands[i] == FullMatchCommand(n, i)
    ensures AllAskable(minPrice, maxPrice, commands)
  {}

  /**
   The full-match workload on a new book that covers its price: room for n executions is enough for
   the 2n commands, buy number i takes exactly ask number i, and the book ends empty.
   */
  method ReplayFullMatch(maxOrders: nat, minPrice: Price, maxPrice: Price, hash: OrderId -> u64, n: u64)
    returns (book: Clob, sink: ExecutionBuffer, oks: seq<bool>)
    requires IsPow2(maxOrders) && maxOrders <= NULL_ORDER_INDEX && n <= maxOrders
    requires minPrice <= MATCH_PRICE <= maxPrice && maxPrice - minPrice + 1 < U64
    ensures book.Valid() && sink.Valid() && sink.capacity == n
    ensures book.Book() == EmptyBook(minPrice, maxPrice, maxOrders)
    ensures sink.Contents() == Pairings(n, n) && oks == AllTrue(2 * n)
  {
    hide Clob.Valid;
    hide Clob.Book;
    hide Run;
    hide IsPow2;
    hide FullMatchCommand;
    hide AllAskable;
    hide OpsOf;
    book, sink := NewBook(maxOrders, minPrice, maxPrice, hash, n);
    var commands := MakeFullMatchCommands(n);
    FullMatchOutcome(EmptyBook(minPrice, maxPrice, maxOrders), n, commands);
    FullMatchAskable(minPrice, maxPrice, n, commands);
    oks := RunCommands(book, commands, sink);
  }
}
