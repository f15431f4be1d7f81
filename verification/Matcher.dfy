/**
 The abstract order book: each side is one sequence of resting orders in matching priority
 (best price first, earliest arrival first within a price), and every operation of the book is a
 function on it.
 */
module Matcher {
  import opened Types

  datatype Entry = Entry(id: OrderId, price: Price, qty: Quantity)

  /** True if a resting order on `side` at price p has priority over every resting order at price q. */
  predicate Better(side: Side, p: Price, q: Price) {
    if side.Buy? then p > q else p < q
  }

  /** True if an incoming order with this limit may trade at the resting price. */
  predicate Crosses(incoming: Side, limit: Price, resting: Price) {
    if incoming.Buy? then resting <= limit else resting >= limit
  }

  function IndexOf(s: seq<Entry>, id: OrderId): (k: nat)
    ensures k <= |s|
    ensures k < |s| ==> s[k].id == id
    ensures forall i :: 0 <= i < k ==> s[i].id != id
  {
    if s == [] || s[0].id == id then 0 else 1 + IndexOf(s[1..], id)
  }

  predicate HasId(s: seq<Entry>, id: OrderId) { IndexOf(s, id) < |s| }

  /** Where an order at `price` queues: behind everything that it has no priority over. */
  function QueuePos(side: Side, s: seq<Entry>, price: Price): (k: nat)
    ensures k <= |s|
    ensures forall i :: 0 <= i < k ==> !Better(side, price, s[i].price)
    ensures k < |s| ==> Better(side, price, s[k].price)
  {
    if s == [] || Better(side, price, s[0].price) then 0 else 1 + QueuePos(side, s[1..], price)
  }

  function InsertAt<T>(s: seq<T>, k: nat, e: T): seq<T>
    requires k <= |s|
  {
    s[..k] + [e] + s[k..]
  }

  function RemoveAt<T>(s: seq<T>, k: nat): seq<T>
    requires k < |s|
  {
    s[..k] + s[k + 1..]
  }

  /** The first order gives up part of its quantity. */
  function ReduceFront(s: seq<Entry>, traded: Quantity): seq<Entry>
    requires s != [] && traded < s[0].qty
  {
    s[0 := s[0].(qty := s[0].qty - traded)]
  }

  lemma InsertIndices<T>(s: seq<T>, k: nat, e: T)
    requires k <= |s|
    ensures var t := InsertAt(s, k, e);
            && |t| == |s| + 1
            && (forall i :: 0 <= i < k ==> t[i] == s[i])
            && t[k] == e
            && (forall i :: k < i < |t| ==> t[i] == s[i - 1])
  {}

  lemma RemoveIndices<T>(s: seq<T>, k: nat)
    requires k < |s|
    ensures var t := RemoveAt(s, k);
            && |t| == |s| - 1
            && (forall i :: 0 <= i < k ==> t[i] == s[i])
            && (forall i :: k <= i < |t| ==> t[i] == s[i + 1])
  {}

  lemma RemoveInserted<T>(s: seq<T>, k: nat, e: T)
    requires k <= |s|
    ensures RemoveAt(InsertAt(s, k, e), k) == s
  {
    InsertIndices(s, k, e);
    RemoveIndices(InsertAt(s, k, e), k);
  }

  datatype Book = Book(minPrice: Price, maxPrice: Price, capacity: nat, bids: seq<Entry>, asks: seq<Entry>)
  {
    function Orders(side: Side): seq<Entry> { if side.Buy? then bids else asks }

    function With(side: Side, s: seq<Entry>): Book {
      if side.Buy? then this.(bids := s) else this.(asks := s)
    }

    predicate ValidPrice(price: Price) { minPrice <= price <= maxPrice }

    function Active(): nat { |bids| + |asks| }

    predicate Live(id: OrderId) { HasId(bids, id) || HasId(asks, id) }

    /** What every reachable book satisfies. */
    ghost predicate WellFormed() {
      && SideOk(Buy) && SideOk(Sell)
      && Distinct(bids) && Distinct(asks) && Apart(bids, asks)
      && Active() <= capacity
    }

    ghost predicate SideOk(side: Side) {
      && Sorted(side, Orders(side))
      && forall i :: 0 <= i < |Orders(side)| ==> Orders(side)[i].qty > 0 && ValidPrice(Orders(side)[i].price)
    }

    /** Best bid below best ask whenever both sides have orders: neither crossed nor locked. */
    predicate Uncrossed() { bids != [] && asks != [] ==> bids[0].price < asks[0].price }
  }

  ghost predicate Sorted(side: Side, s: seq<Entry>) {
    forall i, j :: 0 <= i < j < |s| ==> !Better(side, s[j].price, s[i].price)
  }

  ghost predicate Distinct(s: seq<Entry>) {
    forall i, j :: 0 <= i < j < |s| ==> s[i].id != s[j].id
  }

  ghost predicate Apart(s: seq<Entry>, t: seq<Entry>) {
    forall i, j :: 0 <= i < |s| && 0 <= j < |t| ==> s[i].id != t[j].id
  }

  // ---- Matching ----

  datatype MatchResult = MatchResult(execs: seq<Execution>, left: Quantity, rest: seq<Entry>)

  /** Consumes the opposite side from its front while the incoming order has quantity and crosses. */
  function Match(id: OrderId, side: Side, limit: Price, qty: Quantity, opp: seq<Entry>): MatchResult {
    if qty == 0 || opp == [] || !Crosses(side, limit, opp[0].price) then
      MatchResult([], qty, opp)
    else if qty < opp[0].qty then
      MatchResult([Execution(id, opp[0].id, opp[0].price, qty)], 0, [opp[0].(qty := opp[0].qty - qty)] + opp[1..])
    else
      var m := Match(id, side, limit, qty - opp[0].qty, opp[1..]);
      MatchResult([Execution(id, opp[0].id, opp[0].price, opp[0].qty)] + m.execs, m.left, m.rest)
  }

  // ---- Operations ----

  datatype StepResult = StepResult(ok: bool, book: Book, execs: seq<Execution>)

  function Add(b: Book, id: OrderId, side: Side, price: Price, qty: Quantity): StepResult {
    if qty == 0 || !b.ValidPrice(price) || b.Active() >= b.capacity || b.Live(id) then
      StepResult(false, b, [])
    else
      var s := b.Orders(side);
      StepResult(true, b.With(side, InsertAt(s, QueuePos(side, s, price), Entry(id, price, qty))), [])
  }

  function Submit(b: Book, id: OrderId, side: Side, price: Price, qty: Quantity): StepResult {
    if qty == 0 || !b.ValidPrice(price) || b.Live(id) then
      StepResult(false, b, [])
    else
      var m := Match(id, side, price, qty, b.Orders(side.Opposite()));
      var matched := b.With(side.Opposite(), m.rest);
      if m.left == 0 then StepResult(true, matched, m.execs)
      else
        var r := Add(matched, id, side, price, m.left);
        StepResult(r.ok, r.book, m.execs)
  }

  function Cancel(b: Book, id: OrderId): StepResult {
    if HasId(b.bids, id) then
      StepResult(true, b.(bids := RemoveAt(b.bids, IndexOf(b.bids, id))), [])
    else if HasId(b.asks, id) then
      StepResult(true, b.(asks := RemoveAt(b.asks, IndexOf(b.asks, id))), [])
    else
      StepResult(false, b, [])
  }

  datatype Op =
    | SubmitOp(id: OrderId, side: Side, price: Price, qty: Quantity)
    | AddOp(id: OrderId, side: Side, price: Price, qty: Quantity)
    | CancelOp(id: OrderId)

  function Step(b: Book, op: Op): StepResult {
    match op
    case SubmitOp(id, side, price, qty) => Submit(b, id, side, price, qty)
    case AddOp(id, side, price, qty) => Add(b, id, side, price, qty)
    case CancelOp(id) => Cancel(b, id)
  }

  /** The commands that travel through the pipeline. */
  function OpOf(c: OrderCommand): Op {
    match c.kind
    case AddLimit => SubmitOp(c.orderId, c.side, c.price, c.qty)
    case CancelOrder => CancelOp(c.orderId)
  }

  function OpsOf(commands: seq<OrderCommand>): (ops: seq<Op>)
    ensures |ops| == |commands| && forall i :: 0 <= i < |ops| ==> ops[i] == OpOf(commands[i])
  {
    if commands == [] then [] else OpsOf(commands[..|commands| - 1]) + [OpOf(commands[|commands| - 1])]
  }

  // ---- Runs ----

  datatype Outcome = Outcome(book: Book, oks: seq<bool>, execs: seq<Execution>)

  function Run(b: Book, ops: seq<Op>): (r: Outcome)
    ensures |r.oks| == |ops|
  {
    if ops == [] then Outcome(b, [], [])
    else
      var before := Run(b, ops[..|ops| - 1]);
      var s := Step(before.book, ops[|ops| - 1]);
      Outcome(s.book, before.oks + [s.ok], before.execs + s.execs)
  }

  function EmptyBook(minPrice: Price, maxPrice: Price, capacity: nat): Book {
    Book(minPrice, maxPrice, capacity, [], [])
  }

  // ---- Queries ----

  function CountAt(s: seq<Entry>, price: Price): nat {
    if s == [] then 0 else (if s[0].price == price then 1 else 0) + CountAt(s[1..], price)
  }

  function SumAt(s: seq<Entry>, price: Price): nat {
    if s == [] then 0 else (if s[0].price == price then s[0].qty else 0) + SumAt(s[1..], price)
  }

  /** The quantity a level header can show: the sum, in a 64-bit word. */
  function ShownQty(s: seq<Entry>, price: Price): Quantity { SumAt(s, price) % U64 }

  function TotalQty(s: seq<Entry>): nat {
    if s == [] then 0 else s[0].qty + TotalQty(s[1..])
  }

  function Traded(execs: seq<Execution>): nat {
    if execs == [] then 0 else execs[0].qty + Traded(execs[1..])
  }

  function BestPrice(s: seq<Entry>): Option<Price> {
    if s == [] then None else Some(s[0].price)
  }

  /** The best price of a side and the quantity its level shows. */
  function BestLevelOf(s: seq<Entry>): Option<(Price, Quantity)> {
    if s == [] then None else Some((s[0].price, ShownQty(s, s[0].price)))
  }

  function FrontIdAt(s: seq<Entry>, price: Price): Option<OrderId> {
    if s == [] then None
    else if s[0].price == price then Some(s[0].id)
    else FrontIdAt(s[1..], price)
  }

  function BackIdAt(s: seq<Entry>, price: Price): Option<OrderId> {
    if s == [] then None
    else if s[|s| - 1].price == price then Some(s[|s| - 1].id)
    else BackIdAt(s[..|s| - 1], price)
  }
}
