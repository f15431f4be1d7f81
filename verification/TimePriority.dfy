/** Priority between two resting orders, from the moment both rest until one of them leaves, over any run. */
module TimePriority {
  import opened Types
  import opened Matcher
  import opened MatchingLaws
  import opened RunLaws

  /** Orders x and y rest on this side, x with priority: at a better price, or earlier at the same one. */
  predicate Ahead(s: seq<Entry>, x: OrderId, y: OrderId) {
    HasId(s, x) && HasId(s, y) && IndexOf(s, x) < IndexOf(s, y)
  }

  /** The order keeps its price. */
  predicate SamePrice(s: seq<Entry>, t: seq<Entry>, id: OrderId) {
    HasId(s, id) && HasId(t, id) && s[IndexOf(s, id)].price == t[IndexOf(t, id)].price
  }

  /** Ahead, and at the prices they had in s. */
  predicate StillAhead(s: seq<Entry>, t: seq<Entry>, x: OrderId, y: OrderId) {
    Ahead(t, x, y) && SamePrice(s, t, x) && SamePrice(s, t, y)
  }

  lemma IndexIs(s: seq<Entry>, id: OrderId, k: nat)
    requires k < |s| && s[k].id == id && forall i :: 0 <= i < k ==> s[i].id != id
    ensures IndexOf(s, id) == k
  {}

  lemma InsertedIndex(s: seq<Entry>, k: nat, e: Entry, id: OrderId)
    requires k <= |s| && HasId(s, id) && id != e.id
    ensures var i := IndexOf(s, id); IndexOf(InsertAt(s, k, e), id) == if i < k then i else i + 1
    ensures HasId(InsertAt(s, k, e), id)
  {
    InsertIndices(s, k, e);
    var i, t := IndexOf(s, id), InsertAt(s, k, e);
    hide InsertAt;
    hide IndexOf;
    IndexIs(t, id, if i < k then i else i + 1);
  }

  lemma RemovedIndex(s: seq<Entry>, k: nat, id: OrderId)
    requires k < |s| && HasId(s, id) && id != s[k].id
    ensures var i := IndexOf(s, id); IndexOf(RemoveAt(s, k), id) == if i < k then i else i - 1
    ensures HasId(RemoveAt(s, k), id)
  {
    RemoveIndices(s, k);
    var i, t := IndexOf(s, id), RemoveAt(s, k);
    hide RemoveAt;
    hide IndexOf;
    IndexIs(t, id, if i < k then i else i - 1);
  }

  /** The first c orders of s are gone; those that are left, in order, are the same ids. */
  lemma SuffixIndex(s: seq<Entry>, t: seq<Entry>, c: nat, id: OrderId)
    requires Distinct(s) && HasId(s, id) && c <= |s| && |t| == |s| - c
    requires forall i :: 0 <= i < |t| ==> t[i].id == s[c + i].id
    ensures HasId(t, id) <==> IndexOf(s, id) >= c
    ensures HasId(t, id) ==> IndexOf(t, id) == IndexOf(s, id) - c
  {
    var i := IndexOf(s, id);
    assert s[i].id == id;
    if HasId(t, id) {
      SameIndex(s, i, c + IndexOf(t, id));
    }
    if i >= c {
      assert t[i - c].id == id;
      IndexIs(t, id, i - c);
    }
  }

  lemma SameIndex(s: seq<Entry>, i: nat, j: nat)
    requires Distinct(s) && i < |s| && j < |s| && s[i].id == s[j].id
    ensures i == j
  {}

  lemma InsertedAhead(s: seq<Entry>, k: nat, e: Entry, x: OrderId, y: OrderId)
    requires Ahead(s, x, y) && k <= |s| && !HasId(s, e.id)
    ensures StillAhead(s, InsertAt(s, k, e), x, y)
  {
    InsertedIndex(s, k, e, x);
    InsertedIndex(s, k, e, y);
    InsertIndices(s, k, e);
    hide IndexOf;
    hide InsertAt;
  }

  lemma RemovedAhead(s: seq<Entry>, k: nat, x: OrderId, y: OrderId)
    requires Ahead(s, x, y) && k < |s| && s[k].id != x && s[k].id != y
    ensures StillAhead(s, RemoveAt(s, k), x, y)
  {
    RemovedIndex(s, k, x);
    RemovedIndex(s, k, y);
    RemoveIndices(s, k);
    hide IndexOf;
    hide RemoveAt;
  }

  lemma SuffixAhead(s: seq<Entry>, t: seq<Entry>, c: nat, x: OrderId, y: OrderId)
    requires Distinct(s) && Ahead(s, x, y) && c <= |s| && |t| == |s| - c && HasId(t, x)
    requires forall i :: 0 <= i < |t| ==> t[i].id == s[c + i].id && t[i].price == s[c + i].price
    ensures StillAhead(s, t, x, y) && c < IndexOf(s, y)
  {
    hide IndexOf;
    hide Distinct;
    SuffixIndex(s, t, c, x);
    SuffixIndex(s, t, c, y);
    var i, j := IndexOf(s, x), IndexOf(s, y);
    assert t[i - c].price == s[c + (i - c)].price;
    assert t[j - c].price == s[c + (j - c)].price;
  }

  /** Executions are with the front of the side, and only the last of them leaves its order resting. */
  lemma OnlyTheFrontTrades(id: OrderId, side: Side, limit: Price, qty: Quantity, opp: seq<Entry>) returns (c: nat)
    requires AllPositive(opp)
    ensures var m := Match(id, side, limit, qty, opp);
            && c <= |opp| && |m.rest| == |opp| - c && c <= |m.execs| <= c + 1 && |m.execs| <= |opp|
            && (forall i :: 0 <= i < |m.rest| ==> m.rest[i].id == opp[c + i].id && m.rest[i].price == opp[c + i].price)
            && (forall i :: 0 <= i < |m.execs| ==> m.execs[i].restingId == opp[i].id)
  {
    MatchIsPriceTimeFill(id, side, limit, qty, opp);
    var m;
    m, c := MatchRest(id, side, limit, qty, opp);
    assert forall i :: 0 <= i < |m.execs| ==> Fills(id, side, limit, m.execs[i], opp[i]);
  }

  /** A match that leaves x resting has not traded with anything behind x. */
  lemma MatchRespects(id: OrderId, side: Side, limit: Price, qty: Quantity, opp: seq<Entry>, x: OrderId, y: OrderId)
    requires AllPositive(opp) && Distinct(opp) && Ahead(opp, x, y)
    requires HasId(Match(id, side, limit, qty, opp).rest, x)
    ensures var m := Match(id, side, limit, qty, opp);
            (forall i :: 0 <= i < |m.execs| ==> m.execs[i].restingId != y) && StillAhead(opp, m.rest, x, y)
  {
    hide Match;
    hide AllPositive;
    var c := OnlyTheFrontTrades(id, side, limit, qty, opp);
    var m := Match(id, side, limit, qty, opp);
    SuffixAhead(opp, m.rest, c, x, y);
    NotReached(opp, m.execs, IndexOf(opp, y), y);
    hide *;
  }

  /** Executions with the orders before y's do not trade with y. */
  lemma NotReached(opp: seq<Entry>, execs: seq<Execution>, k: nat, y: OrderId)
    requires |execs| <= k <= |opp| && k <= IndexOf(opp, y)
    requires forall i :: 0 <= i < |execs| ==> execs[i].restingId == opp[i].id
    ensures forall i :: 0 <= i < |execs| ==> execs[i].restingId != y
  {}

  /** One operation: while x is still there, nothing behind it has traded, and what is left behind it is behind it. */
  ghost predicate Respects(b: Book, r: StepResult, side: Side, x: OrderId, y: OrderId) {
    && (forall i :: 0 <= i < |r.execs| ==> r.execs[i].restingId != y)
    && (r.book.Live(y) ==>
          StillAhead(b.Orders(side), r.book.Orders(side), x, y))
  }

  lemma AddRespects(b: Book, id: OrderId, at: Side, price: Price, qty: Quantity, side: Side, x: OrderId, y: OrderId)
    requires Ahead(b.Orders(side), x, y)
    ensures StillAhead(b.Orders(side), Add(b, id, at, price, qty).book.Orders(side), x, y)
  {
    AddInserts(b, id, at, price, qty);
    StillThere(b.Orders(side), x, y);
    hide IndexOf;
    hide InsertAt;
    hide Matcher.Add;
    hide QueuePos;
    hide Ahead;
    hide StillAhead;
    if at == side && Add(b, id, at, price, qty).ok {
      var s := b.Orders(at);
      InsertedAhead(s, QueuePos(at, s, price), Entry(id, price, qty), x, y);
    }
  }

  lemma StillThere(s: seq<Entry>, x: OrderId, y: OrderId)
    requires Ahead(s, x, y)
    ensures StillAhead(s, s, x, y)
  {}

  lemma AddInserts(b: Book, id: OrderId, side: Side, price: Price, qty: Quantity)
    ensures var r, s := Add(b, id, side, price, qty), b.Orders(side);
            && r.execs == []
            && (if r.ok then
                  !HasId(s, id) && r.book == b.With(side, InsertAt(s, QueuePos(side, s, price), Entry(id, price, qty)))
                else r.book == b)
  {}

  lemma CancelRespects(b: Book, id: OrderId, side: Side, x: OrderId, y: OrderId)
    requires b.WellFormed() && Ahead(b.Orders(side), x, y) && Cancel(b, id).book.Live(x)
    ensures Respects(b, Cancel(b, id), side, x, y)
  {
    hide IndexOf;
    hide RemoveAt;
    hide Ahead;
    hide StillAhead;
    hide Book.WellFormed;
    var at, k := CancelRemovesOne(b, id);
    assert Cancel(b, id).execs == [];
    hide Cancel;
    StillThere(b.Orders(side), x, y);
    if Cancel(b, id).ok && at == side && id != y {
      RemovedAhead(b.Orders(side), k, x, y);
    }
  }

  /** An id of one side is on that side or not live at all. */
  lemma OneSide(b: Book, side: Side, id: OrderId)
    requires Apart(b.bids, b.asks) && HasId(b.Orders(side), id)
    ensures !HasId(b.Orders(side.Opposite()), id)
  {
    ApartSwap(b.bids, b.asks);
    var i := IndexOf(b.Orders(side), id);
    assert b.Orders(side)[i].id == id;
  }

  lemma AddLives(b: Book, id: OrderId, at: Side, price: Price, qty: Quantity, x: OrderId)
    requires x != id && Add(b, id, at, price, qty).book.Live(x)
    ensures b.Live(x)
  {
    var s := b.Orders(at);
    AddInserts(b, id, at, price, qty);
    InsertIndices(s, QueuePos(at, s, price), Entry(id, price, qty));
    hide Matcher.Add;
    hide InsertAt;
    hide QueuePos;
  }

  /** The match of a submit, on the side that it trades with and on the side that it does not. */
  lemma MatchedRespects(b: Book, id: OrderId, at: Side, price: Price, qty: Quantity, side: Side, x: OrderId, y: OrderId)
    requires b.WellFormed() && Ahead(b.Orders(side), x, y)
    requires b.With(at.Opposite(), Match(id, at, price, qty, b.Orders(at.Opposite())).rest).Live(x)
    ensures var m := Match(id, at, price, qty, b.Orders(at.Opposite()));
            var t := b.With(at.Opposite(), m.rest).Orders(side);
            (forall i :: 0 <= i < |m.execs| ==> m.execs[i].restingId != y) && StillAhead(b.Orders(side), t, x, y)
  {
    var s, opp := b.Orders(side), b.Orders(at.Opposite());
    OneSide(b, side, x);
    OneSide(b, side, y);
    StillThere(s, x, y);
    assert AllPositive(opp) && Distinct(s);
    hide Book.WellFormed;
    hide IndexOf;
    hide Match;
    if at.Opposite() == side {
      MatchRespects(id, at, price, qty, s, x, y);
    } else {
      var c := OnlyTheFrontTrades(id, at, price, qty, opp);
      NotReached(opp, Match(id, at, price, qty, opp).execs, |opp|, y);
    }
  }

  lemma SubmitRespects(b: Book, id: OrderId, at: Side, price: Price, qty: Quantity, side: Side, x: OrderId, y: OrderId)
    requires b.WellFormed() && Ahead(b.Orders(side), x, y) && Submit(b, id, at, price, qty).book.Live(x)
    ensures Respects(b, Submit(b, id, at, price, qty), side, x, y)
  {
    hide Submit;
    hide Match;
    hide Matcher.Add;
    hide IndexOf;
    hide Book.WellFormed;
    SubmitParts(b, id, at, price, qty);
    if qty > 0 && b.ValidPrice(price) && !b.Live(id) {
      var m := Match(id, at, price, qty, b.Orders(at.Opposite()));
      var matched := b.With(at.Opposite(), m.rest);
      if m.left > 0 { AddLives(matched, id, at, price, m.left, x); }
      MatchedRespects(b, id, at, price, qty, side, x, y);
      AddRespects(matched, id, at, price, m.left, side, x, y);
    }
  }

  lemma StepRespects(b: Book, op: Op, side: Side, x: OrderId, y: OrderId)
    requires b.WellFormed() && Ahead(b.Orders(side), x, y) && Step(b, op).book.Live(x)
    ensures Respects(b, Step(b, op), side, x, y)
  {
    hide Submit;
    hide Cancel;
    hide Matcher.Add;
    match op
    case SubmitOp(id, at, price, qty) => SubmitRespects(b, id, at, price, qty, side, x, y);
    case AddOp(id, at, price, qty) =>
      AddInserts(b, id, at, price, qty);
      AddRespects(b, id, at, price, qty, side, x, y);
    case CancelOp(id) => CancelRespects(b, id, side, x, y);
  }

  /** The order rests from operation i of the run to operation j. */
  ghost predicate Stays(b: Book, ops: seq<Op>, i: nat, j: nat, id: OrderId)
    requires j <= |ops|
  {
    forall k :: i <= k <= j ==> Run(b, ops[..k]).book.Live(id)
  }

  /**
   Time priority over a run. If x has priority over y after operation i, and neither has left before
   operation j, then as long as x has not left at j either, no execution from i to j has traded with
   y, and if y is still there it is still behind x. So y trades only once x is filled or cancelled.
   */
  lemma {:induction false} PriorityIsKept(b: Book, ops: seq<Op>, i: nat, j: nat, side: Side, x: OrderId, y: OrderId)
    requires b.WellFormed() && i <= j <= |ops|
    requires Ahead(Run(b, ops[..i]).book.Orders(side), x, y)
    requires Stays(b, ops, i, j, x) && (j > i ==> Stays(b, ops, i, j - 1, y))
    ensures var before, after := Run(b, ops[..i]), Run(b, ops[..j]);
            && before.execs <= after.execs
            && (forall k :: |before.execs| <= k < |after.execs| ==> after.execs[k].restingId != y)
            && (after.book.Live(y) ==> StillAhead(before.book.Orders(side), after.book.Orders(side), x, y))
    decreases j
  {
    hide *;
    if i == j {
      StillThere(Run(b, ops[..i]).book.Orders(side), x, y);
    } else {
      StaysAt(b, ops, i, j, x, j);
      StaysAt(b, ops, i, j - 1, y, j - 1);
      StaysLess(b, ops, i, j, x);
      StaysLess(b, ops, i, j - 1, y);
      PriorityIsKept(b, ops, i, j - 1, side, x, y);
      var before, last := Run(b, ops[..i]).book, Run(b, ops[..j - 1]).book;
      RunKeeps(b, ops[..j - 1]);
      RunSnoc(b, ops, j - 1);
      RespectsMore(before, last, Step(last, ops[j - 1]), side, x, y);
      StepRespects(last, ops[j - 1], side, x, y);
    }
  }

  lemma StaysAt(b: Book, ops: seq<Op>, i: nat, j: nat, id: OrderId, k: nat)
    requires j <= |ops| && Stays(b, ops, i, j, id) && i <= k <= j
    ensures Run(b, ops[..k]).book.Live(id)
  {}

  lemma StaysLess(b: Book, ops: seq<Op>, i: nat, j: nat, id: OrderId)
    requires j <= |ops| && Stays(b, ops, i, j, id)
    ensures j > i ==> Stays(b, ops, i, j - 1, id)
  {}

  lemma RespectsMore(before: Book, last: Book, r: StepResult, side: Side, x: OrderId, y: OrderId)
    requires StillAhead(before.Orders(side), last.Orders(side), x, y)
    ensures Ahead(last.Orders(side), x, y)
    ensures Respects(last, r, side, x, y) ==>
              && (forall k :: 0 <= k < |r.execs| ==> r.execs[k].restingId != y)
              && (r.book.Live(y) ==> StillAhead(before.Orders(side), r.book.Orders(side), x, y))
  {
    hide IndexOf;
  }
}
