/** Who owns each pool slot, and how the id lookup names the live ones. */
module SlotLedger {
  import opened Types
  import opened Matcher
  import opened LevelQueues
  import opened OrderIndexTable

  ghost predicate NoneShared(a: seq<OrderIndex>, b: seq<OrderIndex>) {
    forall i, j :: 0 <= i < |a| && 0 <= j < |b| ==> a[i] != b[j]
  }

  ghost predicate Below(n: nat, a: seq<OrderIndex>) { forall i :: 0 <= i < |a| ==> a[i] < n }

  /** Slots 0..n-1 are split between the queue of a side, the queue of the other side, and the free stack. */
  ghost predicate Slots(n: nat, q: seq<OrderIndex>, o: seq<OrderIndex>, free: seq<OrderIndex>) {
    && Below(n, q) && Below(n, o) && Below(n, free)
    && NoRepeats(q) && NoRepeats(o) && NoRepeats(free)
    && NoneShared(q, o) && NoneShared(q, free) && NoneShared(o, free)
    && |q| + |o| + |free| == n
  }

  ghost predicate Named(orders: seq<Order>, q: seq<OrderIndex>, m: map<OrderId, OrderIndex>) {
    forall k :: 0 <= k < |q| ==> q[k] < |orders| && orders[q[k]].orderId in m && m[orders[q[k]].orderId] == q[k]
  }

  /** The lookup maps exactly the live ids to their slots; no live id is 0. */
  ghost predicate Lookup(orders: seq<Order>, q: seq<OrderIndex>, o: seq<OrderIndex>, m: map<OrderId, OrderIndex>) {
    && Named(orders, q, m) && Named(orders, o, m)
    && (forall id :: id in m ==>
          id != 0 && (m[id] in q || m[id] in o) && m[id] < |orders| && orders[m[id]].orderId == id)
    && |m| == |q| + |o|
  }

  /** Neither says which side is which. */
  lemma SlotsSwap(n: nat, q: seq<OrderIndex>, o: seq<OrderIndex>, free: seq<OrderIndex>)
    requires Slots(n, q, o, free)
    ensures Slots(n, o, q, free)
  {}

  lemma LookupSwap(orders: seq<Order>, q: seq<OrderIndex>, o: seq<OrderIndex>, m: map<OrderId, OrderIndex>)
    requires Lookup(orders, q, o, m)
    ensures Lookup(orders, o, q, m)
  {
    hide Named;
  }

  lemma SlotsInsert(n: nat, q: seq<OrderIndex>, o: seq<OrderIndex>, free: seq<OrderIndex>, idx: OrderIndex, k: nat)
    requires Slots(n, q, o, free + [idx]) && k <= |q|
    ensures idx !in q && idx !in o
    ensures Slots(n, InsertAt(q, k, idx), o, free)
  {
    var f := free + [idx];
    assert f[|free|] == idx;
    assert forall i :: 0 <= i < |free| ==> f[i] == free[i];
    InsertIndices(q, k, idx);
    InsertNoRepeats(q, k, idx);
  }

  lemma SlotsRemove(n: nat, q: seq<OrderIndex>, o: seq<OrderIndex>, free: seq<OrderIndex>, k: nat)
    requires Slots(n, q, o, free) && k < |q|
    ensures Slots(n, RemoveAt(q, k), o, free + [q[k]])
    ensures |free| < n
  {
    RemoveIndices(q, k);
  }

  lemma LookupSame(orders: seq<Order>, orders': seq<Order>, q: seq<OrderIndex>, o: seq<OrderIndex>,
                   m: map<OrderId, OrderIndex>)
    requires Lookup(orders, q, o, m)
    requires |orders'| == |orders| && forall i :: 0 <= i < |orders| ==> orders'[i].orderId == orders[i].orderId
    ensures Lookup(orders', q, o, m)
  {}

  lemma LookupInsert(orders: seq<Order>, orders': seq<Order>, q: seq<OrderIndex>, o: seq<OrderIndex>,
                     m: map<OrderId, OrderIndex>, id: OrderId, idx: OrderIndex, k: nat)
    requires Lookup(orders, q, o, m) && k <= |q| && id != 0 && id !in m
    requires |orders'| == |orders| && idx < |orders| && orders'[idx].orderId == id && idx !in q && idx !in o
    requires forall i :: 0 <= i < |orders| && i != idx ==> orders'[i].orderId == orders[i].orderId
    ensures Lookup(orders', InsertAt(q, k, idx), o, m[id := idx])
  {
    var q' := InsertAt(q, k, idx);
    InsertIndices(q, k, idx);
    NamedInsert(orders, orders', q, m, id, idx, k);
    NamedMore(orders, orders', o, m, id, idx);
    forall s: OrderIndex | s in q ensures s in q' {
      var i :| 0 <= i < |q| && q[i] == s;
      assert q'[if i < k then i else i + 1] == s;
    }
    assert q'[k] == idx;
    hide Named;
    hide InsertAt;
  }

  lemma NamedInsert(orders: seq<Order>, orders': seq<Order>, q: seq<OrderIndex>,
                    m: map<OrderId, OrderIndex>, id: OrderId, idx: OrderIndex, k: nat)
    requires Named(orders, q, m) && k <= |q| && id !in m
    requires |orders'| == |orders| && idx < |orders| && orders'[idx].orderId == id && idx !in q
    requires forall i :: 0 <= i < |orders| && i != idx ==> orders'[i].orderId == orders[i].orderId
    ensures Named(orders', InsertAt(q, k, idx), m[id := idx])
  {
    InsertIndices(q, k, idx);
    hide InsertAt;
  }

  lemma NamedMore(orders: seq<Order>, orders': seq<Order>, o: seq<OrderIndex>,
                  m: map<OrderId, OrderIndex>, id: OrderId, idx: OrderIndex)
    requires Named(orders, o, m) && id !in m && |orders'| == |orders| && idx !in o
    requires forall i :: 0 <= i < |orders| && i != idx ==> orders'[i].orderId == orders[i].orderId
    ensures Named(orders', o, m[id := idx])
  {}

  lemma NamedRemove(orders: seq<Order>, orders': seq<Order>, q: seq<OrderIndex>, m: map<OrderId, OrderIndex>, k: nat)
    requires Named(orders, q, m) && NoRepeats(q) && k < |q|
    requires |orders'| == |orders| && forall i :: 0 <= i < |orders| ==> orders'[i].orderId == orders[i].orderId
    ensures Named(orders', RemoveAt(q, k), Without(m, orders[q[k]].orderId))
  {
    RemoveIndices(q, k);
  }

  lemma NamedOther(orders: seq<Order>, orders': seq<Order>, o: seq<OrderIndex>,
                   m: map<OrderId, OrderIndex>, id: OrderId)
    requires Named(orders, o, m)
    requires |orders'| == |orders| && forall i :: 0 <= i < |orders| ==> orders'[i].orderId == orders[i].orderId
    requires id in m ==> forall i :: 0 <= i < |o| ==> o[i] != m[id]
    ensures Named(orders', o, Without(m, id))
  {}

  lemma StillQueued(q: seq<OrderIndex>, k: nat, s: OrderIndex)
    requires k < |q| && s in q && s != q[k]
    ensures s in RemoveAt(q, k)
  {
    var i :| 0 <= i < |q| && q[i] == s;
    RemoveIndices(q, k);
    assert RemoveAt(q, k)[if i < k then i else i - 1] == s;
  }

  lemma LookupRemove(orders: seq<Order>, orders': seq<Order>, q: seq<OrderIndex>, o: seq<OrderIndex>,
                     m: map<OrderId, OrderIndex>, k: nat)
    requires Lookup(orders, q, o, m) && NoRepeats(q) && NoneShared(q, o) && k < |q|
    requires |orders'| == |orders| && forall i :: 0 <= i < |orders| ==> orders'[i].orderId == orders[i].orderId
    ensures q[k] < |orders| && orders[q[k]].orderId in m && orders[q[k]].orderId != 0
    ensures Lookup(orders', RemoveAt(q, k), o, Without(m, orders[q[k]].orderId))
  {
    var id := orders[q[k]].orderId;
    var m' := Without(m, id);
    NamedRemove(orders, orders', q, m, k);
    NamedOther(orders, orders', o, m, id);
    assert m.Keys == m'.Keys + {id};
    forall x | x in m' ensures m'[x] in RemoveAt(q, k) || m'[x] in o {
      if m[x] in q { StillQueued(q, k, m[x]); }
    }
  }

  /** The two views of liveness agree: an id is in the lookup exactly when an order with it is queued. */
  lemma LiveIffNamed(r: SideRep, s: SideRep, m: map<OrderId, OrderIndex>, id: OrderId)
    requires r.Placed() && s.Placed() && r.orders == s.orders && Lookup(r.orders, r.queue, s.queue, m)
    ensures id in m <==> HasId(r.Entries(), id) || HasId(s.Entries(), id)
  {
    if id in m {
      if m[id] in r.queue {
        var i :| 0 <= i < |r.queue| && r.queue[i] == m[id];
        assert r.Entries()[i].id == id;
      } else {
        var i :| 0 <= i < |s.queue| && s.queue[i] == m[id];
        assert s.Entries()[i].id == id;
      }
    }
  }

  /** A named slot of a queue is found at the id's position in the abstract side. */
  lemma NamedPosition(r: SideRep, m: map<OrderId, OrderIndex>, k: nat)
    requires r.Placed() && NoRepeats(r.queue) && Named(r.orders, r.queue, m) && k < |r.queue|
    ensures IndexOf(r.Entries(), r.At(k).orderId) == k
  {
    var i := IndexOf(r.Entries(), r.At(k).orderId);
    assert r.Entries()[k].id == r.At(k).orderId;
    assert r.Entries()[i].id == r.At(i).orderId;
  }

  /** Ids are unique across the abstract book because the lookup is a function. */
  lemma NamedDistinct(r: SideRep, s: SideRep, m: map<OrderId, OrderIndex>)
    requires r.Placed() && s.Placed() && r.orders == s.orders && Lookup(r.orders, r.queue, s.queue, m)
    requires NoRepeats(r.queue) && NoRepeats(s.queue) && NoneShared(r.queue, s.queue)
    ensures MatchingDistinct(r.Entries(), s.Entries())
  {}

  ghost predicate MatchingDistinct(s: seq<Entry>, t: seq<Entry>) { Distinct(s) && Distinct(t) && Apart(s, t) }

  // ---- Every slot exactly once ----

  lemma {:induction false} DistinctSize(a: seq<OrderIndex>) returns (s: set<int>)
    requires NoRepeats(a)
    ensures |s| == |a|
    ensures forall x :: x in s <==> exists i :: 0 <= i < |a| && a[i] == x
  {
    if a == [] {
      s := {};
    } else {
      var t := DistinctSize(a[1..]);
      assert forall i :: 0 < i < |a| ==> a[i] == a[1..][i - 1];
      s := t + {a[0]};
      assert a[0] !in t;
      forall x | x in s ensures exists i :: 0 <= i < |a| && a[i] == x {
        if x != a[0] {
          var i :| 0 <= i < |a[1..]| && a[1..][i] == x;
          assert a[i + 1] == x;
        }
      }
      forall i | 0 <= i < |a| ensures a[i] in s {
        if i > 0 { assert a[1..][i - 1] in t; }
      }
    }
  }

  lemma {:induction false} RangeSize(n: nat) returns (s: set<int>)
    ensures |s| == n && forall x :: x in s <==> 0 <= x < n
  {
    if n == 0 {
      s := {};
    } else {
      var t := RangeSize(n - 1);
      s := t + {n - 1};
    }
  }

  lemma SubsetOfSameSize(a: set<int>, b: set<int>)
    requires a <= b && |a| == |b|
    ensures a == b
  {
    assert b == a + (b - a);
    assert |b| == |a| + |b - a|;
  }

  /** Each pool slot is in exactly one of the two queues and the free stack, exactly once. */
  lemma EverySlotOnce(n: nat, q: seq<OrderIndex>, o: seq<OrderIndex>, free: seq<OrderIndex>, slot: OrderIndex)
    requires Slots(n, q, o, free) && slot < n
    ensures multiset(q)[slot] + multiset(o)[slot] + multiset(free)[slot] == 1
  {
    var all := q + o + free;
    assert NoRepeats(all) && Below(n, all);
    var s := DistinctSize(all);
    var range := RangeSize(n);
    assert forall i :: 0 <= i < |all| ==> 0 <= all[i] < n;
    assert forall x :: x in s ==> x in range;
    SubsetOfSameSize(s, range);
    assert slot in s;
    OnceInMultiset(all, slot);
    assert multiset(all) == multiset(q) + multiset(o) + multiset(free);
  }

  lemma {:induction false} OnceInMultiset(a: seq<OrderIndex>, x: OrderIndex)
    requires NoRepeats(a)
    ensures multiset(a)[x] == if x in a then 1 else 0
  {
    if a != [] {
      OnceInMultiset(a[1..], x);
      assert a == [a[0]] + a[1..];
      assert multiset(a) == multiset{a[0]} + multiset(a[1..]);
    }
  }
}
