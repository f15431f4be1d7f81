/** OrderPool: preallocated order slots, recycled through a LIFO stack of free slot indices. */
module OrderPool {
  import opened Types

  class Pool {
    const orders: array<Order>
    const freeStack: array<OrderIndex>
    var top: nat

    ghost function Objects(): set<object> { {this, orders, freeStack} }

    ghost predicate Valid()
      reads this
    {
      orders.Length == freeStack.Length <= NULL_ORDER_INDEX && top <= freeStack.Length
    }

    function Capacity(): nat { orders.Length }

    /** The free slots, the next one to hand out last. */
    ghost function Free(): seq<OrderIndex>
      requires Valid()
      reads this, freeStack
    {
      freeStack[..top]
    }

    constructor (maxOrders: nat)
      requires maxOrders <= NULL_ORDER_INDEX
      ensures Valid() && fresh(Objects()) && Capacity() == maxOrders
      ensures |Free()| == maxOrders && forall i :: 0 <= i < maxOrders ==> Free()[i] == i
    {
      orders := new Order[maxOrders](_ => Order(0, 0, 0, NULL_ORDER_INDEX, NULL_ORDER_INDEX, Buy));
      freeStack := new OrderIndex[maxOrders];
      top := maxOrders;
      new;
      for i := 0 to maxOrders
        invariant top == maxOrders
        invariant forall j :: 0 <= j < i ==> freeStack[j] == j
      {
        freeStack[i] := i;
      }
    }

    method Allocate() returns (r: Option<OrderIndex>)
      requires Valid()
      modifies this`top
      ensures Valid()
      ensures r.None? <==> old(Free()) == []
      ensures r.None? ==> Free() == old(Free())
      ensures r.Some? ==> old(Free()) == Free() + [r.value]
    {
      if top == 0 {
        return None;
      }
      top := top - 1;
      return Some(freeStack[top]);
    }

    method Release(idx: OrderIndex)
      requires Valid() && idx < Capacity() && top < Capacity()
      modifies this`top, freeStack
      ensures Valid() && Free() == old(Free()) + [idx]
    {
      freeStack[top] := idx;
      top := top + 1;
    }

    method Used() returns (n: nat)
      requires Valid()
      ensures n == Capacity() - |Free()|
    {
      n := orders.Length - top;
    }

    method Available() returns (n: nat)
      requires Valid()
      ensures n == |Free()|
    {
      n := top;
    }
  }
}
