/** ExecutionBuffer: the preallocated sink that execution reports are appended to. */
module ExecutionSink {
  import opened Types

  class ExecutionBuffer {
    var data: array?<Execution>
    var capacity: nat
    var size: nat

    ghost predicate Valid()
      reads this
    {
      size <= capacity && (if data == null then capacity == 0 else data.Length == capacity)
    }

    ghost function Contents(): seq<Execution>
      requires Valid()
      reads this, data
    {
      if data == null then [] else data[..size]
    }

    constructor ()
      ensures Valid() && Contents() == [] && capacity == 0 && data == null
    {
      data, capacity, size := null, 0, 0;
    }

    /** Grows the buffer and keeps what was reported; never shrinks it. */
    method Reserve(newCapacity: nat)
      requires Valid()
      modifies this
      ensures Valid() && Contents() == old(Contents())
      ensures capacity == if newCapacity <= old(capacity) then old(capacity) else newCapacity
      ensures data == old(data) || (data != null && fresh(data))
    {
      if newCapacity <= capacity {
        return;
      }
      var newData := new Execution[newCapacity](_ => Execution(0, 0, 0, 0));
      if data != null {
        for i := 0 to size
          modifies newData
          invariant newData[..i] == data[..i]
        {
          newData[i] := data[i];
        }
      }
      data := newData;
      capacity := newCapacity;
    }

    method EmplaceBack(incomingId: OrderId, restingId: OrderId, price: Price, qty: Quantity)
      requires Valid() && size < capacity
      modifies this`size, data
      ensures Valid() && size == old(size) + 1
      ensures Contents() == old(Contents()) + [Execution(incomingId, restingId, price, qty)]
    {
      data[size] := Execution(incomingId, restingId, price, qty);
      size := size + 1;
    }

    method Clear()
      requires Valid()
      modifies this`size
      ensures Valid() && Contents() == []
    {
      size := 0;
    }
  }
}
