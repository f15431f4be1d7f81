/**
 The two rings as the classes they are: fields and a slot array changed in place by one caller at a
 time, refining one bounded FIFO queue. Counters are 64-bit words that wrap; the ghost counts do not.
 How the two threads interleave is the subject of RingProtocol.
 */
module SpscRing {
  import opened Types
  import opened Bits
  import opened RingProtocol

  /** The ring's memory holds the queue, whose first item is number `popped` since the ring was made. */
  ghost predicate Represents<T>(data: seq<T>, head: u64, tail: u64, queue: seq<T>, popped: nat) {
    && IsPow2(|data|) && 1 < |data| < U64
    && |queue| <= |data|
    && head == (popped + |queue|) % U64 && tail == popped % U64
    && Holds(data, queue, popped)
  }

  lemma Used<T>(data: seq<T>, head: u64, tail: u64, queue: seq<T>, popped: nat)
    requires Represents(data, head, tail, queue, popped)
    ensures SubWrap(head, tail) == |queue| <= |data| && (head == tail <==> queue == [])
    ensures |data| > 1 && AddWrap(head, 0) == head && AddWrap(tail, 0) == tail
    ensures Holds(data, [], popped + |queue|)
  {
    WrappedDifference(popped + |queue|, popped);
    WrappedEqual(popped + |queue|, popped);
  }

  lemma AppendKeeps<T>(data: seq<T>, head: u64, tail: u64, queue: seq<T>, popped: nat, items: seq<T>, x: T)
    requires Represents(data, head, tail, queue, popped) && |queue| + |items| < |data|
    requires Holds(data, items, popped + |queue|)
    ensures var slot := And(AddWrap(head, |items| % U64), |data| - 1);
            && slot < |data|
            && Represents(data[slot := x], head, tail, queue, popped)
            && Holds(data[slot := x], items + [x], popped + |queue|)
  {
    hide Holds;
    hide IsPow2;
    hide Residue;
    hide And;
    hide AddWrap;
    WrappedSlot(popped + |queue|, |items|, |data|);
    HoldsElsewhere(data, queue, popped, popped + |queue| + |items|, x);
    HoldsMore(data, items, popped + |queue|, x);
  }

  lemma PublishKeeps<T>(data: seq<T>, head: u64, tail: u64, queue: seq<T>, popped: nat, items: seq<T>)
    requires Represents(data, head, tail, queue, popped) && |queue| + |items| <= |data|
    requires Holds(data, items, popped + |queue|)
    ensures Represents(data, AddWrap(head, |items| % U64), tail, queue + items, popped)
  {
    hide Holds;
    hide IsPow2;
    HoldsConcat(data, queue, items, popped);
    WrappedSum(popped + |queue|, |items|);
  }

  lemma PushKeeps<T>(data: seq<T>, head: u64, tail: u64, queue: seq<T>, popped: nat, x: T)
    requires Represents(data, head, tail, queue, popped) && |queue| < |data|
    ensures |data| > 1 && And(head, |data| - 1) < |data|
    ensures Represents(data[And(head, |data| - 1) := x], AddWrap(head, 1), tail, queue + [x], popped)
  {
    hide Represents;
    hide Holds;
    hide And;
    hide AddWrap;
    Used(data, head, tail, queue, popped);
    AppendKeeps(data, head, tail, queue, popped, [], x);
    assert [] + [x] == [x];
    PublishKeeps(data[And(head, |data| - 1) := x], head, tail, queue, popped, [x]);
  }

  lemma ReadItem<T>(data: seq<T>, head: u64, tail: u64, queue: seq<T>, popped: nat, i: nat)
    requires Represents(data, head, tail, queue, popped) && i < |queue|
    ensures var slot := And(AddWrap(tail, i % U64), |data| - 1);
            slot < |data| && data[slot] == queue[i]
  {
    WrappedSlot(popped, i, |data|);
  }

  lemma ConsumeKeeps<T>(data: seq<T>, head: u64, tail: u64, queue: seq<T>, popped: nat, n: nat)
    requires Represents(data, head, tail, queue, popped) && n <= |queue|
    ensures Represents(data, head, AddWrap(tail, n % U64), queue[n..], popped + n)
  {
    hide Holds;
    hide IsPow2;
    HoldsDrop(data, queue, n, popped);
    WrappedSum(popped, n);
  }

  /** The copy loop of both rings' `push_many`: count items go into the free slots behind the queue. */
  method WriteItems<T>(data: array<T>, head: u64, items: seq<T>, count: nat,
                       ghost tail: u64, ghost queue: seq<T>, ghost popped: nat)
    requires Represents(data[..], head, tail, queue, popped)
    requires count <= |items| && |queue| + count <= data.Length
    modifies data
    ensures Represents(data[..], head, tail, queue, popped)
    ensures Holds(data[..], items[..count], popped + |queue|)
  {
    hide *;
    Used(data[..], head, tail, queue, popped);
    for i := 0 to count
      invariant Represents(data[..], head, tail, queue, popped)
      invariant Holds(data[..], items[..i], popped + |queue|)
    {
      AppendKeeps(data[..], head, tail, queue, popped, items[..i], items[i]);
      ghost var d := data[..];
      data[And(AddWrap(head, i % U64), data.Length - 1)] := items[i];
      assert data[..] == d[And(AddWrap(head, i % U64), |d| - 1) := items[i]];
      assert items[..i] + [items[i]] == items[..i + 1];
    }
  }

  /** The copy loop of both rings' `pop_many`. */
  method ReadItems<T>(data: array<T>, tail: u64, out: array<T>, count: nat,
                      ghost head: u64, ghost queue: seq<T>, ghost popped: nat)
    requires Represents(data[..], head, tail, queue, popped)
    requires count <= |queue| && count <= out.Length && out != data
    modifies out
    ensures out[..count] == queue[..count] && out[count..] == old(out[..])[count..]
  {
    hide *;
    Used(data[..], head, tail, queue, popped);
    ghost var memory := data[..];
    for i := 0 to count
      invariant data[..] == memory
      invariant forall k :: 0 <= k < i ==> out[k] == queue[k]
      invariant forall k :: i <= k < out.Length ==> out[k] == old(out[k])
    {
      ReadItem(memory, head, tail, queue, popped, i);
      assert memory[And(AddWrap(tail, i % U64), data.Length - 1)] == queue[i];
      out[i] := data[And(AddWrap(tail, i % U64), data.Length - 1)];
      assert out[i] == queue[i];
    }
    assert out[..count] == queue[..count];
    assert out[count..] == old(out[..])[count..];
  }

  class Ring<T(0)> {
    const data: array<T>
    var head: u64
    var tail: u64

    ghost var queue: seq<T>
    ghost var popped: nat

    ghost predicate Valid()
      reads this, data
    {
      Represents(data[..], head, tail, queue, popped)
    }

    constructor (capacity: nat)
      requires IsPow2(capacity) && 1 < capacity < U64
      ensures Valid() && fresh(data) && data.Length == capacity && queue == []
    {
      data := new T[capacity];
      head, tail := 0, 0;
      queue, popped := [], 0;
    }

    /** Refused exactly when the ring is full. */
    method Push(x: T) returns (ok: bool)
      requires Valid()
      modifies this, data
      ensures Valid()
      ensures ok <==> |old(queue)| < data.Length
      ensures queue == if ok then old(queue) + [x] else old(queue)
    {
      hide Represents;
      hide Holds;
      hide IsPow2;
      Used(data[..], head, tail, queue, popped);
      if SubWrap(head, tail) >= data.Length {
        return false;
      }
      PushKeeps(data[..], head, tail, queue, popped, x);
      ghost var d := data[..];
      data[And(head, data.Length - 1)] := x;
      assert data[..] == d[And(head, |d| - 1) := x];
      head := AddWrap(head, 1);
      queue := queue + [x];
      return true;
    }

    /** Refused exactly when the ring is empty. */
    method Pop() returns (r: Option<T>)
      requires Valid()
      modifies this
      ensures Valid()
      ensures r == if old(queue) == [] then None else Some(old(queue)[0])
      ensures queue == if old(queue) == [] then [] else old(queue)[1..]
    {
      hide Represents;
      hide Holds;
      hide IsPow2;
      Used(data[..], head, tail, queue, popped);
      if head == tail {
        return None;
      }
      ReadItem(data[..], head, tail, queue, popped, 0);
      r := Some(data[And(tail, data.Length - 1)]);
      ConsumeKeeps(data[..], head, tail, queue, popped, 1);
      tail := AddWrap(tail, 1);
      queue, popped := queue[1..], popped + 1;
    }

    /** Takes as many of the items as there is room for, in order. */
    method PushMany(items: seq<T>) returns (count: nat)
      requires Valid()
      modifies this, data
      ensures Valid()
      ensures count == Min(data.Length - |old(queue)|, |items|)
      ensures queue == old(queue) + items[..count]
    {
      hide Represents;
      hide Holds;
      hide IsPow2;
      Used(data[..], head, tail, queue, popped);
      var used := SubWrap(head, tail);
      count := Min(data.Length - used, |items|);
      if count == 0 {
        return;
      }
      WriteItems(data, head, items, count, tail, queue, popped);
      PublishKeeps(data[..], head, tail, queue, popped, items[..count]);
      head := AddWrap(head, count % U64);
      queue := queue + items[..count];
    }

    /** Moves out as many items as there are, up to maxCount, in order; the rest of the buffer is untouched. */
    method PopMany(out: array<T>, maxCount: nat) returns (count: nat)
      requires Valid() && out != data && maxCount <= out.Length
      modifies this, out
      ensures Valid()
      ensures count == Min(|old(queue)|, maxCount)
      ensures out[..count] == old(queue)[..count] && out[count..] == old(out[..])[count..]
      ensures queue == old(queue)[count..]
    {
      hide Represents;
      hide Holds;
      hide IsPow2;
      Used(data[..], head, tail, queue, popped);
      count := Min(SubWrap(head, tail), maxCount);
      if count == 0 {
        return;
      }
      ReadItems(data, tail, out, count, head, queue, popped);
      ConsumeKeeps(data[..], head, tail, queue, popped, count);
      tail := AddWrap(tail, count % U64);
      queue, popped := queue[count..], popped + count;
    }
  }
}
