/**
 The ring whose two sides keep a private copy of the other side's counter, as a class. A copy is
 reloaded only when it says full or empty; until then it may be stale, which can only make a side
 see less room, or fewer items, than there are.
 */
module SpscRingCached {
  import opened Types
  import opened Bits
  import opened RingProtocol
  import opened SpscRing

  /** The true counts behind the two copies lie between the counters that they are copies of. */
  ghost predicate Copies(pushed: nat, popped: nat, cachedTail: u64, cachedHead: u64,
                         seenTail: nat, seenHead: nat, capacity: nat)
  {
    && seenTail <= popped <= seenHead <= pushed <= seenTail + capacity
    && cachedTail == seenTail % U64 && cachedHead == seenHead % U64
  }

  /** What each side computes from its copy is the room, or the number of items, as of that copy. */
  lemma ViewsAreCounts<T>(data: seq<T>, head: u64, tail: u64, queue: seq<T>, popped: nat,
                          cachedTail: u64, cachedHead: u64, seenTail: nat, seenHead: nat)
    requires Represents(data, head, tail, queue, popped)
    requires Copies(popped + |queue|, popped, cachedTail, cachedHead, seenTail, seenHead, |data|)
    ensures SubWrap(head, cachedTail) == popped + |queue| - seenTail
    ensures SubWrap(cachedHead, tail) == seenHead - popped
    ensures cachedHead == tail <==> seenHead == popped
    ensures seenTail <= popped <= seenHead <= popped + |queue| <= seenTail + |data|
  {
    WrappedDifference(popped + |queue|, seenTail);
    WrappedDifference(seenHead, popped);
    WrappedEqual(seenHead, popped);
  }

  /** Either copy may be reloaded at any time. */
  lemma Reloaded<T>(data: seq<T>, head: u64, tail: u64, queue: seq<T>, popped: nat,
                    cachedTail: u64, cachedHead: u64, seenTail: nat, seenHead: nat)
    requires Represents(data, head, tail, queue, popped)
    requires Copies(popped + |queue|, popped, cachedTail, cachedHead, seenTail, seenHead, |data|)
    ensures Copies(popped + |queue|, popped, tail, cachedHead, popped, seenHead, |data|)
    ensures Copies(popped + |queue|, popped, cachedTail, head, seenTail, popped + |queue|, |data|)
  {}

  /** A side that goes no further than its copy allows leaves both copies good, however stale. */
  lemma StillCopies(pushed: nat, popped: nat, cachedTail: u64, cachedHead: u64, seenTail: nat, seenHead: nat,
                    capacity: nat, more: nat, less: nat)
    requires Copies(pushed, popped, cachedTail, cachedHead, seenTail, seenHead, capacity)
    requires pushed + more <= seenTail + capacity && popped + less <= seenHead
    ensures Copies(pushed + more, popped + less, cachedTail, cachedHead, seenTail, seenHead, capacity)
  {}

  class CachedRing<T(0)> {
    const data: array<T>
    var head: u64
    var tail: u64
    var cachedTail: u64
    var cachedHead: u64

    ghost var queue: seq<T>
    ghost var popped: nat
    ghost var seenTail: nat
    ghost var seenHead: nat

    ghost predicate Valid()
      reads this, data
    {
      && Represents(data[..], head, tail, queue, popped)
      && Copies(popped + |queue|, popped, cachedTail, cachedHead, seenTail, seenHead, data.Length)
    }

    /** The room that the producer's copy of the tail leaves. */
    ghost function ViewRoom(): int
      reads this, data
    {
      data.Length - (popped + |queue| - seenTail)
    }

    /** The number of items that the consumer's copy of the head shows. */
    ghost function ViewItems(): int
      reads this
    {
      seenHead - popped
    }

    constructor (capacity: nat)
      requires IsPow2(capacity) && 1 < capacity < U64
      ensures Valid() && fresh(data) && data.Length == capacity && queue == []
    {
      data := new T[capacity];
      head, tail, cachedTail, cachedHead := 0, 0, 0, 0;
      queue, popped, seenTail, seenHead := [], 0, 0, 0;
    }

    /** Refused exactly when the ring is full, however stale the copy of the tail. */
    method Push(x: T) returns (ok: bool)
      requires Valid()
      modifies this, data
      ensures Valid()
      ensures ok <==> |old(queue)| < data.Length
      ensures queue == if ok then old(queue) + [x] else old(queue)
    {
      hide Represents;
      hide Copies;
      hide Holds;
      hide IsPow2;
      hide AddWrap;
      hide SubWrap;
      hide And;
      Used(data[..], head, tail, queue, popped);
      ViewsAreCounts(data[..], head, tail, queue, popped, cachedTail, cachedHead, seenTail, seenHead);
      if SubWrap(head, cachedTail) >= data.Length {
        Reloaded(data[..], head, tail, queue, popped, cachedTail, cachedHead, seenTail, seenHead);
        cachedTail, seenTail := tail, popped;
        ViewsAreCounts(data[..], head, tail, queue, popped, cachedTail, cachedHead, seenTail, seenHead);
        if SubWrap(head, cachedTail) >= data.Length {
          return false;
        }
      }
      PushKeeps(data[..], head, tail, queue, popped, x);
      ghost var d := data[..];
      data[And(head, data.Length - 1)] := x;
      assert data[..] == d[And(head, |d| - 1) := x];
      StillCopies(popped + |queue|, popped, cachedTail, cachedHead, seenTail, seenHead, data.Length, 1, 0);
      head := AddWrap(head, 1);
      queue := queue + [x];
      return true;
    }

    /** Refused exactly when the ring is empty, however stale the copy of the head. */
    method Pop() returns (r: Option<T>)
      requires Valid()
      modifies this
      ensures Valid()
      ensures r == if old(queue) == [] then None else Some(old(queue)[0])
      ensures queue == if old(queue) == [] then [] else old(queue)[1..]
    {
      hide Represents;
      hide Copies;
      hide Holds;
      hide IsPow2;
      hide AddWrap;
      hide SubWrap;
      hide And;
      Used(data[..], head, tail, queue, popped);
      ViewsAreCounts(data[..], head, tail, queue, popped, cachedTail, cachedHead, seenTail, seenHead);
      if cachedHead == tail {
        Reloaded(data[..], head, tail, queue, popped, cachedTail, cachedHead, seenTail, seenHead);
        cachedHead, seenHead := head, popped + |queue|;
        ViewsAreCounts(data[..], head, tail, queue, popped, cachedTail, cachedHead, seenTail, seenHead);
        if cachedHead == tail {
          return None;
        }
      }
      ReadItem(data[..], head, tail, queue, popped, 0);
      r := Some(data[And(tail, data.Length - 1)]);
      ConsumeKeeps(data[..], head, tail, queue, popped, 1);
      StillCopies(popped + |queue|, popped, cachedTail, cachedHead, seenTail, seenHead, data.Length, 0, 1);
      tail := AddWrap(tail, 1);
      queue, popped := queue[1..], popped + 1;
    }

    /** Takes what the copy of the tail leaves room for; a copy that leaves none is reloaded first. */
    method PushMany(items: seq<T>) returns (count: nat)
      requires Valid()
      modifies this, data
      ensures Valid()
      ensures count == Min(if old(ViewRoom()) > 0 then old(ViewRoom()) else data.Length - |old(queue)|, |items|)
      ensures count == 0 <==> |old(queue)| == data.Length || items == []
      ensures queue == old(queue) + items[..count]
    {
      hide Represents;
      hide Copies;
      hide Holds;
      hide IsPow2;
      hide AddWrap;
      hide SubWrap;
      hide And;
      Used(data[..], head, tail, queue, popped);
      ViewsAreCounts(data[..], head, tail, queue, popped, cachedTail, cachedHead, seenTail, seenHead);
      var used := SubWrap(head, cachedTail);
      if used >= data.Length {
        Reloaded(data[..], head, tail, queue, popped, cachedTail, cachedHead, seenTail, seenHead);
        cachedTail, seenTail := tail, popped;
        ViewsAreCounts(data[..], head, tail, queue, popped, cachedTail, cachedHead, seenTail, seenHead);
        used := SubWrap(head, cachedTail);
        if used >= data.Length {
          return 0;
        }
      }
      count := Min(data.Length - used, |items|);
      if count == 0 {
        return;
      }
      WriteItems(data, head, items, count, tail, queue, popped);
      PublishKeeps(data[..], head, tail, queue, popped, items[..count]);
      StillCopies(popped + |queue|, popped, cachedTail, cachedHead, seenTail, seenHead, data.Length, count, 0);
      head := AddWrap(head, count % U64);
      queue := queue + items[..count];
    }

    /** Moves out what the copy of the head shows; a copy that shows nothing is reloaded first. */
    method PopMany(out: array<T>, maxCount: nat) returns (count: nat)
      requires Valid() && out != data && maxCount <= out.Length
      modifies this, out
      ensures Valid()
      ensures count == Min(if old(ViewItems()) > 0 then old(ViewItems()) else |old(queue)|, maxCount)
      ensures count == 0 <==> old(queue) == [] || maxCount == 0
      ensures out[..count] == old(queue)[..count] && out[count..] == old(out[..])[count..]
      ensures queue == old(queue)[count..]
    {
      hide Represents;
      hide Copies;
      hide Holds;
      hide IsPow2;
      hide AddWrap;
      hide SubWrap;
      hide And;
      Used(data[..], head, tail, queue, popped);
      ViewsAreCounts(data[..], head, tail, queue, popped, cachedTail, cachedHead, seenTail, seenHead);
      if cachedHead == tail {
        Reloaded(data[..], head, tail, queue, popped, cachedTail, cachedHead, seenTail, seenHead);
        cachedHead, seenHead := head, popped + |queue|;
        ViewsAreCounts(data[..], head, tail, queue, popped, cachedTail, cachedHead, seenTail, seenHead);
        if cachedHead == tail {
          return 0;
        }
      }
      count := Min(SubWrap(cachedHead, tail), maxCount);
      if count == 0 {
        return;
      }
      ReadItems(data, tail, out, count, head, queue, popped);
      ConsumeKeeps(data[..], head, tail, queue, popped, count);
      StillCopies(popped + |queue|, popped, cachedTail, cachedHead, seenTail, seenHead, data.Length, 0, count);
      tail := AddWrap(tail, count % U64);
      queue, popped := queue[count..], popped + count;
    }
  }
}
