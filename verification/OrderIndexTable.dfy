/**
 FixedOrderIndex: the fixed-capacity open-addressing table from order id to pool slot, with
 linear probing and tombstones, refining a finite map for any hash function.
 */
module OrderIndexTable {
  import opened Types
  import opened Bits

  datatype SlotState = Empty | Occupied | Deleted

  /** The slot d steps after `home` on the cyclic probe path, and the number of steps to slot p. */
  function At(home: nat, d: nat, capacity: nat): (p: nat)
    requires home < capacity && d <= capacity
    ensures p < capacity
  {
    if home + d < capacity then home + d else home + d - capacity
  }

  function Dist(home: nat, p: nat, capacity: nat): (d: nat)
    requires home < capacity && p < capacity
    ensures d < capacity && At(home, d, capacity) == p
  {
    if home <= p then p - home else p + capacity - home
  }

  /** Where the probe for each id starts. */
  type HomeOf = OrderId -> nat

  /** `Hash{}(order_id) & mask()` */
  function MaskedHome(hash: OrderId -> u64, capacity: nat): (home: HomeOf)
    requires capacity > 0
    ensures forall id :: home(id) == And(hash(id), capacity - 1) < capacity
  {
    id => And(hash(id), capacity - 1)
  }

  /** `(pos + 1) & mask()` is one step along the probe path. */
  method NextProbe(pos: nat, capacity: nat, ghost home: nat, ghost d: nat) returns (next: nat)
    requires IsPow2(capacity) && home < capacity && d < capacity && pos == At(home, d, capacity)
    ensures next == At(home, d + 1, capacity)
  {
    MaskPow2(pos + 1, capacity);
    if pos + 1 < capacity {
      DivModUnique(pos + 1, capacity, 0, pos + 1);
    } else {
      DivModUnique(pos + 1, capacity, 1, 0);
    }
    next := And(pos + 1, capacity - 1);
  }

  ghost function Without<V>(m: map<OrderId, V>, orderId: OrderId): map<OrderId, V> {
    map id | id in m && id != orderId :: m[id]
  }

  function CountOccupied(states: seq<SlotState>): (n: nat)
    ensures n <= |states|
  {
    if states == [] then 0
    else CountOccupied(states[1..]) + if states[0].Occupied? then 1 else 0
  }

  lemma {:induction false} CountUpdate(states: seq<SlotState>, p: nat, s: SlotState)
    requires p < |states|
    ensures CountOccupied(states[p := s]) ==
            CountOccupied(states) - (if states[p].Occupied? then 1 else 0) + (if s.Occupied? then 1 else 0)
  {
    if p == 0 {
      assert states[p := s][1..] == states[1..];
    } else {
      CountUpdate(states[1..], p - 1, s);
      assert states[p := s][1..] == states[1..][p - 1 := s];
    }
  }

  lemma {:induction false} CountFull(states: seq<SlotState>)
    ensures CountOccupied(states) == |states| <==> forall p :: 0 <= p < |states| ==> states[p].Occupied?
  {
    if states != [] {
      CountFull(states[1..]);
      assert forall p :: 1 <= p < |states| ==> states[p] == states[1..][p - 1];
      if CountOccupied(states) == |states| {
        forall p | 0 <= p < |states| ensures states[p].Occupied? {
          if p > 0 { assert states[1..][p - 1].Occupied?; }
        }
      }
    }
  }

  lemma {:induction false} CountEmpty(states: seq<SlotState>)
    requires forall p :: 0 <= p < |states| ==> !states[p].Occupied?
    ensures CountOccupied(states) == 0
  {
    if states != [] { CountEmpty(states[1..]); }
  }

  /** What the three arrays are at any moment. */
  datatype Table = Table(keys: seq<OrderId>, values: seq<OrderIndex>, states: seq<SlotState>)
  {
    predicate Holds(p: nat, orderId: OrderId)
      requires p < |states| && |keys| == |states|
    {
      states[p].Occupied? && keys[p] == orderId
    }

    /** The first `step` slots of the probe path from `home` do not hold `orderId`. */
    ghost predicate Missed(home: nat, step: nat, orderId: OrderId)
      requires home < |states| == |keys| && step <= |states|
    {
      forall d :: 0 <= d < step ==> !Holds(At(home, d, |states|), orderId)
    }

    ghost predicate NoneEmpty(home: nat, step: nat)
      requires home < |states| && step <= |states|
    {
      forall d :: 0 <= d < step ==> !states[At(home, d, |states|)].Empty?
    }

    ghost predicate AllOccupied(home: nat, step: nat)
      requires home < |states| && step <= |states|
    {
      forall d :: 0 <= d < step ==> states[At(home, d, |states|)].Occupied?
    }

    /** No Empty slot lies on the probe path from `home` to slot p. */
    ghost predicate PathTo(home: nat, p: nat)
      requires home < |states| && p < |states|
    {
      NoneEmpty(home, Dist(home, p, |states|))
    }

    /** Keys and occupied slots correspond one to one; `slot` says where each key sits. */
    ghost predicate Cells(contents: map<OrderId, OrderIndex>, slot: map<OrderId, nat>) {
      && |keys| == |values| == |states|
      && slot.Keys == contents.Keys
      && (forall id :: id in contents ==>
            slot[id] < |states| && Holds(slot[id], id) && values[slot[id]] == contents[id])
      && (forall p {:trigger states[p]} :: 0 <= p < |states| && states[p].Occupied? ==>
            keys[p] in contents && slot[keys[p]] == p)
    }

    ghost predicate Paths(home: HomeOf, slot: map<OrderId, nat>) {
      && (forall id :: home(id) < |states|)
      && (forall id :: id in slot ==> slot[id] < |states| && PathTo(home(id), slot[id]))
    }

    /** The table represents `contents`. */
    ghost predicate Represents(home: HomeOf, contents: map<OrderId, OrderIndex>, slot: map<OrderId, nat>) {
      && Cells(contents, slot)
      && Paths(home, slot)
      && CountOccupied(states) == |contents|
    }

    /** A probe for a present key meets it after Dist steps, and no Empty slot before. */
    lemma ProbeHits(home: HomeOf, contents: map<OrderId, OrderIndex>, slot: map<OrderId, nat>, orderId: OrderId)
      requires Represents(home, contents, slot) && orderId in contents
      ensures var h := home(orderId);
              var d := Dist(h, slot[orderId], |states|);
              && Holds(At(h, d, |states|), orderId)
              && forall e :: 0 <= e < d ==> !states[At(h, e, |states|)].Empty?
    {
      assert PathTo(home(orderId), slot[orderId]);
    }

    /** A probe that has gone all round, or stands at an Empty slot, without meeting the key has missed it for good. */
    lemma ProbeMisses(home: HomeOf, contents: map<OrderId, OrderIndex>, slot: map<OrderId, nat>,
                      orderId: OrderId, step: nat)
      requires Represents(home, contents, slot) && step <= |states|
      requires Missed(home(orderId), step, orderId)
      requires step == |states| || states[At(home(orderId), step, |states|)].Empty?
      ensures orderId !in contents
    {
      if orderId in contents {
        ProbeHits(home, contents, slot, orderId);
      }
    }

    /** One more slot of the path has been probed, and it ends nothing. */
    lemma ProbeOn(home: nat, step: nat, orderId: OrderId)
      requires home < |states| == |keys| && step < |states|
      requires Missed(home, step, orderId) && NoneEmpty(home, step)
      requires var p := At(home, step, |states|); !states[p].Empty? && !Holds(p, orderId)
      ensures Missed(home, step + 1, orderId) && NoneEmpty(home, step + 1)
      ensures AllOccupied(home, step) && states[At(home, step, |states|)].Occupied? ==> AllOccupied(home, step + 1)
    {}

    /** What an insert's probe knows after `step` slots; `first` is the first tombstone, or the capacity if none. */
    ghost predicate Probed(home: nat, step: nat, orderId: OrderId, first: nat)
      requires home < |states| == |keys| && step <= |states|
    {
      && Missed(home, step, orderId) && NoneEmpty(home, step)
      && (if first == |states| then AllOccupied(home, step)
          else first < |states| && states[first].Deleted? && PathTo(home, first))
    }

    lemma ProbedOn(home: nat, step: nat, orderId: OrderId, first: nat)
      requires home < |states| == |keys| && step < |states| && Probed(home, step, orderId, first)
      requires var p := At(home, step, |states|); !states[p].Empty? && !Holds(p, orderId)
      ensures var p := At(home, step, |states|);
              Probed(home, step + 1, orderId, if first == |states| && states[p].Deleted? then p else first)
    {
      ProbeOn(home, step, orderId);
      ScannedPath(home, step);
      hide Missed;
      hide NoneEmpty;
      hide AllOccupied;
      hide PathTo;
    }

    /** Where the probe may write if it stops here, at an Empty slot. */
    lemma ProbedEmpty(home: nat, step: nat, orderId: OrderId, first: nat)
      requires home < |states| == |keys| && step < |states| && Probed(home, step, orderId, first)
      requires states[At(home, step, |states|)].Empty?
      ensures var p := if first == |states| then At(home, step, |states|) else first;
              p < |states| && !states[p].Occupied? && PathTo(home, p)
      ensures Missed(home, step, orderId)
    {
      ScannedPath(home, step);
      hide Missed;
      hide NoneEmpty;
      hide PathTo;
    }

    lemma ScannedPath(home: nat, step: nat)
      requires home < |states| && step < |states| && NoneEmpty(home, step)
      ensures PathTo(home, At(home, step, |states|))
    {
      assert Dist(home, At(home, step, |states|), |states|) == step;
    }

    /** A probe that meets only occupied slots all the way round proves the table full. */
    lemma FullCircle(home: nat)
      requires home < |states| && AllOccupied(home, |states|)
      ensures CountOccupied(states) == |states|
    {
      forall p | 0 <= p < |states| ensures states[p].Occupied? {
        assert states[At(home, Dist(home, p, |states|), |states|)].Occupied?;
      }
      CountFull(states);
    }

    lemma ProbedAll(home: nat, orderId: OrderId, first: nat)
      requires home < |states| == |keys| && Probed(home, |states|, orderId, first)
      ensures Missed(home, |states|, orderId)
      ensures if first == |states| then CountOccupied(states) == |states|
              else first < |states| && !states[first].Occupied? && PathTo(home, first)
    {
      if first == |states| { FullCircle(home); }
      hide Missed;
      hide NoneEmpty;
      hide PathTo;
    }

    lemma PathStays(t: Table, home: nat, p: nat)
      requires home < |states| == |t.states| && p < |states| && PathTo(home, p)
      requires forall q :: 0 <= q < |states| && t.states[q].Empty? ==> states[q].Empty?
      ensures t.PathTo(home, p)
    {}

    lemma CellsWrite(contents: map<OrderId, OrderIndex>, slot: map<OrderId, nat>,
                     orderId: OrderId, idx: OrderIndex, p: nat)
      requires Cells(contents, slot) && orderId !in contents && p < |states| && !states[p].Occupied?
      ensures Table(keys[p := orderId], values[p := idx], states[p := Occupied])
              .Cells(contents[orderId := idx], slot[orderId := p])
    {}

    lemma WriteKeeps(home: HomeOf, contents: map<OrderId, OrderIndex>, slot: map<OrderId, nat>,
                     orderId: OrderId, idx: OrderIndex, p: nat)
      requires Represents(home, contents, slot) && orderId !in contents
      requires p < |states| && !states[p].Occupied? && PathTo(home(orderId), p)
      ensures Table(keys[p := orderId], values[p := idx], states[p := Occupied])
              .Represents(home, contents[orderId := idx], slot[orderId := p])
    {
      var t := Table(keys[p := orderId], values[p := idx], states[p := Occupied]);
      CellsWrite(contents, slot, orderId, idx, p);
      CountUpdate(states, p, Occupied);
      PathsWrite(home, slot, t, orderId, p);
      assert |contents[orderId := idx]| == |contents| + 1;
      hide Cells;
      hide Paths;
    }

    lemma PathsWrite(home: HomeOf, slot: map<OrderId, nat>, t: Table, orderId: OrderId, p: nat)
      requires Paths(home, slot) && p < |states| && PathTo(home(orderId), p) && t.states == states[p := Occupied]
      ensures t.Paths(home, slot[orderId := p])
    {
      var s := slot[orderId := p];
      forall id | id in s ensures s[id] < |states| && t.PathTo(home(id), s[id]) {
        PathStays(t, home(id), s[id]);
      }
    }

    lemma CellsErase(contents: map<OrderId, OrderIndex>, slot: map<OrderId, nat>, orderId: OrderId, p: nat)
      requires Cells(contents, slot) && p < |states| && Holds(p, orderId)
      ensures orderId in contents && |Without(contents, orderId)| == |contents| - 1
      ensures Table(keys, values, states[p := Deleted]).Cells(Without(contents, orderId), Without(slot, orderId))
    {
      CellsBury(contents, slot, orderId, p);
      assert orderId in contents;
      hide Cells;
      assert Without(contents, orderId).Keys == contents.Keys - {orderId};
    }

    lemma CellsBury(contents: map<OrderId, OrderIndex>, slot: map<OrderId, nat>, orderId: OrderId, p: nat)
      requires Cells(contents, slot) && p < |states| && Holds(p, orderId)
      ensures Table(keys, values, states[p := Deleted]).Cells(Without(contents, orderId), Without(slot, orderId))
    {}

    lemma PathsErase(home: HomeOf, slot: map<OrderId, nat>, orderId: OrderId, p: nat)
      requires Paths(home, slot) && p < |states| && states[p].Occupied?
      ensures Table(keys, values, states[p := Deleted]).Paths(home, Without(slot, orderId))
    {
      var t := Table(keys, values, states[p := Deleted]);
      forall id | id in slot ensures t.PathTo(home(id), slot[id]) {
        PathStays(t, home(id), slot[id]);
      }
    }

    lemma EraseKeeps(home: HomeOf, contents: map<OrderId, OrderIndex>, slot: map<OrderId, nat>,
                     orderId: OrderId, p: nat)
      requires Represents(home, contents, slot)
      requires p < |states| && Holds(p, orderId)
      ensures orderId in contents && |Without(contents, orderId)| == |contents| - 1
      ensures Table(keys, values, states[p := Deleted])
              .Represents(home, Without(contents, orderId), Without(slot, orderId))
    {
      CellsErase(contents, slot, orderId, p);
      CountUpdate(states, p, Deleted);
      PathsErase(home, slot, orderId, p);
    }
  }

  class FixedOrderIndex {
    const home: HomeOf
    const keys: array<OrderId>
    const values: array<OrderIndex>
    const states: array<SlotState>
    var size: nat

    ghost var contents: map<OrderId, OrderIndex>
    ghost var slot: map<OrderId, nat>

    ghost function Objects(): set<object> { {this, keys, values, states} }

    ghost function Arrays(): Table
      reads keys, values, states
    {
      Table(keys[..], values[..], states[..])
    }

    ghost predicate Valid()
      reads Objects()
    {
      && keys as object != values as object
      && 1 < states.Length && IsPow2(states.Length)
      && Arrays().Represents(home, contents, slot)
      && size == |contents|
    }

    function Capacity(): nat { states.Length }

    constructor (capacity: nat, hash: OrderId -> u64)
      requires 1 < capacity && IsPow2(capacity)
      ensures Valid() && fresh(Objects())
      ensures Capacity() == capacity && contents == map[]
      ensures home == MaskedHome(hash, capacity)
    {
      home := MaskedHome(hash, capacity);
      keys := new OrderId[capacity];
      values := new OrderIndex[capacity];
      states := new SlotState[capacity];
      size := 0;
      new;
      hide MaskedHome;
      hide IsPow2;
      hide Table.Represents;
      FillEmpty();
    }

    /** `std::fill_n(states, Capacity, Empty)` and `size_ = 0`: no key survives, whatever the arrays held. */
    method FillEmpty()
      requires keys.Length == values.Length == states.Length > 1 && IsPow2(states.Length)
      requires keys as object != values as object && forall id :: home(id) < states.Length
      modifies this, states
      ensures Valid() && contents == map[]
    {
      for p := 0 to states.Length
        invariant forall q :: 0 <= q < p ==> states[q] == Empty
      {
        states[p] := Empty;
      }
      size := 0;
      contents, slot := map[], map[];
      CountEmpty(states[..]);
    }

    method Clear()
      requires Valid()
      modifies this, states
      ensures Valid() && contents == map[]
    {
      FillEmpty();
    }

    /** What every probe starts from. */
    lemma ProbeStarts(orderId: OrderId)
      requires Valid()
      ensures keys.Length == values.Length == Capacity() && IsPow2(Capacity())
      ensures var t := Arrays();
              && home(orderId) < |t.states| == |t.keys|
              && t.Represents(home, contents, slot) && CountOccupied(t.states) == |contents|
              && t.Missed(home(orderId), 0, orderId) && t.NoneEmpty(home(orderId), 0)
              && t.Probed(home(orderId), 0, orderId, |t.states|)
              && forall p :: 0 <= p < |t.states| && t.Holds(p, orderId) ==> orderId in contents
    {}

    /** The probe loop of find and erase: the slot that holds the key, if any. */
    method Probe(orderId: OrderId) returns (r: Option<nat>)
      requires Valid()
      ensures r.Some? <==> orderId in contents
      ensures r.Some? ==> r.value < Capacity() && Arrays().Holds(r.value, orderId)
    {
      hide FixedOrderIndex.Valid;
      hide IsPow2;
      hide Table.Represents;
      hide Table.Missed;
      hide Table.NoneEmpty;
      ProbeStarts(orderId);
      ghost var t := Arrays();
      var pos := home(orderId);
      ghost var h := pos;
      for step := 0 to Capacity()
        invariant pos == At(h, step, Capacity())
        invariant t.Missed(h, step, orderId) && t.NoneEmpty(h, step)
      {
        if states[pos] == Empty {
          t.ProbeMisses(home, contents, slot, orderId, step);
          return None;
        }
        if states[pos] == Occupied && keys[pos] == orderId {
          assert t.Holds(pos, orderId);
          return Some(pos);
        }
        t.ProbeOn(h, step, orderId);
        pos := NextProbe(pos, Capacity(), h, step);
      }
      t.ProbeMisses(home, contents, slot, orderId, Capacity());
      return None;
    }

    method Find(orderId: OrderId) returns (r: Option<OrderIndex>)
      requires Valid() && orderId != 0
      ensures r == if orderId in contents then Some(contents[orderId]) else None
    {
      var pos := Probe(orderId);
      r := if pos.Some? then Some(values[pos.value]) else None;
    }

    method Contains(orderId: OrderId) returns (b: bool)
      requires Valid() && orderId != 0
      ensures b <==> orderId in contents
    {
      var r := Find(orderId);
      b := r.Some?;
    }

    /** The three writes that end a successful insert. */
    method Put(p: nat, orderId: OrderId, idx: OrderIndex)
      requires Valid() && orderId !in contents
      requires p < Capacity() && !states[p].Occupied? && Arrays().PathTo(home(orderId), p)
      modifies this, keys, values, states
      ensures Valid() && contents == old(contents)[orderId := idx]
    {
      assert keys.Length == values.Length == Capacity();
      hide IsPow2;
      hide Table.Represents;
      Arrays().WriteKeeps(home, contents, slot, orderId, idx, p);
      ghost var t := Arrays();
      keys[p], values[p], states[p] := orderId, idx, Occupied;
      size := size + 1;
      contents, slot := contents[orderId := idx], slot[orderId := p];
      assert Arrays() == Table(t.keys[p := orderId], t.values[p := idx], t.states[p := Occupied]);
    }

    /** The write that ends a successful erase: the slot becomes a tombstone. */
    method Bury(p: nat, orderId: OrderId)
      requires Valid() && p < Capacity() && Arrays().Holds(p, orderId)
      modifies this, states
      ensures Valid() && orderId in old(contents) && contents == Without(old(contents), orderId)
    {
      hide IsPow2;
      hide Without;
      hide Table.Represents;
      ghost var t, c, s := Arrays(), Without(contents, orderId), Without(slot, orderId);
      t.EraseKeeps(home, contents, slot, orderId, p);
      states[p] := Deleted;
      size := size - 1;
      contents, slot := c, s;
      assert states[..] == t.states[p := Deleted];
    }

    /** The probe loop of insert: `duplicate`, or the slot to write, or Capacity when every slot is occupied. */
    method ProbeForInsert(orderId: OrderId) returns (duplicate: bool, firstDeleted: nat)
      requires Valid()
      ensures duplicate <==> orderId in contents
      ensures !duplicate && firstDeleted == Capacity() ==> |contents| == Capacity()
      ensures !duplicate && firstDeleted != Capacity() ==>
                && firstDeleted < Capacity()
                && !states[firstDeleted].Occupied?
                && Arrays().PathTo(home(orderId), firstDeleted)
    {
      hide FixedOrderIndex.Valid;
      hide IsPow2;
      hide Table.Represents;
      hide Table.Probed;
      hide Table.Missed;
      hide Table.PathTo;
      ProbeStarts(orderId);
      ghost var t := Arrays();
      var pos := home(orderId);
      ghost var h := pos;
      firstDeleted := Capacity();
      var step := 0;
      while step < Capacity()
        invariant 0 <= step <= Capacity() && pos == At(h, step, Capacity())
        invariant t.Probed(h, step, orderId, firstDeleted)
      {
        if states[pos] == Empty {
          t.ProbedEmpty(h, step, orderId, firstDeleted);
          t.ProbeMisses(home, contents, slot, orderId, step);
          if firstDeleted == Capacity() {
            firstDeleted := pos;
          }
          break;
        }
        if !t.Holds(pos, orderId) {
          t.ProbedOn(h, step, orderId, firstDeleted);
        }
        if states[pos] == Deleted {
          if firstDeleted == Capacity() {
            firstDeleted := pos;
          }
        } else if keys[pos] == orderId {
          return true, firstDeleted;
        }
        pos := NextProbe(pos, Capacity(), h, step);
        step := step + 1;
      }
      duplicate := false;
      if step == Capacity() {
        t.ProbedAll(h, orderId, firstDeleted);
        t.ProbeMisses(home, contents, slot, orderId, step);
      }
    }

    /** Fails exactly on a duplicate key or a table whose every slot is occupied; tombstones never cost capacity. */
    method Insert(orderId: OrderId, idx: OrderIndex) returns (ok: bool)
      requires Valid() && orderId != 0
      modifies this, keys, values, states
      ensures Valid()
      ensures ok <==> orderId !in old(contents) && |old(contents)| < Capacity()
      ensures contents == if ok then old(contents)[orderId := idx] else old(contents)
    {
      var duplicate, firstDeleted := ProbeForInsert(orderId);
      if duplicate || firstDeleted == Capacity() {
        return false;
      }
      CountFull(states[..]);
      Put(firstDeleted, orderId, idx);
      return true;
    }

    method Erase(orderId: OrderId) returns (ok: bool)
      requires Valid() && orderId != 0
      modifies this, states
      ensures Valid()
      ensures ok <==> orderId in old(contents)
      ensures contents == if ok then Without(old(contents), orderId) else old(contents)
    {
      var pos := Probe(orderId);
      ok := pos.Some?;
      if ok {
        Bury(pos.value, orderId);
      }
    }
  }
}
