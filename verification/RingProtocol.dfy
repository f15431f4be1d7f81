/**
 The single-producer/single-consumer rings as two threads that interleave at every atomic load and
 store and at every slot read and write. One machine covers both rings: the plain ring loads the
 other side's counter on every call, the cached ring only when its private copy says full or empty.

 The head and tail counters are 64-bit words that wrap. Each is written by one thread only, with
 release stores and acquire loads; so a load by the other thread may return any value the counter
 has held since that thread's previous load, and the slots published before that value are visible.
 A push of one item is a push_many of one, and a pop is a pop_many of at most one.
 */
module RingProtocol {
  import opened Types
  import opened Bits

  datatype Kind = Plain | Cached

  datatype Producer<T> =
    | PIdle
    | PCalled(items: seq<T>)                                  // before loading its own head
    | PHead(items: seq<T>, h: u64)                            // before looking at its view of the tail
    | PTail(items: seq<T>, h: u64)                            // the view has just been loaded
    | PWriting(items: seq<T>, h: u64, count: nat, i: nat)     // i of count slots written

  datatype Consumer<T> =
    | CIdle
    | CCalled(max: nat)
    | CTail(max: nat, t: u64)
    | CHead(max: nat, t: u64)
    | CReading(t: u64, count: nat, out: seq<T>)               // |out| of count slots read

  /** The machine: what is in memory, and where the two threads are. */
  datatype Ring<T> = Ring(
    kind: Kind, data: seq<T>, head: u64, tail: u64, tailView: u64, headView: u64,
    p: Producer<T>, c: Consumer<T>)
  {
    function Capacity(): nat { |data| }

    /** `counter & (Capacity - 1)` */
    function Slot(counter: u64): (p: nat)
      requires |data| > 0
      ensures p < |data|
    {
      And(counter, |data| - 1)
    }
  }

  /** What has happened: everything published, everything consumed, and the counters the views were loaded from. */
  datatype History<T> = History(pushed: seq<T>, popped: seq<T>, seenTail: nat, seenHead: nat)

  datatype State<T> = State(ring: Ring<T>, hist: History<T>)

  datatype Step<T> =
    | PushCall(items: seq<T>)
    | LoadOwnHead
    | TrustTailView
    | LoadTail(seenTail: nat)
    | DecideTail
    | WriteSlot
    | PublishHead
    | PopCall(max: nat)
    | LoadOwnTail
    | TrustHeadView
    | LoadHead(seenHead: nat)
    | DecideHead
    | ReadSlot
    | PublishTail

  function Min(a: nat, b: nat): nat { if a <= b then a else b }

  /** How many items a push may write with this view of the tail; 0 means that it returns 0. */
  function PushCount<T>(r: Ring<T>, items: seq<T>, h: u64): nat {
    var used := SubWrap(h, r.tailView);
    if used >= r.Capacity() then 0 else Min(r.Capacity() - used, |items|)
  }

  function PopCount<T>(r: Ring<T>, max: nat, t: u64): nat {
    Min(SubWrap(r.headView, t), max)
  }

  function StartWriting<T>(r: Ring<T>, items: seq<T>, h: u64): Producer<T> {
    var count := PushCount(r, items, h);
    if count == 0 then PIdle else PWriting(items, h, count, 0)
  }

  function StartReading<T>(r: Ring<T>, max: nat, t: u64): Consumer<T> {
    var count := PopCount(r, max, t);
    if count == 0 then CIdle else CReading(t, count, [])
  }

  predicate Enabled<T>(s: State<T>, step: Step<T>) {
    var r, hist := s.ring, s.hist;
    |r.data| > 0 &&
    match step
    case PushCall(items) => r.p.PIdle?
    case LoadOwnHead => r.p.PCalled?
    case TrustTailView => r.p.PHead? && r.kind.Cached? && SubWrap(r.p.h, r.tailView) < r.Capacity()
    case LoadTail(seen) =>
      && r.p.PHead? && (r.kind.Plain? || SubWrap(r.p.h, r.tailView) >= r.Capacity())
      && hist.seenTail <= seen <= |hist.popped|
    case DecideTail => r.p.PTail?
    case WriteSlot => r.p.PWriting? && r.p.i < r.p.count <= |r.p.items|
    case PublishHead => r.p.PWriting? && r.p.i == r.p.count <= |r.p.items|
    case PopCall(max) => r.c.CIdle?
    case LoadOwnTail => r.c.CCalled?
    case TrustHeadView => r.c.CTail? && r.kind.Cached? && r.headView != r.c.t
    case LoadHead(seen) =>
      && r.c.CTail? && (r.kind.Plain? || r.headView == r.c.t)
      && hist.seenHead <= seen <= |hist.pushed|
    case DecideHead => r.c.CHead?
    case ReadSlot => r.c.CReading? && |r.c.out| < r.c.count
    case PublishTail => r.c.CReading? && |r.c.out| == r.c.count
  }

  function Do<T>(s: State<T>, step: Step<T>): State<T>
    requires Enabled(s, step)
  {
    var r, hist := s.ring, s.hist;
    match step
    case PushCall(items) => s.(ring := r.(p := PCalled(items)))
    case LoadOwnHead => s.(ring := r.(p := PHead(r.p.items, r.head)))
    case TrustTailView => s.(ring := r.(p := StartWriting(r, r.p.items, r.p.h)))
    case LoadTail(seen) =>
      State(r.(tailView := seen % U64, p := PTail(r.p.items, r.p.h)), hist.(seenTail := seen))
    case DecideTail => s.(ring := r.(p := StartWriting(r, r.p.items, r.p.h)))
    case WriteSlot =>
      s.(ring := r.(data := r.data[r.Slot(AddWrap(r.p.h, r.p.i % U64)) := r.p.items[r.p.i]], p := r.p.(i := r.p.i + 1)))
    case PublishHead =>
      State(r.(head := AddWrap(r.p.h, r.p.count % U64), p := PIdle),
            hist.(pushed := hist.pushed + r.p.items[..r.p.count]))
    case PopCall(max) => s.(ring := r.(c := CCalled(max)))
    case LoadOwnTail => s.(ring := r.(c := CTail(r.c.max, r.tail)))
    case TrustHeadView => s.(ring := r.(c := StartReading(r, r.c.max, r.c.t)))
    case LoadHead(seen) =>
      State(r.(headView := seen % U64, c := CHead(r.c.max, r.c.t)), hist.(seenHead := seen))
    case DecideHead => s.(ring := r.(c := StartReading(r, r.c.max, r.c.t)))
    case ReadSlot =>
      s.(ring := r.(c := r.c.(out := r.c.out + [r.data[r.Slot(AddWrap(r.c.t, |r.c.out| % U64))]])))
    case PublishTail =>
      State(r.(tail := AddWrap(r.c.t, r.c.count % U64), c := CIdle), hist.(popped := hist.popped + r.c.out))
  }

  predicate Initial<T>(s: State<T>) {
    && IsPow2(|s.ring.data|) && 1 < |s.ring.data| < U64
    && s.ring.head == s.ring.tail == s.ring.tailView == s.ring.headView == 0
    && s.ring.p == PIdle && s.ring.c == CIdle
    && s.hist == History([], [], 0, 0)
  }

  // ---- Counters that wrap ----

  /** The difference of two wrapped counters is the true occupancy. */
  lemma WrappedDifference(h: nat, t: nat)
    requires t <= h < t + U64
    ensures SubWrap(h % U64, t % U64) == h - t
  {}

  lemma WrappedEqual(h: nat, t: nat)
    requires t <= h < t + U64
    ensures h % U64 == t % U64 <==> h == t
  {}

  lemma WrappedSum(a: nat, b: nat)
    ensures AddWrap(a % U64, b % U64) == (a + b) % U64
  {}

  /** The slot of a wrapped counter is the true position modulo the capacity. */
  lemma WrappedSlot(position: nat, i: nat, capacity: nat)
    requires IsPow2(capacity) && capacity < U64
    ensures capacity >= 1 && And(AddWrap(position % U64, i % U64), capacity - 1) == Residue(position + i, capacity)
  {
    hide IsPow2;
    WrappedSum(position, i);
    WrapThenMask(position + i, capacity);
    hide And;
    hide AddWrap;
  }

  /** Positions less than a capacity apart use different slots. */
  lemma SlotsDiffer(a: nat, b: nat, capacity: nat)
    requires capacity > 0 && a < b < a + capacity
    ensures Residue(a, capacity) != Residue(b, capacity)
  {
    if a % capacity == b % capacity {
      var m := b / capacity - a / capacity;
      assert capacity * m == capacity * (b / capacity) - capacity * (a / capacity) == b - a;
      MulAtLeast(capacity, m);
    }
  }

  // ---- The invariant ----

  /** The slots of positions from..to-1 hold exactly those items. */
  ghost predicate Holds<T>(data: seq<T>, items: seq<T>, from: nat)
    requires |data| > 0
  {
    forall k {:trigger items[k]} :: 0 <= k < |items| ==> data[Residue(from + k, |data|)] == items[k]
  }

  ghost predicate ProducerOk<T>(s: State<T>) {
    var r, hist := s.ring, s.hist;
    match r.p
    case PIdle => true
    case PCalled(items) => true
    case PHead(items, h) => h == r.head
    case PTail(items, h) => h == r.head
    case PWriting(items, h, count, i) =>
      && h == r.head && i <= count <= |items|
      && 0 < count && |hist.pushed| + count <= hist.seenTail + |r.data|
      && |r.data| > 0 && Holds(r.data, items[..i], |hist.pushed|)
  }

  ghost predicate ConsumerOk<T>(s: State<T>) {
    var r, hist := s.ring, s.hist;
    match r.c
    case CIdle => true
    case CCalled(max) => true
    case CTail(max, t) => t == r.tail
    case CHead(max, t) => t == r.tail
    case CReading(t, count, out) =>
      && t == r.tail && |out| <= count
      && 0 < count && |hist.popped| + count <= hist.seenHead <= |hist.pushed|
      && out == hist.pushed[|hist.popped|..|hist.popped| + |out|]
  }

  /** `cached_tail <= tail <= cached_head <= head <= cached_tail + Capacity`, on the true counts. */
  ghost predicate Ordered<T>(s: State<T>) {
    s.hist.seenTail <= |s.hist.popped| <= s.hist.seenHead <= |s.hist.pushed| <= s.hist.seenTail + |s.ring.data|
  }

  /** The words in memory are the true counts modulo 2^64. */
  ghost predicate Words<T>(s: State<T>) {
    && s.ring.head == |s.hist.pushed| % U64 && s.ring.tail == |s.hist.popped| % U64
    && s.ring.tailView == s.hist.seenTail % U64 && s.ring.headView == s.hist.seenHead % U64
  }

  /** The items published and not yet consumed: the queue that the ring implements. */
  function Queue<T>(s: State<T>): seq<T> {
    if |s.hist.popped| <= |s.hist.pushed| then s.hist.pushed[|s.hist.popped|..] else []
  }

  ghost predicate Counters<T>(s: State<T>) {
    && IsPow2(|s.ring.data|) && 1 < |s.ring.data| < U64
    && Ordered(s) && Words(s)
    && s.hist.popped <= s.hist.pushed
  }

  ghost predicate Inv<T>(s: State<T>) {
    && Counters(s)
    && Holds(s.ring.data, Queue(s), |s.hist.popped|)
    && ProducerOk(s) && ConsumerOk(s)
  }

  lemma InitialInv<T>(s: State<T>)
    requires Initial(s)
    ensures Inv(s)
  {}

  // ---- Every step keeps it ----

  /** Writing the slot of a position within a capacity after `from` disturbs none of the earlier items. */
  lemma HoldsElsewhere<T>(data: seq<T>, items: seq<T>, from: nat, position: nat, x: T)
    requires |data| > 0 && Holds(data, items, from) && from + |items| <= position < from + |data|
    ensures Holds(data[Residue(position, |data|) := x], items, from)
  {
    hide Residue;
    forall k | 0 <= k < |items| ensures data[Residue(position, |data|) := x][Residue(from + k, |data|)] == items[k] {
      SlotsDiffer(from + k, position, |data|);
    }
  }

  lemma HoldsMore<T>(data: seq<T>, items: seq<T>, from: nat, x: T)
    requires |data| > 0 && Holds(data, items, from) && |items| < |data|
    ensures Holds(data[Residue(from + |items|, |data|) := x], items + [x], from)
  {
    hide Residue;
    HoldsElsewhere(data, items, from, from + |items|, x);
    var d := data[Residue(from + |items|, |data|) := x];
    forall k | 0 <= k < |items| + 1 ensures d[Residue(from + k, |data|)] == (items + [x])[k] {
      if k < |items| { assert d[Residue(from + k, |data|)] == items[k]; }
    }
  }

  lemma HoldsConcat<T>(data: seq<T>, a: seq<T>, b: seq<T>, from: nat)
    requires |data| > 0 && Holds(data, a, from) && Holds(data, b, from + |a|)
    ensures Holds(data, a + b, from)
  {
    hide Residue;
    forall k | 0 <= k < |a + b| ensures data[Residue(from + k, |data|)] == (a + b)[k] {
      if k >= |a| { assert data[Residue(from + |a| + (k - |a|), |data|)] == b[k - |a|]; }
    }
  }

  lemma HoldsDrop<T>(data: seq<T>, a: seq<T>, n: nat, from: nat)
    requires |data| > 0 && Holds(data, a, from) && n <= |a|
    ensures Holds(data, a[n..], from + n)
  {
    hide Residue;
    forall k | 0 <= k < |a[n..]| ensures data[Residue(from + n + k, |data|)] == a[n..][k] {
      assert data[Residue(from + (n + k), |data|)] == a[n + k];
    }
  }

  /** Calls, loads of the own counter and loads of the other side's change only the caller's place and view. */
  lemma QuietStepKeeps<T>(s: State<T>, step: Step<T>)
    requires Inv(s) && Enabled(s, step)
    requires step.PushCall? || step.LoadOwnHead? || step.LoadTail?
             || step.PopCall? || step.LoadOwnTail? || step.LoadHead?
    ensures Inv(Do(s, step))
  {
    hide Holds;
    hide IsPow2;
    hide AddWrap;
    hide SubWrap;
  }

  /** A push that goes ahead has room for what it is about to write, even by a stale view. */
  lemma DecideTailKeeps<T>(s: State<T>, step: Step<T>)
    requires Inv(s) && Enabled(s, step) && (step.TrustTailView? || step.DecideTail?)
    ensures Inv(Do(s, step))
  {
    WrappedDifference(|s.hist.pushed|, s.hist.seenTail);
    assert forall items: seq<T>, from: nat :: Holds(s.ring.data, items[..0], from);
    hide Holds;
    hide IsPow2;
    hide SubWrap;
  }

  lemma DecideHeadKeeps<T>(s: State<T>, step: Step<T>)
    requires Inv(s) && Enabled(s, step) && (step.TrustHeadView? || step.DecideHead?)
    ensures Inv(Do(s, step))
  {
    WrappedDifference(s.hist.seenHead, |s.hist.popped|);
    hide Holds;
    hide IsPow2;
    hide SubWrap;
  }

  lemma WriteSlotKeeps<T>(s: State<T>)
    requires Inv(s) && Enabled(s, WriteSlot)
    ensures Inv(Do(s, WriteSlot))
  {
    WriteSlotData(s);
    hide Holds;
    hide IsPow2;
    hide And;
    hide AddWrap;
    hide SubWrap;
  }

  /** The write adds the next item behind the queue and disturbs none of what is there. */
  lemma WriteSlotData<T>(s: State<T>)
    requires Inv(s) && Enabled(s, WriteSlot)
    ensures var data, p := Do(s, WriteSlot).ring.data, s.ring.p;
            && |data| == |s.ring.data|
            && Holds(data, Queue(s), |s.hist.popped|) && Holds(data, p.items[..p.i + 1], |s.hist.pushed|)
  {
    hide Residue;
    hide Holds;
    hide IsPow2;
    hide And;
    hide AddWrap;
    var r, hist := s.ring, s.hist;
    var H, T, i := |hist.pushed|, |hist.popped|, r.p.i;
    WrappedSlot(H, i, |r.data|);
    assert r.p.h == H % U64;
    hide Words;
    HoldsElsewhere(r.data, Queue(s), T, H + i, r.p.items[i]);
    HoldsMore(r.data, r.p.items[..i], H, r.p.items[i]);
    assert r.p.items[..i] + [r.p.items[i]] == r.p.items[..i + 1];
  }

  /** Appending to a sequence changes none of its slices. */
  lemma AppendSlices<T>(a: seq<T>, b: seq<T>, from: nat, to: nat)
    requires from <= to <= |a|
    ensures (a + b)[from..] == a[from..] + b && (a + b)[from..to] == a[from..to] && a[..from] <= a + b
  {}

  lemma PublishHeadQueue<T>(s: State<T>)
    requires Inv(s) && Enabled(s, PublishHead)
    ensures Counters(Do(s, PublishHead))
    ensures Queue(Do(s, PublishHead)) == Queue(s) + s.ring.p.items[..s.ring.p.count]
  {
    hide Holds;
    hide IsPow2;
    WrappedSum(|s.hist.pushed|, s.ring.p.count);
    AppendSlices(s.hist.pushed, s.ring.p.items[..s.ring.p.count], |s.hist.popped|, |s.hist.popped|);
  }

  lemma PublishHeadConsumer<T>(s: State<T>)
    requires Inv(s) && Enabled(s, PublishHead)
    ensures ConsumerOk(Do(s, PublishHead))
  {
    hide Holds;
    hide Words;
    hide IsPow2;
    var r, hist := s.ring, s.hist;
    if r.c.CReading? {
      AppendSlices(hist.pushed, r.p.items[..r.p.count], |hist.popped|, |hist.popped| + |r.c.out|);
    }
  }

  lemma PublishHeadKeeps<T>(s: State<T>)
    requires Inv(s) && Enabled(s, PublishHead)
    ensures Inv(Do(s, PublishHead))
  {
    hide Holds;
    hide ConsumerOk;
    hide Words;
    hide IsPow2;
    assert |s.hist.popped| + |Queue(s)| == |s.hist.pushed|;
    hide Counters;
    hide Queue;
    assert s.ring.p.items[..s.ring.p.i] == s.ring.p.items[..s.ring.p.count];
    HoldsConcat(s.ring.data, Queue(s), s.ring.p.items[..s.ring.p.count], |s.hist.popped|);
    PublishHeadQueue(s);
    PublishHeadConsumer(s);
  }

  /** The slot that the consumer reads next holds the item published at that position. */
  lemma ReadSlotValue<T>(s: State<T>)
    requires Inv(s) && Enabled(s, ReadSlot)
    ensures var r := s.ring;
            var position := |s.hist.popped| + |r.c.out|;
            position < |s.hist.pushed| && r.data[r.Slot(AddWrap(r.c.t, |r.c.out| % U64))] == s.hist.pushed[position]
  {
    hide Residue;
    hide IsPow2;
    hide SubWrap;
    var r, hist := s.ring, s.hist;
    var T, j := |hist.popped|, |r.c.out|;
    hide And;
    hide AddWrap;
    WrappedSlot(T, j, |r.data|);
    assert r.c.t == T % U64;
    hide Words;
    HeldItem(r.data, Queue(s), T, j);
    hide Holds;
  }

  lemma HeldItem<T>(data: seq<T>, items: seq<T>, from: nat, k: nat)
    requires |data| > 0 && Holds(data, items, from) && k < |items|
    ensures data[Residue(from + k, |data|)] == items[k]
  {}

  lemma ReadSlotKeeps<T>(s: State<T>)
    requires Inv(s) && Enabled(s, ReadSlot)
    ensures Inv(Do(s, ReadSlot))
  {
    hide IsPow2;
    hide Holds;
    hide And;
    hide AddWrap;
    ReadSlotValue(s);
    var hist, T, j := s.hist, |s.hist.popped|, |s.ring.c.out|;
    assert hist.pushed[T..T + j] + [hist.pushed[T + j]] == hist.pushed[T..T + j + 1];
  }

  lemma SplitSlice<T>(a: seq<T>, from: nat, n: nat)
    requires from + n <= |a|
    ensures a[from..][n..] == a[from + n..] && a[from..][..n] == a[from..from + n]
    ensures a[from..from + n] + a[from + n..] == a[from..] && a[..from] + a[from..from + n] == a[..from + n]
  {}

  lemma PublishTailQueue<T>(s: State<T>)
    requires Inv(s) && Enabled(s, PublishTail)
    ensures Counters(Do(s, PublishTail))
    ensures s.ring.c.out == Queue(s)[..s.ring.c.count] && Queue(Do(s, PublishTail)) == Queue(s)[s.ring.c.count..]
  {
    hide Holds;
    hide IsPow2;
    var T, n := |s.hist.popped|, s.ring.c.count;
    SplitSlice(s.hist.pushed, T, n);
    WrappedSum(T, n);
    assert Do(s, PublishTail).hist.popped == s.hist.pushed[..T + n];
  }

  lemma PublishTailKeeps<T>(s: State<T>)
    requires Inv(s) && Enabled(s, PublishTail)
    ensures Inv(Do(s, PublishTail))
  {
    hide Holds;
    hide Words;
    hide IsPow2;
    PublishTailQueue(s);
    HoldsDrop(s.ring.data, Queue(s), s.ring.c.count, |s.hist.popped|);
    hide Queue;
    hide Counters;
  }

  /** Every step of either thread keeps the invariant. */
  lemma StepKeepsInv<T>(s: State<T>, step: Step<T>)
    requires Inv(s) && Enabled(s, step)
    ensures Inv(Do(s, step))
  {
    match step
    case WriteSlot => WriteSlotKeeps(s);
    case PublishHead => PublishHeadKeeps(s);
    case ReadSlot => ReadSlotKeeps(s);
    case PublishTail => PublishTailKeeps(s);
    case TrustTailView => DecideTailKeeps(s, step);
    case DecideTail => DecideTailKeeps(s, step);
    case TrustHeadView => DecideHeadKeeps(s, step);
    case DecideHead => DecideHeadKeeps(s, step);
    case _ => QuietStepKeeps(s, step);
  }

  // ---- Runs ----

  predicate ValidRun<T>(s: State<T>, steps: seq<Step<T>>)
    decreases |steps|
  {
    steps == [] || (Enabled(s, steps[0]) && ValidRun(Do(s, steps[0]), steps[1..]))
  }

  function End<T>(s: State<T>, steps: seq<Step<T>>): State<T>
    requires ValidRun(s, steps)
    decreases |steps|
  {
    if steps == [] then s else End(Do(s, steps[0]), steps[1..])
  }

  lemma {:induction false} RunKeepsInv<T>(s: State<T>, steps: seq<Step<T>>)
    requires Inv(s) && ValidRun(s, steps)
    ensures Inv(End(s, steps))
    decreases |steps|
  {
    if steps != [] {
      StepKeepsInv(s, steps[0]);
      RunKeepsInv(Do(s, steps[0]), steps[1..]);
    }
  }

  /**
   Safety over every run of either ring from an empty one, however the two threads interleave and
   however stale their views: what was consumed is a prefix of what was published, the ring never
   holds more than its capacity, and the counters keep their order.
   */
  lemma RingIsSafe<T>(s: State<T>, steps: seq<Step<T>>)
    requires Initial(s) && ValidRun(s, steps)
    ensures var t := End(s, steps);
            && t.hist.popped <= t.hist.pushed
            && t.hist.popped + Queue(t) == t.hist.pushed && |Queue(t)| <= |t.ring.data|
            && Ordered(t) && Words(t)
  {
    InitialInv(s);
    RunKeepsInv(s, steps);
  }

  /** The slot the producer writes next, and the slot the consumer reads next. */
  function WriteTarget<T>(r: Ring<T>): nat
    requires |r.data| > 0 && r.p.PWriting?
  {
    r.Slot(AddWrap(r.p.h, r.p.i % U64))
  }

  function ReadTarget<T>(r: Ring<T>): nat
    requires |r.data| > 0 && r.c.CReading?
  {
    r.Slot(AddWrap(r.c.t, |r.c.out| % U64))
  }

  /** The next write is in bounds and hits no slot of an item that is published and not yet consumed. */
  lemma NoOverwrite<T>(t: State<T>)
    requires Inv(t) && t.ring.p.PWriting? && t.ring.p.i < t.ring.p.count
    ensures Enabled(t, WriteSlot)
    ensures forall position :: |t.hist.popped| <= position < |t.hist.pushed| ==>
              WriteTarget(t.ring) != Residue(position, |t.ring.data|)
  {
    hide Residue;
    hide Holds;
    var H, r := |t.hist.pushed|, t.ring;
    WrappedSlot(H, r.p.i, |r.data|);
    forall position | |t.hist.popped| <= position < H ensures WriteTarget(r) != Residue(position, |r.data|) {
      SlotsDiffer(position, H + r.p.i, |r.data|);
    }
  }

  /** The producer's next write and the consumer's next read never meet in one slot, in any run. */
  lemma NoRace<T>(s: State<T>, steps: seq<Step<T>>)
    requires Initial(s) && ValidRun(s, steps)
    requires var r := End(s, steps).ring;
             r.p.PWriting? && r.p.i < r.p.count && r.c.CReading? && |r.c.out| < r.c.count
    ensures var r := End(s, steps).ring;
            |r.data| > 0 && WriteTarget(r) != ReadTarget(r)
  {
    hide Residue;
    hide And;
    hide AddWrap;
    hide SubWrap;
    hide IsPow2;
    hide Holds;
    InitialInv(s);
    RunKeepsInv(s, steps);
    var t := End(s, steps);
    var r := t.ring;
    WrappedSlot(|t.hist.popped|, |r.c.out|, |r.data|);
    NoOverwrite(t);
    assert ReadTarget(r) == Residue(|t.hist.popped| + |r.c.out|, |r.data|);
  }

  /** Each step is one step of a bounded FIFO queue: publishing enqueues, consuming dequeues, nothing else is seen. */
  lemma RefinesQueue<T>(s: State<T>, step: Step<T>)
    requires Inv(s) && Enabled(s, step)
    ensures var t := Do(s, step);
            && |Queue(t)| <= |s.ring.data|
            && (if step.PublishHead? then Queue(t) == Queue(s) + s.ring.p.items[..s.ring.p.count]
                else if step.PublishTail? then s.ring.c.out + Queue(t) == Queue(s) && s.ring.c.out != []
                else Queue(t) == Queue(s))
  {
    StepKeepsInv(s, step);
    if step.PublishHead? { PublishHeadQueue(s); }
    if step.PublishTail? { PublishTailQueue(s); }
  }

  /** A stale view only ever makes a call take less: never more than the room there is, or the items there are. */
  lemma StaleIsConservative<T>(s: State<T>)
    requires Inv(s)
    ensures s.ring.p.PHead? || s.ring.p.PTail? ==>
              PushCount(s.ring, s.ring.p.items, s.ring.p.h) <= |s.ring.data| - |Queue(s)|
    ensures s.ring.c.CTail? || s.ring.c.CHead? ==>
              PopCount(s.ring, s.ring.c.max, s.ring.c.t) <= |Queue(s)|
  {
    hide Holds;
    WrappedDifference(|s.hist.pushed|, s.hist.seenTail);
    WrappedDifference(s.hist.seenHead, |s.hist.popped|);
  }

  /** A call that gives up after a fresh load was right: the ring was full, or empty, when the counter was loaded. */
  lemma RefusalsAreHonest<T>(s: State<T>, step: Step<T>)
    requires Inv(s) && Enabled(s, step)
    ensures step == LoadTail(|s.hist.popped|) ==>
              var t := Do(s, step);
              PushCount(t.ring, t.ring.p.items, t.ring.p.h) == Min(|s.ring.data| - |Queue(s)|, |s.ring.p.items|)
    ensures step == LoadHead(|s.hist.pushed|) ==>
              var t := Do(s, step); PopCount(t.ring, t.ring.c.max, t.ring.c.t) == Min(|Queue(s)|, s.ring.c.max)
  {
    WrappedDifference(|s.hist.pushed|, |s.hist.popped|);
  }
}
