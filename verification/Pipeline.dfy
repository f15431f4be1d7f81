/**
 The benchmark pipeline: a producer thread pushes every payload into a ring, a consumer thread pops
 them, one at a time or in batches, and applies the commands they stand for to the book.

 A payload is the command itself, or its index in the command list; `decode` says which command it
 stands for. Batch sizes of one are the single push and pop of the simple loops.
 */
module Pipeline {
  import opened Types
  import opened Matcher
  import Bits
  import opened RunLaws
  import opened Workload
  import opened RingProtocol

  datatype Job<T> = Job(payloads: seq<T>, commands: seq<OrderCommand>, pushBatch: nat, popBatch: nat, start: Book)

  /** Every payload decodes to the command of its position: directly, or through the command list. */
  ghost predicate JobOk<T(!new)>(job: Job<T>, decode: T -> OrderCommand) {
    && 0 < job.pushBatch && 0 < job.popBatch
    && |job.payloads| == |job.commands|
    && forall i :: 0 <= i < |job.payloads| ==> decode(job.payloads[i]) == job.commands[i]
  }

  /** The ring and the local variables of the two loops; the batch holds popped payloads, `applied` of them done. */
  datatype Pipe<T> = Pipe(s: State<T>, i: nat, processed: nat, batch: seq<T>, applied: nat, outcome: Outcome)

  datatype Turn<T> =
    | RingTurn(step: Step<T>)
    | ApplyTurn
    | BatchDone

  /** `while (i < commands.size())` offers the next batch; `while (processed < commands.size())` asks for one. */
  predicate TurnEnabled<T(==)>(job: Job<T>, q: Pipe<T>, turn: Turn<T>) {
    match turn
    case RingTurn(step) =>
      && Enabled(q.s, step)
      && (step.PushCall? ==>
            q.i < |job.payloads| && step.items == job.payloads[q.i..q.i + Min(job.pushBatch, |job.payloads| - q.i)])
      && (step.PopCall? ==> q.processed < |job.payloads| && q.batch == [] && step.max == job.popBatch)
    case ApplyTurn => q.applied < |q.batch|
    case BatchDone => q.batch != [] && q.applied == |q.batch|
  }

  function TakeTurn<T(==)>(job: Job<T>, decode: T -> OrderCommand, q: Pipe<T>, turn: Turn<T>): Pipe<T>
    requires TurnEnabled(job, q, turn)
  {
    match turn
    case RingTurn(step) =>
      var t := Do(q.s, step);
      if step.PublishHead? then q.(s := t, i := q.i + q.s.ring.p.count)
      else if step.PublishTail? then q.(s := t, batch := q.s.ring.c.out, applied := 0)
      else q.(s := t)
    case ApplyTurn =>
      var x := Matcher.Step(q.outcome.book, OpOf(decode(q.batch[q.applied])));
      q.(applied := q.applied + 1,
         outcome := Outcome(x.book, q.outcome.oks + [x.ok], q.outcome.execs + x.execs))
    case BatchDone => q.(processed := q.processed + |q.batch|, batch := [], applied := 0)
  }

  predicate Start<T>(job: Job<T>, q: Pipe<T>) {
    q.i == q.processed == q.applied == 0 && q.batch == [] && q.outcome == Outcome(job.start, [], []) && Initial(q.s)
  }

  /** Both loops have ended. */
  predicate Finished<T>(job: Job<T>, q: Pipe<T>) { q.processed >= |job.payloads| }

  /** The items of a push in progress are the next ones of the list. */
  ghost predicate Offers<T>(job: Job<T>, q: Pipe<T>) {
    (q.s.ring.p.PCalled? || q.s.ring.p.PHead? || q.s.ring.p.PTail? || q.s.ring.p.PWriting?) ==>
      && q.i < |job.payloads| && q.s.ring.p.items != []
      && q.s.ring.p.items == job.payloads[q.i..q.i + Min(job.pushBatch, |job.payloads| - q.i)]
  }

  ghost predicate Waiting<T>(job: Job<T>, q: Pipe<T>) {
    && (!q.s.ring.c.CIdle? ==> q.batch == [] && q.processed < |job.payloads|)
    && (q.s.ring.c.CCalled? || q.s.ring.c.CTail? || q.s.ring.c.CHead? ==> q.s.ring.c.max == job.popBatch)
  }

  /** Published is what the producer has counted; consumed is what was processed plus the current batch. */
  ghost predicate Accounted<T>(job: Job<T>, q: Pipe<T>) {
    && q.i <= |job.payloads| && q.s.hist.pushed == job.payloads[..q.i]
    && q.applied <= |q.batch|
    && |q.s.hist.popped| == q.processed + |q.batch|
    && q.s.hist.popped[q.processed..] == q.batch
  }

  ghost predicate PipeInv<T>(job: Job<T>, q: Pipe<T>) {
    && Inv(q.s) && Offers(job, q) && Waiting(job, q) && Accounted(job, q)
    && q.processed + q.applied <= |job.commands|
    && q.outcome == Run(job.start, OpsOf(job.commands)[..q.processed + q.applied])
  }

  lemma StartInv<T>(job: Job<T>, q: Pipe<T>)
    requires Start(job, q)
    ensures PipeInv(job, q)
  {
    InitialInv(q.s);
    assert OpsOf(job.commands)[..0] == [];
  }

  // ---- Every turn keeps it ----

  /** Ring steps other than the two publications change neither history. */
  lemma QuietStep<T>(s: State<T>, step: Step<T>)
    requires Enabled(s, step) && !step.PublishHead? && !step.PublishTail?
    ensures Do(s, step).hist.pushed == s.hist.pushed && Do(s, step).hist.popped == s.hist.popped
  {}

  lemma ConsumedPrefix<T>(job: Job<T>, q: Pipe<T>)
    requires Inv(q.s) && Accounted(job, q)
    ensures |q.s.hist.popped| <= q.i && q.s.hist.popped == job.payloads[..|q.s.hist.popped|]
  {
    hide Holds;
    hide Words;
    assert q.s.hist.popped == q.s.hist.pushed[..|q.s.hist.popped|];
  }

  lemma PublishHeadTurn<T>(job: Job<T>, decode: T -> OrderCommand, q: Pipe<T>)
    requires PipeInv(job, q) && TurnEnabled(job, q, RingTurn(PublishHead))
    ensures PipeInv(job, TakeTurn(job, decode, q, RingTurn(PublishHead)))
  {
    hide Inv;
    hide Run;
    StepKeepsInv(q.s, PublishHead);
    var p := q.s.ring.p;
    assert job.payloads[..q.i] + p.items[..p.count] == job.payloads[..q.i + p.count];
  }

  lemma PublishTailTurn<T>(job: Job<T>, decode: T -> OrderCommand, q: Pipe<T>)
    requires PipeInv(job, q) && TurnEnabled(job, q, RingTurn(PublishTail))
    ensures PipeInv(job, TakeTurn(job, decode, q, RingTurn(PublishTail)))
  {
    hide Inv;
    hide Run;
    StepKeepsInv(q.s, PublishTail);
    assert q.batch == [];
    var out := q.s.ring.c.out;
    assert (q.s.hist.popped + out)[q.processed..] == out;
  }

  lemma QuietTurn<T>(job: Job<T>, decode: T -> OrderCommand, q: Pipe<T>, step: Step<T>)
    requires 0 < job.pushBatch && PipeInv(job, q) && TurnEnabled(job, q, RingTurn(step))
    requires !step.PublishHead? && !step.PublishTail?
    ensures PipeInv(job, TakeTurn(job, decode, q, RingTurn(step)))
  {
    hide Inv;
    hide Run;
    hide Enabled;
    StepKeepsInv(q.s, step);
    QuietStep(q.s, step);
    QuietProducer(job, q, step);
    QuietConsumer(job, q, step);
    hide Do;
    hide Offers;
    hide Waiting;
  }

  lemma QuietProducer<T>(job: Job<T>, q: Pipe<T>, step: Step<T>)
    requires 0 < job.pushBatch && Offers(job, q) && TurnEnabled(job, q, RingTurn(step))
    requires !step.PublishHead? && !step.PublishTail?
    ensures Offers(job, q.(s := Do(q.s, step)))
  {
    hide PushCount;
  }

  lemma QuietConsumer<T>(job: Job<T>, q: Pipe<T>, step: Step<T>)
    requires Waiting(job, q) && TurnEnabled(job, q, RingTurn(step)) && !step.PublishHead? && !step.PublishTail?
    ensures Waiting(job, q.(s := Do(q.s, step)))
  {
    hide PopCount;
  }

  /** The command to apply next is the one at the position that processed and applied have reached. */
  lemma NextCommand<T(!new)>(job: Job<T>, decode: T -> OrderCommand, e: Pipe<T>)
    requires JobOk(job, decode) && PipeInv(job, e) && TurnEnabled(job, e, ApplyTurn)
    ensures var n := e.processed + e.applied;
            && n < |job.commands| && decode(e.batch[e.applied]) == job.commands[n]
            && e.outcome == Run(job.start, OpsOf(job.commands)[..n])
  {
    ConsumedPrefix(job, e);
    hide Inv;
    hide Run;
    var n := e.processed + e.applied;
    assert e.batch[e.applied] == e.s.hist.popped[n] == job.payloads[n];
  }

  lemma ApplyKeeps<T(!new)>(job: Job<T>, decode: T -> OrderCommand, q: Pipe<T>)
    requires JobOk(job, decode) && PipeInv(job, q) && TurnEnabled(job, q, ApplyTurn)
    ensures PipeInv(job, TakeTurn(job, decode, q, ApplyTurn))
  {
    hide JobOk;
    hide Inv;
    hide Matcher.Step;
    hide Run;
    hide OpsOf;
    hide OpOf;
    hide Offers;
    hide Waiting;
    var n, t := q.processed + q.applied, TakeTurn(job, decode, q, ApplyTurn);
    NextCommand(job, decode, q);
    OpsOfAt(job.commands, n);
    RunSnoc(job.start, OpsOf(job.commands), n);
    SameLoops(job, q, t);
  }

  /** Applying changes nothing that the two loops look at. */
  lemma SameLoops<T>(job: Job<T>, q: Pipe<T>, t: Pipe<T>)
    requires t.s == q.s && t.i == q.i && t.batch == q.batch && t.processed == q.processed
    ensures Offers(job, t) == Offers(job, q) && Waiting(job, t) == Waiting(job, q)
  {}

  lemma BatchDoneKeeps<T>(job: Job<T>, decode: T -> OrderCommand, q: Pipe<T>)
    requires PipeInv(job, q) && TurnEnabled(job, q, BatchDone)
    ensures PipeInv(job, TakeTurn(job, decode, q, BatchDone))
  {
    hide Inv;
    hide Run;
  }

  lemma TurnKeepsInv<T(!new)>(job: Job<T>, decode: T -> OrderCommand, q: Pipe<T>, turn: Turn<T>)
    requires JobOk(job, decode) && PipeInv(job, q) && TurnEnabled(job, q, turn)
    ensures PipeInv(job, TakeTurn(job, decode, q, turn))
  {
    hide PipeInv;
    match turn
    case ApplyTurn => ApplyKeeps(job, decode, q);
    case BatchDone => BatchDoneKeeps(job, decode, q);
    case RingTurn(PublishHead) => PublishHeadTurn(job, decode, q);
    case RingTurn(PublishTail) => PublishTailTurn(job, decode, q);
    case RingTurn(step) => QuietTurn(job, decode, q, step);
  }

  // ---- What the loops ask of the ring ----

  lemma RingHasSlots<T>(s: State<T>)
    requires Inv(s)
    ensures |s.ring.data| > 0
  {}

  /** The producer offers the next pushBatch payloads, or what is left of them, whenever it has no push under way. */
  lemma PushOffersBatch<T>(job: Job<T>, q: Pipe<T>, items: seq<T>)
    requires PipeInv(job, q)
    ensures TurnEnabled(job, q, RingTurn(PushCall(items))) <==>
              && q.s.ring.p.PIdle? && q.i < |job.payloads|
              && (var left := |job.payloads| - q.i; |items| == if job.pushBatch < left then job.pushBatch else left)
              && forall k :: 0 <= k < |items| ==> items[k] == job.payloads[q.i + k]
  {
    hide Inv;
    hide Run;
    RingHasSlots(q.s);
    if q.i < |job.payloads| {
      var offered := job.payloads[q.i..q.i + Min(job.pushBatch, |job.payloads| - q.i)];
      assert |items| == |offered| && (forall k :: 0 <= k < |items| ==> items[k] == job.payloads[q.i + k])
        ==> items == offered;
    }
  }

  /** The consumer asks for popBatch items whenever it is not done and has no pop and no batch under way. */
  lemma PopAsksForBatch<T>(job: Job<T>, q: Pipe<T>, max: nat)
    requires PipeInv(job, q)
    ensures TurnEnabled(job, q, RingTurn(PopCall(max))) <==>
              q.s.ring.c.CIdle? && q.processed < |job.payloads| && q.batch == [] && max == job.popBatch
  {
    hide Inv;
    hide Run;
    RingHasSlots(q.s);
  }

  // ---- Runs of the pipeline ----

  predicate ValidTurns<T(==)>(job: Job<T>, decode: T -> OrderCommand, q: Pipe<T>, turns: seq<Turn<T>>)
    decreases |turns|
  {
    turns == [] ||
    (TurnEnabled(job, q, turns[0]) && ValidTurns(job, decode, TakeTurn(job, decode, q, turns[0]), turns[1..]))
  }

  function After<T(==)>(job: Job<T>, decode: T -> OrderCommand, q: Pipe<T>, turns: seq<Turn<T>>): Pipe<T>
    requires ValidTurns(job, decode, q, turns)
    decreases |turns|
  {
    if turns == [] then q else After(job, decode, TakeTurn(job, decode, q, turns[0]), turns[1..])
  }

  lemma {:induction false} TurnsKeepInv<T(!new)>(
    job: Job<T>, decode: T -> OrderCommand, q: Pipe<T>, turns: seq<Turn<T>>)
    requires JobOk(job, decode) && PipeInv(job, q) && ValidTurns(job, decode, q, turns)
    ensures PipeInv(job, After(job, decode, q, turns))
    decreases |turns|
  {
    hide PipeInv;
    if turns != [] {
      TurnKeepsInv(job, decode, q, turns[0]);
      TurnsKeepInv(job, decode, TakeTurn(job, decode, q, turns[0]), turns[1..]);
    }
  }

  /**
   End-to-end determinism: whatever the interleaving, the ring, its capacity, the batch sizes and the
   payload, when the consumer has processed every command the book, the results and the executions
   are those of applying the list in order.
   */
  lemma PipelineIsSequential<T(!new)>(job: Job<T>, decode: T -> OrderCommand, q: Pipe<T>, turns: seq<Turn<T>>)
    requires JobOk(job, decode) && Start(job, q) && ValidTurns(job, decode, q, turns)
    ensures var e := After(job, decode, q, turns);
            && e.processed + e.applied <= |job.commands|
            && e.outcome == Run(job.start, OpsOf(job.commands)[..e.processed + e.applied])
            && (Finished(job, e) ==> e.outcome == Run(job.start, OpsOf(job.commands)))
  {
    hide Inv;
    hide Run;
    StartInv(job, q);
    TurnsKeepInv(job, decode, q, turns);
    var e := After(job, decode, q, turns);
    if Finished(job, e) {
      assert OpsOf(job.commands)[..e.processed + e.applied] == OpsOf(job.commands);
    }
  }

  // ---- No deadlock ----

  /** How far the consumer's call is from publishing. A call that is about to return 0 has to start over. */
  ghost function ConsumerPhase<T>(r: Ring<T>): nat {
    match r.c
    case CIdle => 4
    case CCalled(_) => 3
    case CTail(_, _) => 2
    case CHead(max, t) => if PopCount(r, max, t) == 0 then 5 else 1
    case CReading(_, _, _) => 0
  }

  ghost function ReadsLeft<T>(r: Ring<T>): nat {
    if r.c.CReading? && |r.c.out| <= r.c.count then r.c.count - |r.c.out| else 0
  }

  ghost function ProducerPhase<T>(r: Ring<T>): nat {
    match r.p
    case PIdle => 4
    case PCalled(_) => 3
    case PHead(_, _) => 2
    case PTail(items, h) => if PushCount(r, items, h) == 0 then 5 else 1
    case PWriting(_, _, _, _) => 0
  }

  ghost function WritesLeft<T>(r: Ring<T>): nat {
    if r.p.PWriting? && r.p.i <= r.p.count then r.p.count - r.p.i else 0
  }

  ghost function BatchWork<T>(q: Pipe<T>): nat {
    if q.batch == [] || q.applied > |q.batch| then 0 else |q.batch| - q.applied + 1
  }

  /** More has been published; or as much, and more consumed; or as much of both, and less of the batch is left. */
  ghost predicate Further<T>(q: Pipe<T>, t: Pipe<T>) {
    || |t.s.hist.pushed| > |q.s.hist.pushed|
    || (|t.s.hist.pushed| == |q.s.hist.pushed| &&
        (|| |t.s.hist.popped| > |q.s.hist.popped|
         || (|t.s.hist.popped| == |q.s.hist.popped| && BatchWork(t) < BatchWork(q))))
  }

  ghost predicate SameWork<T>(q: Pipe<T>, t: Pipe<T>) {
    && |t.s.hist.pushed| == |q.s.hist.pushed|
    && |t.s.hist.popped| == |q.s.hist.popped|
    && BatchWork(t) == BatchWork(q)
  }

  /** One turn nearer the end, lexicographically. */
  ghost predicate Nearer<T>(q: Pipe<T>, t: Pipe<T>) {
    || Further(q, t)
    || (SameWork(q, t) &&
        (|| ConsumerNearer(q.s.ring, t.s.ring)
         || (t.s.ring.c == q.s.ring.c && t.s.ring.headView == q.s.ring.headView
             && ProducerNearer(q.s.ring, t.s.ring))))
  }

  ghost predicate ConsumerNearer<T>(r: Ring<T>, t: Ring<T>) {
    ConsumerPhase(t) < ConsumerPhase(r) || (ConsumerPhase(t) == ConsumerPhase(r) && ReadsLeft(t) < ReadsLeft(r))
  }

  ghost predicate ProducerNearer<T>(r: Ring<T>, t: Ring<T>) {
    ProducerPhase(t) < ProducerPhase(r) || (ProducerPhase(t) == ProducerPhase(r) && WritesLeft(t) < WritesLeft(r))
  }

  /** With something to consume and a fresh load, the consumer's next step brings it nearer to publishing. */
  lemma ConsumerAdvances<T>(s: State<T>, popBatch: nat) returns (step: Step<T>)
    requires Inv(s) && Queue(s) != [] && 0 < popBatch
    requires s.ring.c.CCalled? || s.ring.c.CTail? || s.ring.c.CHead? ==> s.ring.c.max == popBatch
    ensures Enabled(s, step) && (step.PopCall? ==> step.max == popBatch) && !step.PushCall? && !step.PublishHead?
    ensures var t := Do(s, step);
            && t.hist.pushed == s.hist.pushed
            && (|t.hist.popped| > |s.hist.popped| || (t.hist.popped == s.hist.popped && ConsumerNearer(s.ring, t.ring)))
    ensures step.PublishTail? <==> |Do(s, step).hist.popped| > |s.hist.popped|
  {
    hide Holds;
    hide Bits.IsPow2;
    hide Bits.And;
    hide AddWrap;
    var r, hist := s.ring, s.hist;
    WrappedDifference(|hist.pushed|, |hist.popped|);
    WrappedDifference(hist.seenHead, |hist.popped|);
    hide SubWrap;
    match r.c {
      case CIdle => step := PopCall(popBatch);
      case CCalled(_) => step := LoadOwnTail;
      case CTail(max, t) =>
        if r.kind.Cached? && r.headView != t {
          step := TrustHeadView;
        } else {
          step := LoadHead(|hist.pushed|);
        }
      case CHead(_, _) => step := DecideHead;
      case CReading(_, count, out) =>
        if |out| < count { step := ReadSlot; } else { step := PublishTail; }
    }
  }

  /** With an empty ring and a fresh load, the producer's next step brings it nearer to publishing. */
  lemma ProducerAdvances<T>(s: State<T>, items: seq<T>) returns (step: Step<T>)
    requires Inv(s) && Queue(s) == [] && items != []
    requires s.ring.p.PCalled? || s.ring.p.PHead? || s.ring.p.PTail? ==> s.ring.p.items == items
    ensures Enabled(s, step) && (step.PushCall? ==> step.items == items) && !step.PopCall? && !step.PublishTail?
    ensures var t := Do(s, step);
            && t.hist.popped == s.hist.popped
            && (|t.hist.pushed| > |s.hist.pushed|
                || (t.hist.pushed == s.hist.pushed && t.ring.c == s.ring.c && t.ring.headView == s.ring.headView
                    && ProducerNearer(s.ring, t.ring)))
    ensures step.PublishHead? <==> |Do(s, step).hist.pushed| > |s.hist.pushed|
  {
    hide Holds;
    hide Bits.IsPow2;
    var r, hist := s.ring, s.hist;
    WrappedDifference(|hist.pushed|, |hist.popped|);
    WrappedDifference(|hist.pushed|, hist.seenTail);
    match r.p {
      case PIdle => step := PushCall(items);
      case PCalled(_) => step := LoadOwnHead;
      case PHead(_, h) =>
        if r.kind.Cached? && SubWrap(h, r.tailView) < r.Capacity() {
          step := TrustTailView;
        } else {
          step := LoadTail(|hist.popped|);
        }
      case PTail(_, _) => step := DecideTail;
      case PWriting(_, _, count, i) =>
        if i < count { step := WriteSlot; } else { step := PublishHead; }
    }
  }

  /** In every unfinished state one of the two threads can move nearer to the end. */
  lemma Advance<T(!new)>(job: Job<T>, decode: T -> OrderCommand, q: Pipe<T>) returns (turn: Turn<T>)
    requires JobOk(job, decode) && PipeInv(job, q) && !Finished(job, q)
    ensures TurnEnabled(job, q, turn) && Nearer(q, TakeTurn(job, decode, q, turn))
  {
    hide Inv;
    hide Run;
    hide Matcher.Step;
    hide ConsumerNearer;
    hide ProducerNearer;
    ConsumedPrefix(job, q);
    if q.batch != [] {
      turn := if q.applied < |q.batch| then ApplyTurn else BatchDone;
    } else if Queue(q.s) != [] {
      var step := ConsumerAdvances(q.s, job.popBatch);
      turn := RingTurn(step);
    } else {
      var step := ProducerAdvances(q.s, job.payloads[q.i..q.i + Min(job.pushBatch, |job.payloads| - q.i)]);
      turn := RingTurn(step);
    }
  }

  lemma FirstTurn<T(!new)>(job: Job<T>, decode: T -> OrderCommand, q: Pipe<T>, turn: Turn<T>, rest: seq<Turn<T>>)
    requires TurnEnabled(job, q, turn) && ValidTurns(job, decode, TakeTurn(job, decode, q, turn), rest)
    ensures ValidTurns(job, decode, q, [turn] + rest)
    ensures After(job, decode, q, [turn] + rest) == After(job, decode, TakeTurn(job, decode, q, turn), rest)
  {
    assert ([turn] + rest)[1..] == rest;
    hide TurnEnabled;
    hide TakeTurn;
  }

  lemma Published<T>(job: Job<T>, q: Pipe<T>)
    requires PipeInv(job, q)
    ensures |q.s.hist.popped| <= |q.s.hist.pushed| <= |job.payloads|
  {
    hide Run;
    ConsumedPrefix(job, q);
    hide Inv;
  }

  /** Nearer is a decrease of the measure that the next lemma descends on. */
  lemma NearerIsLess<T>(q: Pipe<T>, t: Pipe<T>)
    requires Nearer(q, t)
    ensures var a, b := q.s.hist, t.s.hist;
            var r, u := q.s.ring, t.s.ring;
            || |a.pushed| < |b.pushed|
            || (|a.pushed| == |b.pushed| && (|| |a.popped| < |b.popped|
            || (|a.popped| == |b.popped| && (|| BatchWork(t) < BatchWork(q)
            || (BatchWork(t) == BatchWork(q) && (|| ConsumerPhase(u) < ConsumerPhase(r)
            || (ConsumerPhase(u) == ConsumerPhase(r) && (|| ReadsLeft(u) < ReadsLeft(r)
            || (ReadsLeft(u) == ReadsLeft(r) && (|| ProducerPhase(u) < ProducerPhase(r)
            || (ProducerPhase(u) == ProducerPhase(r) && WritesLeft(u) < WritesLeft(r))))))))))))
  {}

  /** No deadlock: from every reachable state there is a run in which the consumer processes every command. */
  lemma {:induction false} CanAlwaysFinish<T(!new)>(job: Job<T>, decode: T -> OrderCommand, q: Pipe<T>)
    returns (turns: seq<Turn<T>>)
    requires JobOk(job, decode) && PipeInv(job, q)
    ensures ValidTurns(job, decode, q, turns) && Finished(job, After(job, decode, q, turns))
    decreases |job.payloads| - |q.s.hist.pushed|, |job.payloads| - |q.s.hist.popped|, BatchWork(q),
              ConsumerPhase(q.s.ring), ReadsLeft(q.s.ring), ProducerPhase(q.s.ring), WritesLeft(q.s.ring)
  {
    if Finished(job, q) {
      turns := [];
    } else {
      var turn := Advance(job, decode, q);
      var t := TakeTurn(job, decode, q, turn);
      TurnKeepsInv(job, decode, q, turn);
      Published(job, q);
      Published(job, t);
      NearerIsLess(q, t);
      hide *;
      var rest := CanAlwaysFinish(job, decode, t);
      turns := [turn] + rest;
      FirstTurn(job, decode, q, turn, rest);
    }
  }

  /** From wherever a run has got to it can be continued to the end, and the end is the sequential outcome. */
  lemma AnyRunCanFinish<T(!new)>(job: Job<T>, decode: T -> OrderCommand, q: Pipe<T>, turns: seq<Turn<T>>)
    returns (more: seq<Turn<T>>)
    requires JobOk(job, decode) && Start(job, q) && ValidTurns(job, decode, q, turns)
    ensures var e := After(job, decode, q, turns);
            && ValidTurns(job, decode, e, more)
            && Finished(job, After(job, decode, e, more))
            && After(job, decode, e, more).outcome == Run(job.start, OpsOf(job.commands))
  {
    hide *;
    StartInv(job, q);
    TurnsKeepInv(job, decode, q, turns);
    var e := After(job, decode, q, turns);
    more := CanAlwaysFinish(job, decode, e);
    TurnsKeepInv(job, decode, e, more);
    FinishedIsAll(job, decode, After(job, decode, e, more));
  }

  /** A finished pipeline has run the whole list. */
  lemma FinishedIsAll<T(!new)>(job: Job<T>, decode: T -> OrderCommand, f: Pipe<T>)
    requires JobOk(job, decode) && PipeInv(job, f) && Finished(job, f)
    ensures f.outcome == Run(job.start, OpsOf(job.commands))
  {
    hide Inv;
    hide Run;
    hide Offers;
    hide Waiting;
    hide Accounted;
    WholeList(job.commands);
    assert f.processed + f.applied == |job.commands|;
    hide OpsOf;
  }

  lemma WholeList(commands: seq<OrderCommand>)
    ensures OpsOf(commands)[..|commands|] == OpsOf(commands)
  {}

  // ---- The pipelines of the benchmark ----

  /**
   Any two pipelines over the same commands and book agree once both have finished, whichever ring,
   capacity, batch sizes, payload and interleaving each of them has.
   */
  lemma PipelinesAgree<T(!new), U(!new)>(
    job1: Job<T>, decode1: T -> OrderCommand, q1: Pipe<T>, turns1: seq<Turn<T>>,
    job2: Job<U>, decode2: U -> OrderCommand, q2: Pipe<U>, turns2: seq<Turn<U>>)
    requires JobOk(job1, decode1) && Start(job1, q1) && ValidTurns(job1, decode1, q1, turns1)
    requires JobOk(job2, decode2) && Start(job2, q2) && ValidTurns(job2, decode2, q2, turns2)
    requires job1.commands == job2.commands && job1.start == job2.start
    requires Finished(job1, After(job1, decode1, q1, turns1)) && Finished(job2, After(job2, decode2, q2, turns2))
    ensures After(job1, decode1, q1, turns1).outcome == After(job2, decode2, q2, turns2).outcome
  {
    PipelineIsSequential(job1, decode1, q1, turns1);
    PipelineIsSequential(job2, decode2, q2, turns2);
  }

  /** The queue carries the commands themselves. */
  function DirectJob(commands: seq<OrderCommand>, pushBatch: nat, popBatch: nat, start: Book): Job<OrderCommand> {
    Job(commands, commands, pushBatch, popBatch, start)
  }

  lemma DirectJobIsOk(commands: seq<OrderCommand>, pushBatch: nat, popBatch: nat, start: Book)
    requires 0 < pushBatch && 0 < popBatch
    ensures JobOk(DirectJob(commands, pushBatch, popBatch, start), (c: OrderCommand) => c)
  {}

  /**
   The full-match benchmark, whichever pipeline runs it on a new book: at every moment the executions
   so far are the first of the n pairings, so a sink reserved for n never overflows, although there
   are 2n commands; and at the end all n have been reported and the book is empty again.
   */
  lemma FullMatchPipeline<T(!new)>(
    job: Job<T>, decode: T -> OrderCommand, q: Pipe<T>, turns: seq<Turn<T>>, n: u64)
    requires JobOk(job, decode) && Start(job, q) && ValidTurns(job, decode, q, turns)
    requires job.start.bids == [] && job.start.asks == [] && Covers(job.start, MATCH_PRICE, MATCH_PRICE)
    requires n <= job.start.capacity && 2 * n < U64
    requires |job.commands| == 2 * n && forall i :: 0 <= i < 2 * n ==> job.commands[i] == FullMatchCommand(n, i)
    ensures var e := After(job, decode, q, turns);
            && e.outcome.execs <= Pairings(n, n) && |e.outcome.execs| <= n
            && (Finished(job, e) ==> e.outcome == Outcome(job.start, AllTrue(2 * n), Pairings(n, n)))
  {
    hide Run;
    hide Inv;
    hide FullMatchCommand;
    PipelineIsSequential(job, decode, q, turns);
    FullMatchOutcome(job.start, n, job.commands);
    var e := After(job, decode, q, turns);
    RunGrows(job.start, OpsOf(job.commands), e.processed + e.applied);
  }
}
