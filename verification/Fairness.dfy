/**
 Liveness of the pipeline under any fair scheduler: retrying a push that finds the ring full, or a pop
 that finds it empty, does not go on for ever.
 */
module Fairness {
  import opened Types
  import opened Matcher
  import opened RunLaws
  import opened RingProtocol
  import opened Pipeline
  import Bits

  datatype Thread = ProducerThread | ConsumerThread

  function ThreadOf<T>(turn: Turn<T>): Thread {
    match turn
    case RingTurn(step) =>
      if step.PushCall? || step.LoadOwnHead? || step.TrustTailView? || step.LoadTail? || step.DecideTail?
         || step.WriteSlot? || step.PublishHead?
      then ProducerThread
      else ConsumerThread
    case ApplyTurn => ConsumerThread
    case BatchDone => ConsumerThread
  }

  function OtherThan(thread: Thread): Thread {
    if thread.ConsumerThread? then ProducerThread else ConsumerThread
  }

  // ---- Infinite schedules ----

  /** At moment k one of the threads takes the turn sched(k), or neither moves. */
  ghost predicate Scheduled<T(!new)>(
    job: Job<T>, decode: T -> OrderCommand, sched: nat -> Option<Turn<T>>, trace: nat -> Pipe<T>)
  {
    Start(job, trace(0)) && forall k: nat :: Moves(job, decode, trace(k), sched(k), trace(k + 1))
  }

  ghost predicate Moves<T>(job: Job<T>, decode: T -> OrderCommand, q: Pipe<T>, move: Option<Turn<T>>, t: Pipe<T>) {
    match move
    case None => t == q
    case Some(turn) => TurnEnabled(job, q, turn) && t == TakeTurn(job, decode, q, turn)
  }

  ghost predicate CanMove<T(!new)>(job: Job<T>, q: Pipe<T>, thread: Thread) {
    exists turn: Turn<T> :: ThreadOf(turn) == thread && TurnEnabled(job, q, turn)
  }

  predicate IsBy<T>(move: Option<Turn<T>>, thread: Thread) { move.Some? && ThreadOf(move.value) == thread }

  /** Weak fairness: from no moment on can a thread always move and yet never moves. */
  ghost predicate Fair<T(!new)>(job: Job<T>, sched: nat -> Option<Turn<T>>, trace: nat -> Pipe<T>) {
    forall k: nat, thread :: FairFrom(job, sched, trace, k, thread)
  }

  ghost predicate FairFrom<T(!new)>(
    job: Job<T>, sched: nat -> Option<Turn<T>>, trace: nat -> Pipe<T>, k: nat, thread: Thread)
  {
    (forall j: nat :: k <= j ==> CanMove(job, trace(j), thread)) ==> exists j: nat :: k <= j && IsBy(sched(j), thread)
  }

  /** A load of the other side's counter returns no less than this. */
  predicate Sees<T>(move: Option<Turn<T>>, pushed: nat, popped: nat) {
    move.Some? && move.value.RingTurn? ==>
      && (move.value.step.LoadHead? ==> move.value.step.seenHead >= pushed)
      && (move.value.step.LoadTail? ==> move.value.step.seenTail >= popped)
  }

  /** Every published counter value is seen by all loads but finitely many. */
  ghost predicate EventuallyVisible<T(!new)>(sched: nat -> Option<Turn<T>>, trace: nat -> Pipe<T>) {
    forall k: nat :: InTimeVisible(sched, trace(k))
  }

  ghost predicate InTimeVisible<T(!new)>(sched: nat -> Option<Turn<T>>, q: Pipe<T>) {
    exists m: nat :: VisibleFrom(sched, m, |q.s.hist.pushed|, |q.s.hist.popped|)
  }

  ghost predicate VisibleFrom<T(!new)>(sched: nat -> Option<Turn<T>>, m: nat, pushed: nat, popped: nat) {
    forall j: nat :: m <= j ==> Sees(sched(j), pushed, popped)
  }

  lemma {:induction false} TraceInv<T(!new)>(
    job: Job<T>, decode: T -> OrderCommand, sched: nat -> Option<Turn<T>>, trace: nat -> Pipe<T>, k: nat)
    requires JobOk(job, decode) && Scheduled(job, decode, sched, trace)
    ensures PipeInv(job, trace(k))
  {
    hide PipeInv;
    hide JobOk;
    hide TurnEnabled;
    hide TakeTurn;
    if k == 0 {
      StartInv(job, trace(0));
    } else {
      TraceInv(job, decode, sched, trace, k - 1);
      assert Moves(job, decode, trace(k - 1), sched(k - 1), trace(k - 1 + 1));
      if sched(k - 1).Some? {
        TurnKeepsInv(job, decode, trace(k - 1), sched(k - 1).value);
      }
    }
  }

  // ---- What one turn does to the work and to the other thread ----

  /** Nothing that the consumer looks at, or the producer, has changed. */
  ghost predicate SameFor<T>(thread: Thread, q: Pipe<T>, t: Pipe<T>) {
    if thread.ConsumerThread? then
      t.s.ring.c == q.s.ring.c && t.s.ring.headView == q.s.ring.headView && t.batch == q.batch && t.applied == q.applied
    else
      t.s.ring.p == q.s.ring.p && t.s.ring.tailView == q.s.ring.tailView && |t.s.ring.data| == |q.s.ring.data|
  }

  /** Work never comes back; and a turn that does none leaves the other thread alone. */
  lemma TurnWorks<T>(job: Job<T>, decode: T -> OrderCommand, q: Pipe<T>, turn: Turn<T>)
    requires PipeInv(job, q) && TurnEnabled(job, q, turn)
    ensures var t := TakeTurn(job, decode, q, turn);
            Further(q, t) || (SameWork(q, t) && SameFor(OtherThan(ThreadOf(turn)), q, t))
  {
    match turn
    case ApplyTurn =>
    case BatchDone =>
    case RingTurn(step) =>
      RingTurnWorks(job, decode, q, step);
  }

  lemma RingTurnWorks<T>(job: Job<T>, decode: T -> OrderCommand, q: Pipe<T>, step: Step<T>)
    requires PipeInv(job, q) && TurnEnabled(job, q, RingTurn(step))
    ensures var turn := RingTurn(step);
            var t := TakeTurn(job, decode, q, turn);
            Further(q, t) || (SameWork(q, t) && SameFor(OtherThan(ThreadOf(turn)), q, t))
  {
    hide Inv;
    hide Run;
    hide PushCount;
    hide PopCount;
    hide Offers;
    hide Waiting;
    hide Bits.And;
    Publications(q.s, step);
  }

  /** A publication publishes something. */
  lemma Publications<T>(s: State<T>, step: Step<T>)
    requires Inv(s) && Enabled(s, step)
    ensures step.PublishHead? ==> |Do(s, step).hist.pushed| > |s.hist.pushed|
    ensures step.PublishTail? ==> |Do(s, step).hist.popped| > |s.hist.popped|
  {
    hide Holds;
    hide Bits.IsPow2;
  }

  /** With something to consume in sight, any turn of the consumer does work or gets it nearer to doing some. */
  lemma ConsumerTurnHelps<T>(job: Job<T>, decode: T -> OrderCommand, q: Pipe<T>, turn: Turn<T>)
    requires 0 < job.popBatch && PipeInv(job, q) && TurnEnabled(job, q, turn) && ThreadOf(turn).ConsumerThread?
    requires q.batch != [] || |q.s.hist.popped| < |q.s.hist.pushed|
    requires Sees(Some(turn), |q.s.hist.pushed|, 0)
    ensures var t := TakeTurn(job, decode, q, turn);
            Further(q, t) || (SameWork(q, t) && t.batch == q.batch && ConsumerNearer(q.s.ring, t.s.ring))
  {
    if turn.RingTurn? {
      assert q.batch == [];
      ConsumerStepHelps(q.s, turn.step, job.popBatch);
      hide Inv;
      hide Do;
      hide Enabled;
      hide ConsumerNearer;
    }
  }

  lemma ConsumerStepHelps<T>(s: State<T>, step: Step<T>, popBatch: nat)
    requires Inv(s) && Enabled(s, step) && ThreadOf(RingTurn(step)).ConsumerThread? && 0 < popBatch
    requires |s.hist.popped| < |s.hist.pushed|
    requires s.ring.c.CCalled? || s.ring.c.CTail? || s.ring.c.CHead? ==> s.ring.c.max == popBatch
    requires step.PopCall? ==> step.max == popBatch
    requires step.LoadHead? ==> step.seenHead >= |s.hist.pushed|
    ensures var t := Do(s, step);
            && t.hist.pushed == s.hist.pushed
            && (if step.PublishTail? then |t.hist.popped| > |s.hist.popped|
                else t.hist.popped == s.hist.popped && ConsumerNearer(s.ring, t.ring))
  {
    hide Holds;
    hide Bits.IsPow2;
    hide Bits.And;
    hide AddWrap;
    WrappedDifference(|s.hist.pushed|, |s.hist.popped|);
    WrappedDifference(s.hist.seenHead, |s.hist.popped|);
    WrappedEqual(s.hist.seenHead, |s.hist.popped|);
    hide SubWrap;
  }

  /** With the ring seen empty and something to push, any turn of the producer does. */
  lemma ProducerTurnHelps<T>(job: Job<T>, decode: T -> OrderCommand, q: Pipe<T>, turn: Turn<T>)
    requires 0 < job.pushBatch && PipeInv(job, q) && TurnEnabled(job, q, turn) && ThreadOf(turn).ProducerThread?
    requires |q.s.hist.popped| == |q.s.hist.pushed|
    requires Sees(Some(turn), 0, |q.s.hist.popped|)
    ensures var t := TakeTurn(job, decode, q, turn);
            Further(q, t) || (SameWork(q, t) && t.batch == q.batch && ProducerNearer(q.s.ring, t.s.ring))
  {
    ProducerStepHelps(q.s, turn.step);
    hide Inv;
    hide Do;
    hide Enabled;
    hide ProducerNearer;
  }

  lemma ProducerStepHelps<T>(s: State<T>, step: Step<T>)
    requires Inv(s) && Enabled(s, step) && ThreadOf(RingTurn(step)).ProducerThread?
    requires |s.hist.popped| == |s.hist.pushed|
    requires s.ring.p.PCalled? || s.ring.p.PHead? || s.ring.p.PTail? ==> s.ring.p.items != []
    requires step.LoadTail? ==> step.seenTail >= |s.hist.popped|
    ensures var t := Do(s, step);
            && t.hist.popped == s.hist.popped
            && (if step.PublishHead? then |t.hist.pushed| > |s.hist.pushed|
                else t.hist.pushed == s.hist.pushed && ProducerNearer(s.ring, t.ring))
  {
    hide Holds;
    hide Bits.IsPow2;
    hide Bits.And;
    hide AddWrap;
    WrappedDifference(|s.hist.pushed|, |s.hist.popped|);
    WrappedDifference(|s.hist.pushed|, s.hist.seenTail);
    hide SubWrap;
  }

  // ---- Neither loop is ever without a turn ----

  lemma ConsumerCanMove<T(!new)>(job: Job<T>, q: Pipe<T>)
    requires 0 < job.popBatch && PipeInv(job, q) && !Finished(job, q)
    ensures CanMove(job, q, ConsumerThread)
  {
    var turn;
    if q.batch != [] {
      turn := if q.applied < |q.batch| then ApplyTurn else BatchDone;
      assert TurnEnabled(job, q, turn);
    } else {
      hide Inv;
      hide Run;
      hide Enabled;
      var step := ConsumerStep(q.s, job.popBatch);
      turn := RingTurn(step);
      assert TurnEnabled(job, q, turn);
    }
    assert ThreadOf(turn) == ConsumerThread;
  }

  lemma ConsumerStep<T>(s: State<T>, popBatch: nat) returns (step: Step<T>)
    requires Inv(s)
    ensures Enabled(s, step) && ThreadOf(RingTurn(step)) == ConsumerThread
    ensures step.PopCall? ==> step.max == popBatch && s.ring.c.CIdle?
  {
    hide Holds;
    hide Words;
    hide Bits.IsPow2;
    match s.ring.c {
      case CIdle => step := PopCall(popBatch);
      case CCalled(_) => step := LoadOwnTail;
      case CTail(_, t) =>
        step := if s.ring.kind.Cached? && s.ring.headView != t then TrustHeadView else LoadHead(|s.hist.pushed|);
      case CHead(_, _) => step := DecideHead;
      case CReading(_, count, out) => step := if |out| < count then ReadSlot else PublishTail;
    }
  }

  lemma ProducerCanMove<T(!new)>(job: Job<T>, q: Pipe<T>)
    requires 0 < job.pushBatch && PipeInv(job, q) && |q.s.hist.pushed| < |job.payloads|
    ensures CanMove(job, q, ProducerThread)
  {
    hide Inv;
    hide Run;
    hide Enabled;
    var step := ProducerStep(q.s, job.payloads[q.i..q.i + Min(job.pushBatch, |job.payloads| - q.i)]);
    assert TurnEnabled(job, q, RingTurn(step)) && ThreadOf(RingTurn(step)) == ProducerThread;
  }

  lemma ProducerStep<T>(s: State<T>, items: seq<T>) returns (step: Step<T>)
    requires Inv(s)
    ensures Enabled(s, step) && ThreadOf(RingTurn(step)) == ProducerThread
    ensures step.PushCall? ==> step.items == items
  {
    hide Holds;
    hide Words;
    hide Bits.IsPow2;
    match s.ring.p {
      case PIdle => step := PushCall(items);
      case PCalled(_) => step := LoadOwnHead;
      case PHead(_, h) =>
        step := if s.ring.kind.Cached? && SubWrap(h, s.ring.tailView) < s.ring.Capacity() then TrustTailView
                else LoadTail(|s.hist.popped|);
      case PTail(_, _) => step := DecideTail;
      case PWriting(_, _, count, i) => step := if i < count then WriteSlot else PublishHead;
    }
  }

  // ---- From one moment of a schedule to another ----

  lemma {:induction false} FirstMove<T>(sched: nat -> Option<Turn<T>>, thread: Thread, k: nat, j: nat) returns (i: nat)
    requires k <= j && IsBy(sched(j), thread)
    ensures k <= i && IsBy(sched(i), thread) && forall x: nat :: k <= x < i ==> !IsBy(sched(x), thread)
    decreases j - k
  {
    if IsBy(sched(k), thread) {
      i := k;
    } else {
      i := FirstMove(sched, thread, k + 1, j);
    }
  }

  /** Getting further, or staying, and then getting further, or staying. */
  lemma FurtherThen<T>(q: Pipe<T>, t: Pipe<T>, u: Pipe<T>)
    requires (Further(q, t) || SameWork(q, t)) && (Further(t, u) || SameWork(t, u))
    ensures Further(q, u) || (!Further(q, t) && !Further(t, u) && SameWork(q, u))
  {}

  /** Until a thread moves, either work gets done or everything that it looks at stays. */
  lemma {:induction false} Meanwhile<T(!new)>(
    job: Job<T>, decode: T -> OrderCommand, sched: nat -> Option<Turn<T>>, trace: nat -> Pipe<T>,
    thread: Thread, k: nat, i: nat)
    requires JobOk(job, decode) && Scheduled(job, decode, sched, trace)
    requires k <= i && forall x: nat :: k <= x < i ==> !IsBy(sched(x), thread)
    ensures Further(trace(k), trace(i)) || (SameWork(trace(k), trace(i)) && SameFor(thread, trace(k), trace(i)))
    decreases i
  {
    hide *;
    StaysTheSame(thread, trace(k));
    if k < i {
      Meanwhile(job, decode, sched, trace, thread, k, i - 1);
      OneMove(job, decode, sched, trace, i - 1);
      assert !IsBy(sched(i - 1), thread);
      FurtherThen(trace(k), trace(i - 1), trace(i));
      SameThen(thread, trace(k), trace(i - 1), trace(i));
    }
  }

  lemma StaysTheSame<T>(thread: Thread, q: Pipe<T>)
    ensures SameWork(q, q) && SameFor(thread, q, q)
  {}

  lemma SameThen<T>(thread: Thread, q: Pipe<T>, t: Pipe<T>, u: Pipe<T>)
    ensures SameFor(thread, q, t) && SameFor(thread, t, u) ==> SameFor(thread, q, u)
  {}

  /** One move works, or leaves the work, and the other thread, alone. */
  lemma OneMove<T(!new)>(
    job: Job<T>, decode: T -> OrderCommand, sched: nat -> Option<Turn<T>>, trace: nat -> Pipe<T>, k: nat)
    requires JobOk(job, decode) && Scheduled(job, decode, sched, trace)
    ensures Further(trace(k), trace(k + 1)) || SameWork(trace(k), trace(k + 1))
    ensures sched(k).None? ==> trace(k + 1) == trace(k)
    ensures sched(k).Some? ==>
              && TurnEnabled(job, trace(k), sched(k).value)
              && trace(k + 1) == TakeTurn(job, decode, trace(k), sched(k).value)
    ensures forall thread :: !IsBy(sched(k), thread) ==>
              Further(trace(k), trace(k + 1)) || SameFor(thread, trace(k), trace(k + 1))
  {
    TraceInv(job, decode, sched, trace, k);
    assert Moves(job, decode, trace(k), sched(k), trace(k + 1));
    hide PipeInv;
    hide JobOk;
    hide TurnEnabled;
    hide TakeTurn;
    hide Further;
    if sched(k).Some? {
      TurnWorks(job, decode, trace(k), sched(k).value);
    }
  }

  lemma {:induction false} WorkGrows<T(!new)>(
    job: Job<T>, decode: T -> OrderCommand, sched: nat -> Option<Turn<T>>, trace: nat -> Pipe<T>, k: nat, i: nat)
    requires JobOk(job, decode) && Scheduled(job, decode, sched, trace) && k <= i
    ensures Further(trace(k), trace(i)) || SameWork(trace(k), trace(i))
    decreases i
  {
    hide *;
    StaysTheSame(ConsumerThread, trace(k));
    if k < i {
      WorkGrows(job, decode, sched, trace, k, i - 1);
      OneMove(job, decode, sched, trace, i - 1);
      FurtherThen(trace(k), trace(i - 1), trace(i));
    }
  }

  // ---- Both threads get their work done ----

  /** The next move of a thread that can always move. */
  lemma NextMove<T(!new)>(
    job: Job<T>, sched: nat -> Option<Turn<T>>, trace: nat -> Pipe<T>, k: nat, thread: Thread) returns (i: nat)
    requires Fair(job, sched, trace) && forall j: nat :: k <= j ==> CanMove(job, trace(j), thread)
    ensures k <= i && IsBy(sched(i), thread) && forall x: nat :: k <= x < i ==> !IsBy(sched(x), thread)
  {
    assert FairFrom(job, sched, trace, k, thread);
    hide CanMove;
    var j: nat :| k <= j && IsBy(sched(j), thread);
    i := FirstMove(sched, thread, k, j);
  }

  /** The assumptions of the theorem, and its failure. */
  ghost predicate Endless<T(!new)>(
    job: Job<T>, decode: T -> OrderCommand, sched: nat -> Option<Turn<T>>, trace: nat -> Pipe<T>)
  {
    && JobOk(job, decode) && Scheduled(job, decode, sched, trace) && Fair(job, sched, trace)
    && forall j: nat :: !Finished(job, trace(j))
  }

  lemma ConsumerAlwaysCanMove<T(!new)>(
    job: Job<T>, decode: T -> OrderCommand, sched: nat -> Option<Turn<T>>, trace: nat -> Pipe<T>, j: nat)
    requires Endless(job, decode, sched, trace)
    ensures CanMove(job, trace(j), ConsumerThread)
  {
    TraceInv(job, decode, sched, trace, j);
    hide PipeInv;
    ConsumerCanMove(job, trace(j));
  }

  /** Something to consume that all loads from now on show gets consumed. */
  lemma {:induction false} ConsumerGets<T(!new)>(
    job: Job<T>, decode: T -> OrderCommand, sched: nat -> Option<Turn<T>>, trace: nat -> Pipe<T>, k: nat)
    returns (i: nat)
    requires Endless(job, decode, sched, trace)
    requires trace(k).batch != [] || |trace(k).s.hist.popped| < |trace(k).s.hist.pushed|
    requires VisibleFrom(sched, k, |trace(k).s.hist.pushed|, 0)
    ensures Further(trace(k), trace(i))
    decreases ConsumerPhase(trace(k).s.ring), ReadsLeft(trace(k).s.ring)
  {
    forall j: nat | k <= j ensures CanMove(job, trace(j), ConsumerThread) {
      ConsumerAlwaysCanMove(job, decode, sched, trace, j);
    }
    i := NextMove(job, sched, trace, k, ConsumerThread);
    Meanwhile(job, decode, sched, trace, ConsumerThread, k, i);
    OneMove(job, decode, sched, trace, i);
    TraceInv(job, decode, sched, trace, i);
    assert Sees(sched(i), |trace(k).s.hist.pushed|, 0);
    assert 0 < job.popBatch;
    hide PipeInv;
    hide JobOk;
    hide Scheduled;
    hide Fair;
    hide CanMove;
    hide TurnEnabled;
    hide TakeTurn;
    if !Further(trace(k), trace(i)) {
      ConsumerTurnHelps(job, decode, trace(i), sched(i).value);
      FurtherThen(trace(k), trace(i), trace(i + 1));
      if Further(trace(i), trace(i + 1)) {
        i := i + 1;
      } else {
        SameConsumerPhase(trace(k), trace(i));
        var next := i + 1;
        i := ConsumerGets(job, decode, sched, trace, next);
        FurtherThen(trace(k), trace(next), trace(i));
      }
    }
  }

  lemma SameConsumerPhase<T>(q: Pipe<T>, t: Pipe<T>)
    requires SameFor(ConsumerThread, q, t)
    ensures ConsumerPhase(t.s.ring) == ConsumerPhase(q.s.ring) && ReadsLeft(t.s.ring) == ReadsLeft(q.s.ring)
  {}

  /** Something to push gets pushed, once all loads show that the ring is empty. */
  lemma {:induction false} ProducerGets<T(!new)>(
    job: Job<T>, decode: T -> OrderCommand, sched: nat -> Option<Turn<T>>, trace: nat -> Pipe<T>, k: nat)
    returns (i: nat)
    requires Endless(job, decode, sched, trace)
    requires |trace(k).s.hist.popped| == |trace(k).s.hist.pushed| < |job.payloads|
    requires VisibleFrom(sched, k, 0, |trace(k).s.hist.popped|)
    ensures Further(trace(k), trace(i))
    decreases ProducerPhase(trace(k).s.ring), WritesLeft(trace(k).s.ring)
  {
    if i0: nat :| k <= i0 && !CanMove(job, trace(i0), ProducerThread) {
      i := i0;
      WorkGrows(job, decode, sched, trace, k, i);
      TraceInv(job, decode, sched, trace, i);
      hide PipeInv;
      if SameWork(trace(k), trace(i)) {
        ProducerCanMove(job, trace(i));
      }
    } else {
      i := NextMove(job, sched, trace, k, ProducerThread);
      Meanwhile(job, decode, sched, trace, ProducerThread, k, i);
      OneMove(job, decode, sched, trace, i);
      TraceInv(job, decode, sched, trace, i);
      assert Sees(sched(i), 0, |trace(k).s.hist.popped|);
      assert 0 < job.pushBatch;
      hide PipeInv;
      hide JobOk;
      hide Scheduled;
      hide Fair;
      hide CanMove;
      hide TurnEnabled;
      hide TakeTurn;
      if !Further(trace(k), trace(i)) {
        ProducerTurnHelps(job, decode, trace(i), sched(i).value);
        FurtherThen(trace(k), trace(i), trace(i + 1));
        if Further(trace(i), trace(i + 1)) {
          i := i + 1;
        } else {
          SameProducerPhase(trace(k), trace(i));
          var next := i + 1;
          i := ProducerGets(job, decode, sched, trace, next);
          FurtherThen(trace(k), trace(next), trace(i));
        }
      }
    }
  }

  lemma SameProducerPhase<T>(q: Pipe<T>, t: Pipe<T>)
    requires SameFor(ProducerThread, q, t)
    ensures ProducerPhase(t.s.ring) == ProducerPhase(q.s.ring) && WritesLeft(t.s.ring) == WritesLeft(q.s.ring)
  {}

  /** While the consumer is not done, there is work that one of the threads gets done. */
  lemma WorkGetsDone<T(!new)>(
    job: Job<T>, decode: T -> OrderCommand, sched: nat -> Option<Turn<T>>, trace: nat -> Pipe<T>, k: nat)
    returns (i: nat)
    requires Endless(job, decode, sched, trace) && EventuallyVisible(sched, trace)
    ensures Further(trace(k), trace(i))
  {
    var pushed, popped := |trace(k).s.hist.pushed|, |trace(k).s.hist.popped|;
    assert InTimeVisible(sched, trace(k));
    var m: nat :| VisibleFrom(sched, m, pushed, popped);
    i := if k < m then m else k;
    WorkGrows(job, decode, sched, trace, k, i);
    StillToDo(job, decode, sched, trace, i);
    if !Further(trace(k), trace(i)) {
      var from := i;
      if trace(i).batch != [] || |trace(i).s.hist.popped| < |trace(i).s.hist.pushed| {
        assert VisibleFrom(sched, i, pushed, 0);
        i := ConsumerGets(job, decode, sched, trace, i);
      } else {
        assert VisibleFrom(sched, i, 0, popped);
        i := ProducerGets(job, decode, sched, trace, i);
      }
      FurtherThen(trace(k), trace(from), trace(i));
    }
  }

  /** If the consumer has nothing at hand and the ring is empty, the producer has something left. */
  lemma StillToDo<T(!new)>(
    job: Job<T>, decode: T -> OrderCommand, sched: nat -> Option<Turn<T>>, trace: nat -> Pipe<T>, k: nat)
    requires Endless(job, decode, sched, trace)
    ensures |trace(k).s.hist.popped| <= |trace(k).s.hist.pushed| <= |job.payloads|
    ensures trace(k).batch == [] ==> |trace(k).s.hist.popped| < |job.payloads|
  {
    TraceInv(job, decode, sched, trace, k);
    Published(job, trace(k));
    assert !Finished(job, trace(k));
    hide Inv;
    hide Run;
  }

  lemma {:induction false} NothingIsEndless<T(!new)>(
    job: Job<T>, decode: T -> OrderCommand, sched: nat -> Option<Turn<T>>, trace: nat -> Pipe<T>, k: nat)
    requires Endless(job, decode, sched, trace) && EventuallyVisible(sched, trace)
    ensures false
    decreases |job.payloads| - |trace(k).s.hist.pushed|, |job.payloads| - |trace(k).s.hist.popped|, BatchWork(trace(k))
  {
    var i := WorkGetsDone(job, decode, sched, trace, k);
    StillToDo(job, decode, sched, trace, k);
    StillToDo(job, decode, sched, trace, i);
    hide Endless;
    hide EventuallyVisible;
    hide BatchWork;
    NothingIsEndless(job, decode, sched, trace, i);
  }

  /**
   Every fair schedule finishes: if no thread that can always move is left out for ever, and every
   counter value published is seen in the end, then at some moment the consumer has processed every
   command, with the outcome of the list applied in order, and the producer's loop has ended too.
   */
  lemma FairPipelineFinishes<T(!new)>(
    job: Job<T>, decode: T -> OrderCommand, sched: nat -> Option<Turn<T>>, trace: nat -> Pipe<T>)
    requires JobOk(job, decode) && Scheduled(job, decode, sched, trace)
    requires Fair(job, sched, trace) && EventuallyVisible(sched, trace)
    ensures exists k: nat ::
              && Finished(job, trace(k))
              && trace(k).outcome == Run(job.start, OpsOf(job.commands))
              && trace(k).i == |job.payloads| && trace(k).s.ring.p.PIdle?
  {
    if forall k: nat :: !Finished(job, trace(k)) {
      assert Endless(job, decode, sched, trace);
      NothingIsEndless(job, decode, sched, trace, 0);
    }
    var k: nat :| Finished(job, trace(k));
    TraceInv(job, decode, sched, trace, k);
    FinishedIsAll(job, decode, trace(k));
    BothLoopsEnd(job, trace(k));
  }

  lemma BothLoopsEnd<T>(job: Job<T>, q: Pipe<T>)
    requires PipeInv(job, q) && Finished(job, q)
    ensures q.i == |job.payloads| && q.s.ring.p.PIdle?
  {
    Published(job, q);
    hide Inv;
    hide Run;
  }

  // ---- The assumptions can be met ----

  /** The states of a finite run, one after each turn. */
  function States<T(==)>(job: Job<T>, decode: T -> OrderCommand, q: Pipe<T>, turns: seq<Turn<T>>): (st: seq<Pipe<T>>)
    requires ValidTurns(job, decode, q, turns)
    ensures |st| == |turns| + 1 && st[0] == q && st[|turns|] == After(job, decode, q, turns)
    ensures forall i {:trigger turns[i]} :: 0 <= i < |turns| ==>
              TurnEnabled(job, st[i], turns[i]) && st[i + 1] == TakeTurn(job, decode, st[i], turns[i])
    decreases |turns|
  {
    if turns == [] then [q] else [q] + States(job, decode, TakeTurn(job, decode, q, turns[0]), turns[1..])
  }

  /** A finished pipeline has no turn left to take. */
  lemma FinishedCannotMove<T(!new)>(job: Job<T>, q: Pipe<T>, thread: Thread)
    requires PipeInv(job, q) && Finished(job, q)
    ensures !CanMove(job, q, thread)
  {
    BothLoopsEnd(job, q);
    Published(job, q);
    hide Inv;
    hide Run;
  }

  lemma StandingStillSeesAll<T(!new)>(sched: nat -> Option<Turn<T>>, trace: nat -> Pipe<T>, n: nat)
    requires forall j: nat :: n <= j ==> sched(j).None?
    ensures EventuallyVisible(sched, trace)
  {
    forall k: nat ensures InTimeVisible(sched, trace(k)) {
      assert VisibleFrom(sched, n, |trace(k).s.hist.pushed|, |trace(k).s.hist.popped|);
    }
  }

  /** From every start there is a fair schedule: run to the end, and then stand still. */
  lemma FairScheduleExists<T(!new)>(job: Job<T>, decode: T -> OrderCommand, q: Pipe<T>)
    returns (sched: nat -> Option<Turn<T>>, trace: nat -> Pipe<T>)
    requires JobOk(job, decode) && Start(job, q)
    ensures Scheduled(job, decode, sched, trace) && Fair(job, sched, trace) && EventuallyVisible(sched, trace)
  {
    hide PipeInv;
    hide JobOk;
    hide TurnEnabled;
    hide TakeTurn;
    hide ValidTurns;
    hide After;
    hide Finished;
    StartInv(job, q);
    var turns := CanAlwaysFinish(job, decode, q);
    TurnsKeepInv(job, decode, q, turns);
    var n, st := |turns|, States(job, decode, q, turns);
    trace := (k: nat) => if k < n then st[k] else st[n];
    sched := (k: nat) => if k < n then Some(turns[k]) else None;
    forall k: nat, thread ensures FairFrom(job, sched, trace, k, thread) {
      FinishedCannotMove(job, st[n], thread);
      assert !CanMove(job, trace(k + n), thread);
    }
    StandingStillSeesAll(sched, trace, n);
  }
}
