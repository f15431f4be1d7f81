/**
 The pipeline whose queue carries 32-bit positions in the command list instead of the commands. The
 producer's counter is a 32-bit word too, so from position 2^32 on it starts over.
 */
module IndexQueue {
  import opened Types
  import opened Matcher
  import opened RunLaws
  import opened RingProtocol
  import opened Pipeline
  import opened Replay
  import Bits

  /** The first payloads that the producer pushes, one per command of the list. */
  function IndexJob(commands: seq<OrderCommand>, start: Book): Job<u32> {
    Job(seq(|commands|, i requires 0 <= i < |commands| => (i % U32) as u32), commands, 1, 1, start)
  }

  /** `commands[i]` */
  function CommandAt(commands: seq<OrderCommand>): u32 -> OrderCommand {
    (i: u32) => if i < |commands| then commands[i] else OrderCommand(0, 0, 0, AddLimit, Buy)
  }

  /** The list as the consumer reads it through the positions that it is sent. */
  function AsRead(commands: seq<OrderCommand>): (read: seq<OrderCommand>)
    ensures |read| == |commands| && forall i :: 0 <= i < |read| ==> read[i] == commands[i % U32]
  {
    seq(|commands|, i requires 0 <= i < |commands| => commands[i % U32])
  }

  // ---- What a finished run comes to ----

  lemma ReadJobIsOk(commands: seq<OrderCommand>, start: Book)
    ensures JobOk(IndexJob(commands, start).(commands := AsRead(commands)), CommandAt(commands))
  {
    var job, decode := IndexJob(commands, start), CommandAt(commands);
    forall i | 0 <= i < |commands| ensures decode(job.payloads[i]) == AsRead(commands)[i] {
      assert job.payloads[i] == i % U32 <= i;
    }
  }

  /** The two loops look at the payloads only. */
  lemma {:induction false} TurnsIgnoreCommands<T>(
    job: Job<T>, decode: T -> OrderCommand, q: Pipe<T>, turns: seq<Turn<T>>, commands: seq<OrderCommand>)
    ensures var other := job.(commands := commands);
            && ValidTurns(other, decode, q, turns) == ValidTurns(job, decode, q, turns)
            && (ValidTurns(job, decode, q, turns) ==>
                  After(other, decode, q, turns) == After(job, decode, q, turns))
    decreases |turns|
  {
    var other := job.(commands := commands);
    if turns != [] {
      assert TurnEnabled(other, q, turns[0]) == TurnEnabled(job, q, turns[0]);
      if TurnEnabled(job, q, turns[0]) {
        assert TakeTurn(other, decode, q, turns[0]) == TakeTurn(job, decode, q, turns[0]);
        hide TakeTurn;
        hide TurnEnabled;
        TurnsIgnoreCommands(job, decode, TakeTurn(job, decode, q, turns[0]), turns[1..], commands);
      }
    }
  }

  /** Every finished run, of any list, has the outcome of the list as it is read. */
  lemma IndexPipelineIsAsRead(commands: seq<OrderCommand>, start: Book, q: Pipe<u32>, turns: seq<Turn<u32>>)
    requires var job := IndexJob(commands, start);
             && Start(job, q) && ValidTurns(job, CommandAt(commands), q, turns)
             && Finished(job, After(job, CommandAt(commands), q, turns))
    ensures After(IndexJob(commands, start), CommandAt(commands), q, turns).outcome
            == Run(start, OpsOf(AsRead(commands)))
  {
    var job, decode := IndexJob(commands, start), CommandAt(commands);
    ReadJobIsOk(commands, start);
    TurnsIgnoreCommands(job, decode, q, turns, AsRead(commands));
    hide ValidTurns;
    hide After;
    hide JobOk;
    hide OpsOf;
    hide Run;
    PipelineIsSequential(job.(commands := AsRead(commands)), decode, q, turns);
  }

  // ---- When that is the outcome of the list itself ----

  lemma ShortListsReadRight(commands: seq<OrderCommand>)
    requires |commands| <= U32
    ensures AsRead(commands) == commands
  {}

  /** Cancels of an id that is not live, 2^32 of them, and then orders with that id. */
  function OneIdList(n: nat, price: Price): seq<OrderCommand> {
    seq(n, i requires 0 <= i < n => OrderCommand(1, price, 1, if i < U32 then CancelOrder else AddLimit, Buy))
  }

  lemma {:induction false} DeadCancels(b: Book, ops: seq<Op>, j: nat)
    requires !b.Live(1) && j <= |ops| && forall i :: 0 <= i < j ==> ops[i] == CancelOp(1)
    ensures Run(b, ops[..j]).book == b
  {
    hide Run;
    RunNothing(b, ops);
    if j > 0 {
      DeadCancels(b, ops, j - 1);
      RunSnoc(b, ops, j - 1);
    }
  }

  lemma {:induction false} OkAt(b: Book, ops: seq<Op>, j: nat)
    requires j < |ops|
    ensures Run(b, ops).oks[j] == Matcher.Step(Run(b, ops[..j]).book, ops[j]).ok
    decreases |ops|
  {
    var most := ops[..|ops| - 1];
    if j < |most| {
      OkAt(b, most, j);
      assert most[..j] == ops[..j];
    }
    hide Matcher.Step;
  }

  lemma OneIdOps(n: nat, price: Price)
    requires n > U32
    ensures var ops, readOps := OpsOf(OneIdList(n, price)), OpsOf(AsRead(OneIdList(n, price)));
            && |ops| == |readOps| == n
            && (forall i :: 0 <= i < U32 ==> ops[i] == CancelOp(1))
            && (forall i :: 0 <= i <= U32 ==> readOps[i] == CancelOp(1))
            && ops[U32] == SubmitOp(1, Buy, price, 1)
  {
    assert U32 % U32 == 0;
    hide OpsOf;
  }

  /** The first order of such a list is accepted, but as read it is one more cancel, and refused. */
  lemma OneIdListReadsWrong(n: nat, b: Book)
    requires n > U32 && b.WellFormed() && !b.Live(1) && b.Active() < b.capacity && b.minPrice <= b.maxPrice
    ensures var commands := OneIdList(n, b.minPrice);
            && AllAskable(b.minPrice, b.maxPrice, commands)
            && Run(b, OpsOf(AsRead(commands))) != Run(b, OpsOf(commands))
  {
    var commands := OneIdList(n, b.minPrice);
    var ops, readOps := OpsOf(commands), OpsOf(AsRead(commands));
    OneIdOps(n, b.minPrice);
    hide OpsOf;
    hide AsRead;
    hide Run;
    hide Submit;
    hide Book.WellFormed;
    DeadCancels(b, ops, U32);
    DeadCancels(b, readOps, U32);
    OkAt(b, ops, U32);
    OkAt(b, readOps, U32);
    SubmitAllOrNothing(b, 1, Buy, b.minPrice, 1);
    hide OneIdList;
  }

  /** The list as read is as good as the list, for every askable list of n commands, iff n is at most 2^32. */
  lemma ReadsRightIff(n: nat, b: Book)
    requires b.WellFormed() && !b.Live(1) && b.Active() < b.capacity && b.minPrice <= b.maxPrice
    ensures (forall commands :: |commands| == n && AllAskable(b.minPrice, b.maxPrice, commands)
               ==> Run(b, OpsOf(AsRead(commands))) == Run(b, OpsOf(commands)))
       <==> n <= U32
  {
    hide *;
    if n <= U32 {
      forall commands | |commands| == n && AllAskable(b.minPrice, b.maxPrice, commands)
        ensures Run(b, OpsOf(AsRead(commands))) == Run(b, OpsOf(commands))
      {
        ShortListsReadRight(commands);
      }
    } else {
      OneIdListReadsWrong(n, b);
      OneIdListSize(n, b.minPrice);
    }
  }

  lemma OneIdListSize(n: nat, price: Price)
    ensures |OneIdList(n, price)| == n
  {}

  /** A pipeline before its first step, with the smallest ring. */
  function NewPipe(kind: Kind, start: Book): Pipe<u32> {
    var ring := Ring(kind, [0, 0], 0, 0, 0, 0, PIdle, CIdle);
    Pipe(State(ring, History([], [], 0, 0)), 0, 0, [], 0, Outcome(start, [], []))
  }

  lemma NewPipeStarts(kind: Kind, commands: seq<OrderCommand>, start: Book)
    ensures Start(IndexJob(commands, start), NewPipe(kind, start))
  {
    assert Bits.Pow2(1) == 2;
  }

  /** Beyond 2^32 commands either ring finishes a list with an outcome that is not the list's. */
  lemma LongListGoesWrong(n: nat, start: Book, kind: Kind)
    returns (commands: seq<OrderCommand>, q: Pipe<u32>, turns: seq<Turn<u32>>)
    requires n > U32 && start.WellFormed() && !start.Live(1)
    requires start.Active() < start.capacity && start.minPrice <= start.maxPrice
    ensures |commands| == n && AllAskable(start.minPrice, start.maxPrice, commands) && q.s.ring.kind == kind
    ensures FinishedRun(commands, start, q, turns)
    ensures After(IndexJob(commands, start), CommandAt(commands), q, turns).outcome != Run(start, OpsOf(commands))
  {
    commands := OneIdList(n, start.minPrice);
    q := NewPipe(kind, start);
    assert q.s.ring.kind == kind;
    hide *;
    OneIdListSize(n, start.minPrice);
    OneIdListReadsWrong(n, start);
    turns := ARunFinishes(commands, start, q, kind);
    FinishedRunIsAsRead(commands, start, q, turns);
  }

  /** A run of the pipeline over the list, from a new ring until the consumer is done. */
  ghost predicate FinishedRun(commands: seq<OrderCommand>, start: Book, q: Pipe<u32>, turns: seq<Turn<u32>>) {
    var job, decode := IndexJob(commands, start), CommandAt(commands);
    Start(job, q) && ValidTurns(job, decode, q, turns) && Finished(job, After(job, decode, q, turns))
  }

  lemma FinishedRunIsAsRead(commands: seq<OrderCommand>, start: Book, q: Pipe<u32>, turns: seq<Turn<u32>>)
    requires FinishedRun(commands, start, q, turns)
    ensures ValidTurns(IndexJob(commands, start), CommandAt(commands), q, turns)
    ensures After(IndexJob(commands, start), CommandAt(commands), q, turns).outcome
            == Run(start, OpsOf(AsRead(commands)))
  {
    IndexPipelineIsAsRead(commands, start, q, turns);
  }

  lemma ARunFinishes(commands: seq<OrderCommand>, start: Book, q: Pipe<u32>, kind: Kind)
    returns (turns: seq<Turn<u32>>)
    requires q == NewPipe(kind, start)
    ensures FinishedRun(commands, start, q, turns)
  {
    var job, decode := IndexJob(commands, start), CommandAt(commands);
    var read := job.(commands := AsRead(commands));
    NewPipeStarts(kind, commands, start);
    ReadJobIsOk(commands, start);
    hide Inv;
    hide JobOk;
    hide PipeInv;
    hide ValidTurns;
    hide After;
    StartInv(read, q);
    turns := CanAlwaysFinish(read, decode, q);
    TurnsIgnoreCommands(job, decode, q, turns, AsRead(commands));
  }

  /** So the index queue gives the sequential result on every askable list of n commands iff n is at most 2^32. */
  lemma IndexQueueIsSequentialIff(n: nat, start: Book)
    requires start.WellFormed() && !start.Live(1)
    requires start.Active() < start.capacity && start.minPrice <= start.maxPrice
    ensures (forall commands, q, turns ::
               |commands| == n && AllAskable(start.minPrice, start.maxPrice, commands)
               && FinishedRun(commands, start, q, turns)
               ==> After(IndexJob(commands, start), CommandAt(commands), q, turns).outcome
                   == Run(start, OpsOf(commands)))
       <==> n <= U32
  {
    hide *;
    if n <= U32 {
      forall commands, q, turns |
        |commands| == n && AllAskable(start.minPrice, start.maxPrice, commands)
        && FinishedRun(commands, start, q, turns)
        ensures ValidTurns(IndexJob(commands, start), CommandAt(commands), q, turns)
        ensures After(IndexJob(commands, start), CommandAt(commands), q, turns).outcome == Run(start, OpsOf(commands))
      {
        FinishedRunIsAsRead(commands, start, q, turns);
        ShortListsReadRight(commands);
      }
    } else {
      var commands, q, turns := LongListGoesWrong(n, start, Plain);
    }
  }

  // ---- The producer's loop, with its 32-bit counter ----

  /** The ring with the producer's `std::uint32_t i` at one end, and any consumer at the other. */
  datatype Feed = Feed(s: State<u32>, i: u32)

  /** `while (i < commands.size()) { if (queue.push(i)) { ++i; } }` */
  predicate FeedEnabled(n: nat, f: Feed, step: Step<u32>) {
    Enabled(f.s, step) && (step.PushCall? ==> f.i < n && step.items == [f.i])
  }

  function FeedStep(f: Feed, step: Step<u32>): Feed
    requires Enabled(f.s, step)
  {
    Feed(Do(f.s, step), if step.PublishHead? then (f.i + 1) % U32 else f.i)
  }

  predicate ValidFeed(n: nat, f: Feed, steps: seq<Step<u32>>)
    decreases |steps|
  {
    steps == [] || (FeedEnabled(n, f, steps[0]) && ValidFeed(n, FeedStep(f, steps[0]), steps[1..]))
  }

  function AfterFeed(n: nat, f: Feed, steps: seq<Step<u32>>): Feed
    requires ValidFeed(n, f, steps)
    decreases |steps|
  {
    if steps == [] then f else AfterFeed(n, FeedStep(f, steps[0]), steps[1..])
  }

  /** The counter is the number of pushes modulo 2^32, and so is every position pushed. */
  ghost predicate FeedInv(n: nat, f: Feed) {
    && Inv(f.s)
    && f.i == |f.s.hist.pushed| % U32
    && (forall k :: 0 <= k < |f.s.hist.pushed| ==> f.s.hist.pushed[k] == k % U32)
    && (!f.s.ring.p.PIdle? ==> f.i < n && f.s.ring.p.items == [f.i])
    && (n < U32 ==> |f.s.hist.pushed| <= n)
  }

  lemma FeedStepKeeps(n: nat, f: Feed, step: Step<u32>)
    requires FeedInv(n, f) && FeedEnabled(n, f, step)
    ensures FeedInv(n, FeedStep(f, step))
  {
    hide Inv;
    hide Enabled;
    hide Do;
    StepKeepsInv(f.s, step);
    if step.PublishHead? {
      PublishesOne(f.s);
      NextPosition(f.s.hist.pushed);
    } else {
      QuietHistory(f.s, step);
    }
  }

  /** Counting on modulo 2^32. */
  lemma NextPosition(pushed: seq<u32>)
    requires forall k :: 0 <= k < |pushed| ==> pushed[k] == k % U32
    ensures var i: u32 := |pushed| % U32;
            && (i + 1) % U32 == |pushed + [i]| % U32
            && forall k :: 0 <= k < |pushed + [i]| ==> (pushed + [i])[k] == k % U32
  {}

  /** A push of one item publishes that item. */
  lemma PublishesOne(s: State<u32>)
    requires Inv(s) && Enabled(s, PublishHead)
    ensures !s.ring.p.PIdle?
    ensures |s.ring.p.items| == 1 ==>
              Do(s, PublishHead).hist.pushed == s.hist.pushed + s.ring.p.items && Do(s, PublishHead).ring.p.PIdle?
  {
    assert s.ring.p.items[..|s.ring.p.items|] == s.ring.p.items;
    hide Counters;
    hide Holds;
    hide ConsumerOk;
  }

  lemma QuietHistory(s: State<u32>, step: Step<u32>)
    requires Enabled(s, step) && !step.PublishHead?
    ensures Do(s, step).hist.pushed == s.hist.pushed
    ensures !Do(s, step).ring.p.PIdle? ==>
              Do(s, step).ring.p.items == if step.PushCall? then step.items else s.ring.p.items
    ensures s.ring.p.PIdle? && !step.PushCall? ==> Do(s, step).ring.p.PIdle?
  {
    hide PushCount;
    hide PopCount;
  }

  lemma {:induction false} FeedKeeps(n: nat, f: Feed, steps: seq<Step<u32>>)
    requires FeedInv(n, f) && ValidFeed(n, f, steps)
    ensures FeedInv(n, AfterFeed(n, f, steps))
    decreases |steps|
  {
    hide FeedInv;
    hide FeedStep;
    if steps != [] {
      FeedStepKeeps(n, f, steps[0]);
      FeedKeeps(n, FeedStep(f, steps[0]), steps[1..]);
    }
  }

  /**
   Whatever the ring, the consumer and the interleaving, the producer pushes the payloads of the job in
   order. With fewer than 2^32 commands its loop ends exactly when it has pushed them all; with 2^32 or
   more it never ends.
   */
  lemma IndexProducerEnds(commands: seq<OrderCommand>, start: Book, f: Feed, steps: seq<Step<u32>>)
    requires Initial(f.s) && f.i == 0 && ValidFeed(|commands|, f, steps)
    ensures var e, n := AfterFeed(|commands|, f, steps), |commands|;
            var pushed := e.s.hist.pushed;
            && (forall k :: 0 <= k < |pushed| && k < n ==> pushed[k] == IndexJob(commands, start).payloads[k])
            && (n < U32 ==> |pushed| <= n && (e.i < n <==> |pushed| < n))
            && (n >= U32 ==> e.i < n)
  {
    InitialInv(f.s);
    hide Inv;
    assert FeedInv(|commands|, f);
    FeedKeeps(|commands|, f, steps);
  }
}
