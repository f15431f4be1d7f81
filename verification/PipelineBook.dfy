/**
 The pipeline with the book itself as the consumer's state: every command that the consumer applies
 goes through the real structure and into a real execution buffer.
 */
module PipelineBook {
  import opened Types
  import opened Matcher
  import opened RunLaws
  import opened Workload
  import opened FixedClob
  import opened ExecutionSink
  import opened Replay
  import Bits
  import opened Pipeline

  /** Book and sink are at the outcome that the pipeline has reached. */
  ghost predicate Mirrors<T>(book: Clob, sink: ExecutionBuffer, q: Pipe<T>)
    reads book, book.Objects(), sink, sink.data
  {
    && book.Valid() && book.SinkApart(sink)
    && book.Book() == q.outcome.book && sink.Contents() == q.outcome.execs
  }

  /**
   Whenever the consumer is about to apply a command, a sink with room for the whole list's executions
   has room for that command's, however many executions it may come to.
   */
  lemma RoomToApply<T(!new)>(job: Job<T>, decode: T -> OrderCommand, e: Pipe<T>)
    requires JobOk(job, decode) && PipeInv(job, e) && TurnEnabled(job, e, ApplyTurn)
    ensures var c := decode(e.batch[e.applied]);
            |e.outcome.execs| + |Step(e.outcome.book, OpOf(c)).execs| <= |Run(job.start, OpsOf(job.commands)).execs|
  {
    NextCommand(job, decode, e);
    var n := e.processed + e.applied;
    OpsOfAt(job.commands, n);
    hide *;
    RunSnoc(job.start, OpsOf(job.commands), n);
    RunGrows(job.start, OpsOf(job.commands), n + 1);
  }

  /** The consumer's loop body on the real book. */
  method ApplyNext<T(!new, ==)>(book: Clob, sink: ExecutionBuffer, job: Job<T>, decode: T -> OrderCommand, e: Pipe<T>)
    requires JobOk(job, decode) && PipeInv(job, e) && TurnEnabled(job, e, ApplyTurn) && Mirrors(book, sink, e)
    requires AllAskable(book.minPrice, book.maxPrice, job.commands)
    requires |Run(job.start, OpsOf(job.commands)).execs| <= sink.capacity
    modifies book.Objects(), sink`size, sink.data
    ensures Mirrors(book, sink, TakeTurn(job, decode, e, ApplyTurn))
  {
    hide Clob.Valid;
    hide Clob.Book;
    hide Run;
    hide Step;
    hide OpsOf;
    hide OpOf;
    hide JobOk;
    hide PipeInv;
    NextCommand(job, decode, e);
    RoomToApply(job, decode, e);
    hide Askable;
    var ok := Apply(book, decode(e.batch[e.applied]), sink);
  }

  /**
   A whole run of the pipeline on the real book, for any schedule of the two threads: no step of it
   finds the sink full, and when the consumer has processed everything, book and sink are those of the
   list applied in order.
   */
  method RunPipeline<T(!new, ==)>(book: Clob, sink: ExecutionBuffer, job: Job<T>, decode: T -> OrderCommand,
                                  q: Pipe<T>, turns: seq<Turn<T>>) returns (e: Pipe<T>)
    requires JobOk(job, decode) && Start(job, q) && ValidTurns(job, decode, q, turns) && Mirrors(book, sink, q)
    requires AllAskable(book.minPrice, book.maxPrice, job.commands)
    requires |Run(job.start, OpsOf(job.commands)).execs| <= sink.capacity
    modifies book.Objects(), sink`size, sink.data
    ensures e == After(job, decode, q, turns) && Mirrors(book, sink, e)
    ensures Finished(job, e) ==>
              var r := Run(job.start, OpsOf(job.commands)); book.Book() == r.book && sink.Contents() == r.execs
  {
    hide Clob.Valid;
    hide Clob.Book;
    hide Run;
    hide OpsOf;
    hide JobOk;
    hide PipeInv;
    hide TakeTurn;
    hide TurnEnabled;
    hide AllAskable;
    StartInv(job, q);
    PipelineIsSequential(job, decode, q, turns);
    hide Start;
    hide Finished;
    e := q;
    assert turns[0..] == turns;
    for i := 0 to |turns|
      invariant ValidTurns(job, decode, e, turns[i..])
      invariant After(job, decode, e, turns[i..]) == After(job, decode, q, turns)
      invariant PipeInv(job, e) && Mirrors(book, sink, e)
    {
      NextTurn(job, decode, e, turns, i);
      TurnKeepsInv(job, decode, e, turns[i]);
      hide ValidTurns;
      hide After;
      if turns[i].ApplyTurn? {
        ApplyNext(book, sink, job, decode, e);
      } else {
        OnlyApplyTurns(job, decode, e, turns[i]);
      }
      e := TakeTurn(job, decode, e, turns[i]);
    }
  }

  lemma NextTurn<T(!new)>(job: Job<T>, decode: T -> OrderCommand, e: Pipe<T>, turns: seq<Turn<T>>, i: nat)
    requires i < |turns| && ValidTurns(job, decode, e, turns[i..])
    ensures TurnEnabled(job, e, turns[i])
    ensures var t := TakeTurn(job, decode, e, turns[i]);
            && ValidTurns(job, decode, t, turns[i + 1..])
            && After(job, decode, e, turns[i..]) == After(job, decode, t, turns[i + 1..])
  {
    assert turns[i..][0] == turns[i] && turns[i..][1..] == turns[i + 1..];
    hide TurnEnabled;
    hide TakeTurn;
  }

  /** No other turn touches the book. */
  lemma OnlyApplyTurns<T>(job: Job<T>, decode: T -> OrderCommand, e: Pipe<T>, turn: Turn<T>)
    requires TurnEnabled(job, e, turn) && !turn.ApplyTurn?
    ensures TakeTurn(job, decode, e, turn).outcome == e.outcome
  {}

  /**
   The full-match benchmark from a new book, whichever pipeline and schedule: a sink reserved for n is
   never found full although there are 2n commands, and a finished run leaves the n pairings in it and
   the book empty.
   */
  method RunFullMatchPipeline<T(!new, ==)>(
    maxOrders: nat, minPrice: Price, maxPrice: Price, hash: OrderId -> u64, n: u64,
    job: Job<T>, decode: T -> OrderCommand, q: Pipe<T>, turns: seq<Turn<T>>)
    returns (book: Clob, sink: ExecutionBuffer, e: Pipe<T>)
    requires Bits.IsPow2(maxOrders) && maxOrders <= NULL_ORDER_INDEX && n <= maxOrders
    requires minPrice <= MATCH_PRICE <= maxPrice && maxPrice - minPrice + 1 < U64
    requires JobOk(job, decode) && Start(job, q) && ValidTurns(job, decode, q, turns)
    requires job.start == EmptyBook(minPrice, maxPrice, maxOrders)
    requires |job.commands| == 2 * n && forall i :: 0 <= i < 2 * n ==> job.commands[i] == FullMatchCommand(n, i)
    ensures e == After(job, decode, q, turns) && Mirrors(book, sink, e) && sink.capacity == n
    ensures Finished(job, e) ==>
              book.Book() == EmptyBook(minPrice, maxPrice, maxOrders) && sink.Contents() == Pairings(n, n)
  {
    hide Clob.Valid;
    hide Clob.Book;
    hide Run;
    hide OpsOf;
    hide JobOk;
    hide FullMatchCommand;
    hide AllAskable;
    hide ValidTurns;
    hide After;
    hide Bits.IsPow2;
    book, sink := NewBook(maxOrders, minPrice, maxPrice, hash, n);
    FullMatchOutcome(job.start, n, job.commands);
    FullMatchAskable(minPrice, maxPrice, n, job.commands);
    assert Mirrors(book, sink, q);
    e := RunPipeline(book, sink, job, decode, q, turns);
  }
}
