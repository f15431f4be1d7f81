/**
 What each call on a ring does, step by step, in true counts: when it trusts its copy of the other
 side's counter, how many items it goes on to move, and that it moves exactly those.
 */
module RingCalls {
  import opened Types
  import opened Bits
  import opened RingProtocol

  // ---- push and push_many ----

  /** The cached ring trusts its copy of the tail iff that leaves room; the plain ring never does. */
  lemma TrustTailIff<T>(s: State<T>)
    requires Inv(s)
    ensures Enabled(s, TrustTailView) <==>
              s.ring.kind.Cached? && s.ring.p.PHead? && |s.hist.pushed| - s.hist.seenTail < |s.ring.data|
  {
    WrappedDifference(|s.hist.pushed|, s.hist.seenTail);
    hide Holds;
    hide IsPow2;
    hide SubWrap;
  }

  /** Otherwise it loads the tail, and gets a value between the last one loaded and the true one. */
  lemma LoadTailIff<T>(s: State<T>, seen: nat)
    requires Inv(s)
    ensures Enabled(s, LoadTail(seen)) <==>
              && s.ring.p.PHead? && s.hist.seenTail <= seen <= |s.hist.popped|
              && (s.ring.kind.Plain? || |s.hist.pushed| - s.hist.seenTail == |s.ring.data|)
    ensures Enabled(s, LoadTail(seen)) ==>
              var t := Do(s, LoadTail(seen));
              t.hist.seenTail == seen && t.ring.p == PTail(s.ring.p.items, s.ring.head)
  {
    WrappedDifference(|s.hist.pushed|, s.hist.seenTail);
    hide Holds;
    hide IsPow2;
    hide SubWrap;
  }

  /** With its copy trusted, or just loaded, a push writes all that it offers, or what the copy leaves room for. */
  lemma PushWritesExactly<T>(s: State<T>, step: Step<T>)
    requires Inv(s) && Enabled(s, step) && (step.TrustTailView? || step.DecideTail?)
    ensures var room := |s.ring.data| - (|s.hist.pushed| - s.hist.seenTail);
            var items, t := s.ring.p.items, Do(s, step);
            && room >= 0 && (step.TrustTailView? ==> room > 0)
            && t == s.(ring := s.ring.(p := t.ring.p))
            && (if room == 0 || items == [] then t.ring.p == PIdle
                else t.ring.p == PWriting(items, s.ring.head, if room < |items| then room else |items|, 0))
  {
    WrappedDifference(|s.hist.pushed|, s.hist.seenTail);
    hide Holds;
    hide IsPow2;
    hide SubWrap;
  }

  /** It publishes iff it has written them all, and publishes them all, in order. */
  lemma PushPublishesExactly<T>(s: State<T>)
    requires Inv(s)
    ensures Enabled(s, WriteSlot) <==> s.ring.p.PWriting? && s.ring.p.i < s.ring.p.count
    ensures Enabled(s, PublishHead) <==> s.ring.p.PWriting? && s.ring.p.i == s.ring.p.count
    ensures Enabled(s, PublishHead) ==>
              var t, count := Do(s, PublishHead), s.ring.p.count;
              && t.ring.p == PIdle
              && |t.hist.pushed| == |s.hist.pushed| + count
              && t.hist.pushed[..|s.hist.pushed|] == s.hist.pushed
              && forall k :: 0 <= k < count ==> t.hist.pushed[|s.hist.pushed| + k] == s.ring.p.items[k]
  {
    hide Holds;
    hide Words;
    hide IsPow2;
    hide ConsumerOk;
    hide AddWrap;
  }

  // ---- pop and pop_many ----

  /** The cached ring trusts its copy of the head iff that shows something; the plain ring never does. */
  lemma TrustHeadIff<T>(s: State<T>)
    requires Inv(s)
    ensures Enabled(s, TrustHeadView) <==>
              s.ring.kind.Cached? && s.ring.c.CTail? && s.hist.seenHead > |s.hist.popped|
  {
    WrappedEqual(s.hist.seenHead, |s.hist.popped|);
    hide Holds;
    hide IsPow2;
  }

  lemma LoadHeadIff<T>(s: State<T>, seen: nat)
    requires Inv(s)
    ensures Enabled(s, LoadHead(seen)) <==>
              && s.ring.c.CTail? && s.hist.seenHead <= seen <= |s.hist.pushed|
              && (s.ring.kind.Plain? || s.hist.seenHead == |s.hist.popped|)
    ensures Enabled(s, LoadHead(seen)) ==>
              var t := Do(s, LoadHead(seen));
              t.hist.seenHead == seen && t.ring.c == CHead(s.ring.c.max, s.ring.tail)
  {
    WrappedEqual(s.hist.seenHead, |s.hist.popped|);
    hide Holds;
    hide IsPow2;
  }

  /** With its copy trusted, or just loaded, a pop reads all that the copy shows, or as much as it asked for. */
  lemma PopReadsExactly<T>(s: State<T>, step: Step<T>)
    requires Inv(s) && Enabled(s, step) && (step.TrustHeadView? || step.DecideHead?)
    ensures var shown := s.hist.seenHead - |s.hist.popped|;
            var max, t := s.ring.c.max, Do(s, step);
            && shown >= 0 && (step.TrustHeadView? ==> shown > 0)
            && t == s.(ring := s.ring.(c := t.ring.c))
            && (if shown == 0 || max == 0 then t.ring.c == CIdle
                else t.ring.c == CReading(s.ring.tail, if shown < max then shown else max, []))
  {
    WrappedDifference(s.hist.seenHead, |s.hist.popped|);
    WrappedEqual(s.hist.seenHead, |s.hist.popped|);
    hide Holds;
    hide IsPow2;
    hide SubWrap;
  }

  /** It gives up the slots iff it has read them all, and has then taken exactly the first of the queue. */
  lemma PopTakesExactly<T>(s: State<T>)
    requires Inv(s)
    ensures Enabled(s, ReadSlot) <==> s.ring.c.CReading? && |s.ring.c.out| < s.ring.c.count
    ensures Enabled(s, PublishTail) <==> s.ring.c.CReading? && |s.ring.c.out| == s.ring.c.count
    ensures Enabled(s, PublishTail) ==>
              var t, from, count := Do(s, PublishTail), |s.hist.popped|, s.ring.c.count;
              && t.ring.c == CIdle
              && |t.hist.popped| == from + count <= |s.hist.pushed|
              && t.hist.popped[..from] == s.hist.popped
              && forall k :: 0 <= k < count ==>
                   t.hist.popped[from + k] == s.ring.c.out[k] == s.hist.pushed[from + k]
  {
    hide Holds;
    hide Words;
    hide IsPow2;
    hide ProducerOk;
    hide AddWrap;
  }
}
