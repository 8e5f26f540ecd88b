/**
 * The bounded tap queue (queuedSingleTaps, an ArrayBlockingQueue of capacity
 * 16). The gesture thread offers taps without blocking, dropping a tap when
 * the queue is full; the render thread polls at most one tap per frame.
 */
module TapQueue {
  import opened Wrappers
  import opened ArCore

  const QueueCapacity: nat := 16

  /** offer(t): appended when there is room, otherwise the queue is left as it is. */
  function Offer(q: seq<Tap>, t: Tap): (r: seq<Tap>)
    ensures |q| <= QueueCapacity ==> |r| <= QueueCapacity
    ensures r == q + [t] || r == q
    ensures r == q + [t] <==> |q| < QueueCapacity
  {
    if |q| < QueueCapacity then q + [t] else q
  }

  /** poll(): the head, if any, and the queue that remains. */
  function Poll(q: seq<Tap>): (r: (Option<Tap>, seq<Tap>))
    ensures r.0.Some? <==> q != []
    ensures r.0.Some? ==> [r.0.value] + r.1 == q
    ensures r.0.None? ==> r.1 == q
  {
    if q == [] then (None, []) else (Some(q[0]), q[1..])
  }

  /** A burst of offers with no poll in between. */
  function OfferAll(q: seq<Tap>, ts: seq<Tap>): seq<Tap>
    decreases |ts|
  {
    if ts == [] then q else OfferAll(Offer(q, ts[0]), ts[1..])
  }

  /** A burst of offers keeps exactly the earliest taps that fit; every later one is dropped. */
  lemma {:induction false} OfferAllKeepsEarliest(q: seq<Tap>, ts: seq<Tap>)
    requires |q| <= QueueCapacity
    ensures OfferAll(q, ts) == (q + ts)[..Min(|q| + |ts|, QueueCapacity)]
    decreases |ts|
  {
    if ts != [] {
      var q1 := Offer(q, ts[0]);
      OfferAllKeepsEarliest(q1, ts[1..]);
      if |q| < QueueCapacity {
        assert q1 + ts[1..] == q + ts;
      } else {
        assert (q + ts[1..])[..QueueCapacity] == q == (q + ts)[..QueueCapacity];
      }
    }
  }

  /** What the two threads do to the queue, in the order it happens. */
  datatype QueueOp = OfferOp(tap: Tap) | PollOp

  /** Outcome of a run of operations: the final queue, the taps the queue
      accepted and the taps polled, each in the order it happened. */
  datatype Replay = Replay(queue: seq<Tap>, accepted: seq<Tap>, polled: seq<Tap>)

  function ReplayOps(q: seq<Tap>, ops: seq<QueueOp>): Replay
    decreases |ops|
  {
    if ops == [] then Replay(q, [], [])
    else
      match ops[0]
      case OfferOp(t) =>
        var rest := ReplayOps(Offer(q, t), ops[1..]);
        var took := if |q| < QueueCapacity then [t] else [];
        Replay(rest.queue, took + rest.accepted, rest.polled)
      case PollOp =>
        var p := Poll(q);
        var rest := ReplayOps(p.1, ops[1..]);
        var got := if p.0.Some? then [p.0.value] else [];
        Replay(rest.queue, rest.accepted, got + rest.polled)
  }

  /**
   * FIFO under any interleaving of offers and polls: the taps polled, followed
   * by those still queued, are exactly the taps initially queued followed by
   * the accepted ones, in the same order; and the queue never exceeds its
   * capacity.
   */
  lemma {:induction false} ReplayIsFifo(q: seq<Tap>, ops: seq<QueueOp>)
    requires |q| <= QueueCapacity
    ensures ReplayOps(q, ops).polled + ReplayOps(q, ops).queue == q + ReplayOps(q, ops).accepted
    ensures |ReplayOps(q, ops).queue| <= QueueCapacity
    decreases |ops|
  {
    if ops != [] {
      match ops[0]
      case OfferOp(t) =>
        ReplayIsFifo(Offer(q, t), ops[1..]);
        var rest := ReplayOps(Offer(q, t), ops[1..]);
        if |q| < QueueCapacity {
          assert q + ([t] + rest.accepted) == (q + [t]) + rest.accepted;
        }
      case PollOp =>
        ReplayIsFifo(Poll(q).1, ops[1..]);
        var rest := ReplayOps(Poll(q).1, ops[1..]);
        if q != [] {
          assert [q[0]] + rest.polled + rest.queue == [q[0]] + (q[1..] + rest.accepted);
          assert [q[0]] + q[1..] == q;
        }
    }
  }
}
