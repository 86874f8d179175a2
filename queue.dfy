/**
 * The bounded FIFO that hands accepted pixels from the HTTP writers to the
 * broadcaster (backend/queue.go). The mutex and condition variable are not
 * modelled: each method is one critical section, and the wait for a
 * non-empty queue in DequeueBatch is its precondition.
 */
module Queue {
  import opened Wrappers
  import opened Pixels

  /** The error message Enqueue returns when the queue is at capacity. */
  const QueueFullMessage: string := "queue is full"

  function Min(a: int, b: int): int {
    if a <= b then a else b
  }

  /** The decision Enqueue makes: the new items, and whether the pixel was taken. */
  function Offer(items: seq<PixelUpdate>, maxSize: nat, pixel: PixelUpdate): (r: (seq<PixelUpdate>, bool))
    ensures r.1 <==> |items| < maxSize
    ensures r.1 ==> r.0 == items + [pixel] && r.0[|items|] == pixel
    ensures !r.1 ==> r.0 == items
    ensures |items| <= maxSize ==> |r.0| <= maxSize
  {
    if |items| >= maxSize then (items, false) else (items + [pixel], true)
  }

  /** The split DequeueBatch makes: the batch it returns and the items it keeps. */
  function Take(items: seq<PixelUpdate>, batchSize: nat): (r: (seq<PixelUpdate>, seq<PixelUpdate>))
    ensures |r.0| == Min(batchSize, |items|)
    ensures r.0 + r.1 == items
    ensures |r.1| <= |items|
  {
    var count := if batchSize > |items| then |items| else batchSize;
    (items[..count], items[count..])
  }

  class PixelQueue {
    var items: seq<PixelUpdate>
    const maxSize: nat

    /** The queue never holds more than its capacity. */
    ghost predicate Valid()
      reads this
    {
      |items| <= maxSize
    }

    /** NewPixelQueue: an empty queue of the given capacity. */
    constructor (maxSize: nat)
      ensures Valid()
      ensures items == [] && this.maxSize == maxSize
    {
      items := [];
      this.maxSize := maxSize;
    }

    /** Appends at the tail, or fails without change when the queue is full. */
    method Enqueue(pixel: PixelUpdate) returns (err: Outcome<string>)
      requires Valid()
      modifies this
      ensures Valid()
      ensures old(|items|) >= maxSize ==> err == Fail(QueueFullMessage) && items == old(items)
      ensures old(|items|) < maxSize ==> err == Pass && items == old(items) + [pixel]
      ensures (items, err.Pass?) == Offer(old(items), maxSize, pixel)
    {
      if |items| >= maxSize {
        return Fail(QueueFullMessage);
      }
      items := items + [pixel];
      err := Pass;
    }

    /**
     * Removes and returns the first min(batchSize, Len()) items, in order.
     * The source waits while the queue is empty; here that wait is the
     * precondition.
     */
    method DequeueBatch(batchSize: nat) returns (batch: seq<PixelUpdate>)
      requires Valid()
      requires items != []
      modifies this
      ensures Valid()
      ensures |batch| == Min(batchSize, old(|items|))
      ensures batch + items == old(items)
      ensures batchSize >= 1 ==> batch != [] && batch[0] == old(items)[0]
      ensures (batch, items) == Take(old(items), batchSize)
    {
      var count := batchSize;
      if count > |items| {
        count := |items|;
      }
      batch := items[..count];
      items := items[count..];
    }

    /** The number of items, without changing the queue. */
    method Len() returns (n: nat)
      ensures n == |items|
    {
      n := |items|;
    }

    /** Whether the queue holds no item, without changing the queue. */
    method IsEmpty() returns (empty: bool)
      ensures empty <==> |items| == 0
    {
      empty := |items| == 0;
    }
  }

  /** A call made on the queue: Enqueue of a pixel, or DequeueBatch of a batch size. */
  datatype QueueOp = Push(pixel: PixelUpdate) | Pop(batchSize: nat)

  /**
   * What a run of calls leaves behind: the final items, the pixels Enqueue
   * accepted and the concatenation of every batch DequeueBatch returned.
   */
  datatype Replayed = Replayed(items: seq<PixelUpdate>, accepted: seq<PixelUpdate>, taken: seq<PixelUpdate>)

  /**
   * Runs the calls in order from `items`, each as Offer or Take describes it.
   * A Pop on an empty queue stands for a DequeueBatch still waiting and takes
   * nothing.
   */
  function Replay(items: seq<PixelUpdate>, maxSize: nat, ops: seq<QueueOp>): Replayed
    decreases |ops|
  {
    if ops == [] then Replayed(items, [], [])
    else
      match ops[0]
      case Push(p) =>
        var (next, ok) := Offer(items, maxSize, p);
        var rest := Replay(next, maxSize, ops[1..]);
        Replayed(rest.items, (if ok then [p] else []) + rest.accepted, rest.taken)
      case Pop(n) =>
        var (batch, next) := Take(items, n);
        var rest := Replay(next, maxSize, ops[1..]);
        Replayed(rest.items, rest.accepted, batch + rest.taken)
  }

  /**
   * FIFO across calls: everything handed out by successive DequeueBatch
   * calls, followed by what is still queued, is exactly the starting
   * contents followed by every accepted pixel in Enqueue order. So the
   * batches together form a prefix of that order: nothing is lost,
   * duplicated or reordered.
   */
  lemma {:induction false} ReplayIsFifo(items: seq<PixelUpdate>, maxSize: nat, ops: seq<QueueOp>)
    ensures Replay(items, maxSize, ops).taken + Replay(items, maxSize, ops).items
         == items + Replay(items, maxSize, ops).accepted
    decreases |ops|
  {
    if ops != [] {
      match ops[0]
      case Push(p) =>
        var (next, ok) := Offer(items, maxSize, p);
        ReplayIsFifo(next, maxSize, ops[1..]);
        var rest := Replay(next, maxSize, ops[1..]);
        assert rest.taken + rest.items == next + rest.accepted;
        assert next + rest.accepted == items + ((if ok then [p] else []) + rest.accepted);
      case Pop(n) =>
        var (batch, next) := Take(items, n);
        ReplayIsFifo(next, maxSize, ops[1..]);
        var rest := Replay(next, maxSize, ops[1..]);
        assert (batch + rest.taken) + rest.items == batch + (next + rest.accepted);
    }
  }

  /** The capacity bound holds after any run of calls that starts within it. */
  lemma {:induction false} ReplayKeepsBound(items: seq<PixelUpdate>, maxSize: nat, ops: seq<QueueOp>)
    requires |items| <= maxSize
    ensures |Replay(items, maxSize, ops).items| <= maxSize
    decreases |ops|
  {
    if ops != [] {
      match ops[0]
      case Push(p) =>
        ReplayKeepsBound(Offer(items, maxSize, p).0, maxSize, ops[1..]);
      case Pop(n) =>
        ReplayKeepsBound(Take(items, n).1, maxSize, ops[1..]);
    }
  }
}
