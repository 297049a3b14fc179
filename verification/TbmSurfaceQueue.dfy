/** The part of a libtbm surface queue its clients rely on. libtbm is not part of
    this repository; the queue is modelled by the state of each buffer it tracks and
    by two FIFO lists, and a reset forgets every buffer. */
module TbmSurfaceQueue {
  import opened Collections

  type Buffer = nat

  datatype BufferState = Free | Dequeued | Dirty | Acquired

  datatype Answer = NoError | UnknownSurface | OtherError

  datatype Queue = Queue(
    width: int, height: int,
    generation: nat,                   // how often the queue has forgotten its buffers
    states: map<Buffer, BufferState>,
    free: seq<Buffer>,
    dirty: seq<Buffer>)
  {
    predicate In(b: Buffer, state: BufferState) {
      b in states && states[b] == state
    }

    /** The queue can hand out b: the oldest free buffer, or one just attached to it. */
    predicate CanDequeue(b: Buffer) {
      if free != [] then b == free[0] else b !in states
    }

    function Dequeue(b: Buffer): Queue
      requires CanDequeue(b)
    {
      this.(states := states[b := Dequeued], free := if free != [] then free[1..] else [])
    }

    function EnqueueAnswer(b: Buffer): Answer {
      if b !in states then UnknownSurface
      else if states[b] == Dequeued then NoError
      else OtherError
    }

    function Enqueue(b: Buffer): Queue {
      if EnqueueAnswer(b) == NoError then this.(states := states[b := Dirty], dirty := dirty + [b]) else this
    }

    function Acquire(): Queue
      requires dirty != []
    {
      this.(states := states[dirty[0] := Acquired], dirty := dirty[1..])
    }

    /** Releasing a buffer the queue does not hold as acquired changes nothing. */
    function Release(b: Buffer): Queue {
      if In(b, Acquired) then this.(states := states[b := Free], free := free + [b]) else this
    }

    function Reset(w: int, h: int): Queue {
      Queue(w, h, generation + 1, map[], [], [])
    }

    /** The lists hold exactly the buffers in the states they stand for. */
    ghost predicate Valid() {
      && Distinct(free) && Distinct(dirty)
      && (forall b :: b in free <==> In(b, Free))
      && (forall b :: b in dirty <==> In(b, Dirty))
    }
  }

  lemma DequeueKeepsValid(q: Queue, b: Buffer)
    requires q.Valid() && q.CanDequeue(b)
    ensures q.Dequeue(b).Valid()
  {
    if q.free != [] {
      DistinctTail(q.free);
      assert b in q.free && q.In(b, Free);
    }
    assert b !in q.dirty;
  }

  lemma EnqueueKeepsValid(q: Queue, b: Buffer)
    requires q.Valid()
    ensures q.Enqueue(b).Valid()
  {
    if q.EnqueueAnswer(b) == NoError {
      assert b !in q.dirty && b !in q.free;
      DistinctSnoc(q.dirty, b);
    }
  }

  lemma AcquireKeepsValid(q: Queue)
    requires q.Valid() && q.dirty != []
    ensures q.Acquire().Valid()
  {
    DistinctTail(q.dirty);
    assert q.dirty[0] in q.dirty && q.In(q.dirty[0], Dirty);
    assert q.dirty[0] !in q.free;
  }

  lemma ReleaseKeepsValid(q: Queue, b: Buffer)
    requires q.Valid()
    ensures q.Release(b).Valid()
  {
    if q.In(b, Acquired) {
      assert b !in q.free && b !in q.dirty;
      DistinctSnoc(q.free, b);
    }
  }
}
