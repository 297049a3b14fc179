/** The TBM backend as a client of the worker, for a Vulkan surface in MAILBOX mode. The
    application's buffers wait in a list until the worker takes them, and reach the tbm
    queue when the worker has drawn them. */
module TbmClient {
  import opened Collections
  import opened TbmSurfaceQueue

  datatype State = State(
    queue: Queue,
    waiting: seq<Buffer>,           // draw_waiting_queue
    waitSync: map<Buffer, int>,     // wait_sync of the buffers with user data, -1 for none
    appHeld: set<Buffer>,           // dequeued by the application and not yet enqueued
    workerHeld: Option<Buffer>,     // taken by the worker and not yet drawn
    taken: multiset<Buffer>,        // history of tbm_surface_internal_ref
    dropped: multiset<Buffer>,      // history of tbm_surface_internal_unref
    submitted: seq<Buffer>,         // history of the application's enqueues
    fences: seq<int>,               // and the fences that came with them
    notified: nat,                  // history: notifications of the worker
    arrived: seq<Buffer>)           // history of the buffers entering the tbm queue

  datatype Event =
    | Dequeue(buffer: Buffer)
    | Submit(buffer: Buffer, fence: int)
    | Take                        // draw_wait_buffer_get
    | DrawDone
    | ConsumerAcquire             // whoever owns the queue takes the oldest buffer
    | ConsumerRelease(buffer: Buffer)

  // ---------------------------------------------------------------------------
  // Effects
  // ---------------------------------------------------------------------------

  predicate Enabled(s: State, e: Event) {
    match e
    case Dequeue(b) => s.queue.CanDequeue(b)
    case Submit(b, _) => b in s.appHeld
    case Take => s.waiting != [] && s.workerHeld == None
    case DrawDone => s.workerHeld.Some?
    case ConsumerAcquire => s.queue.dirty != []
    case ConsumerRelease(b) => s.queue.In(b, Acquired)
  }

  function Apply(s: State, e: Event): State
    requires Enabled(s, e)
  {
    match e
    case Dequeue(b) =>
      s.(queue := s.queue.Dequeue(b), appHeld := s.appHeld + {b}, taken := s.taken + multiset{b},
         waitSync := if b in s.waitSync then s.waitSync else s.waitSync[b := 0])
    case Submit(b, fence) =>
      s.(waiting := s.waiting + [b], waitSync := s.waitSync[b := fence], appHeld := s.appHeld - {b},
         dropped := s.dropped + multiset{b}, taken := s.taken + multiset{b},
         submitted := s.submitted + [b], fences := s.fences + [fence], notified := s.notified + 1)
    case Take =>
      s.(waiting := s.waiting[1..], workerHeld := Some(s.waiting[0]))
    case DrawDone =>
      var b := s.workerHeld.value;
      s.(queue := s.queue.Enqueue(b), waitSync := s.waitSync[b := -1], workerHeld := None,
         dropped := s.dropped + multiset{b},
         arrived := if s.queue.EnqueueAnswer(b) == NoError then s.arrived + [b] else s.arrived)
    case ConsumerAcquire => s.(queue := s.queue.Acquire())
    case ConsumerRelease(b) => s.(queue := s.queue.Release(b))
  }

  /** A new swapchain over a queue none of whose buffers is out. */
  ghost predicate Init(s: State) {
    && s.queue.Valid() && (forall b :: !s.queue.In(b, Dequeued))
    && s == State(s.queue, [], map[], {}, None, multiset{}, multiset{}, [], [], 0, [])
  }

  ghost predicate Runs(s: State, events: seq<Event>, s': State)
    decreases |events|
  {
    if events == [] then s' == s
    else Enabled(s, events[0]) && Runs(Apply(s, events[0]), events[1..], s')
  }

  // ---------------------------------------------------------------------------
  // The invariant
  // ---------------------------------------------------------------------------

  function OneIf(c: bool): nat {
    if c then 1 else 0
  }

  /** One reference for each place of ours that the buffer is in. */
  ghost predicate RefsBalance(s: State) {
    forall b {:trigger s.taken[b]} ::
      s.taken[b] == s.dropped[b] + OneIf(b in s.appHeld) + OneIf(b in s.waiting) + OneIf(s.workerHeld == Some(b))
  }

  /** Our places do not overlap, and together hold what the queue calls dequeued. */
  ghost predicate Placed(s: State) {
    && s.queue.Valid() && Distinct(s.waiting)
    && (forall b | b in s.appHeld :: b !in s.waiting && s.workerHeld != Some(b))
    && (s.workerHeld.Some? ==> s.workerHeld.value !in s.waiting)
    && (forall b :: s.queue.In(b, Dequeued) <==> b in s.appHeld || b in s.waiting || s.workerHeld == Some(b))
  }

  ghost predicate InOrder(s: State) {
    s.submitted == s.arrived + AsSeq(s.workerHeld) + s.waiting
  }

  /** A buffer with the worker or waiting carries the fence of its own submission, and one
      that is back in the queue carries none. */
  ghost predicate FencesCarried(s: State) {
    && |s.fences| == |s.submitted| == s.notified
    && (forall i | |s.arrived| <= i < |s.submitted| ::
          s.submitted[i] in s.waitSync && s.waitSync[s.submitted[i]] == s.fences[i])
    && (forall b | b in s.waitSync && b !in s.appHeld && b !in s.waiting && s.workerHeld != Some(b) ::
          s.waitSync[b] == -1)
  }

  ghost predicate Inv(s: State) {
    RefsBalance(s) && Placed(s) && InOrder(s) && FencesCarried(s)
  }

  /** What has been submitted and has not arrived is with the worker or waits. */
  lemma InFlight(s: State, i: nat)
    requires Placed(s) && InOrder(s) && |s.arrived| <= i < |s.submitted|
    ensures s.workerHeld == Some(s.submitted[i]) || s.submitted[i] in s.waiting
    ensures s.workerHeld.Some? && |s.arrived| < i ==> s.submitted[i] in s.waiting
    ensures s.workerHeld.Some? ==> s.submitted[|s.arrived|] == s.workerHeld.value
  {
    var flight := AsSeq(s.workerHeld) + s.waiting;
    assert s.submitted == s.arrived + flight;
    assert s.submitted[i] == flight[i - |s.arrived|];
  }

  lemma DequeueingKeepsInv(s: State, b: Buffer)
    requires Inv(s) && s.queue.CanDequeue(b)
    ensures Inv(Apply(s, Dequeue(b)))
  {
    assert s.queue.free != [] ==> b in s.queue.free && s.queue.In(b, Free);
    assert !s.queue.In(b, Dequeued);
    DequeueKeepsValid(s.queue, b);
    assert FencesCarried(Apply(s, Dequeue(b)));
  }

  lemma SubmittingCarries(s: State, b: Buffer, fence: int)
    requires Placed(s) && InOrder(s) && FencesCarried(s) && b in s.appHeld
    ensures FencesCarried(Apply(s, Submit(b, fence)))
  {
    forall i | |s.arrived| <= i < |s.submitted| ensures s.submitted[i] != b {
      InFlight(s, i);
    }
  }

  lemma DrawingCarries(s: State)
    requires Placed(s) && InOrder(s) && FencesCarried(s) && s.workerHeld.Some?
    requires s.queue.EnqueueAnswer(s.workerHeld.value) == NoError
    ensures FencesCarried(Apply(s, DrawDone))
  {
    forall i | |s.arrived| <= i < |s.submitted| ensures i > |s.arrived| ==> s.submitted[i] != s.workerHeld.value {
      InFlight(s, i);
    }
  }

  lemma SubmittingKeepsInv(s: State, b: Buffer, fence: int)
    requires Inv(s) && b in s.appHeld
    ensures Inv(Apply(s, Submit(b, fence)))
  {
    DistinctSnoc(s.waiting, b);
    SubmittingCarries(s, b, fence);
    assert s.submitted + [b] == s.arrived + AsSeq(s.workerHeld) + (s.waiting + [b]);
  }

  lemma TakingKeepsInv(s: State)
    requires Inv(s) && Enabled(s, Take)
    ensures Inv(Apply(s, Take))
  {
    DistinctTail(s.waiting);
    assert s.waiting == [s.waiting[0]] + s.waiting[1..];
  }

  lemma DrawingKeepsInv(s: State)
    requires Inv(s) && Enabled(s, DrawDone)
    ensures s.queue.EnqueueAnswer(s.workerHeld.value) == NoError
    ensures Inv(Apply(s, DrawDone))
  {
    assert s.queue.In(s.workerHeld.value, Dequeued);
    EnqueueKeepsValid(s.queue, s.workerHeld.value);
    DrawingCarries(s);
  }

  lemma EventKeepsInv(s: State, e: Event)
    requires Inv(s) && Enabled(s, e)
    ensures Inv(Apply(s, e))
  {
    match e
    case Dequeue(b) => DequeueingKeepsInv(s, b);
    case Submit(b, fence) => SubmittingKeepsInv(s, b, fence);
    case Take => TakingKeepsInv(s);
    case DrawDone => DrawingKeepsInv(s);
    case ConsumerAcquire =>
      assert s.queue.In(s.queue.dirty[0], Dirty) by { assert s.queue.dirty[0] in s.queue.dirty; }
      AcquireKeepsValid(s.queue);
    case ConsumerRelease(b) => ReleaseKeepsValid(s.queue, b);
  }

  lemma {:induction false} RunKeepsInv(s: State, events: seq<Event>, s': State)
    requires Inv(s) && Runs(s, events, s')
    ensures Inv(s')
    decreases |events|
  {
    if events != [] {
      EventKeepsInv(s, events[0]);
      RunKeepsInv(Apply(s, events[0]), events[1..], s');
    }
  }

  /** Buffers reach the tbm queue in the order the application submitted them, none is
      skipped, and the queue refuses none: what has not arrived is with the worker or waits. */
  lemma ArriveInSubmissionOrder(s: State, events: seq<Event>, s': State)
    requires Init(s) && Runs(s, events, s')
    ensures s'.submitted == s'.arrived + AsSeq(s'.workerHeld) + s'.waiting
    ensures s'.workerHeld.Some? ==> s'.queue.EnqueueAnswer(s'.workerHeld.value) == NoError
  {
    RunKeepsInv(s, events, s');
    if s'.workerHeld.Some? {
      DrawingKeepsInv(s');
    }
  }

  /** The worker, asking a buffer it holds for its fence, gets the one that came with the
      submission it holds; so will it for the k-th buffer that waits. A buffer that is back in
      the queue has no fence, and the worker has been notified of every submission. */
  lemma FencesArrive(s: State, events: seq<Event>, s': State, k: nat)
    requires Init(s) && Runs(s, events, s')
    ensures |s'.fences| == |s'.submitted| == |s'.arrived| + |AsSeq(s'.workerHeld)| + |s'.waiting|
    ensures s'.notified == |s'.submitted|
    ensures s'.workerHeld.Some? ==>
              var b := s'.workerHeld.value;
              b in s'.waitSync && b == s'.submitted[|s'.arrived|] && s'.waitSync[b] == s'.fences[|s'.arrived|]
    ensures k < |s'.waiting| ==>
              var i := |s'.submitted| - |s'.waiting| + k;
              && s'.waiting[k] == s'.submitted[i] && s'.waiting[k] in s'.waitSync
              && s'.waitSync[s'.waiting[k]] == s'.fences[i]
    ensures forall b | b in s'.waitSync && !s'.queue.In(b, Dequeued) :: s'.waitSync[b] == -1
  {
    RunKeepsInv(s, events, s');
    if s'.workerHeld.Some? {
      InFlight(s', |s'.arrived|);
    }
  }

  /** A buffer has one reference while it is with the application, in the waiting list or
      with the worker, and none otherwise. */
  lemma ReferencesMatchPlaces(s: State, events: seq<Event>, s': State, b: Buffer)
    requires Init(s) && Runs(s, events, s')
    ensures s'.taken[b] == s'.dropped[b] + OneIf(s'.queue.In(b, Dequeued))
    ensures s'.queue.In(b, Dequeued) <==> b in s'.appHeld || b in s'.waiting || s'.workerHeld == Some(b)
    ensures b in s'.appHeld ==> b !in s'.waiting && s'.workerHeld != Some(b)
  {
    RunKeepsInv(s, events, s');
    assert s'.taken[b] >= 0;
  }

  // ---------------------------------------------------------------------------
  // The code
  // ---------------------------------------------------------------------------

  class TbmSurface {
    var queue: Queue
    var waiting: seq<Buffer>
    var waitSync: map<Buffer, int>
    ghost var appHeld: set<Buffer>
    ghost var workerHeld: Option<Buffer>
    ghost var taken: multiset<Buffer>
    ghost var dropped: multiset<Buffer>
    ghost var submitted: seq<Buffer>
    ghost var fences: seq<int>
    ghost var notified: nat
    ghost var arrived: seq<Buffer>

    ghost function Current(): State
      reads this
    {
      State(queue, waiting, waitSync, appHeld, workerHeld, taken, dropped, submitted, fences, notified, arrived)
    }

    /** create_swapchain. */
    constructor (queue: Queue)
      requires queue.Valid() && forall b :: !queue.In(b, Dequeued)
      ensures Init(Current()) && Inv(Current()) && this.queue == queue
    {
      this.queue, waiting, waitSync := queue, [], map[];
      appHeld, workerHeld, submitted, fences, notified, arrived := {}, None, [], [], 0, [];
      taken, dropped := multiset{}, multiset{};
    }

    /** dequeue_buffer, when the queue can hand out the buffer. */
    method DequeueBuffer(buffer: Buffer)
      requires Inv(Current()) && queue.CanDequeue(buffer)
      modifies this
      ensures Current() == Apply(old(Current()), Dequeue(buffer)) && Inv(Current())
      ensures appHeld == old(appHeld) + {buffer} && taken == old(taken) + multiset{buffer}
      ensures queue.In(buffer, Dequeued)
    {
      EventKeepsInv(Current(), Dequeue(buffer));
      queue := queue.Dequeue(buffer);
      if buffer !in waitSync {
        waitSync := waitSync[buffer := 0];
      }
      taken := taken + multiset{buffer};
      appHeld := appHeld + {buffer};
    }

    /** The Vulkan branch of enqueue_buffer; its last step notifies the worker. */
    method EnqueueBuffer(buffer: Buffer, syncFence: int)
      requires Inv(Current()) && buffer in appHeld
      modifies this
      ensures Current() == Apply(old(Current()), Submit(buffer, syncFence)) && Inv(Current())
      ensures waitSync == old(waitSync)[buffer := syncFence] && waiting == old(waiting) + [buffer]
      ensures submitted == old(submitted) + [buffer] && fences == old(fences) + [syncFence]
      ensures notified == old(notified) + 1
    {
      ghost var next := Apply(Current(), Submit(buffer, syncFence));
      SubmittingKeepsInv(Current(), buffer, syncFence);
      dropped := dropped + multiset{buffer};
      waitSync := waitSync[buffer := syncFence];
      taken := taken + multiset{buffer};
      waiting := waiting + [buffer];
      submitted, fences, appHeld := submitted + [buffer], fences + [syncFence], appHeld - {buffer};
      notified := notified + 1;
      assert Current() == next;
    }

    /** draw_wait_buffer_get; the worker asks only while it holds no buffer. */
    method DrawWaitBufferGet() returns (buffer: Option<Buffer>)
      requires Inv(Current()) && workerHeld == None
      modifies this
      ensures buffer == workerHeld && Inv(Current())
      ensures buffer == if old(waiting) == [] then None else Some(old(waiting)[0])
      ensures old(waiting) == AsSeq(buffer) + waiting && waitSync == old(waitSync)
      ensures Current() == if old(waiting) == [] then old(Current()) else Apply(old(Current()), Take)
    {
      if waiting == [] {
        return None;
      }
      EventKeepsInv(Current(), Take);
      buffer := Some(waiting[0]);
      waiting := waiting[1..];
      workerHeld := buffer;
    }

    /** draw_wait_fd_get: the fence that came with the submission the worker holds. */
    method DrawWaitFdGet(buffer: Buffer) returns (fd: int)
      requires Inv(Current()) && workerHeld == Some(buffer)
      ensures |arrived| < |fences| && fd == fences[|arrived|]
    {
      InFlight(Current(), |arrived|);
      fd := waitSync[buffer];
    }

    /** draw_done. */
    method FinishDraw(buffer: Buffer) returns (answer: Answer)
      requires Inv(Current()) && workerHeld == Some(buffer)
      modifies this
      ensures Current() == Apply(old(Current()), DrawDone) && Inv(Current())
      ensures answer == NoError && arrived == old(arrived) + [buffer]
      ensures queue.dirty == old(queue).dirty + [buffer] && waitSync == old(waitSync)[buffer := -1]
      ensures dropped == old(dropped) + multiset{buffer}
    {
      DrawingKeepsInv(Current());
      waitSync := waitSync[buffer := -1];
      dropped := dropped + multiset{buffer};
      answer := queue.EnqueueAnswer(buffer);
      queue := queue.Enqueue(buffer);
      arrived, workerHeld := arrived + [buffer], None;
    }
  }
}
