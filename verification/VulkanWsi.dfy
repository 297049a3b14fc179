/** The Wayland Vulkan backend in MAILBOX mode. The application dequeues and enqueues
    swapchain buffers, the worker acquires, commits and gives them straight back to the
    queue, the compositor sends releases, and a dequeuer waits for a free buffer on a
    condition variable that the worker signals after unlocking the mutex. The surface
    lock is held throughout a dequeue, the wait included, and throughout an enqueue; the
    worker never takes it. */
module VulkanWsi {
  import opened Collections
  import opened TbmSurfaceQueue

  /** The fences of the buffers, and the notifications of the worker. */
  datatype Sync = Sync(
    waitSync: map<Buffer, int>,       // wait_sync of the buffers with user data, -1 for none
    lastFence: map<Buffer, int>,      // history: the fence of each buffer's last enqueue
    enqueues: nat,                    // history: number of enqueues
    notified: nat)                    // history: notifications of the worker

  /** Histories of each buffer. */
  datatype Refs = Refs(
    taken: multiset<Buffer>,          // tbm_surface_internal_ref
    dropped: multiset<Buffer>,        // tbm_surface_internal_unref
    commits: multiset<Buffer>,        // wl_surface_commit
    releases: multiset<Buffer>)       // wl_buffer release events

  datatype State = State(
    queue: Queue,
    appHeld: set<Buffer>,             // dequeued by the application and not yet enqueued
    committing: seq<Buffer>,          // committed by the worker, not yet back in the queue
    timestamps: map<Buffer, nat>,     // sync_timestamp of each buffer with user data
    sync: Sync,
    refs: Refs,
    blocked: nat,                     // dequeuers waiting on free_queue_cond
    woken: nat,                       // dequeuers woken and about to check again
    owed: nat)                        // buffers given back whose signal is still to come

  datatype Event =
    | Enter            // a dequeuer finds the queue empty and waits
    | Take             // a dequeuer finds a free buffer on arrival
    | Recheck          // a woken dequeuer finds the queue empty again
    | RecheckTake      // a woken dequeuer finds a free buffer
    | WakeUp           // a spurious wake-up
    | TimeOut          // a waiting dequeuer gives up
    | Enqueue(buffer: Buffer, fence: int)
    | Acquire          // the worker takes the oldest enqueued buffer
    | Commit(buffer: Buffer)
    | GiveBack         // the worker releases the committed buffer to the queue
    | SignalCond
    | Release(buffer: Buffer)

  // ---------------------------------------------------------------------------
  // Effects
  // ---------------------------------------------------------------------------

  /** What dequeue_buffer does once the queue has a free buffer. */
  function TakeFree(s: State): State
    requires s.queue.free != []
  {
    var b := s.queue.free[0];
    s.(queue := s.queue.Dequeue(b),
       appHeld := s.appHeld + {b},
       refs := s.refs.(taken := s.refs.taken + multiset{b}),
       timestamps := if b in s.timestamps then s.timestamps else s.timestamps[b := 0],
       sync := if b in s.timestamps then s.sync else s.sync.(waitSync := s.sync.waitSync[b := 0]))
  }

  function EnqueueBuffer(s: State, b: Buffer, fence: int): State {
    s.(queue := s.queue.Enqueue(b), appHeld := s.appHeld - {b},
       refs := s.refs.(dropped := s.refs.dropped + multiset{b}),
       sync := Sync(s.sync.waitSync[b := fence], s.sync.lastFence[b := fence],
                    s.sync.enqueues + 1, s.sync.notified + 1))
  }

  /** process_draw_done closes the buffer's fence before it commits. */
  function CloseFence(s: State, b: Buffer): State {
    s.(sync := s.sync.(waitSync := s.sync.waitSync[b := -1]))
  }

  /** The first part of commit_buffer, up to the time stamp. */
  function CommitBuffer(s: State, b: Buffer): State
    requires b in s.timestamps
  {
    s.(refs := s.refs.(taken := s.refs.taken + multiset{b}, commits := s.refs.commits + multiset{b}),
       timestamps := s.timestamps[b := s.timestamps[b] + 1],
       committing := [b])
  }

  function GiveBackBuffer(s: State): State
    requires s.committing != []
  {
    s.(queue := s.queue.Release(s.committing[0]), committing := [], owed := s.owed + 1)
  }

  /** pthread_cond_signal wakes one waiting thread if there is one. */
  function SignalOne(s: State): State
    requires s.owed > 0
  {
    if s.blocked > 0 then s.(owed := s.owed - 1, blocked := s.blocked - 1, woken := s.woken + 1)
    else s.(owed := s.owed - 1)
  }

  /** A dequeuer that waits, or is about to check again, holds the surface lock. */
  predicate LockHeld(s: State) {
    s.blocked + s.woken > 0
  }

  predicate Enabled(s: State, e: Event) {
    match e
    case Enter => !LockHeld(s) && s.queue.free == []
    case Take => !LockHeld(s) && s.queue.free != []
    case Recheck => s.woken > 0 && s.queue.free == []
    case RecheckTake => s.woken > 0 && s.queue.free != []
    case WakeUp | TimeOut => s.blocked > 0
    case Enqueue(b, _) => !LockHeld(s) && b in s.appHeld
    case Acquire => s.queue.dirty != []
    case Commit(b) => s.committing == [] && s.queue.In(b, Acquired) && b in s.timestamps
    case GiveBack => s.committing != []
    case SignalCond => s.owed > 0
    case Release(b) => s.refs.releases[b] < s.refs.commits[b]
  }

  function Apply(s: State, e: Event): State
    requires Enabled(s, e)
  {
    match e
    case Enter => s.(blocked := s.blocked + 1)
    case Take => TakeFree(s)
    case Recheck => s.(woken := s.woken - 1, blocked := s.blocked + 1)
    case RecheckTake => TakeFree(s.(woken := s.woken - 1))
    case WakeUp => s.(blocked := s.blocked - 1, woken := s.woken + 1)
    case TimeOut => s.(blocked := s.blocked - 1)
    case Enqueue(b, fence) => EnqueueBuffer(s, b, fence)
    case Acquire => s.(queue := s.queue.Acquire())
    case Commit(b) => CommitBuffer(CloseFence(s, b), b)
    case GiveBack => GiveBackBuffer(s)
    case SignalCond => SignalOne(s)
    case Release(b) =>
      s.(refs := s.refs.(releases := s.refs.releases + multiset{b}, dropped := s.refs.dropped + multiset{b}))
  }

  /** A new swapchain: every buffer is free. */
  ghost predicate Init(s: State) {
    && s.queue.Valid() && s.queue.dirty == []
    && (forall b | b in s.queue.states :: s.queue.states[b] == Free)
    && s == State(s.queue, {}, [], map[], Sync(map[], map[], 0, 0),
                  Refs(multiset{}, multiset{}, multiset{}, multiset{}), 0, 0, 0)
  }

  ghost predicate Runs(s: State, events: seq<Event>, s': State)
    decreases |events|
  {
    if events == [] then s' == s
    else Enabled(s, events[0]) && Runs(Apply(s, events[0]), events[1..], s')
  }

  // ---------------------------------------------------------------------------
  // The invariant
  // ---------------------------------------------------------------------------

  /** References: one while the application holds the buffer, one for each commit that has
      not been released. */
  ghost predicate RefsBalance(s: State) {
    forall b {:trigger s.refs.taken[b]} {:trigger s.refs.commits[b]} ::
      && s.refs.taken[b] + s.refs.releases[b]
           == s.refs.dropped[b] + (if b in s.appHeld then 1 else 0) + s.refs.commits[b]
      && s.refs.releases[b] <= s.refs.commits[b]
  }

  ghost predicate StampsCount(s: State) {
    && (forall b | b in s.timestamps :: s.timestamps[b] == s.refs.commits[b])
    && (forall b | b !in s.timestamps :: s.refs.commits[b] == 0)
  }

  /** Each buffer is in one place, the one the queue's state names. */
  ghost predicate Placed(s: State) {
    && s.queue.Valid()
    && (forall b :: b in s.appHeld <==> s.queue.In(b, Dequeued))
    && |s.committing| <= 1
    && (forall b | b in s.committing :: s.queue.In(b, Acquired))
    && (forall b | b in s.queue.states && s.queue.states[b] != Free :: b in s.timestamps)
  }

  /** At most one dequeuer is inside, and while it waits each free buffer has a signal
      that is still to come. */
  ghost predicate SignalsSuffice(s: State) {
    && s.blocked + s.woken <= 1
    && (s.blocked > 0 ==> |s.queue.free| <= s.owed)
  }

  /** The buffer waits to be drawn: it is in the queue, or the worker has it. */
  ghost predicate Undrawn(s: State, b: Buffer) {
    s.queue.In(b, Dirty) || (s.queue.In(b, Acquired) && b !in s.committing)
  }

  /** A buffer that waits to be drawn carries the fence of its last enqueue, one that has been
      drawn carries none; and the worker has been notified of every enqueue. */
  ghost predicate FencesCarried(s: State) {
    && s.sync.waitSync.Keys == s.timestamps.Keys && s.sync.enqueues == s.sync.notified
    && (forall b | Undrawn(s, b) ::
          b in s.sync.waitSync && b in s.sync.lastFence && s.sync.waitSync[b] == s.sync.lastFence[b])
    && (forall b | b in s.sync.waitSync && (s.queue.In(b, Free) || b in s.committing) :: s.sync.waitSync[b] == -1)
  }

  ghost predicate Inv(s: State) {
    RefsBalance(s) && StampsCount(s) && Placed(s) && SignalsSuffice(s) && FencesCarried(s)
  }

  lemma TakingBalances(s: State)
    requires RefsBalance(s) && s.queue.free != [] && s.queue.free[0] !in s.appHeld
    ensures RefsBalance(TakeFree(s))
  {
  }

  lemma TakingKeepsPlaces(s: State)
    requires Placed(s) && s.queue.free != []
    ensures Placed(TakeFree(s)) && TakeFree(s).queue.states.Keys == s.queue.states.Keys
  {
    var b := s.queue.free[0];
    assert b in s.queue.free && s.queue.In(b, Free);
    DequeueKeepsValid(s.queue, b);
  }

  lemma TakingKeepsInv(s: State)
    requires RefsBalance(s) && StampsCount(s) && Placed(s) && FencesCarried(s) && s.queue.free != []
    requires !LockHeld(s)
    ensures Inv(TakeFree(s)) && TakeFree(s).queue.states.Keys == s.queue.states.Keys
  {
    var b := s.queue.free[0];
    assert b in s.queue.free && s.queue.In(b, Free);
    assert b !in s.appHeld && b !in s.committing;
    TakingBalances(s);
    TakingKeepsPlaces(s);
  }

  lemma EnqueueingKeepsInv(s: State, b: Buffer, fence: int)
    requires Inv(s) && b in s.appHeld
    ensures Inv(EnqueueBuffer(s, b, fence)) && EnqueueBuffer(s, b, fence).queue.In(b, Dirty)
    ensures EnqueueBuffer(s, b, fence).queue.states.Keys == s.queue.states.Keys
  {
    EnqueueKeepsValid(s.queue, b);
    assert s.queue.In(b, Dequeued);
  }

  lemma CommittingKeepsInv(s: State, b: Buffer)
    requires Inv(s) && Enabled(s, Commit(b))
    ensures Inv(CommitBuffer(CloseFence(s, b), b))
  {
  }

  lemma GivingBackKeepsInv(s: State)
    requires Inv(s) && s.committing != []
    ensures Inv(GiveBackBuffer(s)) && GiveBackBuffer(s).queue.states.Keys == s.queue.states.Keys
  {
    assert s.committing[0] in s.committing;
    ReleaseKeepsValid(s.queue, s.committing[0]);
  }

  lemma AcquiringKeepsInv(s: State)
    requires Inv(s) && s.queue.dirty != []
    ensures Inv(s.(queue := s.queue.Acquire())) && s.queue.Acquire().states.Keys == s.queue.states.Keys
  {
    assert s.queue.dirty[0] in s.queue.dirty && s.queue.In(s.queue.dirty[0], Dirty);
    AcquireKeepsValid(s.queue);
  }

  lemma ReleasingKeepsInv(s: State, b: Buffer)
    requires Inv(s) && Enabled(s, Release(b))
    ensures Inv(Apply(s, Release(b)))
  {
  }

  /** Every event keeps the invariant and the set of swapchain buffers. */
  lemma EventKeepsInv(s: State, e: Event)
    requires Inv(s) && Enabled(s, e)
    ensures Inv(Apply(s, e)) && Apply(s, e).queue.states.Keys == s.queue.states.Keys
  {
    match e
    case Take => TakingKeepsInv(s);
    case RecheckTake => TakingKeepsInv(s.(woken := s.woken - 1));
    case Enqueue(b, fence) => EnqueueingKeepsInv(s, b, fence);
    case Acquire => AcquiringKeepsInv(s);
    case Commit(b) => CommittingKeepsInv(s, b);
    case GiveBack => GivingBackKeepsInv(s);
    case Release(b) => ReleasingKeepsInv(s, b);
    case Enter | Recheck | WakeUp | TimeOut | SignalCond =>
  }

  lemma {:induction false} RunKeepsInv(s: State, events: seq<Event>, s': State)
    requires Inv(s) && Runs(s, events, s')
    ensures Inv(s') && s'.queue.states.Keys == s.queue.states.Keys
    decreases |events|
  {
    if events != [] {
      EventKeepsInv(s, events[0]);
      RunKeepsInv(Apply(s, events[0]), events[1..], s');
    }
  }

  // ---------------------------------------------------------------------------
  // What it means
  // ---------------------------------------------------------------------------

  /** References on a buffer are one if the application holds it, plus its commits less
      its releases; and its time stamp counts its commits. */
  lemma ReferencesAndStamps(s: State, events: seq<Event>, s': State, b: Buffer)
    requires Init(s) && Runs(s, events, s')
    ensures s'.refs.taken[b] + s'.refs.releases[b]
         == s'.refs.dropped[b] + (if b in s'.appHeld then 1 else 0) + s'.refs.commits[b]
    ensures s'.refs.releases[b] <= s'.refs.commits[b]
    ensures s'.refs.commits[b] == if b in s'.timestamps then s'.timestamps[b] else 0
  {
    RunKeepsInv(s, events, s');
    assert s'.refs.taken[b] >= 0;
  }

  /** Every swapchain buffer is in exactly one of four places: the free list, the
      application, the dirty list, the worker. */
  lemma BuffersStayPlaced(s: State, events: seq<Event>, s': State, b: Buffer)
    requires Init(s) && Runs(s, events, s') && b in s.queue.states
    ensures b in s'.queue.states
    ensures s'.queue.states[b] == Free <==> b in s'.queue.free
    ensures s'.queue.states[b] == Dequeued <==> b in s'.appHeld
    ensures s'.queue.states[b] == Dirty <==> b in s'.queue.dirty
    ensures b in s'.committing ==> s'.queue.states[b] == Acquired
  {
    RunKeepsInv(s, events, s');
    assert s'.queue.In(b, Free) <==> b in s'.queue.free;
    assert s'.queue.In(b, Dirty) <==> b in s'.queue.dirty;
    assert s'.queue.In(b, Dequeued) <==> b in s'.appHeld;
  }

  /** A dequeuer never waits in vain: while it is blocked, no buffer is free or a signal
      is owed, in fact one for each free buffer. */
  lemma BlockedMeansSignalsDue(s: State, events: seq<Event>, s': State)
    requires Init(s) && Runs(s, events, s')
    ensures s'.blocked > 0 ==> s'.queue.free == [] || s'.owed > 0
    ensures s'.blocked > 0 ==> |s'.queue.free| <= s'.owed
    ensures s'.blocked + s'.woken <= 1
  {
    RunKeepsInv(s, events, s');
  }

  // ---------------------------------------------------------------------------
  // When a waiting dequeuer can be served
  // ---------------------------------------------------------------------------

  /** The run ends with the dequeuer gone, and not by a time-out. */
  ghost predicate Serves(s: State, events: seq<Event>, s': State) {
    Runs(s, events, s') && TimeOut !in events && !LockHeld(s')
  }

  /** The application holds every swapchain buffer and waits for one more. */
  ghost predicate Starved(s: State) {
    LockHeld(s) && s.appHeld == s.queue.states.Keys
  }

  lemma FirstsArePlaced(s: State)
    requires Placed(s)
    ensures s.queue.free != [] ==> s.queue.In(s.queue.free[0], Free)
    ensures s.queue.dirty != [] ==> s.queue.In(s.queue.dirty[0], Dirty)
    ensures s.committing != [] ==> s.queue.In(s.committing[0], Acquired)
  {
    assert s.queue.free != [] ==> s.queue.free[0] in s.queue.free;
    assert s.queue.dirty != [] ==> s.queue.dirty[0] in s.queue.dirty;
    assert s.committing != [] ==> s.committing[0] in s.committing;
  }

  /** Nothing but a time-out ends that: the lock keeps the application from giving a buffer
      back, and the worker has none. */
  lemma StarvedStays(s: State, e: Event)
    requires Inv(s) && Starved(s) && Enabled(s, e) && e != TimeOut
    ensures Starved(Apply(s, e))
  {
    FirstsArePlaced(s);
    assert forall b | b in s.queue.states :: s.queue.In(b, Dequeued);
  }

  lemma {:induction false} StarvedIsNotServed(s: State, events: seq<Event>, s': State)
    requires Inv(s) && Starved(s) && Runs(s, events, s') && TimeOut !in events
    ensures LockHeld(s')
    decreases |events|
  {
    if events != [] {
      StarvedStays(s, events[0]);
      EventKeepsInv(s, events[0]);
      StarvedIsNotServed(Apply(s, events[0]), events[1..], s');
    }
  }

  lemma ServesAfter(s: State, e: Event, rest: seq<Event>, s': State)
    requires Enabled(s, e) && e != TimeOut && Serves(Apply(s, e), rest, s')
    ensures Serves(s, [e] + rest, s')
  {
    assert ([e] + rest)[1..] == rest;
  }

  lemma ServedByFree(s: State) returns (events: seq<Event>, s': State)
    requires Inv(s) && LockHeld(s) && s.queue.free != []
    ensures Serves(s, events, s')
  {
    var woken := if s.woken > 0 then s else Apply(s, SignalCond);
    s' := Apply(woken, RecheckTake);
    ServesAfter(woken, RecheckTake, [], s');
    events := [RecheckTake] + [];
    if s.woken == 0 {
      ServesAfter(s, SignalCond, events, s');
      events := [SignalCond] + events;
    }
  }

  lemma ServedByCommitting(s: State) returns (events: seq<Event>, s': State)
    requires Inv(s) && LockHeld(s) && s.committing != []
    ensures Serves(s, events, s')
  {
    assert s.committing[0] in s.committing;
    EventKeepsInv(s, GiveBack);
    events, s' := ServedByFree(Apply(s, GiveBack));
    ServesAfter(s, GiveBack, events, s');
    events := [GiveBack] + events;
  }

  lemma ServedByAcquired(s: State, b: Buffer) returns (events: seq<Event>, s': State)
    requires Inv(s) && LockHeld(s) && s.queue.In(b, Acquired)
    ensures Serves(s, events, s')
  {
    if s.committing != [] {
      events, s' := ServedByCommitting(s);
    } else {
      EventKeepsInv(s, Commit(b));
      events, s' := ServedByCommitting(Apply(s, Commit(b)));
      ServesAfter(s, Commit(b), events, s');
      events := [Commit(b)] + events;
    }
  }

  lemma ServedByDirty(s: State) returns (events: seq<Event>, s': State)
    requires Inv(s) && LockHeld(s) && s.queue.dirty != []
    ensures Serves(s, events, s')
  {
    EventKeepsInv(s, Acquire);
    events, s' := ServedByAcquired(Apply(s, Acquire), s.queue.dirty[0]);
    ServesAfter(s, Acquire, events, s');
    events := [Acquire] + events;
  }

  /** A waiting dequeuer can still be served, other than by a time-out, exactly while some
      swapchain buffer is not with the application. */
  lemma WaitingIsServedIff(s: State)
    requires Inv(s) && LockHeld(s)
    ensures (exists events, s' :: Serves(s, events, s')) <==> s.appHeld != s.queue.states.Keys
  {
    if s.appHeld == s.queue.states.Keys {
      forall events, s' | Runs(s, events, s') && TimeOut !in events ensures LockHeld(s') {
        StarvedIsNotServed(s, events, s');
      }
    } else {
      assert forall b | b in s.appHeld :: s.queue.In(b, Dequeued);
      var b :| b in s.queue.states && b !in s.appHeld;
      assert !s.queue.In(b, Dequeued);
      var events, s';
      match s.queue.states[b] {
        case Free => assert b in s.queue.free; events, s' := ServedByFree(s);
        case Dirty => assert b in s.queue.dirty; events, s' := ServedByDirty(s);
        case Acquired => events, s' := ServedByAcquired(s, b);
      }
    }
  }

  /** The worker, asking a buffer that waits to be drawn for its fence, gets the one of its last
      enqueue; a drawn buffer has none; and the worker is notified of every enqueue. */
  lemma FencesArrive(s: State, events: seq<Event>, s': State, b: Buffer)
    requires Init(s) && Runs(s, events, s')
    ensures Undrawn(s', b) ==>
              b in s'.sync.waitSync && b in s'.sync.lastFence && s'.sync.waitSync[b] == s'.sync.lastFence[b]
    ensures b in s'.sync.waitSync && b in s'.queue.free ==> s'.sync.waitSync[b] == -1
    ensures s'.sync.enqueues == s'.sync.notified
  {
    RunKeepsInv(s, events, s');
    assert b in s'.queue.free <==> s'.queue.In(b, Free);
  }

  /** A whole commit_buffer hands the buffer back: it is free again, at the end of the
      free list, with one more commit on its time stamp. */
  lemma CommitGivesBack(s: State, b: Buffer)
    requires Inv(s) && Enabled(s, Commit(b))
    ensures var s' := SignalOne(GiveBackBuffer(CommitBuffer(CloseFence(s, b), b)));
      && Inv(s') && s'.queue.free == s.queue.free + [b] && s'.timestamps[b] == s.refs.commits[b] + 1
      && s'.blocked == if s.blocked > 0 then s.blocked - 1 else 0
  {
    CommittingKeepsInv(s, b);
    GivingBackKeepsInv(CommitBuffer(CloseFence(s, b), b));
    EventKeepsInv(GiveBackBuffer(CommitBuffer(CloseFence(s, b), b)), SignalCond);
  }

  // ---------------------------------------------------------------------------
  // The code
  // ---------------------------------------------------------------------------

  class VulkanSurface {
    var queue: Queue
    var timestamps: map<Buffer, nat>
    var waitSync: map<Buffer, int>
    var blocked: nat
    var woken: nat
    var owed: nat
    ghost var appHeld: set<Buffer>
    ghost var committing: seq<Buffer>
    ghost var lastFence: map<Buffer, int>
    ghost var enqueues: nat
    ghost var notified: nat
    ghost var refs: Refs

    ghost function Current(): State
      reads this
    {
      State(queue, appHeld, committing, timestamps, Sync(waitSync, lastFence, enqueues, notified),
            refs, blocked, woken, owed)
    }

    constructor (swapchain: seq<Buffer>)
      requires Distinct(swapchain)
      ensures Init(Current()) && queue.free == swapchain
    {
      queue := Queue(0, 0, 0, map b | b in swapchain :: Free, swapchain, []);
      timestamps, waitSync, lastFence := map[], map[], map[];
      blocked, woken, owed, enqueues, notified := 0, 0, 0, 0, 0;
      appHeld, committing := {}, [];
      refs := Refs(multiset{}, multiset{}, multiset{}, multiset{});
    }

    /** The part of dequeue_buffer after its wait loop. The fence it returns stands for the
        buffer's commits so far, and there is none (-1) before the first commit. */
    method DequeueFree() returns (buffer: Buffer, fence: int)
      requires StampsCount(Current()) && queue.free != []
      modifies this
      ensures Current() == TakeFree(old(Current())) && buffer == old(queue.free)[0]
      ensures fence == if refs.commits[buffer] == 0 then -1 else refs.commits[buffer]
      ensures appHeld == old(appHeld) + {buffer} && refs.taken == old(refs).taken + multiset{buffer}
    {
      ghost var next := TakeFree(Current());
      buffer := queue.free[0];
      fence := -1;
      queue := queue.Dequeue(buffer);
      refs := refs.(taken := refs.taken + multiset{buffer});
      appHeld := appHeld + {buffer};
      if buffer in timestamps {
        if timestamps[buffer] != 0 {
          fence := timestamps[buffer];
        }
      } else {
        timestamps, waitSync := timestamps[buffer := 0], waitSync[buffer := 0];
      }
      assert Current() == next;
    }

    /** The calls of enqueue_buffer, for a buffer the queue has handed out. */
    method EnqueueAndNotify(buffer: Buffer, syncFence: int) returns (answer: Answer)
      requires queue.In(buffer, Dequeued)
      modifies this
      ensures Current() == EnqueueBuffer(old(Current()), buffer, syncFence)
      ensures answer == NoError && queue.dirty == old(queue).dirty + [buffer]
      ensures waitSync == old(waitSync)[buffer := syncFence] && notified == old(notified) + 1
      ensures refs.dropped == old(refs).dropped + multiset{buffer}
    {
      refs := refs.(dropped := refs.dropped + multiset{buffer});
      waitSync, lastFence := waitSync[buffer := syncFence], lastFence[buffer := syncFence];
      answer := queue.EnqueueAnswer(buffer);
      queue := queue.Enqueue(buffer);
      appHeld, enqueues, notified := appHeld - {buffer}, enqueues + 1, notified + 1;
    }

    /** enqueue_buffer; its last step notifies the worker. */
    method EnqueueSurfaceBuffer(buffer: Buffer, syncFence: int) returns (answer: Answer)
      requires Inv(Current()) && buffer in appHeld
      modifies this
      ensures Current() == EnqueueBuffer(old(Current()), buffer, syncFence) && Inv(Current())
      ensures answer == NoError && queue.dirty == old(queue).dirty + [buffer]
      ensures waitSync == old(waitSync)[buffer := syncFence] && notified == old(notified) + 1
      ensures refs.dropped == old(refs).dropped + multiset{buffer}
    {
      EnqueueingKeepsInv(Current(), buffer, syncFence);
      answer := EnqueueAndNotify(buffer, syncFence);
    }

    /** draw_wait_fd_get, for a buffer the worker has acquired and not drawn. */
    method DrawWaitFdGet(buffer: Buffer) returns (fd: int)
      requires Inv(Current()) && queue.In(buffer, Acquired) && buffer !in committing
      ensures buffer in lastFence && fd == lastFence[buffer]
    {
      assert Undrawn(Current(), buffer);
      fd := waitSync[buffer];
    }

    /** process_draw_done in MAILBOX mode. */
    method ProcessDrawDone(buffer: Buffer)
      requires Inv(Current()) && Enabled(Current(), Commit(buffer))
      modifies this
      ensures Current() == SignalOne(GiveBackBuffer(Apply(old(Current()), Commit(buffer)))) && Inv(Current())
      ensures waitSync == old(waitSync)[buffer := -1] && refs.commits == old(refs).commits + multiset{buffer}
      ensures queue.free == old(queue).free + [buffer] && timestamps[buffer] == old(timestamps)[buffer] + 1
    {
      CommitGivesBack(Current(), buffer);
      waitSync := waitSync[buffer := -1];
      CommitSurfaceBuffer(buffer);
    }

    /** commit_buffer up to the time stamp. */
    method CommitAndStamp(buffer: Buffer)
      requires buffer in timestamps
      modifies this
      ensures Current() == CommitBuffer(old(Current()), buffer)
    {
      refs := refs.(taken := refs.taken + multiset{buffer});
      refs := refs.(commits := refs.commits + multiset{buffer});
      timestamps := timestamps[buffer := timestamps[buffer] + 1];
      committing := [buffer];
    }

    /** The critical section of commit_buffer. */
    method GiveBackToQueue(buffer: Buffer)
      requires committing == [buffer]
      modifies this
      ensures Current() == GiveBackBuffer(old(Current()))
    {
      queue := queue.Release(buffer);
      committing := [];
      owed := owed + 1;
    }

    method Signal()
      requires owed > 0
      modifies this
      ensures Current() == SignalOne(old(Current()))
    {
      owed := owed - 1;
      if blocked > 0 {
        blocked, woken := blocked - 1, woken + 1;
      }
    }

    /** commit_buffer as the worker runs it for an acquired buffer. */
    method CommitSurfaceBuffer(buffer: Buffer)
      requires buffer in timestamps
      modifies this
      ensures Current() == SignalOne(GiveBackBuffer(CommitBuffer(old(Current()), buffer)))
      ensures refs.commits == old(refs).commits + multiset{buffer} && refs.taken == old(refs).taken + multiset{buffer}
      ensures timestamps == old(timestamps)[buffer := old(timestamps)[buffer] + 1]
      ensures queue == old(queue).Release(buffer)
    {
      CommitAndStamp(buffer);
      GiveBackToQueue(buffer);
      Signal();
    }

    method ReleaseCallback(buffer: Buffer)
      requires Inv(Current()) && Enabled(Current(), Release(buffer))
      modifies this
      ensures Current() == Apply(old(Current()), Release(buffer)) && Inv(Current())
    {
      EventKeepsInv(Current(), Release(buffer));
      refs := refs.(releases := refs.releases + multiset{buffer});
      if buffer in timestamps {
        refs := refs.(dropped := refs.dropped + multiset{buffer});
      }
    }
  }
}
