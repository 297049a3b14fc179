/** The Wayland EGL backend: the life of buffers between the application, the surface
    queue and the compositor. The application dequeues and enqueues, the compositor
    releases, the queue can be reset or flushed and the window resized at any time.

    Events below are atomic; enqueue_buffer is four of them, so that resets, releases
    and vblank callbacks can land between its uses of the queue and of the two lists. */
module WaylandEgl {
  import opened Collections
  import opened TbmSurfaceQueue
  import L = TplList
  import W = WlEglWindow

  datatype LogEntry = Commit(buffer: Buffer) | VblankDone

  /** How far the one producer is inside enqueue_buffer(arg). */
  datatype Progress =
    | Idle
    | Untracked(arg: Buffer)                    // off the dequeued list, not yet in the queue
    | Queued(arg: Buffer)                       // enqueued, not yet acquired
    | Holding(arg: Buffer, acquired: Buffer)    // acquired, not yet committed

  datatype State = State(
    window: W.Window,
    queue: Queue,
    resized: bool,
    reset: bool,
    vblankDone: bool,
    dequeued: seq<Buffer>,             // dequeued_buffers
    attached: seq<Buffer>,             // attached_buffers
    bufferReset: map<Buffer, bool>,    // the reset flag of each buffer with user data
    progress: Progress,
    taken: multiset<Buffer>,           // history of tbm_surface_internal_ref
    dropped: multiset<Buffer>,         // history of tbm_surface_internal_unref
    strayReleases: nat,                // queue releases of buffers the queue has not as acquired
    log: seq<LogEntry>,                // wl_surface_commit and vblank callbacks
    accepted: seq<Buffer>)             // arguments of the enqueues that returned NONE

  datatype Event =
    | Dequeue(buffer: Buffer)
    | EnqueueStart(buffer: Buffer)
    | EnqueueQueue
    | EnqueueAcquire
    | EnqueueCommit
    | Release(buffer: Buffer)
    | QueueReset
    | Flush(notifies: bool)
    | Vblank
    | WindowResize(width: int, height: int, dx: int, dy: int)
    | WindowRotate(rotation: W.Rotation)

  // ---------------------------------------------------------------------------
  // Effects
  // ---------------------------------------------------------------------------

  /** Every buffer of the list that has user data is marked as older than the reset. */
  function SetResetFlags(flags: map<Buffer, bool>, list: seq<Buffer>): map<Buffer, bool> {
    map b | b in flags :: b in list || flags[b]
  }

  /** The reset callback of the queue. */
  function OnReset(s: State): State {
    s.(reset := true, bufferReset := SetResetFlags(SetResetFlags(s.bufferReset, s.attached), s.dequeued))
  }

  function ResetQueue(s: State, width: int, height: int): State {
    OnReset(s.(queue := s.queue.Reset(width, height)))
  }

  /** The first part of dequeue_buffer: a pending resize resets the queue. */
  function ApplyResize(s: State): State {
    if s.resized then ResetQueue(s, s.window.width, s.window.height).(resized := false, reset := false) else s
  }

  function TakeBuffer(s: State, b: Buffer): State
    requires s.queue.CanDequeue(b)
  {
    s.(queue := s.queue.Dequeue(b),
       taken := s.taken + multiset{b},
       bufferReset := s.bufferReset[b := false],
       reset := false,
       dequeued := s.dequeued + [b])
  }

  /** __tpl_wayland_egl_surface_commit on behalf of enqueue_buffer(arg). */
  function CommitBuffer(s: State, b: Buffer, arg: Buffer): State {
    s.(window := s.window.(attachedWidth := s.window.width, attachedHeight := s.window.height),
       attached := s.attached + [b],
       vblankDone := false,
       log := s.log + [Commit(b)],
       accepted := s.accepted + [arg],
       progress := Idle)
  }

  function QueueBuffer(s: State, b: Buffer): State {
    if b !in s.bufferReset then s.(progress := Idle)
    else if s.bufferReset[b] then CommitBuffer(s, b, b)
    else match s.queue.EnqueueAnswer(b)
      case NoError => s.(queue := s.queue.Enqueue(b), dropped := s.dropped + multiset{b}, progress := Queued(b))
      case UnknownSurface => CommitBuffer(s, b, b)
      case OtherError => s.(progress := Idle)
  }

  function AcquireBuffer(s: State, arg: Buffer): State {
    if s.queue.dirty == [] then s.(progress := Idle)
    else
      var b := s.queue.dirty[0];
      s.(queue := s.queue.Acquire(), taken := s.taken + multiset{b}, progress := Holding(arg, b))
  }

  /** The wl_buffer release callback. */
  function ReleaseBuffer(s: State, b: Buffer): State {
    var unreferenced := s.(dropped := s.dropped + multiset{b});
    if b !in s.bufferReset then unreferenced
    else
      var off := unreferenced.(attached := L.RemoveFirst(s.attached, b));
      if s.bufferReset[b] then off
      else off.(queue := s.queue.Release(b),
                strayReleases := s.strayReleases + if s.queue.In(b, Acquired) then 0 else 1)
  }

  /** The flush callback. Whether a queue flush also calls the reset callback is libtbm's
      choice, hence the parameter. */
  function FlushQueue(s: State, notifies: bool): State {
    var emptied := s.(queue := s.queue.Reset(s.queue.width, s.queue.height));
    if notifies then OnReset(emptied) else emptied
  }

  function DropAttached(s: State): State {
    s.(dropped := s.dropped + multiset(s.attached), attached := [])
  }

  function FlushBuffers(s: State, notifies: bool): State {
    DropAttached(FlushQueue(s, notifies))
  }

  function StopTracking(s: State, b: Buffer): State {
    s.(dequeued := L.RemoveFirst(s.dequeued, b), progress := Untracked(b))
  }

  function NoteVblank(s: State): State {
    s.(vblankDone := true, log := s.log + [VblankDone])
  }

  /** The resize callback of the window, called with the new size in place. */
  function OnWindowChange(s: State, change: (W.Window, bool)): State {
    var s' := s.(window := change.0);
    if change.1 && (change.0.width != s.queue.width || change.0.height != s.queue.height)
    then s'.(resized := true) else s'
  }

  predicate Validate(s: State) {
    !(s.resized || s.reset)
  }

  // ---------------------------------------------------------------------------
  // Events and runs
  // ---------------------------------------------------------------------------

  /** What the environment keeps to: only dequeued buffers are enqueued, after waiting
      for the vblank; releases come for attached buffers; a buffer attached to the queue
      anew is a new buffer. */
  predicate Enabled(s: State, e: Event) {
    match e
    case Dequeue(b) =>
      var q := ApplyResize(s).queue;
      q.CanDequeue(b) && (q.free == [] ==> b !in s.bufferReset)
    case EnqueueStart(b) => s.progress.Idle? && s.vblankDone && b in s.dequeued
    case EnqueueQueue => s.progress.Untracked?
    case EnqueueAcquire => s.progress.Queued?
    case EnqueueCommit => s.progress.Holding?
    case Release(b) => b in s.attached
    case _ => true
  }

  function Apply(s: State, e: Event): State
    requires Enabled(s, e)
  {
    match e
    case Dequeue(b) => TakeBuffer(ApplyResize(s), b)
    case EnqueueStart(b) => StopTracking(s, b)
    case EnqueueQueue => QueueBuffer(s, s.progress.arg)
    case EnqueueAcquire => AcquireBuffer(s, s.progress.arg)
    case EnqueueCommit => CommitBuffer(s, s.progress.acquired, s.progress.arg)
    case Release(b) => ReleaseBuffer(s, b)
    case QueueReset => ResetQueue(s, s.queue.width, s.queue.height)
    case Flush(notifies) => FlushBuffers(s, notifies)
    case Vblank => NoteVblank(s)
    case WindowResize(w, h, dx, dy) => OnWindowChange(s, W.Resize(s.window, w, h, dx, dy))
    case WindowRotate(r) => OnWindowChange(s, W.SetRotation(s.window, r))
  }

  /** The surface as its init function leaves it: the queue has the window's size. */
  predicate Init(s: State) {
    && s.window.callbacks
    && s == State(s.window, Queue(s.window.width, s.window.height, 0, map[], [], []),
                  false, false, true, [], [], map[], Idle, multiset{}, multiset{}, 0, [], [])
  }

  /** s' is what the events, in this order, make of s. */
  ghost predicate Runs(s: State, events: seq<Event>, s': State)
    decreases |events|
  {
    if events == [] then s' == s
    else Enabled(s, events[0]) && Runs(Apply(s, events[0]), events[1..], s')
  }

  // ---------------------------------------------------------------------------
  // Reference conservation
  // ---------------------------------------------------------------------------

  /** The references enqueue_buffer has on its hands while it is in progress. */
  function InHand(p: Progress): seq<Buffer> {
    match p
    case Idle => []
    case Untracked(arg) => [arg]
    case Queued(_) => []
    case Holding(_, b) => [b]
  }

  /** TPL's references are one for each place on a tracking list, and one for the buffer
      an enqueue in progress has in hand. */
  ghost predicate RefsBalance(s: State) {
    s.taken == s.dropped + multiset(s.dequeued) + multiset(s.attached) + multiset(InHand(s.progress))
  }

  // ---------------------------------------------------------------------------
  // The lists against the queue
  // ---------------------------------------------------------------------------

  /** The buffer an enqueue in progress is busy with. */
  function Busy(p: Progress): seq<Buffer> {
    match p
    case Idle => []
    case Untracked(arg) => [arg]
    case Queued(arg) => [arg]
    case Holding(_, b) => [b]
  }

  function StateWhile(p: Progress): BufferState {
    match p
    case Idle | Untracked(_) => Dequeued
    case Queued(_) => Dirty
    case Holding(_, _) => Acquired
  }

  /** The two lists and the busy buffer are disjoint and duplicate-free. */
  ghost predicate ListsDistinct(s: State) {
    && Distinct(s.dequeued) && Distinct(s.attached)
    && (forall b :: !(b in s.dequeued && b in s.attached))
    && (forall b | b in Busy(s.progress) :: b !in s.dequeued && b !in s.attached)
  }

  /** A buffer the queue tracks is where its state says: free, or dequeued and on the
      dequeued list, or acquired and on the attached list, or busy; and it carries no
      reset flag. */
  ghost predicate QueueAgrees(s: State) {
    && s.queue.Valid()
    && (forall b | b in s.queue.states ::
          && b in s.bufferReset && !s.bufferReset[b]
          && (b in s.dequeued ==> s.queue.states[b] == Dequeued)
          && (b in s.attached ==> s.queue.states[b] == Acquired)
          && (b in Busy(s.progress) ==> s.queue.states[b] == StateWhile(s.progress))
          && (s.queue.states[b] != Free ==> b in s.dequeued || b in s.attached || b in Busy(s.progress)))
    && (forall b | b in s.dequeued || b in s.attached || b in Busy(s.progress) :: b in s.bufferReset)
    && (s.progress.Holding? ==> s.progress.arg == s.progress.acquired)
  }

  /** A listed buffer without a reset flag is still tracked by the queue. */
  ghost predicate Fresh(s: State, b: Buffer) {
    b in s.bufferReset && !s.bufferReset[b] ==> b in s.queue.states
  }

  ghost predicate UnflaggedTracked(s: State) {
    forall b | b in s.dequeued || b in s.attached || b in InHand(s.progress) :: Fresh(s, b)
  }

  // ---------------------------------------------------------------------------
  // Commits and vblanks
  // ---------------------------------------------------------------------------

  function CommitsOf(log: seq<LogEntry>): seq<Buffer> {
    if log == [] then []
    else CommitsOf(log[..|log| - 1]) + match log[|log| - 1] { case Commit(b) => [b] case VblankDone => [] }
  }

  /** Between any two commits there is a vblank callback. */
  ghost predicate Throttled(log: seq<LogEntry>) {
    forall i, j | 0 <= i < j < |log| && log[i].Commit? && log[j].Commit? ::
      exists k :: i < k < j && log[k] == VblankDone
  }

  /** Every commit so far has been followed by a vblank callback. */
  ghost predicate Settled(log: seq<LogEntry>) {
    forall i | 0 <= i < |log| && log[i].Commit? :: exists k :: i < k < |log| && log[k] == VblankDone
  }

  ghost predicate Presented(s: State) {
    && CommitsOf(s.log) == s.accepted
    && Throttled(s.log)
    && (s.vblankDone ==> Settled(s.log))
    && (!s.progress.Idle? ==> s.vblankDone)
  }

  /** Without a pending resize the queue has the window's size. */
  ghost predicate SizesAgree(s: State) {
    && s.window.callbacks
    && (!s.resized ==> s.window.width == s.queue.width && s.window.height == s.queue.height)
  }

  ghost predicate Inv(s: State) {
    RefsBalance(s) && ListsDistinct(s) && QueueAgrees(s) && Presented(s) && SizesAgree(s)
  }

  // ---------------------------------------------------------------------------
  // Every event keeps the invariant
  // ---------------------------------------------------------------------------

  lemma CommitBalances(s: State, b: Buffer, arg: Buffer)
    requires s.taken == s.dropped + multiset(s.dequeued) + multiset(s.attached) + multiset{b}
    ensures RefsBalance(CommitBuffer(s, b, arg))
  {
  }

  lemma QueueingBalances(s: State, b: Buffer)
    requires RefsBalance(s) && s.progress == Untracked(b)
    requires b in s.bufferReset && s.queue.EnqueueAnswer(b) != OtherError
    ensures RefsBalance(QueueBuffer(s, b))
  {
    if s.bufferReset[b] || s.queue.EnqueueAnswer(b) == UnknownSurface {
      CommitBalances(s, b, b);
    } else {
      assert QueueBuffer(s, b).dropped == s.dropped + multiset{b};
    }
  }

  lemma AcquiringBalances(s: State, arg: Buffer)
    requires RefsBalance(s) && s.progress == Queued(arg)
    ensures RefsBalance(AcquireBuffer(s, arg))
  {
    if s.queue.dirty != [] {
      assert AcquireBuffer(s, arg).taken == s.taken + multiset{s.queue.dirty[0]};
    }
  }

  lemma RemovedBalance(list: seq<Buffer>, b: Buffer)
    requires b in list
    ensures multiset(list) == multiset(L.RemoveFirst(list, b)) + multiset{b}
  {
    L.RemoveFirstCounts(list, b);
  }

  lemma ReleasingBalances(s: State, b: Buffer)
    requires RefsBalance(s) && b in s.attached && b in s.bufferReset
    ensures RefsBalance(ReleaseBuffer(s, b))
  {
    RemovedBalance(s.attached, b);
    var s' := ReleaseBuffer(s, b);
    assert s'.dropped == s.dropped + multiset{b} && s'.attached == L.RemoveFirst(s.attached, b);
  }

  lemma StartingBalances(s: State, b: Buffer)
    requires RefsBalance(s) && b in s.dequeued && s.progress.Idle?
    ensures RefsBalance(StopTracking(s, b))
  {
    RemovedBalance(s.dequeued, b);
  }

  lemma TakingBalances(s: State, b: Buffer)
    requires RefsBalance(s) && s.queue.CanDequeue(b)
    ensures RefsBalance(TakeBuffer(s, b))
  {
    assert multiset(s.dequeued + [b]) == multiset(s.dequeued) + multiset{b};
  }

  lemma FlushingBalances(s: State, notifies: bool)
    requires RefsBalance(s)
    ensures RefsBalance(FlushBuffers(s, notifies))
  {
  }

  /** What the agreement of lists and queue says about the next call: the queue answers
      an enqueue with NONE or UNKNOWN_SURFACE, the buffers concerned have user data, and
      the acquired buffer is the one just enqueued. */
  ghost predicate CallIsSound(s: State, e: Event) {
    match e
    case EnqueueQueue => s.progress.Untracked? ==>
      s.progress.arg in s.bufferReset && s.queue.EnqueueAnswer(s.progress.arg) != OtherError
    case EnqueueCommit => s.progress.Holding? ==> s.progress.arg == s.progress.acquired
    case Release(b) => b in s.attached ==> b in s.bufferReset
    case _ => true
  }

  lemma CallsAreSound(s: State, e: Event)
    requires QueueAgrees(s)
    ensures CallIsSound(s, e)
  {
    if s.progress.Untracked? {
      assert s.progress.arg in Busy(s.progress);
    }
  }

  /** The two states differ at most in the window and in the flags of the surface. */
  predicate SameBuffers(s: State, s': State) {
    s' == s.(window := s'.window, resized := s'.resized)
  }

  lemma WindowChangeKeepsBuffers(s: State, change: (W.Window, bool))
    ensures SameBuffers(s, OnWindowChange(s, change))
  {
  }

  lemma WindowEventKeepsBuffers(s: State, e: Event)
    requires e.WindowResize? || e.WindowRotate?
    ensures SameBuffers(s, Apply(s, e))
  {
    match e
    case WindowResize(w, h, dx, dy) => WindowChangeKeepsBuffers(s, W.Resize(s.window, w, h, dx, dy));
    case WindowRotate(r) => WindowChangeKeepsBuffers(s, W.SetRotation(s.window, r));
  }

  lemma QuietBalances(s: State, e: Event)
    requires RefsBalance(s) && (e.QueueReset? || e.Vblank? || e.WindowResize? || e.WindowRotate?)
    ensures RefsBalance(Apply(s, e))
  {
    match e
    case QueueReset | Vblank =>
    case WindowResize(_, _, _, _) | WindowRotate(_) => WindowEventKeepsBuffers(s, e);
  }

  lemma RefsStayBalanced(s: State, e: Event)
    requires RefsBalance(s) && CallIsSound(s, e) && Enabled(s, e)
    ensures RefsBalance(Apply(s, e))
  {
    match e
    case Dequeue(b) => TakingBalances(ApplyResize(s), b);
    case EnqueueStart(b) => StartingBalances(s, b);
    case EnqueueQueue => QueueingBalances(s, s.progress.arg);
    case EnqueueAcquire => AcquiringBalances(s, s.progress.arg);
    case EnqueueCommit => CommitBalances(s, s.progress.acquired, s.progress.arg);
    case Release(b) => ReleasingBalances(s, b);
    case Flush(notifies) => FlushingBalances(s, notifies);
    case QueueReset | Vblank | WindowResize(_, _, _, _) | WindowRotate(_) => QuietBalances(s, e);
  }

  lemma WindowChangeAgrees(s: State, change: (W.Window, bool))
    requires SizesAgree(s) && change.0.callbacks
    requires !change.1 ==> change.0.width == s.window.width && change.0.height == s.window.height
    ensures SizesAgree(OnWindowChange(s, change))
  {
  }

  lemma SizesStayAgreed(s: State, e: Event)
    requires SizesAgree(s) && Enabled(s, e)
    ensures SizesAgree(Apply(s, e))
  {
    match e
    case WindowResize(w, h, dx, dy) => WindowChangeAgrees(s, W.Resize(s.window, w, h, dx, dy));
    case WindowRotate(r) => WindowChangeAgrees(s, W.SetRotation(s.window, r));
    case _ =>
  }

  lemma CommitSnoc(log: seq<LogEntry>, e: LogEntry)
    ensures CommitsOf(log + [e]) == CommitsOf(log) + match e { case Commit(b) => [b] case VblankDone => [] }
  {
    assert (log + [e])[..|log|] == log;
  }

  lemma ThrottleCommit(log: seq<LogEntry>, b: Buffer)
    requires Throttled(log) && Settled(log)
    ensures Throttled(log + [Commit(b)])
  {
    var l := log + [Commit(b)];
    forall i, j | 0 <= i < j < |l| && l[i].Commit? && l[j].Commit?
      ensures exists k :: i < k < j && l[k] == VblankDone
    {
      if j == |log| {
        var k :| i < k < |log| && log[k] == VblankDone;
        assert l[k] == VblankDone;
      } else {
        var k :| i < k < j && log[k] == VblankDone;
        assert l[k] == VblankDone;
      }
    }
  }

  lemma ThrottleVblank(log: seq<LogEntry>)
    requires Throttled(log)
    ensures Throttled(log + [VblankDone]) && Settled(log + [VblankDone])
  {
    var l := log + [VblankDone];
    forall i, j | 0 <= i < j < |l| && l[i].Commit? && l[j].Commit?
      ensures exists k :: i < k < j && l[k] == VblankDone
    {
      var k :| i < k < j && log[k] == VblankDone;
      assert l[k] == VblankDone;
    }
    assert l[|log|] == VblankDone;
  }

  lemma CommitPresents(s: State, b: Buffer)
    requires Presented(s) && s.vblankDone
    ensures Presented(CommitBuffer(s, b, b))
  {
    CommitSnoc(s.log, Commit(b));
    ThrottleCommit(s.log, b);
  }

  lemma VblankPresents(s: State)
    requires Presented(s)
    ensures Presented(NoteVblank(s))
  {
    CommitSnoc(s.log, VblankDone);
    ThrottleVblank(s.log);
  }

  lemma QuietPresents(s: State, s': State)
    requires Presented(s) && s'.log == s.log && s'.accepted == s.accepted && s'.vblankDone == s.vblankDone
    requires !s'.progress.Idle? ==> s'.vblankDone
    ensures Presented(s')
  {
  }

  lemma QueueingPresents(s: State, b: Buffer)
    requires Presented(s) && s.progress == Untracked(b)
    ensures Presented(QueueBuffer(s, b))
  {
    if b in s.bufferReset && (s.bufferReset[b] || s.queue.EnqueueAnswer(b) == UnknownSurface) {
      CommitPresents(s, b);
    } else {
      QuietPresents(s, QueueBuffer(s, b));
    }
  }

  lemma PresentationKept(s: State, e: Event)
    requires Presented(s) && CallIsSound(s, e) && Enabled(s, e)
    ensures Presented(Apply(s, e))
  {
    match e
    case EnqueueQueue => QueueingPresents(s, s.progress.arg);
    case EnqueueCommit => CommitPresents(s, s.progress.arg);
    case Vblank => VblankPresents(s);
    case EnqueueStart(_) | EnqueueAcquire => QuietPresents(s, Apply(s, e));
    case Dequeue(_) | Release(_) | QueueReset | Flush(_) | WindowResize(_, _, _, _) | WindowRotate(_) =>
      OutsidePresents(s, e);
  }

  lemma OutsidePresents(s: State, e: Event)
    requires Presented(s) && Enabled(s, e)
    requires e.Dequeue? || e.Release? || e.QueueReset? || e.Flush? || e.WindowResize? || e.WindowRotate?
    ensures Presented(Apply(s, e))
  {
    match e
    case Dequeue(b) => QuietPresents(s, TakeBuffer(ApplyResize(s), b));
    case Release(b) => QuietPresents(s, ReleaseBuffer(s, b));
    case QueueReset => QuietPresents(s, ResetQueue(s, s.queue.width, s.queue.height));
    case Flush(notifies) => QuietPresents(s, FlushBuffers(s, notifies));
    case WindowResize(_, _, _, _) | WindowRotate(_) =>
      WindowEventKeepsBuffers(s, e);
      QuietPresents(s, Apply(s, e));
  }

  lemma RemoveFirstDistinct(list: seq<Buffer>, b: Buffer)
    requires Distinct(list)
    ensures Distinct(L.RemoveFirst(list, b))
    ensures forall x :: x in L.RemoveFirst(list, b) <==> x in list && x != b
  {
    if b in list {
      var k :| 0 <= k < |list| && list[k] == b;
      L.RemoveFirstAt(list, b, k);
      assert list == list[..k] + [b] + list[k + 1..];
      OmitDistinct(list[..k], b, list[k + 1..]);
    } else {
      L.RemoveFirstAbsent(list, b);
    }
  }

  lemma OmitDistinct(before: seq<Buffer>, b: Buffer, after: seq<Buffer>)
    requires Distinct(before + [b] + after)
    ensures Distinct(before + after) && b !in before + after
  {
    var all, less := before + [b] + after, before + after;
    assert all[|before|] == b;
    forall i | 0 <= i < |less|
      ensures less[i] == all[if i < |before| then i else i + 1]
    {
    }
  }

  ghost predicate ListsAgree(s: State) {
    ListsDistinct(s) && QueueAgrees(s)
  }

  lemma TakingAgrees(s: State, b: Buffer)
    requires ListsAgree(s) && s.queue.CanDequeue(b) && (s.queue.free == [] ==> b !in s.bufferReset)
    ensures ListsAgree(TakeBuffer(s, b))
  {
    DequeueKeepsValid(s.queue, b);
    if s.queue.free != [] {
      assert b in s.queue.free && s.queue.In(b, Free);
    }
    DistinctSnoc(s.dequeued, b);
  }

  lemma ResettingAgrees(s: State, width: int, height: int)
    requires ListsAgree(s)
    ensures ListsAgree(ResetQueue(s, width, height))
  {
  }

  lemma FlushingAgrees(s: State, notifies: bool)
    requires ListsAgree(s)
    ensures ListsAgree(FlushBuffers(s, notifies))
  {
  }

  lemma StartingAgrees(s: State, b: Buffer)
    requires ListsAgree(s) && Enabled(s, EnqueueStart(b))
    ensures ListsAgree(Apply(s, EnqueueStart(b)))
  {
    RemoveFirstDistinct(s.dequeued, b);
  }

  lemma CommittingAgrees(s: State, b: Buffer)
    requires ListsAgree(s) && Busy(s.progress) == [b]
    requires b in s.queue.states ==> s.queue.states[b] == Acquired
    ensures ListsAgree(CommitBuffer(s, b, b))
  {
    assert b in Busy(s.progress);
    DistinctSnoc(s.attached, b);
  }

  lemma QueueingAgrees(s: State, b: Buffer)
    requires ListsAgree(s) && s.progress == Untracked(b)
    ensures ListsAgree(QueueBuffer(s, b))
  {
    assert b in Busy(s.progress);
    if s.bufferReset[b] || s.queue.EnqueueAnswer(b) == UnknownSurface {
      CommittingAgrees(s, b);
    } else {
      EnqueueKeepsValid(s.queue, b);
    }
  }

  lemma DirtyMeansQueued(s: State)
    requires ListsAgree(s)
    ensures s.queue.dirty != [] ==> s.progress.Queued?
  {
    if s.queue.dirty != [] {
      var b := s.queue.dirty[0];
      assert b in s.queue.dirty && s.queue.In(b, Dirty);
      assert b in Busy(s.progress);
    }
  }

  /** A dirty buffer is the one whose enqueue is in progress. */
  lemma DirtyIsArgument(s: State, arg: Buffer)
    requires ListsAgree(s) && s.progress == Queued(arg) && s.queue.dirty != []
    ensures s.queue.dirty[0] == arg && s.queue.In(arg, Dirty)
  {
    var b := s.queue.dirty[0];
    assert b in s.queue.dirty && s.queue.In(b, Dirty);
    assert b in Busy(s.progress);
  }

  lemma AcquiringAgrees(s: State, arg: Buffer)
    requires ListsAgree(s) && s.progress == Queued(arg)
    ensures ListsAgree(AcquireBuffer(s, arg))
  {
    assert arg in Busy(s.progress);
    if s.queue.dirty != [] {
      DirtyIsArgument(s, arg);
      AcquireKeepsValid(s.queue);
    } else {
      assert !s.queue.In(arg, Dirty);
    }
  }

  lemma ReleasingAgrees(s: State, b: Buffer)
    requires ListsAgree(s) && b in s.attached
    ensures ListsAgree(ReleaseBuffer(s, b))
  {
    RemoveFirstDistinct(s.attached, b);
    ReleaseKeepsValid(s.queue, b);
    var s' := ReleaseBuffer(s, b);
    assert s'.dequeued == s.dequeued && s'.progress == s.progress && s'.bufferReset == s.bufferReset;
    assert s'.attached == L.RemoveFirst(s.attached, b);
    assert s'.queue.states.Keys == s.queue.states.Keys;
    assert forall x | x in s.queue.states && x != b :: s'.queue.states[x] == s.queue.states[x];
  }

  lemma FinishingAgrees(s: State)
    requires ListsAgree(s) && s.progress.Holding?
    ensures ListsAgree(Apply(s, EnqueueCommit))
  {
    assert s.progress.acquired in Busy(s.progress);
    CommittingAgrees(s, s.progress.acquired);
  }

  lemma DequeuingAgrees(s: State, b: Buffer)
    requires ListsAgree(s) && Enabled(s, Dequeue(b))
    ensures ListsAgree(Apply(s, Dequeue(b)))
  {
    ResettingAgrees(s, s.window.width, s.window.height);
    assert ListsAgree(ApplyResize(s));
    TakingAgrees(ApplyResize(s), b);
  }

  lemma QuietAgrees(s: State, s': State)
    requires ListsAgree(s)
    requires s'.queue == s.queue && s'.bufferReset == s.bufferReset && s'.progress == s.progress
    requires s'.dequeued == s.dequeued && s'.attached == s.attached
    ensures ListsAgree(s')
  {
  }

  lemma ListsStayAgreed(s: State, e: Event)
    requires ListsAgree(s) && Enabled(s, e)
    ensures ListsAgree(Apply(s, e))
  {
    match e
    case Dequeue(b) => DequeuingAgrees(s, b);
    case EnqueueStart(b) => StartingAgrees(s, b);
    case EnqueueQueue => QueueingAgrees(s, s.progress.arg);
    case EnqueueAcquire => AcquiringAgrees(s, s.progress.arg);
    case EnqueueCommit => FinishingAgrees(s);
    case Release(b) => ReleasingAgrees(s, b);
    case QueueReset => ResettingAgrees(s, s.queue.width, s.queue.height);
    case Flush(notifies) => FlushingAgrees(s, notifies);
    case Vblank | WindowResize(_, _, _, _) | WindowRotate(_) => QuietEventAgrees(s, e);
  }

  lemma QuietEventAgrees(s: State, e: Event)
    requires ListsAgree(s) && (e.Vblank? || e.WindowResize? || e.WindowRotate?)
    ensures ListsAgree(Apply(s, e))
  {
    match e
    case Vblank => QuietAgrees(s, NoteVblank(s));
    case WindowResize(_, _, _, _) | WindowRotate(_) =>
      WindowEventKeepsBuffers(s, e);
      QuietAgrees(s, Apply(s, e));
  }

  lemma EventKeepsInv(s: State, e: Event)
    requires Inv(s) && Enabled(s, e)
    ensures Inv(Apply(s, e))
  {
    CallsAreSound(s, e);
    RefsStayBalanced(s, e);
    ListsStayAgreed(s, e);
    PresentationKept(s, e);
    SizesStayAgreed(s, e);
  }

  /** The invariant holds after every run, however the parties interleave. */
  lemma {:induction false} RunKeepsInv(s: State, events: seq<Event>, s': State)
    requires Inv(s) && Runs(s, events, s')
    ensures Inv(s')
    decreases |events|
  {
    if events != [] {
      EventKeepsInv(s, events[0]);
      RunKeepsInv(Apply(s, events[0]), events[1..], s');
    }
  }

  // ---------------------------------------------------------------------------
  // What it means
  // ---------------------------------------------------------------------------

  /** TPL never leaks and never over-releases: between calls its references on a buffer
      are its places on the two lists. */
  lemma ReferencesConserved(s: State, events: seq<Event>, s': State, b: Buffer)
    requires Init(s) && Runs(s, events, s')
    ensures s'.taken[b]
         == s'.dropped[b] + multiset(s'.dequeued)[b] + multiset(s'.attached)[b] + multiset(InHand(s'.progress))[b]
  {
    RunKeepsInv(s, events, s');
  }

  /** The committed buffers are those whose enqueue returned NONE, in that order, forced
      commits included, and two commits never share a vblank. */
  lemma CommitsAreAcceptedEnqueues(s: State, events: seq<Event>, s': State)
    requires Init(s) && Runs(s, events, s')
    ensures CommitsOf(s'.log) == s'.accepted && Throttled(s'.log)
  {
    RunKeepsInv(s, events, s');
  }

  /** The tracking lists never hold a buffer twice, nor on both lists. */
  lemma ListsStayDisjoint(s: State, events: seq<Event>, s': State)
    requires Init(s) && Runs(s, events, s')
    ensures Distinct(s'.dequeued) && Distinct(s'.attached)
    ensures forall b :: !(b in s'.dequeued && b in s'.attached)
  {
    RunKeepsInv(s, events, s');
  }

  ghost predicate AllFlagged(s: State, list: seq<Buffer>) {
    forall b | b in list && b in s.bufferReset :: s.bufferReset[b]
  }

  /** The events after which every listed buffer without a reset flag is still tracked:
      a reset must not hit an enqueue that has a buffer in hand, and a flush that does not
      call the reset callback must find every dequeued buffer flagged. */
  ghost predicate Harmless(s: State, e: Event) {
    match e
    case Dequeue(_) => s.resized ==> AllFlagged(s, InHand(s.progress))
    case QueueReset => AllFlagged(s, InHand(s.progress))
    case Flush(notifies) => AllFlagged(s, InHand(s.progress)) && (notifies || AllFlagged(s, s.dequeued))
    case _ => true
  }

  lemma ForgettingIff(s: State, width: int, height: int)
    requires ListsAgree(s)
    ensures UnflaggedTracked(ResetQueue(s, width, height)) <==> AllFlagged(s, InHand(s.progress))
  {
    var s' := ResetQueue(s, width, height);
    forall b | b in InHand(s.progress) ensures b in Busy(s.progress) {}
    assert forall b | b in InHand(s.progress) :: b in s'.bufferReset && s'.bufferReset[b] == s.bufferReset[b];
    if UnflaggedTracked(s') {
      assert forall b | b in InHand(s.progress) :: Fresh(s', b);
    }
  }

  lemma FlushingIff(s: State, notifies: bool)
    requires ListsAgree(s)
    ensures UnflaggedTracked(FlushBuffers(s, notifies)) <==> Harmless(s, Flush(notifies))
  {
    var s' := FlushBuffers(s, notifies);
    forall b | b in InHand(s.progress) ensures b in Busy(s.progress) {}
    assert forall b | b in InHand(s.progress) :: b in s'.bufferReset && s'.bufferReset[b] == s.bufferReset[b];
    if UnflaggedTracked(s') {
      assert forall b | b in InHand(s.progress) || b in s.dequeued :: Fresh(s', b);
    }
  }

  lemma TakingTracks(s: State, b: Buffer)
    requires ListsAgree(s) && s.queue.CanDequeue(b) && (s.queue.free == [] ==> b !in s.bufferReset)
    ensures UnflaggedTracked(TakeBuffer(s, b)) <==> UnflaggedTracked(s)
  {
    var s' := TakeBuffer(s, b);
    if s.queue.free != [] {
      assert b in s.queue.free && s.queue.In(b, Free);
    }
    forall x | x in InHand(s.progress) ensures x in Busy(s.progress) {}
    forall x | x in s.dequeued || x in s.attached || x in InHand(s.progress)
      ensures x != b && Fresh(s', x) <==> Fresh(s, x)
    {
    }
    if UnflaggedTracked(s') {
      assert forall x | x in s.dequeued || x in s.attached || x in InHand(s.progress) :: Fresh(s', x);
    }
  }

  lemma QueueingTracks(s: State, b: Buffer)
    requires ListsAgree(s) && s.progress == Untracked(b) && UnflaggedTracked(s)
    ensures UnflaggedTracked(QueueBuffer(s, b))
  {
    assert b in Busy(s.progress) && b in InHand(s.progress) && Fresh(s, b);
    var s' := QueueBuffer(s, b);
    forall x | x in s'.dequeued || x in s'.attached || x in InHand(s'.progress) ensures Fresh(s', x) {
      assert Fresh(s, x);
    }
  }

  lemma AcquiringTracks(s: State, arg: Buffer)
    requires ListsAgree(s) && s.progress == Queued(arg) && UnflaggedTracked(s)
    ensures UnflaggedTracked(AcquireBuffer(s, arg))
  {
    var s' := AcquireBuffer(s, arg);
    forall x | x in s'.dequeued || x in s'.attached ensures Fresh(s', x) {
      assert Fresh(s, x);
    }
  }

  lemma ReleasingTracks(s: State, b: Buffer)
    requires ListsAgree(s) && b in s.attached && UnflaggedTracked(s)
    ensures UnflaggedTracked(ReleaseBuffer(s, b))
    ensures ReleaseBuffer(s, b).strayReleases == s.strayReleases
  {
    RemoveFirstDistinct(s.attached, b);
    assert Fresh(s, b);
    var s' := ReleaseBuffer(s, b);
    forall x | x in s'.dequeued || x in s'.attached || x in InHand(s'.progress) ensures Fresh(s', x) {
      assert Fresh(s, x);
    }
  }

  lemma StartingTracks(s: State, b: Buffer)
    requires ListsAgree(s) && UnflaggedTracked(s) && Enabled(s, EnqueueStart(b))
    ensures UnflaggedTracked(Apply(s, EnqueueStart(b)))
  {
    RemoveFirstDistinct(s.dequeued, b);
    assert Fresh(s, b);
    QuietTracks(s, Apply(s, EnqueueStart(b)));
  }

  /** Moving buffers between the lists and the hand forgets nothing. */
  lemma QuietTracks(s: State, s': State)
    requires UnflaggedTracked(s) && s'.queue == s.queue && s'.bufferReset == s.bufferReset
    requires forall b | b in s'.dequeued || b in s'.attached || b in InHand(s'.progress) ::
               b in s.dequeued || b in s.attached || b in InHand(s.progress)
    ensures UnflaggedTracked(s')
  {
    forall b | b in s'.dequeued || b in s'.attached || b in InHand(s'.progress) ensures Fresh(s', b) {
      assert Fresh(s, b);
    }
  }

  lemma FinishingTracks(s: State)
    requires UnflaggedTracked(s) && s.progress.Holding?
    ensures UnflaggedTracked(Apply(s, EnqueueCommit))
  {
    QuietTracks(s, Apply(s, EnqueueCommit));
  }

  lemma QuietEventTracks(s: State, e: Event)
    requires UnflaggedTracked(s) && (e.Vblank? || e.WindowResize? || e.WindowRotate?)
    ensures UnflaggedTracked(Apply(s, e))
  {
    QuietTracks(s, Apply(s, e));
  }

  lemma DequeuingIff(s: State, b: Buffer)
    requires ListsAgree(s) && UnflaggedTracked(s) && Enabled(s, Dequeue(b))
    ensures UnflaggedTracked(Apply(s, Dequeue(b))) <==> Harmless(s, Dequeue(b))
  {
    var s1 := ApplyResize(s);
    if s.resized {
      ForgettingIff(s, s.window.width, s.window.height);
      ResettingAgrees(s, s.window.width, s.window.height);
      QuietAgrees(ResetQueue(s, s.window.width, s.window.height), s1);
      assert UnflaggedTracked(s1) <==> UnflaggedTracked(ResetQueue(s, s.window.width, s.window.height));
    }
    TakingTracks(s1, b);
  }

  /** Exactly the harmless events keep the unflagged buffers tracked. */
  lemma UnflaggedStayTrackedIff(s: State, e: Event)
    requires ListsAgree(s) && UnflaggedTracked(s) && Enabled(s, e)
    ensures UnflaggedTracked(Apply(s, e)) <==> Harmless(s, e)
  {
    if e.Dequeue? {
      DequeuingIff(s, e.buffer);
    } else if e.QueueReset? {
      ForgettingIff(s, s.queue.width, s.queue.height);
    } else if e.Flush? {
      FlushingIff(s, e.notifies);
    } else {
      OthersTrack(s, e);
    }
  }

  lemma OthersTrack(s: State, e: Event)
    requires ListsAgree(s) && UnflaggedTracked(s) && Enabled(s, e)
    requires !e.Dequeue? && !e.QueueReset? && !e.Flush?
    ensures UnflaggedTracked(Apply(s, e))
  {
    match e
    case EnqueueStart(b) => StartingTracks(s, b);
    case EnqueueQueue => QueueingTracks(s, s.progress.arg);
    case EnqueueAcquire => AcquiringTracks(s, s.progress.arg);
    case EnqueueCommit => FinishingTracks(s);
    case Release(b) => ReleasingTracks(s, b);
    case Vblank | WindowResize(_, _, _, _) | WindowRotate(_) => QuietEventTracks(s, e);
  }

  /** s' is what the events, all of them harmless, make of s. */
  ghost predicate HarmlessRun(s: State, events: seq<Event>, s': State)
    decreases |events|
  {
    if events == [] then s' == s
    else Enabled(s, events[0]) && Harmless(s, events[0]) && HarmlessRun(Apply(s, events[0]), events[1..], s')
  }

  /** Along harmless events the queue is never asked to release a buffer it does not hold
      as acquired, and no unflagged buffer meets UNKNOWN_SURFACE. */
  lemma {:induction false} HarmlessRunsReleaseCleanly(s: State, events: seq<Event>, s': State)
    requires Inv(s) && UnflaggedTracked(s) && HarmlessRun(s, events, s')
    ensures s'.strayReleases == s.strayReleases && UnflaggedTracked(s') && Inv(s')
    ensures s'.progress.Untracked? ==>
              var b := s'.progress.arg;
              b in s'.bufferReset && (s'.bufferReset[b] || s'.queue.EnqueueAnswer(b) == NoError)
    decreases |events|
  {
    if events == [] {
      if s.progress.Untracked? {
        TrackedEnqueueSucceeds(s);
      }
    } else {
      var e := events[0];
      EventKeepsInv(s, e);
      UnflaggedStayTrackedIff(s, e);
      StrayOnlyByRelease(s, e);
      HarmlessRunsReleaseCleanly(Apply(s, e), events[1..], s');
    }
  }

  lemma StrayOnlyByRelease(s: State, e: Event)
    requires ListsAgree(s) && UnflaggedTracked(s) && Enabled(s, e)
    ensures Apply(s, e).strayReleases == s.strayReleases
  {
    if e.Release? {
      ReleasingTracks(s, e.buffer);
    }
  }

  lemma TrackedEnqueueSucceeds(s: State)
    requires ListsAgree(s) && UnflaggedTracked(s) && s.progress.Untracked?
    ensures s.progress.arg in s.bufferReset
    ensures !s.bufferReset[s.progress.arg] ==> s.queue.EnqueueAnswer(s.progress.arg) == NoError
  {
    assert s.progress.arg in Busy(s.progress) && s.progress.arg in InHand(s.progress);
    assert Fresh(s, s.progress.arg);
  }

  /** Between calls, the unflagged members of the lists are then exactly the buffers the
      queue has as dequeued and as acquired. */
  lemma ListsAreTheQueues(s: State, b: Buffer)
    requires Inv(s) && UnflaggedTracked(s) && s.progress.Idle?
    ensures s.queue.In(b, Dequeued) <==> b in s.dequeued && b in s.bufferReset && !s.bufferReset[b]
    ensures s.queue.In(b, Acquired) <==> b in s.attached && b in s.bufferReset && !s.bufferReset[b]
    ensures s.queue.dirty == []
  {
    assert b in s.dequeued || b in s.attached ==> Fresh(s, b);
    DirtyMeansQueued(s);
  }

  /** Dequeues, resets and flushes find no enqueue in progress, and flushes notify: the
      calls are then atomic towards one another. */
  ghost predicate AtomicCalls(s: State, events: seq<Event>)
    decreases |events|
  {
    events != [] ==>
      && (events[0].Dequeue? || events[0].QueueReset? || events[0].Flush? ==> s.progress.Idle?)
      && (events[0].Flush? ==> events[0].notifies)
      && Enabled(s, events[0]) && AtomicCalls(Apply(s, events[0]), events[1..])
  }

  lemma {:induction false} AtomicCallsAreHarmless(s: State, events: seq<Event>, s': State)
    requires Runs(s, events, s') && AtomicCalls(s, events)
    ensures HarmlessRun(s, events, s')
    decreases |events|
  {
    if events != [] {
      AtomicCallsAreHarmless(Apply(s, events[0]), events[1..], s');
    }
  }

  /** With atomic calls the queue is never asked to release a buffer it does not hold, and
      between calls the unflagged members of the two lists are the queue's buffers. */
  lemma AtomicCallsAgree(s: State, events: seq<Event>, s': State, b: Buffer)
    requires Init(s) && Runs(s, events, s') && AtomicCalls(s, events)
    ensures s'.strayReleases == 0
    ensures s'.progress.Idle? ==>
      && (s'.queue.In(b, Dequeued) <==> b in s'.dequeued && b in s'.bufferReset && !s'.bufferReset[b])
      && (s'.queue.In(b, Acquired) <==> b in s'.attached && b in s'.bufferReset && !s'.bufferReset[b])
  {
    RunKeepsInv(s, [], s);
    AtomicCallsAreHarmless(s, events, s');
    HarmlessRunsReleaseCleanly(s, events, s');
    if s'.progress.Idle? {
      ListsAreTheQueues(s', b);
    }
  }

  // ---------------------------------------------------------------------------
  // What an event that is not harmless leads to
  // ---------------------------------------------------------------------------

  /** A buffer that the queue has forgotten and no flag tells of. */
  ghost predicate Lost(s: State, b: Buffer) {
    b in s.bufferReset && !s.bufferReset[b] && b !in s.queue.states
  }

  ghost predicate Strays(s: State, events: seq<Event>, s': State) {
    HarmlessRun(s, events, s') && s'.strayReleases > s.strayReleases
  }

  lemma StraysAfter(s: State, e: Event, rest: seq<Event>, s': State)
    requires Enabled(s, e) && Harmless(s, e) && Apply(s, e).strayReleases == s.strayReleases
    requires Strays(Apply(s, e), rest, s')
    ensures Strays(s, [e] + rest, s')
  {
    assert ([e] + rest)[1..] == rest;
  }

  lemma AttachedStrays(s: State, b: Buffer) returns (events: seq<Event>, s': State)
    requires b in s.attached && Lost(s, b)
    ensures Strays(s, events, s')
  {
    s' := Apply(s, Release(b));
    events := [Release(b)];
    assert events[1..] == [];
  }

  lemma InHandStrays(s: State, b: Buffer) returns (events: seq<Event>, s': State)
    requires Inv(s) && b in InHand(s.progress) && Lost(s, b)
    ensures Strays(s, events, s')
  {
    var e := if s.progress.Untracked? then EnqueueQueue else EnqueueCommit;
    var next := CommitBuffer(s, b, b);
    assert Apply(s, e) == next;
    events, s' := AttachedStrays(next, b);
    StraysAfter(s, e, events, s');
    events := [e] + events;
  }

  function Remaining(p: Progress): nat {
    match p
    case Idle => 0
    case Untracked(_) => 3
    case Queued(_) => 2
    case Holding(_, _) => 1
  }

  function NextInEnqueue(p: Progress): Event {
    match p
    case Untracked(_) => EnqueueQueue
    case Queued(_) => EnqueueAcquire
    case Holding(_, _) => EnqueueCommit
    case Idle => Vblank
  }

  lemma QueueingKeepsLost(s: State, a: Buffer, b: Buffer)
    requires b in s.dequeued && Lost(s, b)
    ensures b in QueueBuffer(s, a).dequeued && Lost(QueueBuffer(s, a), b)
    ensures Remaining(QueueBuffer(s, a).progress) <= 2 && QueueBuffer(s, a).strayReleases == s.strayReleases
  {
  }

  lemma AcquiringKeepsLost(s: State, a: Buffer, b: Buffer)
    requires s.queue.Valid() && b in s.dequeued && Lost(s, b)
    ensures b in AcquireBuffer(s, a).dequeued && Lost(AcquireBuffer(s, a), b)
    ensures Remaining(AcquireBuffer(s, a).progress) <= 1 && AcquireBuffer(s, a).strayReleases == s.strayReleases
  {
    if s.queue.dirty != [] {
      assert s.queue.dirty[0] in s.queue.dirty && s.queue.In(s.queue.dirty[0], Dirty);
    }
  }

  /** An enqueue in progress goes on without touching the other buffers. */
  lemma EnqueueGoesOn(s: State, b: Buffer)
    requires s.queue.Valid() && !s.progress.Idle? && b in s.dequeued && Lost(s, b)
    ensures var e := NextInEnqueue(s.progress); var next := Apply(s, e);
      && b in next.dequeued && Lost(next, b)
      && Remaining(next.progress) < Remaining(s.progress) && next.strayReleases == s.strayReleases
  {
    match s.progress
    case Untracked(a) => QueueingKeepsLost(s, a, b);
    case Queued(a) => AcquiringKeepsLost(s, a, b);
    case Holding(_, _) =>
  }

  lemma {:induction false} DequeuedStrays(s: State, b: Buffer) returns (events: seq<Event>, s': State)
    requires Inv(s) && b in s.dequeued && Lost(s, b)
    ensures Strays(s, events, s')
    decreases Remaining(s.progress)
  {
    if s.progress.Idle? {
      var settled := Apply(s, Vblank);
      EventKeepsInv(s, Vblank);
      EventKeepsInv(settled, EnqueueStart(b));
      events, s' := InHandStrays(Apply(settled, EnqueueStart(b)), b);
      StraysAfter(settled, EnqueueStart(b), events, s');
      events := [EnqueueStart(b)] + events;
      StraysAfter(s, Vblank, events, s');
      events := [Vblank] + events;
    } else {
      var e := NextInEnqueue(s.progress);
      EventKeepsInv(s, e);
      EnqueueGoesOn(s, b);
      events, s' := DequeuedStrays(Apply(s, e), b);
      StraysAfter(s, e, events, s');
      events := [e] + events;
    }
  }

  /** No stray release can follow through harmless events exactly while the unflagged buffers
      are tracked. */
  lemma TrackedIffReleasesCleanly(s: State)
    requires Inv(s)
    ensures UnflaggedTracked(s) <==> !exists events, s' :: Strays(s, events, s')
  {
    if UnflaggedTracked(s) {
      forall events, s' | HarmlessRun(s, events, s') ensures s'.strayReleases == s.strayReleases {
        HarmlessRunsReleaseCleanly(s, events, s');
      }
    } else {
      var b :| (b in s.dequeued || b in s.attached || b in InHand(s.progress)) && !Fresh(s, b);
      var events, s';
      if b in s.attached {
        events, s' := AttachedStrays(s, b);
      } else if b in s.dequeued {
        events, s' := DequeuedStrays(s, b);
      } else {
        events, s' := InHandStrays(s, b);
      }
    }
  }

  /** So an event is harmless exactly when no stray release can follow through harmless
      events alone. */
  lemma HarmlessIffReleasesCleanly(s: State, e: Event)
    requires Inv(s) && UnflaggedTracked(s) && Enabled(s, e)
    ensures Harmless(s, e) <==> !exists events, s' :: Strays(Apply(s, e), events, s')
    ensures Apply(s, e).strayReleases == s.strayReleases
  {
    EventKeepsInv(s, e);
    UnflaggedStayTrackedIff(s, e);
    StrayOnlyByRelease(s, e);
    TrackedIffReleasesCleanly(Apply(s, e));
  }

  lemma RunStep(s: State, e: Event, rest: seq<Event>, s': State)
    requires Enabled(s, e) && Runs(Apply(s, e), rest, s')
    ensures Runs(s, [e] + rest, s')
  {
    assert ([e] + rest)[1..] == rest;
  }

  /** The surface after buffer 1 was dequeued from a new queue. */
  function OneOut(s: State): State {
    s.(queue := s.queue.(states := map[1 := Dequeued]), taken := multiset{1}, bufferReset := map[1 := false],
       dequeued := [1])
  }

  /** The surface after buffer 1 was committed although the queue no longer tracks it. */
  function Forgotten(s: State, reset: bool): State {
    s.(queue := s.queue.Reset(s.queue.width, s.queue.height), taken := multiset{1}, bufferReset := map[1 := false],
       window := s.window.(attachedWidth := s.window.width, attachedHeight := s.window.height),
       reset := reset, vblankDone := false, attached := [1], log := [Commit(1)], accepted := [1])
  }

  lemma ReleaseStrays(s: State, reset: bool) returns (s': State)
    requires Init(s)
    ensures Runs(Forgotten(s, reset), [Release(1)], s') && s'.strayReleases == 1
  {
    var t := Forgotten(s, reset);
    s' := Apply(t, Release(1));
    RunStep(t, Release(1), [], s');
    assert [Release(1)] + [] == [Release(1)];
  }

  /** A reset inside enqueue_buffer, after the buffer has left the dequeued list, is not
      harmless: the buffer is committed without a reset flag, and its release reaches a
      queue that has forgotten it. */
  lemma ResetInsideEnqueueStrays(s: State) returns (s': State)
    requires Init(s)
    ensures Runs(s, [Dequeue(1)] + ([EnqueueStart(1)] + ([QueueReset] + ([EnqueueQueue] + [Release(1)]))), s')
    ensures s'.strayReleases == 1
  {
    var s1 := OneOut(s);
    var s2 := s1.(dequeued := [], progress := Untracked(1));
    var s3 := s2.(queue := s.queue.Reset(s.queue.width, s.queue.height), reset := true);
    s' := ReleaseStrays(s, true);
    assert L.RemoveFirst([1], 1) == [];
    assert Apply(s1, EnqueueStart(1)) == s2;
    assert SetResetFlags(map[1 := false], []) == map[1 := false];
    assert Apply(s2, QueueReset) == s3;
    assert Apply(s3, EnqueueQueue) == Forgotten(s, true);
    RunStep(s3, EnqueueQueue, [Release(1)], s');
    RunStep(s2, QueueReset, [EnqueueQueue] + [Release(1)], s');
    RunStep(s1, EnqueueStart(1), [QueueReset] + ([EnqueueQueue] + [Release(1)]), s');
    assert Apply(s, Dequeue(1)) == s1;
    RunStep(s, Dequeue(1), [EnqueueStart(1)] + ([QueueReset] + ([EnqueueQueue] + [Release(1)])), s');
  }

  /** So does a flush of the queue that does not call the reset callback. */
  lemma SilentFlushStrays(s: State) returns (s': State)
    requires Init(s)
    ensures Runs(s, [Dequeue(1)] + ([Flush(false)] + ([EnqueueStart(1)] + ([EnqueueQueue] + [Release(1)]))), s')
    ensures s'.strayReleases == 1
  {
    var s1 := OneOut(s);
    var s2 := s1.(queue := s.queue.Reset(s.queue.width, s.queue.height));
    var s3 := s2.(dequeued := [], progress := Untracked(1));
    s' := ReleaseStrays(s, false);
    assert L.RemoveFirst([1], 1) == [];
    assert Apply(s1, Flush(false)) == s2;
    assert Apply(s2, EnqueueStart(1)) == s3;
    assert Apply(s3, EnqueueQueue) == Forgotten(s, false);
    RunStep(s3, EnqueueQueue, [Release(1)], s');
    RunStep(s2, EnqueueStart(1), [EnqueueQueue] + [Release(1)], s');
    RunStep(s1, Flush(false), [EnqueueStart(1)] + ([EnqueueQueue] + [Release(1)]), s');
    assert Apply(s, Dequeue(1)) == s1;
    RunStep(s, Dequeue(1), [Flush(false)] + ([EnqueueStart(1)] + ([EnqueueQueue] + [Release(1)])), s');
  }

  // ---------------------------------------------------------------------------
  // What validate answers
  // ---------------------------------------------------------------------------

  /** The queue is reset and says so, or the window takes a size the queue does not have. */
  ghost predicate Disturbs(s: State, e: Event)
    requires Enabled(s, e)
  {
    var w, w' := s.window, Apply(s, e).window;
    || e.QueueReset? || e == Flush(true)
    || ((w'.width, w'.height) != (w.width, w.height) && (w'.width, w'.height) != (s.queue.width, s.queue.height))
  }

  ghost predicate Undisturbed(s: State, events: seq<Event>)
    decreases |events|
  {
    events == [] ||
    (Enabled(s, events[0]) && !Disturbs(s, events[0]) && Undisturbed(Apply(s, events[0]), events[1..]))
  }

  lemma WindowAndValidate(s: State, change: (W.Window, bool))
    requires SizesAgree(s)
    requires !change.1 ==> change.0.width == s.window.width && change.0.height == s.window.height
    ensures var s' := OnWindowChange(s, change); var size := (change.0.width, change.0.height);
      var kept := size == (s.window.width, s.window.height) || size == (s.queue.width, s.queue.height);
      Validate(s') <==> Validate(s) && kept
  {
  }

  lemma CallAndValidate(s: State, e: Event)
    requires Enabled(s, e) && !e.Dequeue? && !e.WindowResize? && !e.WindowRotate?
    ensures Validate(Apply(s, e)) <==> Validate(s) && !Disturbs(s, e)
  {
  }

  lemma EventAndValidate(s: State, e: Event)
    requires SizesAgree(s) && Enabled(s, e) && !e.Dequeue?
    ensures Validate(Apply(s, e)) <==> Validate(s) && !Disturbs(s, e)
  {
    match e
    case WindowResize(w, h, dx, dy) => WindowAndValidate(s, W.Resize(s.window, w, h, dx, dy));
    case WindowRotate(r) => WindowAndValidate(s, W.SetRotation(s.window, r));
    case _ => CallAndValidate(s, e);
  }

  lemma GenerationStays(s: State, e: Event)
    requires Enabled(s, e) && !e.Dequeue? && !e.QueueReset? && !e.Flush?
    ensures Apply(s, e).queue.generation == s.queue.generation
  {
  }

  lemma {:induction false} ValidateAlong(s: State, events: seq<Event>, s': State)
    requires SizesAgree(s) && Runs(s, events, s') && forall e | e in events :: !e.Dequeue?
    ensures SizesAgree(s')
    ensures Validate(s') <==> Validate(s) && Undisturbed(s, events)
    ensures Validate(s') && Flush(false) !in events ==> s'.queue.generation == s.queue.generation
    decreases |events|
  {
    if events != [] {
      SizesStayAgreed(s, events[0]);
      EventAndValidate(s, events[0]);
      if !Disturbs(s, events[0]) && events[0] != Flush(false) {
        GenerationStays(s, events[0]);
      }
      ValidateAlong(Apply(s, events[0]), events[1..], s');
    }
  }

  /** From one dequeue to the next, validate answers true exactly when no queue reset was
      reported and the window took no size but the queue's; and then the window has the
      queue's size and the queue has not forgotten the dequeued buffer's generation. */
  lemma ValidateIffUndisturbed(s: State, b: Buffer, events: seq<Event>, s': State)
    requires SizesAgree(s) && Enabled(s, Dequeue(b))
    requires Runs(Apply(s, Dequeue(b)), events, s') && forall e | e in events :: !e.Dequeue?
    ensures Validate(s') <==> Undisturbed(Apply(s, Dequeue(b)), events)
    ensures Validate(s') ==> (s'.window.width, s'.window.height) == (s'.queue.width, s'.queue.height)
    ensures Validate(s') && Flush(false) !in events ==>
              s'.queue.generation == Apply(s, Dequeue(b)).queue.generation
  {
    SizesStayAgreed(s, Dequeue(b));
    ValidateAlong(Apply(s, Dequeue(b)), events, s');
  }

  // ---------------------------------------------------------------------------
  // The code
  // ---------------------------------------------------------------------------

  function WaitVblank(s: State): State {
    if s.vblankDone then s else NoteVblank(s)
  }

  function AcquireAndCommit(s: State, b: Buffer): State {
    var acquired := AcquireBuffer(s, b);
    if acquired.progress.Holding? then CommitBuffer(acquired, acquired.progress.acquired, b) else acquired
  }

  /** enqueue_buffer without interference, after waiting for the vblank if one is owed. */
  function EnqueueBuffer(s: State, b: Buffer): State {
    QueueAndCommit(StopTracking(WaitVblank(s), b), b)
  }

  function QueueAndCommit(s: State, b: Buffer): State {
    var queued := QueueBuffer(s, b);
    if queued.progress.Queued? then AcquireAndCommit(queued, b) else queued
  }

  lemma QueueAndCommitRuns(s: State, b: Buffer) returns (events: seq<Event>)
    requires s.progress == Untracked(b)
    ensures Runs(s, events, QueueAndCommit(s, b)) && QueueAndCommit(s, b).progress.Idle?
  {
    var queued := QueueBuffer(s, b);
    var done := QueueAndCommit(s, b);
    events := [];
    if queued.progress.Queued? {
      var acquired := AcquireBuffer(queued, b);
      if acquired.progress.Holding? {
        events := [EnqueueCommit] + events;
        RunStep(acquired, EnqueueCommit, [], done);
      }
      RunStep(queued, EnqueueAcquire, events, done);
      events := [EnqueueAcquire] + events;
    }
    RunStep(s, EnqueueQueue, events, done);
    events := [EnqueueQueue] + events;
  }

  /** It is a run of the events above. */
  lemma EnqueueBufferRuns(s: State, b: Buffer) returns (events: seq<Event>)
    requires s.progress.Idle? && b in s.dequeued
    ensures Runs(s, events, EnqueueBuffer(s, b)) && EnqueueBuffer(s, b).progress.Idle?
  {
    var waited := WaitVblank(s);
    var started := StopTracking(waited, b);
    var done := EnqueueBuffer(s, b);
    events := QueueAndCommitRuns(started, b);
    RunStep(waited, EnqueueStart(b), events, done);
    events := [EnqueueStart(b)] + events;
    if !s.vblankDone {
      RunStep(s, Vblank, events, done);
      events := [Vblank] + events;
    }
  }

  // ---------------------------------------------------------------------------
  // Every enqueue commits its buffer
  // ---------------------------------------------------------------------------

  /** s' is s after b was committed on behalf of its own enqueue, and nothing else. */
  ghost predicate Committed(s: State, s': State, b: Buffer) {
    && s'.log == s.log + [Commit(b)] && s'.accepted == s.accepted + [b]
    && s'.attached == s.attached + [b] && s'.dequeued == s.dequeued && s'.progress.Idle? && !s'.vblankDone
    && s'.window.attachedWidth == s.window.width && s'.window.attachedHeight == s.window.height
  }

  /** The enqueue of b is in progress and the queue has not forgotten b since it took it. */
  ghost predicate OnItsWay(s: State, b: Buffer) {
    match s.progress
    case Idle => false
    case Untracked(arg) => arg == b
    case Queued(arg) => arg == b && s.queue.In(b, Dirty)
    case Holding(arg, acquired) => arg == acquired == b
  }

  /** The event makes the queue forget its buffers. */
  predicate Forgets(s: State, e: Event) {
    e.QueueReset? || e.Flush? || (e.Dequeue? && s.resized)
  }

  /** A flagged buffer, or one the queue does not know, is committed at once; any other is
      handed to the queue. */
  lemma QueueingCommits(s: State, b: Buffer)
    requires ListsAgree(s) && s.progress == Untracked(b)
    ensures var s' := QueueBuffer(s, b);
      if s.bufferReset[b] || b !in s.queue.states then Committed(s, s', b)
      else OnItsWay(s', b) && s'.progress.Queued? && s'.log == s.log && s'.accepted == s.accepted
           && s'.window == s.window && s'.attached == s.attached && s'.dequeued == s.dequeued
  {
    assert b in Busy(s.progress);
  }

  /** The buffer acquired is the one just queued. */
  lemma AcquiringHolds(s: State, b: Buffer)
    requires ListsAgree(s) && s.progress == Queued(b) && OnItsWay(s, b)
    ensures var s' := AcquireBuffer(s, b);
      && s'.progress == Holding(b, b) && s'.log == s.log && s'.accepted == s.accepted
      && s'.window == s.window && s'.attached == s.attached && s'.dequeued == s.dequeued
  {
    assert b in s.queue.dirty;
    DirtyIsArgument(s, b);
  }

  /** Whatever resets and resizes came before, enqueue_buffer commits its buffer. */
  lemma UntrackedIsCommitted(s: State, b: Buffer)
    requires ListsAgree(s) && s.progress == Untracked(b)
    ensures Committed(s, QueueAndCommit(s, b), b)
  {
    QueueingCommits(s, b);
    var queued := QueueBuffer(s, b);
    if queued.progress.Queued? {
      QueueingAgrees(s, b);
      AcquiringHolds(queued, b);
    }
  }

  lemma EnqueueCommits(s: State, b: Buffer)
    requires Inv(s) && s.progress.Idle? && b in s.dequeued
    ensures Committed(StopTracking(WaitVblank(s), b), EnqueueBuffer(s, b), b)
    ensures EnqueueBuffer(s, b).log == (if s.vblankDone then s.log else s.log + [VblankDone]) + [Commit(b)]
    ensures EnqueueBuffer(s, b).accepted == s.accepted + [b]
  {
    if !s.vblankDone {
      EventKeepsInv(s, Vblank);
    }
    EventKeepsInv(WaitVblank(s), EnqueueStart(b));
    UntrackedIsCommitted(StopTracking(WaitVblank(s), b), b);
  }

  lemma CallGoesOnItsWay(s: State, e: Event, b: Buffer)
    requires Inv(s) && OnItsWay(s, b) && Enabled(s, e) && (e.EnqueueQueue? || e.EnqueueAcquire? || e.EnqueueCommit?)
    ensures (OnItsWay(Apply(s, e), b) && Apply(s, e).accepted == s.accepted) || Committed(s, Apply(s, e), b)
  {
    match e
    case EnqueueQueue => QueueingCommits(s, b);
    case EnqueueAcquire => AcquiringHolds(s, b);
    case EnqueueCommit =>
  }

  lemma ForgettingLoses(s: State, e: Event, b: Buffer)
    requires OnItsWay(s, b) && (e.QueueReset? || e.Flush?)
    ensures Apply(s, e).accepted == s.accepted
    ensures OnItsWay(Apply(s, e), b) <==> !s.progress.Queued?
  {
    ForgettingIsQuiet(s, e);
  }

  lemma OthersLeave(s: State, e: Event, b: Buffer)
    requires Inv(s) && OnItsWay(s, b) && Enabled(s, e) && !e.EnqueueQueue? && !e.EnqueueAcquire? && !e.EnqueueCommit?
    ensures Apply(s, e).accepted == s.accepted
    ensures OnItsWay(Apply(s, e), b) <==> !(s.progress.Queued? && Forgets(s, e))
  {
    match e
    case Dequeue(d) => DequeuingLeaves(s, d, b);
    case Release(d) => ReleasingLeaves(s, d, b);
    case QueueReset | Flush(_) => ForgettingLoses(s, e, b);
    case Vblank | WindowResize(_, _, _, _) | WindowRotate(_) => QuietLeaves(s, e, b);
  }

  lemma QuietLeaves(s: State, e: Event, b: Buffer)
    requires OnItsWay(s, b) && (e.Vblank? || e.WindowResize? || e.WindowRotate?)
    ensures Apply(s, e).accepted == s.accepted && OnItsWay(Apply(s, e), b)
  {
    if !e.Vblank? {
      WindowEventKeepsBuffers(s, e);
    }
  }

  /** One event on the way: the buffer stays on it or is committed, if and only if the event
      does not make the queue forget it between its enqueue and its acquisition. */
  lemma StaysOnItsWayIff(s: State, e: Event, b: Buffer)
    requires Inv(s) && OnItsWay(s, b) && Enabled(s, e)
    ensures (OnItsWay(Apply(s, e), b) && Apply(s, e).accepted == s.accepted) || Committed(s, Apply(s, e), b)
       <==> !(s.progress.Queued? && Forgets(s, e))
  {
    if e.EnqueueQueue? || e.EnqueueAcquire? || e.EnqueueCommit? {
      CallGoesOnItsWay(s, e, b);
    } else {
      OthersLeave(s, e, b);
    }
  }

  lemma DequeuingLeaves(s: State, d: Buffer, b: Buffer)
    requires Inv(s) && OnItsWay(s, b) && Enabled(s, Dequeue(d))
    ensures var s' := Apply(s, Dequeue(d));
      && s'.progress == s.progress && s'.accepted == s.accepted && s'.log == s.log
      && (s.progress.Queued? ==> (s'.queue.In(b, Dirty) <==> !s.resized))
  {
    if s.progress.Queued? && s.queue.free != [] {
      assert s.queue.free[0] in s.queue.free && s.queue.In(s.queue.free[0], Free);
    }
  }

  lemma ReleasingLeaves(s: State, d: Buffer, b: Buffer)
    requires Inv(s) && OnItsWay(s, b) && Enabled(s, Release(d))
    ensures OnItsWay(ReleaseBuffer(s, d), b) && ReleaseBuffer(s, d).accepted == s.accepted
  {
  }

  /** The queue forgets nothing while a buffer is in it. */
  ghost predicate QueuedIsKept(s: State, events: seq<Event>)
    decreases |events|
  {
    events != [] ==>
      && !(s.progress.Queued? && Forgets(s, events[0]))
      && Enabled(s, events[0]) && QueuedIsKept(Apply(s, events[0]), events[1..])
  }

  lemma {:induction false} AcceptedGrows(s: State, events: seq<Event>, s': State)
    requires Runs(s, events, s')
    ensures s.accepted <= s'.accepted
    decreases |events|
  {
    if events != [] {
      AcceptedGrowsByOne(s, events[0]);
      AcceptedGrows(Apply(s, events[0]), events[1..], s');
    }
  }

  lemma AcceptedGrowsByOne(s: State, e: Event)
    requires Enabled(s, e)
    ensures s.accepted <= Apply(s, e).accepted
  {
    if e.WindowResize? || e.WindowRotate? {
      WindowEventKeepsBuffers(s, e);
    }
  }

  /** However the calls interleave, an enqueue ends without a commit of its buffer only if the
      queue was made to forget it between its enqueue and its acquisition. */
  lemma {:induction false} EnqueueEndsInCommit(s: State, events: seq<Event>, s': State, b: Buffer)
    requires Inv(s) && OnItsWay(s, b) && Runs(s, events, s') && QueuedIsKept(s, events)
    ensures (OnItsWay(s', b) && s'.accepted == s.accepted) || s.accepted + [b] <= s'.accepted
    decreases |events|
  {
    if events != [] {
      var next := Apply(s, events[0]);
      StaysOnItsWayIff(s, events[0], b);
      EventKeepsInv(s, events[0]);
      if OnItsWay(next, b) && next.accepted == s.accepted {
        EnqueueEndsInCommit(next, events[1..], s', b);
      } else {
        AcceptedGrows(next, events[1..], s');
      }
    }
  }

  /** If it was, the enqueue ends without one. */
  lemma ForgottenEndsWithoutCommit(s: State, e: Event, b: Buffer)
    requires Inv(s) && s.progress == Queued(b) && Enabled(s, e) && Forgets(s, e)
    ensures Apply(s, e).progress.Queued?
    ensures var s' := Apply(Apply(s, e), EnqueueAcquire);
      s'.progress.Idle? && s'.accepted == s.accepted && s'.log == s.log
  {
    if e.Dequeue? {
      DequeuingForgets(s, e.buffer);
    } else {
      ForgettingIsQuiet(s, e);
    }
    assert Apply(Apply(s, e), EnqueueAcquire) == AcquireBuffer(Apply(s, e), b);
  }

  lemma ForgettingIsQuiet(s: State, e: Event)
    requires e.QueueReset? || e.Flush?
    ensures var s' := Apply(s, e);
      && s'.progress == s.progress && s'.accepted == s.accepted && s'.log == s.log
      && s'.queue.dirty == [] && s'.queue.states == map[]
  {
  }

  lemma DequeuingForgets(s: State, d: Buffer)
    requires Enabled(s, Dequeue(d)) && s.resized
    ensures var s' := Apply(s, Dequeue(d));
      s'.progress == s.progress && s'.accepted == s.accepted && s'.log == s.log && s'.queue.dirty == []
  {
  }

  class WaylandEglSurface {
    const window: W.EglWindow
    var queue: Queue
    var resized: bool
    var reset: bool
    var vblankDone: bool
    var dequeued: seq<Buffer>
    var attached: seq<Buffer>
    var bufferReset: map<Buffer, bool>
    ghost var progress: Progress
    ghost var taken: multiset<Buffer>
    ghost var dropped: multiset<Buffer>
    ghost var strayReleases: nat
    ghost var log: seq<LogEntry>
    ghost var accepted: seq<Buffer>

    ghost function Current(): State
      reads this, window
    {
      State(window.State(), queue, resized, reset, vblankDone, dequeued, attached, bufferReset,
            progress, taken, dropped, strayReleases, log, accepted)
    }

    constructor (w: W.EglWindow)
      modifies w
      ensures window == w && Init(Current())
      ensures Current().window == old(w.State()).(callbacks := true)
    {
      window := w;
      queue := Queue(w.width, w.height, 0, map[], [], []);
      resized, reset, vblankDone := false, false, true;
      dequeued, attached, bufferReset := [], [], map[];
      progress, taken, dropped, strayReleases, log, accepted := Idle, multiset{}, multiset{}, 0, [], [];
      new;
      window.callbacks := true;
    }

    /** __tpl_wayland_egl_buffer_set_reset_flag. */
    method SetResetFlag(list: seq<Buffer>)
      modifies this`bufferReset
      ensures bufferReset == SetResetFlags(old(bufferReset), list)
    {
      var node := 0;
      while node < |list|
        invariant 0 <= node <= |list|
        invariant bufferReset == SetResetFlags(old(bufferReset), list[..node])
      {
        if list[node] in bufferReset {
          bufferReset := bufferReset[list[node] := true];
        }
        node := node + 1;
      }
      assert list[..node] == list;
    }

    method ResetCallback()
      modifies this`reset, this`bufferReset
      ensures Current() == OnReset(old(Current()))
      ensures reset && bufferReset.Keys == old(bufferReset).Keys
      ensures forall b | b in bufferReset :: bufferReset[b] <==> old(bufferReset)[b] || b in attached || b in dequeued
    {
      reset := true;
      SetResetFlag(attached);
      SetResetFlag(dequeued);
    }

    /** tbm_surface_queue_reset, which calls the callback. */
    method ResetSurfaceQueue(width: int, height: int)
      modifies this`queue, this`reset, this`bufferReset
      ensures Current() == ResetQueue(old(Current()), width, height)
    {
      queue := queue.Reset(width, height);
      ResetCallback();
    }

    method ApplyPendingResize()
      modifies this`queue, this`reset, this`resized, this`bufferReset
      ensures Current() == ApplyResize(old(Current()))
      ensures !resized
      ensures if old(resized) then queue == old(queue).Reset(window.width, window.height) && !reset
              else queue == old(queue) && reset == old(reset)
    {
      if resized {
        ResetSurfaceQueue(window.width, window.height);
        resized := false;
        reset := false;
      }
    }

    /** dequeue_buffer, when the queue hands out `buffer`. */
    method DequeueBuffer(buffer: Buffer)
      requires Enabled(Current(), Dequeue(buffer))
      modifies this
      ensures Current() == TakeBuffer(ApplyResize(old(Current())), buffer)
      ensures queue.In(buffer, Dequeued) && dequeued == old(dequeued) + [buffer]
      ensures taken == old(taken) + multiset{buffer}
      ensures buffer in bufferReset && !bufferReset[buffer] && !reset && !resized
    {
      ApplyPendingResize();
      queue := queue.Dequeue(buffer);
      taken := taken + multiset{buffer};
      bufferReset := bufferReset[buffer := false];
      reset := false;
      dequeued := dequeued + [buffer];
    }

    method VblankCallback()
      modifies this`vblankDone, this`log
      ensures Current() == NoteVblank(old(Current()))
      ensures vblankDone && log == old(log) + [VblankDone]
    {
      vblankDone := true;
      log := log + [VblankDone];
    }

    /** __tpl_wayland_egl_surface_commit. */
    method CommitSurface(buffer: Buffer, ghost arg: Buffer)
      modifies this, window
      ensures Current() == CommitBuffer(old(Current()), buffer, arg)
      ensures window.attachedWidth == window.width && window.attachedHeight == window.height
      ensures log == old(log) + [Commit(buffer)] && attached == old(attached) + [buffer] && !vblankDone
    {
      window.attachedWidth, window.attachedHeight := window.width, window.height;
      log := log + [Commit(buffer)];
      attached := attached + [buffer];
      vblankDone := false;
      accepted := accepted + [arg];
      progress := Idle;
    }

    method StopTrackingBuffer(buffer: Buffer)
      modifies this`dequeued, this`progress
      ensures Current() == StopTracking(old(Current()), buffer)
    {
      dequeued := L.RemoveFirst(dequeued, buffer);
      progress := Untracked(buffer);
    }

    /** The part of enqueue_buffer up to and including tbm_surface_queue_enqueue. */
    method TryQueue(buffer: Buffer) returns (queued: bool, none: bool)
      requires progress == Untracked(buffer)
      modifies this, window
      ensures Current() == QueueBuffer(old(Current()), buffer)
      ensures queued <==> progress.Queued?
      ensures queued <==> buffer in old(bufferReset) && !old(bufferReset)[buffer] && old(queue).In(buffer, Dequeued)
      ensures none <==> buffer in old(bufferReset) && (old(bufferReset)[buffer] || buffer !in old(queue).states)
      ensures none ==> log == old(log) + [Commit(buffer)]
      ensures accepted == if none then old(accepted) + [buffer] else old(accepted)
    {
      if buffer !in bufferReset {
        progress := Idle;
        return false, false;
      }
      if bufferReset[buffer] {
        CommitSurface(buffer, buffer);
        return false, true;
      }
      var answer := queue.EnqueueAnswer(buffer);
      match answer {
        case NoError =>
          queue := queue.Enqueue(buffer);
          dropped := dropped + multiset{buffer};
          progress := Queued(buffer);
          return true, false;
        case UnknownSurface =>
          CommitSurface(buffer, buffer);
          return false, true;
        case OtherError =>
          progress := Idle;
          return false, false;
      }
    }

    method AcquireQueued(ghost arg: Buffer) returns (acquired: Buffer, ok: bool)
      requires progress == Queued(arg)
      modifies this`queue, this`taken, this`progress
      ensures Current() == AcquireBuffer(old(Current()), arg)
      ensures ok <==> progress.Holding?
      ensures ok <==> old(queue).dirty != []
      ensures ok ==> progress == Holding(arg, acquired) && acquired == old(queue).dirty[0]
    {
      if queue.dirty == [] {
        progress := Idle;
        return 0, false;
      }
      acquired := queue.dirty[0];
      queue := queue.Acquire();
      taken := taken + multiset{acquired};
      progress := Holding(arg, acquired);
      ok := true;
    }

    method AcquireAndCommitQueued(buffer: Buffer) returns (none: bool)
      requires progress == Queued(buffer)
      modifies this, window
      ensures Current() == AcquireAndCommit(old(Current()), buffer)
      ensures accepted == if none then old(accepted) + [buffer] else old(accepted)
    {
      var acquired;
      acquired, none := AcquireQueued(buffer);
      if none {
        CommitSurface(acquired, buffer);
      }
    }

    /** __tpl_wayland_egl_surface_wait_vblank, which returns once the callback has run. */
    method WaitForVblank()
      modifies this`vblankDone, this`log
      ensures Current() == WaitVblank(old(Current()))
    {
      if !vblankDone {
        VblankCallback();
      }
    }

    /** enqueue_buffer; `none` says that it returned TPL_ERROR_NONE. */
    method EnqueueSurfaceBuffer(buffer: Buffer) returns (none: bool)
      requires progress.Idle? && buffer in dequeued
      modifies this, window
      ensures Current() == EnqueueBuffer(old(Current()), buffer)
      ensures accepted == if none then old(accepted) + [buffer] else old(accepted)
      ensures old(Inv(Current())) ==>
                none && log == (if old(vblankDone) then old(log) else old(log) + [VblankDone]) + [Commit(buffer)]
    {
      if Inv(Current()) {
        EnqueueCommits(Current(), buffer);
      }
      WaitForVblank();
      StopTrackingBuffer(buffer);
      none := PresentUntracked(buffer);
    }

    /** The rest of enqueue_buffer. */
    method PresentUntracked(buffer: Buffer) returns (none: bool)
      requires progress == Untracked(buffer)
      modifies this, window
      ensures Current() == QueueAndCommit(old(Current()), buffer)
      ensures accepted == if none then old(accepted) + [buffer] else old(accepted)
    {
      var queued;
      queued, none := TryQueue(buffer);
      assert Current() == QueueBuffer(old(Current()), buffer);
      if queued {
        none := AcquireAndCommitQueued(buffer);
      }
    }

    method ReleaseCallback(buffer: Buffer)
      modifies this
      ensures Current() == ReleaseBuffer(old(Current()), buffer)
      ensures dropped == old(dropped) + multiset{buffer}
      ensures buffer in bufferReset ==> attached == L.RemoveFirst(old(attached), buffer)
      ensures queue == if buffer in bufferReset && !bufferReset[buffer] then old(queue).Release(buffer) else old(queue)
    {
      if buffer in bufferReset {
        attached := L.RemoveFirst(attached, buffer);
        if !bufferReset[buffer] {
          strayReleases := strayReleases + if queue.In(buffer, Acquired) then 0 else 1;
          queue := queue.Release(buffer);
        }
      }
      dropped := dropped + multiset{buffer};
    }

    method DropAttachedBuffers()
      modifies this`attached, this`dropped
      ensures Current() == DropAttached(old(Current()))
    {
      while attached != []
        invariant dropped + multiset(attached) == old(dropped) + multiset(old(attached))
        decreases |attached|
      {
        assert attached == [attached[0]] + attached[1..];
        dropped := dropped + multiset{attached[0]};
        attached := attached[1..];
      }
    }

    method FlushSurfaceQueue(notifies: bool)
      modifies this`queue, this`reset, this`bufferReset
      ensures Current() == FlushQueue(old(Current()), notifies)
    {
      queue := queue.Reset(queue.width, queue.height);
      if notifies {
        ResetCallback();
      }
    }

    method FlushCallback(notifies: bool)
      modifies this
      ensures Current() == FlushBuffers(old(Current()), notifies)
      ensures attached == [] && dropped == old(dropped) + multiset(old(attached)) && queue.states == map[]
    {
      FlushSurfaceQueue(notifies);
      DropAttachedBuffers();
    }

    method ResizeCallback()
      modifies this`resized
      ensures resized == (old(resized) || window.width != queue.width || window.height != queue.height)
    {
      if window.width != queue.width || window.height != queue.height {
        resized := true;
      }
    }

    method ResizeWindow(width: int, height: int, dx: int, dy: int)
      modifies this`resized, window
      ensures Current() == Apply(old(Current()), WindowResize(width, height, dx, dy))
    {
      var notified := window.ResizeWindow(width, height, dx, dy);
      if notified {
        ResizeCallback();
      }
    }

    method RotateWindow(rotation: W.Rotation)
      modifies this`resized, window
      ensures Current() == Apply(old(Current()), WindowRotate(rotation))
    {
      var notified := window.SetWindowRotation(rotation);
      if notified {
        ResizeCallback();
      }
    }

    method ValidateSurface() returns (valid: bool)
      ensures valid <==> Validate(Current())
    {
      valid := !(resized || reset);
    }
  }
}
