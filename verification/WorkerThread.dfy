/** The fence-waiting worker thread and the producers that feed it. Producers push
    buffers and write an eventfd; the worker drains every registered surface, parks
    in epoll_wait on the eventfd and on the fences it registered, and draws.

    The machine below interleaves all parties at the grain of one queue access, one
    system call or one callback. The main results hold in every reachable state: each
    buffer is drawn exactly once and in submission order, never before a fence it was
    parked on, and no wake-up is lost. */
module WorkerThread {
  import opened Collections

  type Buffer = nat
  type SurfaceId = nat

  /** The sync object that came with the index-th submission to a surface. */
  datatype Fence = Fence(surface: SurfaceId, index: nat)

  /** Pending buffers come from the surface's tbm queue or from its draw_wait_buffer_get
      callback. The worker's loops over the two take the same steps, and both are FIFO. */
  datatype Surface = Surface(
    pending: seq<Buffer>,           // submitted and not yet taken by the worker
    drawWaitBuffer: Option<Buffer>, // the buffer parked on its fence
    waitSync: map<Buffer, Fence>,   // wait_sync of a buffer; absent stands for -1
    submitted: seq<Buffer>,         // history of the producers
    drawn: seq<Buffer>,             // history of draw_done
    fenced: set<nat>,               // submissions that came with a fence
    parked: set<nat>)               // submissions whose fence entered the epoll set

  datatype Event = EventFd | FenceReady(surface: SurfaceId)

  /** Where the worker is. While Preparing it holds the surface mutex, works on the
      at-th list entry, and may hold a buffer it has taken and not yet disposed of. */
  datatype Pc =
    | Preparing(at: nat, held: Option<Buffer>)
    | Polling
    | Handling(events: seq<Event>)

  datatype Machine = Machine(
    surfaces: map<SurfaceId, Surface>,
    list: seq<SurfaceId>,           // surface_list
    counter: nat,                   // value of the eventfd
    owed: nat,                      // producers between their push and their notify
    epoll: map<Fence, SurfaceId>,   // fences in the epoll set
    signaled: set<Fence>,
    refused: set<Fence>,            // fences epoll_ctl does not accept
    pc: Pc)

  const NEW_SURFACE := Surface([], None, map[], [], [], {}, {})

  // ---------------------------------------------------------------------------
  // Effects on one surface
  // ---------------------------------------------------------------------------

  /** draw_done: the client closes the buffer's fence and takes the buffer. */
  function Draw(s: Surface, b: Buffer): Surface {
    s.(drawn := s.drawn + [b], waitSync := s.waitSync - {b})
  }

  function Push(s: Surface, id: SurfaceId, b: Buffer, fenced: bool): Surface {
    s.(pending := s.pending + [b],
       submitted := s.submitted + [b],
       fenced := if fenced then s.fenced + {|s.submitted|} else s.fenced,
       waitSync := if fenced then s.waitSync[b := Fence(id, |s.submitted|)] else s.waitSync - {b})
  }

  /** Closing a descriptor drops it from the epoll set. */
  function Closed(epoll: map<Fence, SurfaceId>, s: Surface, b: Buffer): map<Fence, SurfaceId> {
    if b in s.waitSync then epoll - {s.waitSync[b]} else epoll
  }

  // ---------------------------------------------------------------------------
  // Steps
  // ---------------------------------------------------------------------------

  ghost predicate Init(m: Machine) {
    m == Machine(map[], [], 0, 0, map[], {}, {}, Preparing(0, None))
  }

  function HeldBy(m: Machine, id: SurfaceId): Option<Buffer> {
    if m.pc.Preparing? && m.pc.at < |m.list| && m.list[m.pc.at] == id then m.pc.held else None
  }

  /** A producer submits a buffer it owns: one the worker is done with. */
  ghost predicate ProducerPush(m: Machine, m': Machine, id: SurfaceId, b: Buffer, fenced: bool) {
    && id in m.list && id in m.surfaces
    && b !in m.surfaces[id].pending
    && m.surfaces[id].drawWaitBuffer != Some(b) && HeldBy(m, id) != Some(b)
    && m' == m.(surfaces := m.surfaces[id := Push(m.surfaces[id], id, b, fenced)], owed := m.owed + 1)
  }

  ghost predicate ProducerNotify(m: Machine, m': Machine) {
    m.owed > 0 && m' == m.(owed := m.owed - 1, counter := m.counter + 1)
  }

  ghost predicate Insert(m: Machine, m': Machine, id: SurfaceId) {
    && !m.pc.Preparing? && id !in m.surfaces
    && m' == m.(surfaces := m.surfaces[id := NEW_SURFACE], list := m.list + [id])
  }

  ghost predicate Remove(m: Machine, m': Machine, k: nat) {
    && !m.pc.Preparing? && k < |m.list|
    && m' == m.(list := m.list[..k] + m.list[k + 1..])
  }

  ghost predicate Signal(m: Machine, m': Machine, f: Fence) {
    m' == m.(signaled := m.signaled + {f})
  }

  ghost predicate Refuse(m: Machine, m': Machine, f: Fence) {
    m' == m.(refused := m.refused + {f})
  }

  ghost predicate AtSurface(m: Machine) {
    m.pc.Preparing? && m.pc.at < |m.list| && m.list[m.pc.at] in m.surfaces
  }

  /** The worker leaves a surface that has a parked buffer or nothing to take. */
  ghost predicate Skip(m: Machine, m': Machine) {
    && AtSurface(m) && m.pc.held == None
    && var s := m.surfaces[m.list[m.pc.at]];
    && (s.drawWaitBuffer.Some? || s.pending == [])
    && m' == m.(pc := Preparing(m.pc.at + 1, None))
  }

  ghost predicate Acquire(m: Machine, m': Machine) {
    && AtSurface(m) && m.pc.held == None
    && var id := m.list[m.pc.at]; var s := m.surfaces[id];
    && s.drawWaitBuffer == None && s.pending != []
    && m' == m.(surfaces := m.surfaces[id := s.(pending := s.pending[1..])],
                pc := Preparing(m.pc.at, Some(s.pending[0])))
  }

  /** epoll_ctl adds a descriptor it does not refuse and does not have yet. */
  predicate Accepts(m: Machine, f: Fence) {
    f !in m.epoll && f !in m.refused
  }

  /** The held buffer has a fence, epoll_ctl accepts it, and the buffer is parked. */
  ghost predicate Park(m: Machine, m': Machine) {
    && AtSurface(m) && m.pc.held.Some?
    && var id := m.list[m.pc.at]; var s := m.surfaces[id]; var b := m.pc.held.value;
    && b in s.waitSync && Accepts(m, s.waitSync[b])
    && m' == m.(surfaces := m.surfaces[id := s.(drawWaitBuffer := Some(b), parked := s.parked + {|s.drawn|})],
                epoll := m.epoll[s.waitSync[b] := id],
                pc := Preparing(m.pc.at + 1, None))
  }

  /** The held buffer has no fence, or epoll_ctl does not accept it, and is drawn at once. */
  ghost predicate DrawNow(m: Machine, m': Machine) {
    && AtSurface(m) && m.pc.held.Some?
    && var id := m.list[m.pc.at]; var s := m.surfaces[id]; var b := m.pc.held.value;
    && (b in s.waitSync ==> !Accepts(m, s.waitSync[b]))
    && m' == m.(surfaces := m.surfaces[id := Draw(s, b)],
                epoll := Closed(m.epoll, s, b),
                pc := Preparing(m.pc.at, None))
  }

  ghost predicate AllPrepared(m: Machine, m': Machine) {
    && m.pc.Preparing? && m.pc.at >= |m.list| && m.pc.held == None
    && m' == m.(pc := Polling)
  }

  /** epoll_wait can report e: the eventfd is readable, or a fence of the surface signalled. */
  ghost predicate Ready(m: Machine, e: Event) {
    match e
    case EventFd => m.counter > 0
    case FenceReady(id) => exists f :: f in m.epoll && f in m.signaled && m.epoll[f] == id
  }

  ghost predicate Poll(m: Machine, m': Machine, events: seq<Event>) {
    && m.pc.Polling? && events != []
    && (forall e | e in events :: Ready(m, e))
    && (forall i, j | 0 <= i < j < |events| && events[i] == EventFd :: events[j] != EventFd)
    && m' == m.(pc := Handling(events))
  }

  /** Reading the eventfd returns its value and resets it. */
  ghost predicate ReadEventFd(m: Machine, m': Machine) {
    && m.pc.Handling? && m.pc.events != [] && m.pc.events[0] == EventFd && m.counter > 0
    && m' == m.(counter := 0, pc := Handling(m.pc.events[1..]))
  }

  /** Whether a fence event draws: tbm_sync_fence_wait says that the parked buffer's
      fence signalled, or the buffer has no fence any more. On error, on timeout, and
      when nothing is parked, nothing happens. */
  predicate FenceDraws(s: Surface, signaled: set<Fence>, waitFails: bool) {
    && s.drawWaitBuffer.Some?
    && (s.drawWaitBuffer.value in s.waitSync ==> s.waitSync[s.drawWaitBuffer.value] in signaled && !waitFails)
  }

  ghost predicate FenceEvent(m: Machine, m': Machine, waitFails: bool) {
    && m.pc.Handling? && m.pc.events != [] && m.pc.events[0].FenceReady?
    && var id := m.pc.events[0].surface;
    && id in m.surfaces
    && var s := m.surfaces[id]; var next := m.(pc := Handling(m.pc.events[1..]));
    m' == if FenceDraws(s, m.signaled, waitFails) then DrawParked(next, id) else next
  }

  function DrawParked(m: Machine, id: SurfaceId): Machine
    requires id in m.surfaces && m.surfaces[id].drawWaitBuffer.Some?
  {
    var s := m.surfaces[id];
    var b := s.drawWaitBuffer.value;
    m.(surfaces := m.surfaces[id := Draw(s, b).(drawWaitBuffer := None)], epoll := Closed(m.epoll, s, b))
  }

  ghost predicate EventsDone(m: Machine, m': Machine) {
    && m.pc == Handling([])
    && m' == m.(pc := Preparing(0, None))
  }

  ghost predicate WorkerStep(m: Machine, m': Machine) {
    || Skip(m, m') || Acquire(m, m') || Park(m, m') || DrawNow(m, m') || AllPrepared(m, m')
    || (exists events :: Poll(m, m', events))
    || ReadEventFd(m, m') || (exists waitFails :: FenceEvent(m, m', waitFails)) || EventsDone(m, m')
  }

  ghost predicate EnvironmentStep(m: Machine, m': Machine) {
    || (exists id, b, fenced :: ProducerPush(m, m', id, b, fenced))
    || ProducerNotify(m, m')
    || (exists id :: Insert(m, m', id))
    || (exists k :: Remove(m, m', k))
    || (exists f :: Signal(m, m', f))
    || (exists f :: Refuse(m, m', f))
  }

  ghost predicate Next(m: Machine, m': Machine) {
    WorkerStep(m, m') || EnvironmentStep(m, m')
  }

  ghost predicate IsRun(run: seq<Machine>) {
    run != [] && Init(run[0]) && forall i | 0 <= i < |run| - 1 :: Next(run[i], run[i + 1])
  }

  // ---------------------------------------------------------------------------
  // The invariant
  // ---------------------------------------------------------------------------

  /** What the worker has taken from the surface, in order: drawn, then in hand, then parked. */
  function Taken(m: Machine, id: SurfaceId, s: Surface): seq<Buffer> {
    s.drawn + AsSeq(HeldBy(m, id)) + AsSeq(s.drawWaitBuffer)
  }

  ghost predicate InOrder(m: Machine, id: SurfaceId, s: Surface) {
    && s.submitted == Taken(m, id, s) + s.pending
    && (HeldBy(m, id).Some? ==> s.drawWaitBuffer == None)
  }

  /** The buffers in flight are distinct, and each fence names the submission of its buffer. */
  ghost predicate FencesNamed(id: SurfaceId, s: Surface) {
    && |s.drawn| <= |s.submitted|
    && Distinct(s.submitted[|s.drawn|..])
    && forall b | b in s.waitSync ::
        var f := s.waitSync[b];
        f.surface == id && |s.drawn| <= f.index < |s.submitted| && s.submitted[f.index] == b
  }

  /** A submission that came with a fence keeps it until it is drawn. */
  ghost predicate FencesHeld(id: SurfaceId, s: Surface) {
    forall k | k in s.fenced ::
      k < |s.submitted| &&
      (|s.drawn| <= k ==> s.submitted[k] in s.waitSync && s.waitSync[s.submitted[k]] == Fence(id, k))
  }

  /** And by then the fence has signalled, unless epoll_ctl refused it. */
  ghost predicate FencesAwaited(m: Machine, id: SurfaceId, s: Surface) {
    forall k | k in s.fenced && k < |s.drawn| :: Fence(id, k) in m.signaled || Fence(id, k) in m.refused
  }

  /** A parked buffer has its fence in the epoll set, and the fences of submissions
      that were parked and then drawn have signalled. */
  ghost predicate FencesKept(m: Machine, id: SurfaceId, s: Surface) {
    && (s.drawWaitBuffer.Some? ==>
          s.drawWaitBuffer.value in s.waitSync && s.waitSync[s.drawWaitBuffer.value] in m.epoll)
    && (forall k | k in s.parked :: k < |s.drawn| || (k == |s.drawn| && s.drawWaitBuffer.Some?))
    && (forall k | k in s.parked && k < |s.drawn| :: Fence(id, k) in m.signaled)
  }

  /** Somebody will see to the surface's pending buffers. */
  ghost predicate Served(m: Machine, id: SurfaceId) {
    id in m.surfaces ==>
      || m.surfaces[id].pending == []
      || m.surfaces[id].drawWaitBuffer.Some?
      || m.counter > 0
      || m.owed > 0
  }

  ghost predicate Wellformed(m: Machine) {
    && (forall id | id in m.list :: id in m.surfaces)
    && (m.pc.Preparing? && m.pc.held.Some? ==> m.pc.at < |m.list|)
    && (forall f | f in m.epoll ::
          && m.epoll[f] == f.surface && f.surface in m.surfaces
          && m.surfaces[f.surface].drawWaitBuffer.Some?
          && f.index == |m.surfaces[f.surface].drawn|)
    && (m.pc.Handling? ==>
          && (forall e | e in m.pc.events && e.FenceReady? :: e.surface in m.surfaces)
          && (EventFd in m.pc.events ==> m.counter > 0)
          && (forall i, j | 0 <= i < j < |m.pc.events| && m.pc.events[i] == EventFd :: m.pc.events[j] != EventFd))
  }

  ghost predicate AllServed(m: Machine) {
    match m.pc
    case Preparing(at, _) => forall i | 0 <= i < at && i < |m.list| :: Served(m, m.list[i])
    case Polling => forall i | 0 <= i < |m.list| :: Served(m, m.list[i])
    case Handling(_) => true
  }

  ghost predicate SurfaceInv(m: Machine, id: SurfaceId) {
    id in m.surfaces ==>
      && InOrder(m, id, m.surfaces[id])
      && FencesNamed(id, m.surfaces[id])
      && FencesKept(m, id, m.surfaces[id])
      && FencesHeld(id, m.surfaces[id])
      && FencesAwaited(m, id, m.surfaces[id])
  }

  ghost predicate Inv(m: Machine) {
    Wellformed(m) && AllServed(m) && forall id :: SurfaceInv(m, id)
  }

  // ---------------------------------------------------------------------------
  // Every step keeps the invariant
  // ---------------------------------------------------------------------------

  lemma OtherSurface(m: Machine, m': Machine, id: SurfaceId)
    requires SurfaceInv(m, id)
    requires id in m'.surfaces ==> id in m.surfaces && m.surfaces[id] == m'.surfaces[id]
    requires HeldBy(m, id) == HeldBy(m', id) && m.signaled <= m'.signaled && m.refused <= m'.refused
    requires forall f | f in m.epoll && f.surface == id :: f in m'.epoll
    ensures SurfaceInv(m', id)
  {
  }

  /** The fence of the buffer at the head of the flight carries its index. */
  lemma HeadFence(id: SurfaceId, s: Surface, b: Buffer, rest: seq<Buffer>)
    requires FencesNamed(id, s) && s.submitted == s.drawn + [b] + rest
    ensures b in s.waitSync ==> s.waitSync[b] == Fence(id, |s.drawn|)
    ensures forall c | c in s.waitSync && c != b :: s.waitSync[c].index > |s.drawn|
  {
    var flight := s.submitted[|s.drawn|..];
    assert flight == [b] + rest && flight[0] == b;
    forall c | c in s.waitSync
      ensures c == flight[s.waitSync[c].index - |s.drawn|]
    {
    }
  }

  lemma DrawKeepsNames(id: SurfaceId, s: Surface, b: Buffer, rest: seq<Buffer>)
    requires FencesNamed(id, s) && s.submitted == s.drawn + [b] + rest
    ensures FencesNamed(id, Draw(s, b))
  {
    HeadFence(id, s, b, rest);
    assert s.submitted[|s.drawn| + 1..] == s.submitted[|s.drawn|..][1..];
  }

  /** Drawing the head of the flight once its fence, if any, has signalled or was refused. */
  lemma DrawKeepsFences(m: Machine, id: SurfaceId, s: Surface, b: Buffer, rest: seq<Buffer>)
    requires FencesNamed(id, s) && FencesHeld(id, s) && FencesAwaited(m, id, s) && s.submitted == s.drawn + [b] + rest
    requires b in s.waitSync ==> s.waitSync[b] in m.signaled || s.waitSync[b] in m.refused
    ensures FencesHeld(id, Draw(s, b)) && FencesAwaited(m, id, Draw(s, b))
  {
    assert s.submitted[|s.drawn|] == b;
    var flight := s.submitted[|s.drawn|..];
    forall k | k in s.fenced && |s.drawn| < k ensures s.submitted[k] != b {
      assert flight[k - |s.drawn|] == s.submitted[k] && flight[0] == b;
    }
  }

  /** Taking the oldest pending buffer in hand keeps the order. */
  lemma HandOver(drawn: seq<Buffer>, pending: seq<Buffer>)
    requires pending != []
    ensures drawn + [] + [] + pending == drawn + [pending[0]] + [] + pending[1..]
  {
    assert pending == [pending[0]] + pending[1..];
  }

  lemma AcquireKeepsSurface(m: Machine, m': Machine, id: SurfaceId)
    requires Acquire(m, m') && SurfaceInv(m, id) && id == m.list[m.pc.at]
    ensures SurfaceInv(m', id)
  {
    var s := m.surfaces[id];
    HandOver(s.drawn, s.pending);
    assert HeldBy(m, id) == None && HeldBy(m', id) == Some(s.pending[0]);
    assert InOrder(m', id, m'.surfaces[id]);
  }

  lemma AcquireKeepsInv(m: Machine, m': Machine)
    requires Inv(m) && Acquire(m, m')
    ensures Inv(m')
  {
    var id := m.list[m.pc.at];
    assert SurfaceInv(m, id);
    AcquireKeepsSurface(m, m', id);
    forall other | other != id ensures SurfaceInv(m', other) {
      OtherSurface(m, m', other);
    }
  }

  lemma ParkKeepsSurface(m: Machine, m': Machine, id: SurfaceId)
    requires Park(m, m') && SurfaceInv(m, id) && id == m.list[m.pc.at]
    ensures SurfaceInv(m', id)
    ensures m.surfaces[id].waitSync[m.pc.held.value] == Fence(id, |m.surfaces[id].drawn|)
  {
    var s, b := m.surfaces[id], m.pc.held.value;
    HeadFence(id, s, b, s.pending);
    assert Taken(m', id, m'.surfaces[id]) == s.drawn + [b];
  }

  lemma ParkKeepsInv(m: Machine, m': Machine)
    requires Inv(m) && Park(m, m')
    ensures Inv(m')
  {
    var id := m.list[m.pc.at];
    assert SurfaceInv(m, id);
    ParkKeepsSurface(m, m', id);
    forall other | other != id ensures SurfaceInv(m', other) {
      OtherSurface(m, m', other);
    }
  }

  lemma DrawNowKeepsInv(m: Machine, m': Machine)
    requires Inv(m) && DrawNow(m, m')
    ensures Inv(m')
  {
    var id := m.list[m.pc.at];
    var s, s', b := m.surfaces[id], m'.surfaces[id], m.pc.held.value;
    assert SurfaceInv(m, id);
    assert s.submitted == s.drawn + [b] + s.pending;
    DrawKeepsNames(id, s, b, s.pending);
    HeadFence(id, s, b, s.pending);
    DrawKeepsFences(m, id, s, b, s.pending);
    assert Taken(m', id, s') == s.drawn + [b];
    forall other | other != id ensures SurfaceInv(m', other) {
      OtherSurface(m, m', other);
    }
  }

  lemma DrawParkedKeepsSurface(m: Machine, id: SurfaceId)
    requires SurfaceInv(m, id) && id in m.surfaces && m.pc.Handling?
    requires m.surfaces[id].drawWaitBuffer.Some? && FenceDraws(m.surfaces[id], m.signaled, false)
    ensures SurfaceInv(DrawParked(m, id), id)
    ensures m.surfaces[id].waitSync[m.surfaces[id].drawWaitBuffer.value] == Fence(id, |m.surfaces[id].drawn|)
  {
    var s, b := m.surfaces[id], m.surfaces[id].drawWaitBuffer.value;
    assert s.submitted == s.drawn + [b] + s.pending;
    HeadFence(id, s, b, s.pending);
    DrawKeepsNames(id, s, b, s.pending);
    DrawKeepsFences(m, id, s, b, s.pending);
    assert Taken(DrawParked(m, id), id, DrawParked(m, id).surfaces[id]) == s.drawn + [b];
  }

  lemma DrawParkedKeepsInv(m: Machine, id: SurfaceId)
    requires Inv(m) && id in m.surfaces && m.pc.Handling?
    requires m.surfaces[id].drawWaitBuffer.Some? && FenceDraws(m.surfaces[id], m.signaled, false)
    ensures Inv(DrawParked(m, id))
  {
    assert SurfaceInv(m, id);
    DrawParkedKeepsSurface(m, id);
    forall other | other != id ensures SurfaceInv(DrawParked(m, id), other) {
      OtherSurface(m, DrawParked(m, id), other);
    }
  }

  lemma FenceEventKeepsInv(m: Machine, m': Machine, waitFails: bool)
    requires Inv(m) && FenceEvent(m, m', waitFails)
    ensures Inv(m')
  {
    var id := m.pc.events[0].surface;
    var next := m.(pc := Handling(m.pc.events[1..]));
    QuietStepKeepsInv(m, next);
    if FenceDraws(m.surfaces[id], m.signaled, waitFails) {
      DrawParkedKeepsInv(next, id);
    }
  }

  lemma PushKeepsNames(id: SurfaceId, s: Surface, b: Buffer, fenced: bool)
    requires FencesNamed(id, s) && b !in s.submitted[|s.drawn|..]
    ensures FencesNamed(id, Push(s, id, b, fenced))
  {
    var s' := Push(s, id, b, fenced);
    assert s'.submitted[|s.drawn|..] == s.submitted[|s.drawn|..] + [b];
  }

  lemma FlightOf(m: Machine, id: SurfaceId, s: Surface)
    requires InOrder(m, id, s)
    ensures |s.drawn| <= |s.submitted|
    ensures s.submitted[|s.drawn|..] == AsSeq(HeldBy(m, id)) + AsSeq(s.drawWaitBuffer) + s.pending
  {
  }

  lemma PushKeepsOrder(m: Machine, m': Machine, id: SurfaceId, s: Surface, b: Buffer, fenced: bool)
    requires InOrder(m, id, s) && HeldBy(m, id) == HeldBy(m', id)
    ensures InOrder(m', id, Push(s, id, b, fenced))
  {
    assert Taken(m, id, s) + s.pending + [b] == Taken(m, id, s) + (s.pending + [b]);
  }

  lemma PushKeepsFences(m: Machine, m': Machine, id: SurfaceId, s: Surface, b: Buffer, fenced: bool)
    requires FencesKept(m, id, s) && s.drawWaitBuffer != Some(b)
    requires m'.epoll == m.epoll && m'.signaled == m.signaled
    ensures FencesKept(m', id, Push(s, id, b, fenced))
  {
  }

  lemma PushKeepsHeld(id: SurfaceId, s: Surface, b: Buffer, fenced: bool)
    requires FencesHeld(id, s) && |s.drawn| <= |s.submitted| && b !in s.submitted[|s.drawn|..]
    ensures FencesHeld(id, Push(s, id, b, fenced))
  {
    forall k | k in s.fenced && |s.drawn| <= k ensures s.submitted[k] != b {
      assert s.submitted[k] == s.submitted[|s.drawn|..][k - |s.drawn|];
    }
  }

  lemma PushKeepsSurface(m: Machine, m': Machine, id: SurfaceId, b: Buffer, fenced: bool)
    requires ProducerPush(m, m', id, b, fenced) && SurfaceInv(m, id)
    ensures SurfaceInv(m', id)
  {
    var s := m.surfaces[id];
    FlightOf(m, id, s);
    PushKeepsNames(id, s, b, fenced);
    PushKeepsOrder(m, m', id, s, b, fenced);
    PushKeepsFences(m, m', id, s, b, fenced);
    PushKeepsHeld(id, s, b, fenced);
    assert FencesAwaited(m', id, Push(s, id, b, fenced));
  }

  lemma PushKeepsInv(m: Machine, m': Machine, id: SurfaceId, b: Buffer, fenced: bool)
    requires Inv(m) && ProducerPush(m, m', id, b, fenced)
    ensures Inv(m')
  {
    assert SurfaceInv(m, id);
    PushKeepsSurface(m, m', id, b, fenced);
    forall other | other != id ensures SurfaceInv(m', other) {
      OtherSurface(m, m', other);
    }
  }

  lemma RemoveKeepsInv(m: Machine, m': Machine, k: nat)
    requires Inv(m) && Remove(m, m', k)
    ensures Inv(m')
  {
    assert forall id | id in m'.list :: id in m.list;
    forall i | 0 <= i < |m'.list| && m.pc.Polling? ensures Served(m', m'.list[i]) {
      assert Served(m, m.list[if i < k then i else i + 1]);
    }
    forall id ensures SurfaceInv(m', id) {
      OtherSurface(m, m', id);
    }
  }

  lemma InsertKeepsInv(m: Machine, m': Machine, id: SurfaceId)
    requires Inv(m) && Insert(m, m', id)
    ensures Inv(m')
  {
    forall other ensures SurfaceInv(m', other) {
      if other != id {
        OtherSurface(m, m', other);
      }
    }
  }

  /** The steps that change no surface. */
  lemma QuietStepKeepsInv(m: Machine, m': Machine)
    requires Inv(m) && m'.surfaces == m.surfaces && m'.epoll == m.epoll
    requires m.signaled <= m'.signaled && m.refused <= m'.refused
    requires forall id :: HeldBy(m, id) == HeldBy(m', id)
    requires Wellformed(m') && AllServed(m')
    ensures Inv(m')
  {
    forall id ensures SurfaceInv(m', id) {
      OtherSurface(m, m', id);
    }
  }

  lemma WorkerStepKeepsInv(m: Machine, m': Machine)
    requires Inv(m) && WorkerStep(m, m')
    ensures Inv(m')
  {
    if Acquire(m, m') {
      AcquireKeepsInv(m, m');
    } else if Park(m, m') {
      ParkKeepsInv(m, m');
    } else if DrawNow(m, m') {
      DrawNowKeepsInv(m, m');
    } else if exists waitFails :: FenceEvent(m, m', waitFails) {
      var waitFails :| FenceEvent(m, m', waitFails);
      FenceEventKeepsInv(m, m', waitFails);
    } else if exists events :: Poll(m, m', events) {
      var events :| Poll(m, m', events);
      PollKeepsInv(m, m', events);
    } else {
      QuietStepKeepsInv(m, m');
    }
  }

  lemma PollKeepsInv(m: Machine, m': Machine, events: seq<Event>)
    requires Inv(m) && Poll(m, m', events)
    ensures Inv(m')
  {
    forall e | e in events ensures e.FenceReady? ==> e.surface in m.surfaces {
      assert Ready(m, e);
    }
    QuietStepKeepsInv(m, m');
  }

  lemma EnvironmentStepKeepsInv(m: Machine, m': Machine)
    requires Inv(m) && EnvironmentStep(m, m')
    ensures Inv(m')
  {
    if exists id, b, fenced :: ProducerPush(m, m', id, b, fenced) {
      var id, b, fenced :| ProducerPush(m, m', id, b, fenced);
      PushKeepsInv(m, m', id, b, fenced);
    } else if exists id :: Insert(m, m', id) {
      var id :| Insert(m, m', id);
      InsertKeepsInv(m, m', id);
    } else if exists k :: Remove(m, m', k) {
      var k :| Remove(m, m', k);
      RemoveKeepsInv(m, m', k);
    } else {
      QuietStepKeepsInv(m, m');
    }
  }

  /** The invariant holds all along every run. */
  lemma {:induction false} RunKeepsInv(run: seq<Machine>, n: nat)
    requires IsRun(run) && n < |run|
    ensures Inv(run[n])
  {
    if n > 0 {
      RunKeepsInv(run, n - 1);
      if WorkerStep(run[n - 1], run[n]) {
        WorkerStepKeepsInv(run[n - 1], run[n]);
      } else {
        EnvironmentStepKeepsInv(run[n - 1], run[n]);
      }
    }
  }

  // ---------------------------------------------------------------------------
  // What every reachable state guarantees
  // ---------------------------------------------------------------------------

  /** No lost wake-up: when the worker sits in epoll_wait, a registered surface has
      nothing pending, or waits on a fence that is in the epoll set, or the eventfd is
      readable, or a producer that pushed has yet to notify. */
  lemma NoLostWakeup(run: seq<Machine>, n: nat, id: SurfaceId)
    requires IsRun(run) && n < |run| && run[n].pc.Polling? && id in run[n].list
    ensures id in run[n].surfaces
    ensures var m := run[n]; var s := m.surfaces[id];
      || s.pending == []
      || (s.drawWaitBuffer.Some? && Fence(id, |s.drawn|) in m.epoll)
      || m.counter > 0
      || m.owed > 0
  {
    var m := run[n];
    RunKeepsInv(run, n);
    var i :| 0 <= i < |m.list| && m.list[i] == id;
    assert Served(m, m.list[i]) && SurfaceInv(m, id);
    var s := m.surfaces[id];
    if s.drawWaitBuffer.Some? {
      HeadFence(id, s, s.drawWaitBuffer.value, s.pending);
    }
  }

  /** The worker takes a surface's buffers in submission order and drops none. */
  lemma DrawnOnceInOrder(run: seq<Machine>, n: nat, id: SurfaceId)
    requires IsRun(run) && n < |run| && id in run[n].surfaces
    ensures var s := run[n].surfaces[id];
      s.submitted == s.drawn + AsSeq(HeldBy(run[n], id)) + AsSeq(s.drawWaitBuffer) + s.pending
  {
    RunKeepsInv(run, n);
    assert SurfaceInv(run[n], id);
  }

  /** A submission that was parked on its fence is drawn only after that fence signalled. */
  lemma ParkedWaitForTheirFence(run: seq<Machine>, n: nat, id: SurfaceId, k: nat)
    requires IsRun(run) && n < |run| && id in run[n].surfaces
    requires k in run[n].surfaces[id].parked && k < |run[n].surfaces[id].drawn|
    ensures Fence(id, k) in run[n].signaled
  {
    RunKeepsInv(run, n);
    assert SurfaceInv(run[n], id);
  }

  /** A submission that came with a fence is drawn only after the fence signalled, unless
      epoll_ctl refused the fence. */
  lemma FencedWaitForTheirFence(run: seq<Machine>, n: nat, id: SurfaceId, k: nat)
    requires IsRun(run) && n < |run| && id in run[n].surfaces
    requires k in run[n].surfaces[id].fenced && k < |run[n].surfaces[id].drawn|
    ensures Fence(id, k) in run[n].signaled || Fence(id, k) in run[n].refused
  {
    RunKeepsInv(run, n);
    assert SurfaceInv(run[n], id);
  }

  /** And once it has signalled, the event that reports it draws the parked submission. */
  lemma SignalledParkedIsDrawn(m: Machine, m': Machine, b: Buffer)
    requires Inv(m) && FenceEvent(m, m', false) && m.surfaces[m.pc.events[0].surface].drawWaitBuffer == Some(b)
    requires Fence(m.pc.events[0].surface, |m.surfaces[m.pc.events[0].surface].drawn|) in m.signaled
    ensures var id := m.pc.events[0].surface;
      && m'.surfaces[id].drawn == m.surfaces[id].drawn + [b] && m'.surfaces[id].drawWaitBuffer == None
      && b !in m'.surfaces[id].waitSync && Fence(id, |m.surfaces[id].drawn|) !in m'.epoll
  {
    var id := m.pc.events[0].surface;
    assert SurfaceInv(m, id);
    HeadFence(id, m.surfaces[id], b, m.surfaces[id].pending);
  }

  lemma WorkerHistoriesGrow(m: Machine, m': Machine, id: SurfaceId)
    requires WorkerStep(m, m') && id in m.surfaces
    ensures id in m'.surfaces
    ensures m.surfaces[id].submitted <= m'.surfaces[id].submitted
    ensures m.surfaces[id].drawn <= m'.surfaces[id].drawn
    ensures m.surfaces[id].parked <= m'.surfaces[id].parked && m.surfaces[id].fenced <= m'.surfaces[id].fenced
  {
  }

  /** The two histories are histories: no step takes anything back. */
  lemma HistoriesGrow(m: Machine, m': Machine, id: SurfaceId)
    requires Inv(m) && Next(m, m') && id in m.surfaces
    ensures id in m'.surfaces
    ensures m.surfaces[id].submitted <= m'.surfaces[id].submitted
    ensures m.surfaces[id].drawn <= m'.surfaces[id].drawn
    ensures m.surfaces[id].parked <= m'.surfaces[id].parked && m.surfaces[id].fenced <= m'.surfaces[id].fenced
  {
    if WorkerStep(m, m') {
      WorkerHistoriesGrow(m, m', id);
    }
  }

  /** A worker that blocks although every fence it registered has signalled, with no
      producer about to notify, has drawn everything that was submitted. */
  lemma BlockedMeansDrained(run: seq<Machine>, n: nat, id: SurfaceId)
    requires IsRun(run) && n < |run| && run[n].pc.Polling? && run[n].owed == 0
    requires forall e :: !Ready(run[n], e)
    requires forall f | f in run[n].epoll :: f in run[n].signaled
    requires id in run[n].list
    ensures id in run[n].surfaces && run[n].surfaces[id].drawn == run[n].surfaces[id].submitted
  {
    var m := run[n];
    NoLostWakeup(run, n, id);
    DrawnOnceInOrder(run, n, id);
    RunKeepsInv(run, n);
    SignalledFenceIsReady(m, id);
    assert Ready(m, EventFd) <==> m.counter > 0;
  }

  lemma SignalledFenceIsReady(m: Machine, id: SurfaceId)
    requires Inv(m) && id in m.surfaces && (forall f | f in m.epoll :: f in m.signaled)
    ensures m.surfaces[id].drawWaitBuffer.Some? ==> Ready(m, FenceReady(id))
  {
    assert SurfaceInv(m, id);
    var s := m.surfaces[id];
    if s.drawWaitBuffer.Some? {
      HeadFence(id, s, s.drawWaitBuffer.value, s.pending);
      assert Fence(id, |s.drawn|) in m.epoll;
    }
  }

  /** The worker never blocks outside epoll_wait: there is always a next step, or it
      polls and nothing is ready. In particular its read of the eventfd never blocks. */
  lemma WorkerNeverStuck(run: seq<Machine>, n: nat)
    requires IsRun(run) && n < |run|
    ensures (exists m' :: WorkerStep(run[n], m')) || (run[n].pc.Polling? && forall e :: !Ready(run[n], e))
  {
    RunKeepsInv(run, n);
    var m := run[n];
    match m.pc
    case Polling =>
      if e :| Ready(m, e) {
        assert Poll(m, m.(pc := Handling([e])), [e]);
        assert WorkerStep(m, m.(pc := Handling([e])));
      }
    case Handling(events) =>
      HandlingStep(m);
    case Preparing(at, held) =>
      PreparingStep(m);
  }

  lemma HandlingStep(m: Machine)
    requires Inv(m) && m.pc.Handling?
    ensures exists m' :: WorkerStep(m, m')
  {
    var events := m.pc.events;
    if events == [] {
      assert WorkerStep(m, m.(pc := Preparing(0, None)));
    } else if events[0] == EventFd {
      assert WorkerStep(m, m.(counter := 0, pc := Handling(events[1..])));
    } else {
      var id := events[0].surface;
      var s := m.surfaces[id];
      var next := m.(pc := Handling(events[1..]));
      assert SurfaceInv(m, id);
      next := if FenceDraws(s, m.signaled, false) then DrawParked(next, id) else next;
      assert FenceEvent(m, next, false);
      assert WorkerStep(m, next);
    }
  }

  lemma HeldStep(m: Machine)
    requires AtSurface(m) && m.pc.held.Some?
    ensures exists m' :: WorkerStep(m, m')
  {
    var id := m.list[m.pc.at];
    var s, b := m.surfaces[id], m.pc.held.value;
    if b in s.waitSync && Accepts(m, s.waitSync[b]) {
      var m' := m.(surfaces := m.surfaces[id := s.(drawWaitBuffer := Some(b), parked := s.parked + {|s.drawn|})],
                   epoll := m.epoll[s.waitSync[b] := id],
                   pc := Preparing(m.pc.at + 1, None));
      assert Park(m, m') && WorkerStep(m, m');
    } else {
      var m' := m.(surfaces := m.surfaces[id := Draw(s, b)], epoll := Closed(m.epoll, s, b),
                   pc := Preparing(m.pc.at, None));
      assert DrawNow(m, m') && WorkerStep(m, m');
    }
  }

  lemma PreparingStep(m: Machine)
    requires Inv(m) && m.pc.Preparing?
    ensures exists m' :: WorkerStep(m, m')
  {
    if m.pc.at >= |m.list| {
      assert WorkerStep(m, m.(pc := Polling));
    } else {
      var id := m.list[m.pc.at];
      var s := m.surfaces[id];
      if m.pc.held.Some? {
        HeldStep(m);
      } else if s.drawWaitBuffer.Some? || s.pending == [] {
        assert WorkerStep(m, m.(pc := Preparing(m.pc.at + 1, None)));
      } else {
        assert WorkerStep(m, m.(surfaces := m.surfaces[id := s.(pending := s.pending[1..])],
                                pc := Preparing(m.pc.at, Some(s.pending[0]))));
      }
    }
  }

  // ---------------------------------------------------------------------------
  // The worker's code, proved to take the machine's worker steps
  // ---------------------------------------------------------------------------

  ghost predicate WorkerPath(trace: seq<Machine>, from: Machine, to: Machine) {
    && trace != [] && trace[0] == from && trace[|trace| - 1] == to
    && forall i | 0 <= i < |trace| - 1 :: WorkerStep(trace[i], trace[i + 1])
  }

  lemma ExtendPath(trace: seq<Machine>, from: Machine, m: Machine, m': Machine)
    requires WorkerPath(trace, from, m) && WorkerStep(m, m')
    ensures WorkerPath(trace + [m'], from, m')
  {
  }

  lemma JoinPaths(a: seq<Machine>, b: seq<Machine>, from: Machine, via: Machine, to: Machine)
    requires WorkerPath(a, from, via) && WorkerPath(b, via, to)
    ensures WorkerPath(a + b[1..], from, to)
  {
    var c := a + b[1..];
    forall i | 0 <= i < |c| - 1 ensures WorkerStep(c[i], c[i + 1]) {
      if i >= |a| - 1 {
        assert WorkerStep(b[i - |a| + 1], b[i - |a| + 2]);
      }
    }
  }

  /** So whatever the code below does keeps the invariant. */
  lemma {:induction false} PathKeepsInv(trace: seq<Machine>, from: Machine, to: Machine, n: nat)
    requires WorkerPath(trace, from, to) && Inv(from) && n < |trace|
    ensures Inv(trace[n])
  {
    if n > 0 {
      PathKeepsInv(trace, from, to, n - 1);
      WorkerStepKeepsInv(trace[n - 1], trace[n]);
    }
  }

  /** The step from trace[k] handles the event, failing to wait exactly on failing surfaces. */
  ghost predicate Handles(trace: seq<Machine>, k: nat, e: Event, failing: set<SurfaceId>)
    requires k + 1 < |trace|
  {
    && trace[k].pc.Handling? && trace[k].pc.events != [] && trace[k].pc.events[0] == e
    && (e.FenceReady? ==> FenceEvent(trace[k], trace[k + 1], e.surface in failing))
  }

  class Worker {
    var surfaces: map<SurfaceId, Surface>
    var list: seq<SurfaceId>
    var counter: nat
    var owed: nat
    var epoll: map<Fence, SurfaceId>
    var signaled: set<Fence>
    var refused: set<Fence>
    ghost var pc: Pc

    ghost function State(): Machine
      reads this
    {
      Machine(surfaces, list, counter, owed, epoll, signaled, refused, pc)
    }

    /** An initialised worker. */
    constructor ()
      ensures Init(State())
    {
      surfaces, list, counter, owed, epoll, signaled, refused := map[], [], 0, 0, map[], {}, {};
      pc := Preparing(0, None);
    }

    /** __tpl_worker_surface_list_insert, while the worker does not hold the mutex. */
    method SurfaceListInsert(id: SurfaceId)
      requires !pc.Preparing? && id !in surfaces
      modifies this
      ensures Insert(old(State()), State(), id) && EnvironmentStep(old(State()), State())
      ensures list == old(list) + [id] && surfaces[id].pending == [] && surfaces[id].drawWaitBuffer == None
    {
      surfaces := surfaces[id := NEW_SURFACE];
      list := list + [id];
      assert Insert(old(State()), State(), id);
    }

    /** __tpl_worker_surface_list_remove: the first entry of the surface goes, if there is one. */
    method SurfaceListRemove(id: SurfaceId)
      requires !pc.Preparing?
      modifies this
      ensures if id in old(list) then EnvironmentStep(old(State()), State()) else State() == old(State())
      ensures multiset(list) == multiset(old(list)) - multiset{id}
      ensures id in old(list) ==>
                exists k :: 0 <= k < |old(list)| && old(list)[k] == id && id !in old(list)[..k]
                            && list == Without(old(list), k)
    {
      var k := 0;
      while k < |list| && list[k] != id
        invariant 0 <= k <= |list| && State() == old(State())
        invariant id !in list[..k]
      {
        k := k + 1;
      }
      if k < |list| {
        assert list == list[..k] + [id] + list[k + 1..];
        list := list[..k] + list[k + 1..];
        assert list == Without(old(list), k);
        assert Remove(old(State()), State(), k);
      }
    }

    /** A producer's push of a buffer it owns, where the worker takes it from. */
    method SubmitBuffer(id: SurfaceId, b: Buffer, fenced: bool)
      requires id in list && id in surfaces && b !in surfaces[id].pending
      requires surfaces[id].drawWaitBuffer != Some(b) && HeldBy(State(), id) != Some(b)
      modifies this
      ensures ProducerPush(old(State()), State(), id, b, fenced) && EnvironmentStep(old(State()), State())
      ensures var s := old(surfaces)[id]; var s' := surfaces[id];
        && s'.pending == s.pending + [b] && s'.submitted == s.submitted + [b]
        && s'.fenced == s.fenced + (if fenced then {|s.submitted|} else {})
        && (if fenced then b in s'.waitSync && s'.waitSync[b] == Fence(id, |s.submitted|) else b !in s'.waitSync)
    {
      surfaces := surfaces[id := Push(surfaces[id], id, b, fenced)];
      owed := owed + 1;
      assert ProducerPush(old(State()), State(), id, b, fenced);
    }

    /** __tpl_worker_new_buffer_notify: the write to the eventfd. */
    method NewBufferNotify()
      requires owed > 0
      modifies this
      ensures ProducerNotify(old(State()), State()) && counter == old(counter) + 1
    {
      owed, counter := owed - 1, counter + 1;
    }

    /** Takes the oldest pending buffer of the surface. */
    method AcquireBuffer(id: SurfaceId) returns (b: Buffer)
      requires AtSurface(State()) && list[pc.at] == id && pc.held == None
      requires surfaces[id].drawWaitBuffer == None && surfaces[id].pending != []
      modifies this
      ensures Acquire(old(State()), State()) && pc.held == Some(b)
      ensures old(surfaces)[id].pending == [b] + surfaces[id].pending
      ensures surfaces[id].waitSync == old(surfaces)[id].waitSync
    {
      var s := surfaces[id];
      b := s.pending[0];
      surfaces := surfaces[id := s.(pending := s.pending[1..])];
      pc := Preparing(pc.at, Some(b));
    }

    /** Parks a taken buffer on its fence if it has one and epoll_ctl accepts it, and
        draws it otherwise. */
    method ParkOrDraw(id: SurfaceId, b: Buffer) returns (parked: bool)
      requires AtSurface(State()) && list[pc.at] == id && pc.held == Some(b)
      modifies this
      ensures if parked then Park(old(State()), State()) else DrawNow(old(State()), State())
      ensures var s := old(surfaces)[id];
        parked <==> b in s.waitSync && s.waitSync[b] !in old(epoll) && s.waitSync[b] !in refused
      ensures if parked then surfaces[id].drawWaitBuffer == Some(b) && old(surfaces)[id].waitSync[b] in epoll
              else surfaces[id].drawn == old(surfaces)[id].drawn + [b]
    {
      var s := surfaces[id];
      if b in s.waitSync && s.waitSync[b] !in epoll && s.waitSync[b] !in refused {
        epoll := epoll[s.waitSync[b] := id];
        surfaces := surfaces[id := s.(drawWaitBuffer := Some(b), parked := s.parked + {|s.drawn|})];
        pc := Preparing(pc.at + 1, None);
        return true;
      }
      epoll := Closed(epoll, s, b);
      surfaces := surfaces[id := Draw(s, b)];
      pc := Preparing(pc.at, None);
      return false;
    }

    /** __tpl_worker_prepare_draw_wait_buffer; epoll_ctl refuses the fences in `refused`. */
    method PrepareDrawWaitBuffer(id: SurfaceId) returns (ghost trace: seq<Machine>)
      requires AtSurface(State()) && list[pc.at] == id && pc.held == None
      modifies this
      ensures WorkerPath(trace, old(State()), State())
      ensures pc == Preparing(old(pc.at) + 1, None) && list == old(list)
      ensures surfaces.Keys == old(surfaces).Keys
      ensures surfaces[id].pending == [] || surfaces[id].drawWaitBuffer.Some?
      ensures forall other | other in surfaces && other != id :: surfaces[other] == old(surfaces)[other]
    {
      trace := [State()];
      while surfaces[id].drawWaitBuffer == None && surfaces[id].pending != []
        invariant list == old(list) && surfaces.Keys == old(surfaces).Keys
        invariant pc == Preparing(old(pc.at), None)
                  || (pc == Preparing(old(pc.at) + 1, None) && surfaces[id].drawWaitBuffer.Some?)
        invariant WorkerPath(trace, old(State()), State())
        invariant forall other | other in surfaces && other != id :: surfaces[other] == old(surfaces)[other]
        decreases |surfaces[id].pending|
      {
        ghost var before := State();
        var b := AcquireBuffer(id);
        ExtendPath(trace, old(State()), before, State());
        trace := trace + [State()];
        before := State();
        var parked := ParkOrDraw(id, b);
        ExtendPath(trace, old(State()), before, State());
        trace := trace + [State()];
      }
      if pc == Preparing(old(pc.at), None) {
        ghost var before := State();
        pc := Preparing(pc.at + 1, None);
        assert Skip(before, State());
        ExtendPath(trace, old(State()), before, State());
        trace := trace + [State()];
      }
    }

    /** The part of the main loop under the surface mutex: every registered surface is
        left without pending buffers or parked on a fence. */
    method PrepareSurfaces() returns (ghost trace: seq<Machine>)
      requires pc == Preparing(0, None) && forall id | id in list :: id in surfaces
      modifies this
      ensures WorkerPath(trace, old(State()), State())
      ensures pc == Polling && list == old(list)
      ensures forall id | id in list :: id in surfaces
                && (surfaces[id].pending == [] || surfaces[id].drawWaitBuffer.Some?)
    {
      trace := [State()];
      var trail := 0;
      while trail < |list|
        invariant trail <= |list| && list == old(list) && surfaces.Keys == old(surfaces).Keys
        invariant pc == Preparing(trail, None)
        invariant WorkerPath(trace, old(State()), State())
        invariant forall i | 0 <= i < trail ::
                    surfaces[list[i]].pending == [] || surfaces[list[i]].drawWaitBuffer.Some?
      {
        ghost var before := State();
        ghost var more := PrepareDrawWaitBuffer(list[trail]);
        JoinPaths(trace, more, old(State()), before, State());
        trace := trace + more[1..];
        trail := trail + 1;
      }
      ghost var before := State();
      pc := Polling;
      assert AllPrepared(before, State());
      ExtendPath(trace, old(State()), before, State());
      trace := trace + [State()];
    }

    /** What the main loop does with one event. */
    method HandleEvent(event: Event, failing: set<SurfaceId>)
      requires pc.Handling? && pc.events != [] && pc.events[0] == event
      requires match event { case EventFd => counter > 0 case FenceReady(id) => id in surfaces }
      modifies this
      ensures WorkerStep(old(State()), State())
      ensures pc == Handling(old(pc.events)[1..]) && list == old(list) && surfaces.Keys == old(surfaces).Keys
      ensures counter == if event == EventFd then 0 else old(counter)
      ensures event.FenceReady? ==> FenceEvent(old(State()), State(), event.surface in failing)
      ensures event.FenceReady? ==>
                var s := old(surfaces)[event.surface]; var s' := surfaces[event.surface];
                if s.drawWaitBuffer.Some? && (s.drawWaitBuffer.value in s.waitSync ==>
                     s.waitSync[s.drawWaitBuffer.value] in signaled && event.surface !in failing)
                then s'.drawn == s.drawn + [s.drawWaitBuffer.value] && s'.drawWaitBuffer == None
                else s' == s
    {
      ghost var before := State();
      match event {
        case EventFd =>
          counter := 0;
          pc := Handling(pc.events[1..]);
          assert ReadEventFd(before, State());
        case FenceReady(id) =>
          var s := surfaces[id];
          if FenceDraws(s, signaled, id in failing) {
            epoll := Closed(epoll, s, s.drawWaitBuffer.value);
            surfaces := surfaces[id := Draw(s, s.drawWaitBuffer.value).(drawWaitBuffer := None)];
          }
          pc := Handling(pc.events[1..]);
          assert FenceEvent(before, State(), id in failing);
      }
    }

    /** The loop over the events epoll_wait returned; `failing` are the surfaces whose
        tbm_sync_fence_wait returns an error. */
    method HandleEvents(events: seq<Event>, failing: set<SurfaceId>) returns (ghost trace: seq<Machine>)
      requires Wellformed(State()) && pc == Handling(events)
      modifies this
      ensures WorkerPath(trace, old(State()), State())
      ensures pc == Preparing(0, None) && list == old(list) && surfaces.Keys == old(surfaces).Keys
      ensures EventFd in events ==> counter == 0
      ensures |trace| == |events| + 2 && forall k | 0 <= k < |events| :: Handles(trace, k, events[k], failing)
    {
      trace := [State()];
      var i := 0;
      while i < |events|
        invariant 0 <= i <= |events| && list == old(list) && surfaces.Keys == old(surfaces).Keys
        invariant pc == Handling(events[i..])
        invariant WorkerPath(trace, old(State()), State())
        invariant |trace| == i + 1 && forall k | 0 <= k < i :: Handles(trace, k, events[k], failing)
        invariant EventFd in events[i..] ==> counter == old(counter)
        invariant EventFd in events[..i] ==> counter == 0
      {
        ghost var before := State();
        assert events[i..][1..] == events[i + 1..];
        HandleEvent(events[i], failing);
        ExtendPath(trace, old(State()), before, State());
        trace := trace + [State()];
        i := i + 1;
      }
      assert events[..i] == events;
      ghost var before := State();
      pc := Preparing(0, None);
      assert EventsDone(before, State());
      ExtendPath(trace, old(State()), before, State());
      trace := trace + [State()];
    }
  }
}
