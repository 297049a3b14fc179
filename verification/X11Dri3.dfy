/** Swap bookkeeping of the DRI3 backend: the 64-bit count of completed swaps rebuilt
    from 32-bit serials, the ring of back buffers, and the buffer ages of
    EGL_EXT_buffer_age. Events are those of the X Present extension. */
module X11Dri3 {

  const WORD := 0x1_0000_0000            // 2^32
  const LONG := 0x1_0000_0000_0000_0000  // 2^64

  type Serial = n: nat | n < WORD
  type Long = n: nat | n < LONG

  // ---------------------------------------------------------------------------
  // Serials
  // ---------------------------------------------------------------------------

  /** The completed count as dri3_handle_present_event rebuilds it: the upper half of the
      sent count with the serial below, one epoch earlier if that lies ahead of it. */
  function MergeSerial(sendSbc: Long, serial: Serial): Long {
    var merged := sendSbc / WORD * WORD + serial;
    if merged > sendSbc then (merged - WORD) % LONG else merged
  }

  /** The merge recovers the true count exactly when that lies within 2^32 below the sent one. */
  lemma MergeRecoversIff(sendSbc: nat, count: nat)
    requires count <= sendSbc < LONG
    ensures MergeSerial(sendSbc, count % WORD) == count <==> sendSbc - count < WORD
  {
    var e, f := sendSbc / WORD, count / WORD;
    assert sendSbc == e * WORD + sendSbc % WORD && count == f * WORD + count % WORD;
    if sendSbc - count < WORD {
      assert f == e || f == e - 1;
    }
  }

  // ---------------------------------------------------------------------------
  // Swap throttling
  // ---------------------------------------------------------------------------

  /** The counters of a drawable, and the presents whose completion is still to come. */
  datatype Swaps = Swaps(sendSbc: Long, recvSbc: Long, outstanding: seq<Long>)

  datatype SwapEvent = Present | Complete

  /** When dri3_wait_for_notify returns: it looks at the low words only. */
  predicate WaitIsOver(sendSbc: nat, recvSbc: nat) {
    sendSbc % WORD == 0 || sendSbc % WORD <= recvSbc % WORD
  }

  predicate Enabled(s: Swaps, e: SwapEvent) {
    match e
    case Present => WaitIsOver(s.sendSbc, s.recvSbc)
    case Complete => s.outstanding != []
  }

  function Increment(n: Long): Long {
    if n + 1 < LONG then n + 1 else 0
  }

  /** A swap presents the next count; the server completes presents in order and echoes
      the low word of the count. */
  function Apply(s: Swaps, e: SwapEvent): Swaps
    requires Enabled(s, e)
  {
    match e
    case Present => Swaps(Increment(s.sendSbc), s.recvSbc, s.outstanding + [Increment(s.sendSbc)])
    case Complete => Swaps(s.sendSbc, MergeSerial(s.sendSbc, s.outstanding[0] % WORD), s.outstanding[1..])
  }

  function Init<T>(s: seq<T>): seq<T>
    requires s != []
  {
    s[..|s| - 1]
  }

  function Last<T>(s: seq<T>): T
    requires s != []
  {
    s[|s| - 1]
  }

  /** The events can happen, in this order, on a new drawable. */
  ghost predicate Possible(events: seq<SwapEvent>)
    decreases |events|, 0
  {
    events == [] || (Possible(Init(events)) && Enabled(After(Init(events)), Last(events)))
  }

  ghost function After(events: seq<SwapEvent>): Swaps
    requires Possible(events)
    decreases |events|, 1
  {
    if events == [] then Swaps(0, 0, []) else Apply(After(Init(events)), Last(events))
  }

  function Presents(events: seq<SwapEvent>): nat {
    if events == [] then 0 else Presents(Init(events)) + if Last(events) == Present then 1 else 0
  }

  lemma Extend(events: seq<SwapEvent>, e: SwapEvent)
    requires Possible(events) && Enabled(After(events), e)
    ensures Possible(events + [e]) && After(events + [e]) == Apply(After(events), e)
    ensures Presents(events + [e]) == Presents(events) + if e == Present then 1 else 0
  {
    assert Init(events + [e]) == events;
  }

  /** Nothing is outstanding and the received count is the sent one, or the last swap is
      outstanding and the received count is one behind. */
  ghost predicate AtMostOneOut(s: Swaps) {
    || (s.recvSbc == s.sendSbc && s.outstanding == [])
    || (Increment(s.recvSbc) == s.sendSbc && s.outstanding == [s.sendSbc])
  }

  /** A swap at a multiple of 2^32, where the wait returns at once, although the received
      count is not the sent one. */
  predicate Slips(s: Swaps, e: SwapEvent) {
    e == Present && s.sendSbc % WORD == 0 && s.recvSbc != s.sendSbc
  }

  /** One step loses the throttle exactly when it slips. */
  lemma StepKeepsOneOutIff(s: Swaps, e: SwapEvent)
    requires Enabled(s, e) && AtMostOneOut(s)
    ensures AtMostOneOut(Apply(s, e)) <==> !Slips(s, e)
  {
    if e == Complete {
      MergeRecoversIff(s.sendSbc, s.outstanding[0]);
    }
  }

  ghost predicate OneOutAlong(events: seq<SwapEvent>)
    requires Possible(events)
  {
    AtMostOneOut(After(events)) && (events == [] || OneOutAlong(Init(events)))
  }

  ghost predicate NeverSlips(events: seq<SwapEvent>)
    requires Possible(events)
  {
    events == [] || (NeverSlips(Init(events)) && !Slips(After(Init(events)), Last(events)))
  }

  /** Along a run of any length, at most one swap is ever outstanding, with the received
      count exact, if and only if no swap slips. */
  lemma {:induction false} OneSwapOutstandingIff(events: seq<SwapEvent>)
    requires Possible(events)
    ensures OneOutAlong(events) <==> NeverSlips(events)
    decreases |events|
  {
    if events != [] {
      OneSwapOutstandingIff(Init(events));
      if OneOutAlong(Init(events)) {
        StepKeepsOneOutIff(After(Init(events)), Last(events));
      }
    }
  }

  /** So whenever a further swap may be presented, everything sent has completed, if and
      only if that swap does not slip. */
  lemma PresentWaitsIff(events: seq<SwapEvent>)
    requires Possible(events) && NeverSlips(events) && Enabled(After(events), Present)
    ensures After(events).recvSbc == After(events).sendSbc && After(events).outstanding == []
       <==> !Slips(After(events), Present)
  {
    OneSwapOutstandingIff(events);
    StepKeepsOneOutIff(After(events), Present);
  }

  lemma {:induction false} SentIsPresents(events: seq<SwapEvent>)
    requires Possible(events) && Presents(events) < LONG
    ensures After(events).sendSbc == Presents(events) && |After(events).outstanding| <= Presents(events)
    decreases |events|
  {
    if events != [] {
      SentIsPresents(Init(events));
    }
  }

  /** The first 2^32 swaps do not slip. */
  lemma {:induction false} FirstSwapsNeverSlip(events: seq<SwapEvent>)
    requires Possible(events) && Presents(events) <= WORD
    ensures NeverSlips(events)
    decreases |events|
  {
    if events != [] {
      var before := Init(events);
      FirstSwapsNeverSlip(before);
      OneSwapOutstandingIff(before);
      SentIsPresents(before);
    }
  }

  /** So before each of the first 2^32 presents everything sent has completed. */
  lemma PresentsWaitForCompletion(events: seq<SwapEvent>)
    requires Possible(events) && Presents(events) < WORD && Enabled(After(events), Present)
    ensures After(events).recvSbc == After(events).sendSbc && After(events).outstanding == []
  {
    Extend(events, Present);
    assert Init(events + [Present]) == events;
    FirstSwapsNeverSlip(events + [Present]);
    PresentWaitsIff(events);
  }

  /** The run that alternates presents and completions, up to the n-th present. */
  lemma {:induction false} PostedRun(n: nat) returns (events: seq<SwapEvent>)
    requires 1 <= n <= WORD
    ensures Possible(events) && After(events) == Swaps(n, n - 1, [n]) && Presents(events) == n
  {
    events := [];
    if n > 1 {
      events := PostedRun(n - 1);
      MergeRecoversIff(n - 1, n - 1);
      Extend(events, Complete);
      events := events + [Complete];
    }
    assert After(events) == Swaps(n - 1, n - 1, []);
    Extend(events, Present);
    events := events + [Present];
  }

  /** The next one can: after 2^32 swaps the low word of the sent count is zero, the wait
      returns although the last swap has not completed, and two swaps are outstanding. */
  lemma ThrottleFailsAtWrap() returns (events: seq<SwapEvent>)
    ensures Possible(events) && Presents(events) == WORD + 1 && |After(events).outstanding| == 2
  {
    events := PostedRun(WORD);
    Extend(events, Present);
    events := events + [Present];
  }

  /** So 2^32 is exactly how many swaps the throttle is good for whatever happens. */
  lemma ThrottleHoldsIff(n: nat)
    ensures (forall events | Possible(events) && Presents(events) <= n :: AtMostOneOut(After(events))) <==> n <= WORD
  {
    if n <= WORD {
      forall events | Possible(events) && Presents(events) <= n ensures AtMostOneOut(After(events)) {
        FirstSwapsNeverSlip(events);
        OneSwapOutstandingIff(events);
      }
    } else {
      var events := ThrottleFailsAtWrap();
      assert !AtMostOneOut(After(events));
    }
  }

  // ---------------------------------------------------------------------------
  // The ring of back buffers
  // ---------------------------------------------------------------------------

  const DRI3_NUM_BUFFERS := 20

  datatype Status = Idle | Busy | Posted

  datatype Mode = Copy | Flip | Skip

  datatype Notify =
    | Configure(width: int, height: int)
    | CompletePixmap(serial: Serial, mode: Mode, ust: nat, msc: nat)
    | CompleteMsc(serial: Serial, ust: nat, msc: nat)
    | IdleNotify(pixmap: nat)
  {
    predicate IsComplete() {
      CompletePixmap? || CompleteMsc?
    }
  }

  class Buffer {
    const pixmap: nat
    const width: int
    const height: int
    var status: Status
    var lastSwap: nat
    var age: nat   // buffer_age, 0 until the first swap
    var reused: bool
    ghost var swappedAt: nat  // which swap of the drawable was the buffer's last, 0 for none

    constructor (pixmap: nat, width: int, height: int)
      ensures this.pixmap == pixmap && this.width == width && this.height == height
      ensures status == Idle && lastSwap == 0 && age == 0 && !reused && swappedAt == 0
    {
      this.pixmap, this.width, this.height := pixmap, width, height;
      status, lastSwap, age, reused, swappedAt := Idle, 0, 0, false, 0;
    }
  }

  /** Slot i is the first that holds a buffer with the pixmap. */
  ghost predicate FirstWith(slots: seq<Buffer?>, i: nat, pixmap: nat)
    requires i < |slots|
  {
    && slots[i] != null && slots[i].pixmap == pixmap
    && forall j | 0 <= j < i && slots[j] != null :: slots[j].pixmap != pixmap
  }

  /** The event is the idle event of the buffer in slot i. */
  ghost predicate FreesSlot(slots: seq<Buffer?>, i: nat, e: Notify)
    requires i < |slots|
  {
    e.IdleNotify? && FirstWith(slots, i, e.pixmap)
  }

  /** The status of the buffer in slot i after some events. */
  ghost function StatusAfter(was: Status, slots: seq<Buffer?>, i: nat, events: seq<Notify>): Status
    requires i < |slots|
  {
    if exists e :: e in events && FreesSlot(slots, i, e) then Idle else was
  }

  lemma StatusAfterStep(was: Status, slots: seq<Buffer?>, i: nat, events: seq<Notify>, used: nat)
    requires i < |slots| && used < |events|
    ensures StatusAfter(was, slots, i, events[..used + 1])
         == if FreesSlot(slots, i, events[used]) then Idle else StatusAfter(was, slots, i, events[..used])
  {
    assert events[..used + 1] == events[..used] + [events[used]];
  }

  /** What else a drawable learns from events. */
  datatype View = View(width: int, height: int, recvMscSerial: Serial, flipping: bool, ust: nat, msc: nat)

  function Observe(v: View, e: Notify): View {
    match e
    case Configure(width, height) => v.(width := width, height := height)
    case CompletePixmap(_, mode, ust, msc) =>
      v.(flipping := if mode == Skip then v.flipping else mode == Flip, ust := ust, msc := msc)
    case CompleteMsc(serial, ust, msc) => v.(recvMscSerial := serial, ust := ust, msc := msc)
    case IdleNotify(_) => v
  }

  ghost function Observed(v: View, events: seq<Notify>): View {
    if events == [] then v else Observe(Observed(v, Init(events)), Last(events))
  }

  lemma ObservedStep(v: View, events: seq<Notify>, used: nat)
    requires used < |events|
    ensures Observed(v, events[..used + 1]) == Observe(Observed(v, events[..used]), events[used])
  {
    assert Init(events[..used + 1]) == events[..used];
  }

  /** The counters after some events: a completed present is outstanding no longer, and
      the last completion decides the received count. */
  ghost function Completed(s: Swaps, events: seq<Notify>): (r: Swaps)
    ensures r.sendSbc == s.sendSbc
    decreases |events|
  {
    if events == [] then s
    else
      var t, e := Completed(s, Init(events)), Last(events);
      if e.CompletePixmap? then
        Swaps(t.sendSbc, MergeSerial(t.sendSbc, e.serial), if t.outstanding == [] then [] else t.outstanding[1..])
      else t
  }

  /** The wait of the coming swap is over once these events have come. */
  ghost predicate OverAfter(s: Swaps, events: seq<Notify>) {
    WaitIsOver(s.sendSbc, Completed(s, events).recvSbc)
  }

  /** The server keeps to the protocol: each completion is that of the oldest outstanding
      present and carries the serial sent with it. */
  ghost predicate Echoes(s: Swaps, events: seq<Notify>)
    decreases |events|
  {
    events != [] ==>
      var t, e := Completed(s, Init(events)), Last(events);
      && Echoes(s, Init(events))
      && (e.CompletePixmap? ==> t.outstanding != [] && e.serial == t.outstanding[0] % WORD)
  }

  lemma OtherEvents(s: Swaps, shown: set<Buffer>, e: Notify)
    ensures !e.CompletePixmap? ==> Completed(s, [e]) == s
    ensures !e.IdleNotify? ==> StillShown(shown, [e]) == shown
  {
    assert Init([e]) == [];
  }

  lemma CompletedStep(s: Swaps, events: seq<Notify>, used: nat)
    requires used < |events|
    ensures Completed(Completed(s, events[..used]), [events[used]]) == Completed(s, events[..used + 1])
  {
    assert Init(events[..used + 1]) == events[..used];
    assert Completed(Completed(s, events[..used]), []) == Completed(s, events[..used]);
  }

  /** With such a server the events a drawable consumes are completions of the run above. */
  lemma {:induction false} CompletionsAreSteps(run: seq<SwapEvent>, events: seq<Notify>) returns (more: seq<SwapEvent>)
    requires Possible(run) && NeverSlips(run) && Echoes(After(run), events)
    ensures Possible(more) && After(more) == Completed(After(run), events)
    ensures NeverSlips(more) && Presents(more) == Presents(run)
    decreases |events|
  {
    more := run;
    if events != [] {
      more := CompletionsAreSteps(run, Init(events));
      if Last(events).CompletePixmap? {
        Extend(more, Complete);
        assert Init(more + [Complete]) == more;
        more := more + [Complete];
      }
    }
  }

  /** What a drawable's wait achieves: if no earlier swap slipped, then once the wait is
      over everything sent has completed, if and only if the coming swap does not slip. */
  lemma WaitAchievesIff(run: seq<SwapEvent>, events: seq<Notify>)
    requires Possible(run) && NeverSlips(run) && Echoes(After(run), events)
    requires Enabled(Completed(After(run), events), Present)
    ensures var s := Completed(After(run), events);
      s.recvSbc == s.sendSbc && s.outstanding == [] <==> !Slips(s, Present)
  {
    var more := CompletionsAreSteps(run, events);
    PresentWaitsIff(more);
  }

  /** What is left of the buffers with the server after some events. */
  ghost function StillShown(shown: set<Buffer>, events: seq<Notify>): set<Buffer> {
    set b | b in shown && IdleNotify(b.pixmap) !in events
  }

  lemma StillShownStep(shown: set<Buffer>, events: seq<Notify>, used: nat)
    requires used < |events|
    ensures events[..used + 1] == events[..used] + [events[used]]
    ensures StillShown(StillShown(shown, events[..used]), [events[used]]) == StillShown(shown, events[..used + 1])
  {
    assert events[..used + 1] == events[..used] + [events[used]];
  }

  /** The slot dri3_find_back looks at in the b-th place of a pass. */
  function SlotAt(b: nat, curBack: nat, maxBack: nat): (id: nat)
    requires b < maxBack && curBack < maxBack
    ensures id < maxBack
    ensures id == if b + curBack + 1 < maxBack then b + curBack + 1 else b + curBack + 1 - maxBack
  {
    ModWraps(b + curBack + 1, maxBack);
    (b + curBack + 1) % maxBack
  }

  lemma ModWraps(x: nat, n: nat)
    requires 0 < n && x < 2 * n
    ensures x % n == if x < n then x else x - n
  {
    var q := x / n;
    assert x == q * n + x % n;
    MultipleBounds(q, n);
  }

  lemma MultipleBounds(q: int, n: int)
    requires n > 0
    ensures q >= 2 ==> q * n >= 2 * n
    ensures q <= -1 ==> q * n <= -n
    ensures q == 1 ==> q * n == n
    ensures q == 0 ==> q * n == 0
  {
  }

  /** A pass visits every slot, and slot j in this place. */
  lemma PassVisitsAll(j: nat, curBack: nat, maxBack: nat) returns (b: nat)
    requires j < maxBack && curBack < maxBack
    ensures b < maxBack && SlotAt(b, curBack, maxBack) == j
  {
    b := if j > curBack then j - curBack - 1 else j + maxBack - curBack - 1;
  }

  /** And no slot twice. */
  lemma PassVisitsOnce(a: nat, b: nat, curBack: nat, maxBack: nat)
    requires a < b < maxBack && curBack < maxBack
    ensures SlotAt(a, curBack, maxBack) != SlotAt(b, curBack, maxBack)
  {
  }

  /** The place of a pass whose buffer is two behind place p. */
  function PlaceBehind(p: nat, maxBack: nat): (q: nat)
    requires p < maxBack && 2 <= maxBack
    ensures q < maxBack
  {
    if p < 2 then maxBack - 2 + p else p - 2
  }

  lemma BehindIsTwoBack(p: nat, curBack: nat, maxBack: nat)
    requires p < maxBack && curBack < maxBack && 2 <= maxBack
    ensures (SlotAt(p, curBack, maxBack) + maxBack - 2) % maxBack == SlotAt(PlaceBehind(p, maxBack), curBack, maxBack)
  {
    ModWraps(SlotAt(p, curBack, maxBack) + maxBack - 2, maxBack);
  }

  /** The status at place p of a pass that has looked at `seen` places, none beyond p. */
  function StatusAhead(was: Status, p: nat, seen: nat, maxBack: nat): Status {
    if maxBack - 2 <= p < maxBack - 2 + seen && was != Posted then Idle else was
  }

  /** The status at a place p that stopped the pass, now that it has looked at `seen`. */
  function StatusBehind(was: Status, p: nat, seen: nat): Status {
    if p + 2 < seen && was != Posted then Idle else was
  }

  /** The buffer at place p stops a pass that began with this status: it is not idle, and
      posted if it is one of the last two, which are let go before the pass comes to them. */
  predicate Stops(was: Status, p: nat, maxBack: nat) {
    was != Idle && (p >= maxBack - 2 ==> was == Posted)
  }

  /** The buffer at place p, with this status when the search began, stops a pass that comes
      after these events. Passes that find nothing let go of all buffers but posted ones, so
      after an event only a posted buffer stops a pass, until its idle event. */
  ghost predicate StopsAfter(was: Status, p: nat, slots: seq<Buffer?>, curBack: nat, maxBack: nat, events: seq<Notify>)
    requires p < maxBack <= |slots| && curBack < maxBack
  {
    if events == [] then Stops(was, p, maxBack)
    else was == Posted && forall e | e in events :: !FreesSlot(slots, SlotAt(p, curBack, maxBack), e)
  }

  /** The status at place p before the pass that comes after these events. */
  ghost function BeforePass(was: Status, p: nat, slots: seq<Buffer?>, curBack: nat, maxBack: nat,
                            events: seq<Notify>): Status
    requires p < maxBack <= |slots| && curBack < maxBack
  {
    if events == [] then was
    else StatusAfter(if was == Posted then Posted else Idle, slots, SlotAt(p, curBack, maxBack), events)
  }

  lemma StopsBefore(was: Status, p: nat, slots: seq<Buffer?>, curBack: nat, maxBack: nat, events: seq<Notify>)
    requires p < maxBack <= |slots| && curBack < maxBack
    ensures Stops(BeforePass(was, p, slots, curBack, maxBack, events), p, maxBack)
       <==> StopsAfter(was, p, slots, curBack, maxBack, events)
  {
  }

  /** A pass that finds nothing, and an event. */
  lemma BeforeNextPass(was: Status, p: nat, slots: seq<Buffer?>, curBack: nat, maxBack: nat, events: seq<Notify>,
                       used: nat, now: Status)
    requires p < maxBack <= |slots| && curBack < maxBack && used < |events|
    requires var before := BeforePass(was, p, slots, curBack, maxBack, events[..used]);
      now == if FreesSlot(slots, SlotAt(p, curBack, maxBack), events[used]) || before != Posted then Idle else Posted
    ensures now == BeforePass(was, p, slots, curBack, maxBack, events[..used + 1])
  {
    StatusAfterStep(if was == Posted then Posted else Idle, slots, SlotAt(p, curBack, maxBack), events, used);
  }

  ghost predicate NothingAfter(was: seq<Status>, slots: seq<Buffer?>, curBack: nat, events: seq<Notify>)
    requires |was| <= |slots| && curBack < |was|
  {
    forall p | 0 <= p < |was| :: StopsAfter(was[p], p, slots, curBack, |was|, events)
  }

  /** Place p is the first whose buffer does not stop the pass. */
  ghost predicate FirstFound(was: seq<Status>, p: nat, slots: seq<Buffer?>, curBack: nat, events: seq<Notify>)
    requires p < |was| <= |slots| && curBack < |was|
  {
    && !StopsAfter(was[p], p, slots, curBack, |was|, events)
    && forall a | 0 <= a < p :: StopsAfter(was[a], a, slots, curBack, |was|, events)
  }

  /** A search ends with the first pass that finds a slot, or fails when the events run out. */
  ghost predicate SearchEnds(was: seq<Status>, slots: seq<Buffer?>, curBack: nat, events: seq<Notify>,
                             found: bool, used: nat)
    requires |was| <= |slots| && curBack < |was| && used <= |events|
  {
    && (forall k | 0 <= k < used :: NothingAfter(was, slots, curBack, events[..k]))
    && (found <==> !NothingAfter(was, slots, curBack, events[..used]))
    && (!found ==> used == |events|)
  }

  /** What the ageing loop makes of an age. */
  function Older(age: nat): nat {
    if age > 0 then (age + 1) % WORD else age
  }

  /** The age of a buffer last posted by swap number `at`, after `swaps` swaps: 1 for the last
      swap, and none before the first or when the 32-bit age has wrapped. */
  function LifeAge(swaps: nat, at: nat): nat
    requires at <= swaps
  {
    if at > 0 && swaps - at + 1 < WORD then swaps - at + 1 else 0
  }

  lemma LifeAgeStep(swaps: nat, at: nat)
    requires at <= swaps
    ensures LifeAge(swaps + 1, at) == Older(LifeAge(swaps, at))
    ensures LifeAge(swaps + 1, swaps + 1) == 1
  {
  }

  lemma AgeStep(sent: nat, last: nat, age: nat)
    requires sent < LONG && last < LONG && age < WORD
    requires age > 0 ==> age == (sent - last + 1) % LONG
    ensures Older(age) < WORD && Older(age) != 1
    ensures Older(age) > 0 ==> Older(age) == (sent - last + 2) % LONG
    ensures Older(age) > 0 ==> Older(age) == age + 1
  {
    if 0 < age {
      assert age + 1 <= WORD < LONG;
      if age + 1 < WORD {
        var d := sent - last + 1;
        assert (d + 1) % LONG == d % LONG + 1;
      }
    }
  }

  lemma OlderKeepsApart(a: nat, b: nat)
    requires a < WORD && b < WORD
    ensures a != b && Older(a) > 0 ==> Older(a) != Older(b)
  {
  }

  lemma CountStep(sent: nat, last: nat)
    requires sent < LONG && last < LONG
    ensures ((sent + 1) % LONG - last + 1) % LONG == (sent - last + 2) % LONG
    ensures ((sent + 1) % LONG - (sent + 1) % LONG + 1) % LONG == 1
  {
  }

  class Drawable {
    const maxBack: nat
    const buffers: array<Buffer?>
    var width: int
    var height: int
    var sendSbc: Long
    var recvSbc: Long
    var recvMscSerial: Serial
    var flipping: bool
    var ust: nat
    var msc: nat
    var curBack: nat
    ghost var swaps: nat  // how many swaps there have been
    ghost var outstanding: seq<Long>  // presents not yet completed
    ghost var shown: set<Buffer>  // presented, and not reported idle since

    /** The buffers in the array, the back buffers being those in the first maxBack slots. */
    ghost function Slots(): set<Buffer>
      reads buffers
    {
      set b: Buffer | b in buffers[..]
    }

    ghost predicate Shaped()
      reads this`curBack, buffers
    {
      && 2 <= maxBack < DRI3_NUM_BUFFERS == buffers.Length && curBack < maxBack
      && (forall i, j | 0 <= i < j < buffers.Length && buffers[i] != null :: buffers[i] != buffers[j])
    }

    /** A buffer that has been swapped knows how many swaps ago that was. */
    ghost predicate AgeExact(b: Buffer)
      reads this`sendSbc, this`swaps, b`age, b`lastSwap, b`swappedAt
    {
      && b.age < WORD && b.lastSwap < LONG
      && b.swappedAt <= swaps && b.age == LifeAge(swaps, b.swappedAt)
      && (b.age > 0 ==> b.age == (sendSbc - b.lastSwap + 1) % LONG)
    }

    /** Every back buffer with a positive age has it right, and no two share one. */
    ghost predicate AgesExact()
      requires Shaped()
      reads this`sendSbc, this`swaps, this`curBack, buffers, Slots()`age, Slots()`lastSwap, Slots()`swappedAt
    {
      && (forall i | 0 <= i < maxBack && buffers[i] != null :: AgeExact(buffers[i]))
      && (forall i, j | 0 <= i < j < maxBack && buffers[i] != null && buffers[j] != null && buffers[i].age > 0 ::
            buffers[i].age != buffers[j].age)
    }

    ghost predicate Valid()
      reads this`sendSbc, this`swaps, this`curBack, buffers, Slots()`age, Slots()`lastSwap, Slots()`swappedAt
    {
      Shaped() && AgesExact()
    }

    ghost function Seen(): View
      reads this`width, this`height, this`recvMscSerial, this`flipping, this`ust, this`msc
    {
      View(width, height, recvMscSerial, flipping, ust, msc)
    }

    /** The drawable as a state of the swap machine. */
    ghost function Swapping(): Swaps
      reads this`sendSbc, this`recvSbc, this`outstanding
    {
      Swaps(sendSbc, recvSbc, outstanding)
    }

    /** What the server still shows is never taken for free. */
    ghost predicate ShownArePosted()
      reads this`shown, buffers, Slots()`status
    {
      forall b | b in Slots() && b in shown :: b.status == Posted
    }

    /** A new drawable, with empty slots. */
    constructor (maxBack: nat, width: int, height: int)
      requires 2 <= maxBack < DRI3_NUM_BUFFERS
      ensures Valid() && this.maxBack == maxBack && Swapping() == After([])
      ensures ShownArePosted() && shown == {} && swaps == 0
      ensures fresh(buffers) && forall i | 0 <= i < buffers.Length :: buffers[i] == null
    {
      this.maxBack, this.width, this.height := maxBack, width, height;
      sendSbc, recvSbc, recvMscSerial, curBack := 0, 0, 0, 0;
      flipping, ust, msc := false, 0, 0;
      shown, outstanding, swaps := {}, [], 0;
      buffers := new Buffer?[DRI3_NUM_BUFFERS](_ => null);
    }

    /** The idle branch of dri3_handle_present_event: the first buffer with the pixmap. */
    method MarkIdle(pixmap: nat)
      requires Valid()
      modifies Slots()`status
      ensures forall b | b in Slots() :: b.status == old(b.status) || (b.status == Idle && b.pixmap == pixmap)
      ensures forall i | 0 <= i < buffers.Length && buffers[i] != null ::
                buffers[i].status == if FirstWith(buffers[..], i, pixmap) then Idle else old(buffers[i].status)
      ensures (exists b | b in Slots() :: b.pixmap == pixmap) ==>
                exists b | b in Slots() :: b.pixmap == pixmap && b.status == Idle
    {
      var b := 0;
      while b < buffers.Length
        invariant 0 <= b <= buffers.Length
        invariant forall x | x in Slots() :: x.status == old(x.status)
        invariant forall i | 0 <= i < b && buffers[i] != null :: buffers[i].pixmap != pixmap
      {
        if buffers[b] != null && buffers[b].pixmap == pixmap {
          assert buffers[b] in buffers[..];
          buffers[b].status := Idle;
          assert FirstWith(buffers[..], b, pixmap);
          return;
        }
        b := b + 1;
      }
    }

    /** The server shows no buffer with the pixmap any more. */
    method NoteIdle(pixmap: nat)
      requires Valid() && ShownArePosted()
      modifies this`shown, Slots()`status
      ensures Valid() && ShownArePosted() && shown == StillShown(old(shown), [IdleNotify(pixmap)])
      ensures forall b | b in Slots() :: b.status == old(b.status) || (b.status == Idle && b.pixmap == pixmap)
      ensures forall i | 0 <= i < buffers.Length && buffers[i] != null ::
                buffers[i].status == if FirstWith(buffers[..], i, pixmap) then Idle else old(buffers[i].status)
      ensures (exists b | b in Slots() :: b.pixmap == pixmap) ==>
                exists b | b in Slots() :: b.pixmap == pixmap && b.status == Idle
    {
      MarkIdle(pixmap);
      shown := StillShown(shown, [IdleNotify(pixmap)]);
    }

    /** The branch of dri3_handle_present_event for a completed present. */
    method NoteCompletion(e: Notify)
      requires e.CompletePixmap?
      modifies this`recvSbc, this`flipping, this`ust, this`msc, this`outstanding
      ensures Swapping() == Completed(old(Swapping()), [e])
      ensures flipping == if e.mode != Skip then e.mode == Flip else old(flipping)
      ensures ust == e.ust && msc == e.msc
    {
      assert Init([e]) == [];
      recvSbc := MergeSerial(sendSbc, e.serial);
      match e.mode {
        case Flip => flipping := true;
        case Copy => flipping := false;
        case Skip =>
      }
      ust, msc := e.ust, e.msc;
      outstanding := if outstanding == [] then [] else outstanding[1..];
    }

    /** The branches of dri3_handle_present_event that leave the buffers alone. */
    method NoteOther(e: Notify)
      requires !e.IdleNotify?
      modifies this`width, this`height, this`recvSbc, this`recvMscSerial, this`flipping, this`ust, this`msc,
               this`outstanding
      ensures Swapping() == Completed(old(Swapping()), [e]) && Seen() == Observe(old(Seen()), e)
    {
      OtherEvents(Swapping(), shown, e);
      match e {
        case Configure(w, h) => width, height := w, h;
        case CompletePixmap(_, _, _, _) => NoteCompletion(e);
        case CompleteMsc(serial, u, m) => recvMscSerial, ust, msc := serial, u, m;
      }
    }

    /** dri3_handle_present_event. */
    method HandlePresentEvent(e: Notify)
      requires Valid() && ShownArePosted()
      modifies this`width, this`height, this`recvSbc, this`recvMscSerial, this`flipping, this`ust, this`msc,
               this`outstanding, this`shown, Slots()`status
      ensures Valid() && ShownArePosted() && shown == StillShown(old(shown), [e])
      ensures forall b | b in Slots() :: b.status == old(b.status) || (b.status == Idle && e == IdleNotify(b.pixmap))
      ensures Swapping() == Completed(old(Swapping()), [e])
      ensures forall i | 0 <= i < buffers.Length && buffers[i] != null ::
                buffers[i].status == if FreesSlot(buffers[..], i, e) then Idle else old(buffers[i].status)
      ensures e.IdleNotify? && (exists b | b in Slots() :: b.pixmap == e.pixmap) ==>
                exists b | b in Slots() :: b.pixmap == e.pixmap && b.status == Idle
      ensures Seen() == Observe(old(Seen()), e)
      ensures (width, height) == if e.Configure? then (e.width, e.height) else old((width, height))
      ensures recvMscSerial == if e.CompleteMsc? then e.serial else old(recvMscSerial)
      ensures flipping == if e.CompletePixmap? && e.mode != Skip then e.mode == Flip else old(flipping)
      ensures (ust, msc) == if e.IsComplete() then (e.ust, e.msc) else old((ust, msc))
    {
      OtherEvents(Swapping(), shown, e);
      match e {
        case IdleNotify(pixmap) => NoteIdle(pixmap);
        case Configure(_, _) | CompletePixmap(_, _, _, _) | CompleteMsc(_, _, _) => NoteOther(e);
      }
    }

    /** The drawable has consumed these events since it was in the given state. */
    ghost predicate HasConsumed(swaps: Swaps, view: View, shown: set<Buffer>, events: seq<Notify>)
      reads this
    {
      && Swapping() == Completed(swaps, events) && Seen() == Observed(view, events)
      && this.shown == StillShown(shown, events)
    }

    /** One more event. */
    method ConsumeEvent(events: seq<Notify>, used: nat, ghost swaps: Swaps, ghost view: View, ghost shown: set<Buffer>)
      requires Valid() && ShownArePosted() && used < |events| && HasConsumed(swaps, view, shown, events[..used])
      modifies this`width, this`height, this`recvSbc, this`recvMscSerial, this`flipping, this`ust, this`msc,
               this`outstanding, this`shown, Slots()`status
      ensures Valid() && ShownArePosted() && HasConsumed(swaps, view, shown, events[..used + 1])
      ensures forall i | 0 <= i < buffers.Length && buffers[i] != null ::
                buffers[i].status == if FreesSlot(buffers[..], i, events[used]) then Idle else old(buffers[i].status)
    {
      StillShownStep(shown, events, used);
      CompletedStep(swaps, events, used);
      ObservedStep(view, events, used);
      HandlePresentEvent(events[used]);
    }

    /** dri3_wait_for_notify; `used` of the coming events are consumed. */
    method WaitForNotify(events: seq<Notify>) returns (ok: bool, used: nat)
      requires Valid() && ShownArePosted()
      modifies this`width, this`height, this`recvSbc, this`recvMscSerial, this`flipping, this`ust, this`msc,
               this`outstanding, this`shown, Slots()`status
      ensures Valid() && used <= |events|
      ensures ShownArePosted() && shown == StillShown(old(shown), events[..used])
      ensures Swapping() == Completed(old(Swapping()), events[..used])
      ensures Seen() == Observed(old(Seen()), events[..used])
      ensures forall i | 0 <= i < buffers.Length && buffers[i] != null ::
                buffers[i].status == StatusAfter(old(buffers[i].status), buffers[..], i, events[..used])
      ensures ok <==> WaitIsOver(sendSbc, recvSbc)
      ensures !ok ==> used == |events|
      ensures forall i | 0 <= i < used :: !OverAfter(old(Swapping()), events[..i])
    {
      used := 0;
      if sendSbc % WORD == 0 {
        return true, 0;
      }
      while true
        invariant Valid() && ShownArePosted() && used <= |events|
        invariant HasConsumed(old(Swapping()), old(Seen()), old(shown), events[..used])
        invariant forall i | 0 <= i < buffers.Length && buffers[i] != null ::
                    buffers[i].status == StatusAfter(old(buffers[i].status), buffers[..], i, events[..used])
        invariant sendSbc % WORD != 0 && forall i | 0 <= i < used :: !OverAfter(old(Swapping()), events[..i])
        decreases |events| - used
      {
        if sendSbc % WORD <= recvSbc % WORD {
          return true, used;
        }
        if used == |events| {
          return false, used;
        }
        forall i | 0 <= i < buffers.Length && buffers[i] != null {
          StatusAfterStep(old(buffers[i].status), buffers[..], i, events, used);
        }
        ConsumeEvent(events, used, old(Swapping()), old(Seen()), old(shown));
        used := used + 1;
      }
    }

    predicate SlotFree(i: nat)
      requires i < buffers.Length
      reads this, buffers, buffers[..]
    {
      buffers[i] == null || buffers[i].status == Idle
    }

    /** A pass may make a busy buffer idle, nothing else. */
    ghost predicate LetGo(before: Status, b: Buffer)
      reads b`status
    {
      b.status == before || (before == Busy && b.status == Idle)
    }

    /** What a pass does at a slot before looking at it: a buffer two places behind that
        is not posted becomes idle. */
    method LetGoBehind(id: nat)
      requires Shaped() && id < maxBack
      modifies Slots()`status
      ensures forall b | b in Slots() :: LetGo(old(b.status), b)
      ensures forall b | b in Slots() && b != buffers[(id + maxBack - 2) % maxBack] :: b.status == old(b.status)
      ensures var b := buffers[(id + maxBack - 2) % maxBack]; b != null && old(b.status) != Posted ==> b.status == Idle
    {
      ModWraps(id + maxBack - 2, maxBack);
      var preId := (id + maxBack - 2) % maxBack;
      var preBuffer := buffers[preId];
      if preBuffer != null && preBuffer.status != Posted {
        assert preBuffer in buffers[..];
        preBuffer.status := Idle;
      }
    }

    /** The status at place p of a pass, idle for an empty slot. */
    ghost function StatusAt(p: nat): Status
      requires Shaped() && p < maxBack
      reads this`curBack, buffers, Slots()`status
    {
      var b := buffers[SlotAt(p, curBack, maxBack)];
      if b != null && b in buffers[..] then b.status else Idle
    }

    ghost function Statuses(): (r: seq<Status>)
      requires Shaped()
      reads this, buffers, Slots()
      ensures |r| == maxBack && forall p | 0 <= p < maxBack :: r[p] == StatusAt(p)
    {
      seq(maxBack, p requires Shaped() && 0 <= p < maxBack reads this, buffers, Slots() => StatusAt(p))
    }

    /** A pass over the ring would find nothing. */
    ghost predicate RingIsFull()
      requires Shaped()
      reads this`curBack, buffers, Slots()`status
    {
      forall p | 0 <= p < maxBack :: Stops(StatusAt(p), p, maxBack)
    }

    /** A full ring has no free slot. */
    lemma FullRingHasNoFreeSlot()
      requires Shaped() && RingIsFull()
      ensures forall j | 0 <= j < maxBack :: !SlotFree(j)
    {
      forall j | 0 <= j < maxBack ensures !SlotFree(j) {
        var p := PassVisitsAll(j, curBack, maxBack);
        assert Stops(StatusAt(p), p, maxBack);
      }
    }

    /** Lets go at place p, seen from the places of the pass. */
    method LetGoAtPlace(p: nat)
      requires Shaped() && p < maxBack
      modifies Slots()`status
      ensures forall b | b in Slots() :: LetGo(old(b.status), b)
      ensures forall q | 0 <= q < maxBack ::
                var was := old(StatusAt(q));
                StatusAt(q) == if q == PlaceBehind(p, maxBack) && was != Posted then Idle else was
    {
      BehindIsTwoBack(p, curBack, maxBack);
      LetGoBehind(SlotAt(p, curBack, maxBack));
    }

    /** Place p of a pass that began with the statuses `was`. */
    method LookAt(p: nat, ghost was: seq<Status>) returns (free: bool)
      requires Shaped() && p < maxBack == |was|
      requires forall q | p <= q < maxBack :: StatusAt(q) == StatusAhead(was[q], q, p, maxBack)
      requires forall q | 0 <= q < p :: StatusAt(q) == StatusBehind(was[q], q, p) && Stops(was[q], q, maxBack)
      modifies Slots()`status
      ensures free <==> SlotFree(SlotAt(p, curBack, maxBack))
      ensures free <==> !Stops(was[p], p, maxBack)
      ensures forall q | p < q < maxBack :: StatusAt(q) == StatusAhead(was[q], q, p + 1, maxBack)
      ensures !free ==> forall q | 0 <= q <= p :: StatusAt(q) == StatusBehind(was[q], q, p + 1)
      ensures forall b | b in Slots() :: LetGo(old(b.status), b)
    {
      var id := SlotAt(p, curBack, maxBack);
      LetGoAtPlace(p);
      free := buffers[id] == null || buffers[id].status == Idle;
      assert StatusAt(p) == StatusAhead(was[p], p, p + 1, maxBack);
    }

    /** One pass of dri3_find_back over the back buffers: the slot at the first place that
        does not stop it, -1 if all do. */
    method ScanRing() returns (id: int, ghost place: nat)
      requires Shaped()
      modifies Slots()`status
      ensures id == -1 <==> old(RingIsFull())
      ensures id == -1 ==> forall p | 0 <= p < maxBack ::
                StatusAt(p) == if old(StatusAt(p)) == Posted then Posted else Idle
      ensures id != -1 ==> place < maxBack && id == SlotAt(place, curBack, maxBack) && SlotFree(id)
      ensures id != -1 ==> !Stops(old(Statuses())[place], place, maxBack)
                           && forall a | 0 <= a < place :: Stops(old(Statuses())[a], a, maxBack)
      ensures forall b | b in Slots() :: LetGo(old(b.status), b)
    {
      ghost var was := Statuses();
      var b := 0;
      while b < maxBack
        invariant 0 <= b <= maxBack
        invariant forall x | x in Slots() :: LetGo(old(x.status), x)
        invariant forall a | 0 <= a < b :: Stops(was[a], a, maxBack)
        invariant forall q | 0 <= q < b :: StatusAt(q) == StatusBehind(was[q], q, b)
        invariant forall q | b <= q < maxBack :: StatusAt(q) == StatusAhead(was[q], q, b, maxBack)
      {
        var free := LookAt(b, was);
        if free {
          return SlotAt(b, curBack, maxBack), b;
        }
        b := b + 1;
      }
      id, place := -1, 0;
    }

    /** A pass, and the slot it found as the current one. */
    method FindPass() returns (id: int, ghost place: nat)
      requires Valid() && ShownArePosted()
      modifies this`curBack, Slots()`status
      ensures Valid() && ShownArePosted()
      ensures id == -1 ==> curBack == old(curBack)
      ensures id != -1 ==> 0 <= id < maxBack && curBack == id && SlotFree(id)
      ensures id != -1 ==> place < maxBack && id == SlotAt(place, old(curBack), maxBack)
      ensures id != -1 ==> !Stops(old(Statuses())[place], place, maxBack)
                           && forall a | 0 <= a < place :: Stops(old(Statuses())[a], a, maxBack)
      ensures id == -1 <==> old(RingIsFull())
      ensures id == -1 ==> forall p | 0 <= p < maxBack ::
                StatusAt(p) == if old(StatusAt(p)) == Posted then Posted else Idle
      ensures forall b | b in Slots() :: LetGo(old(b.status), b)
    {
      id, place := ScanRing();
      if id != -1 {
        curBack := id;
      }
    }

    /** The statuses are those before the pass that comes after these events. */
    ghost predicate HasBegun(was: seq<Status>, events: seq<Notify>)
      requires Shaped()
      reads this`curBack, buffers, Slots()`status
    {
      |was| == maxBack && forall p | 0 <= p < maxBack ::
        StatusAt(p) == BeforePass(was[p], p, buffers[..], curBack, maxBack, events)
    }

    /** A pass that comes after some events. */
    method FindPassAfter(ghost was: seq<Status>, ghost events: seq<Notify>) returns (id: int, ghost place: nat)
      requires Valid() && ShownArePosted() && HasBegun(was, events)
      modifies this`curBack, Slots()`status
      ensures Valid() && ShownArePosted()
      ensures id == -1 <==> NothingAfter(was, buffers[..], old(curBack), events)
      ensures id == -1 ==> curBack == old(curBack) && HasLetGo(was, events)
      ensures id != -1 ==> 0 <= id < maxBack && curBack == id && SlotFree(id)
      ensures id != -1 ==> place < maxBack && id == SlotAt(place, old(curBack), maxBack)
                           && FirstFound(was, place, buffers[..], old(curBack), events)
    {
      forall p | 0 <= p < maxBack {
        StopsBefore(was[p], p, buffers[..], curBack, maxBack, events);
      }
      id, place := FindPass();
    }

    /** The statuses after a pass that found nothing. */
    ghost predicate HasLetGo(was: seq<Status>, events: seq<Notify>)
      requires Shaped()
      reads this`curBack, buffers, Slots()`status
    {
      |was| == maxBack && forall p | 0 <= p < maxBack ::
        StatusAt(p) == if BeforePass(was[p], p, buffers[..], curBack, maxBack, events) == Posted then Posted else Idle
    }

    /** An event after a pass that found nothing. */
    method TakeEvent(ghost was: seq<Status>, events: seq<Notify>, used: nat, ghost swaps: Swaps, ghost view: View,
                     ghost shown: set<Buffer>)
      requires Valid() && ShownArePosted() && used < |events| && HasLetGo(was, events[..used])
      requires HasConsumed(swaps, view, shown, events[..used])
      modifies this`width, this`height, this`recvSbc, this`recvMscSerial, this`flipping, this`ust, this`msc,
               this`outstanding, this`shown, Slots()`status
      ensures Valid() && ShownArePosted() && HasConsumed(swaps, view, shown, events[..used + 1])
      ensures HasBegun(was, events[..used + 1])
    {
      ConsumeEvent(events, used, swaps, view, shown);
      forall p | 0 <= p < maxBack {
        BeforeNextPass(was[p], p, buffers[..], curBack, maxBack, events, used, StatusAt(p));
      }
    }

    /** The loop of dri3_find_back: passes over the ring, and an event between two passes. */
    method Search(events: seq<Notify>) returns (id: int, used: nat, ghost place: nat)
      requires Valid() && ShownArePosted()
      modifies this`width, this`height, this`recvSbc, this`recvMscSerial, this`flipping, this`ust, this`msc,
               this`outstanding, this`curBack, this`shown, Slots()`status
      ensures Valid() && ShownArePosted() && used <= |events|
      ensures HasConsumed(old(Swapping()), old(Seen()), old(shown), events[..used])
      ensures SearchEnds(old(Statuses()), buffers[..], old(curBack), events, id != -1, used)
      ensures id != -1 ==> place < maxBack && id == SlotAt(place, old(curBack), maxBack)
                           && FirstFound(old(Statuses()), place, buffers[..], old(curBack), events[..used])
      ensures id != -1 ==> curBack == id && SlotFree(id)
    {
      used := 0;
      ghost var was := Statuses();
      while true
        invariant Valid() && ShownArePosted() && used <= |events| && curBack == old(curBack)
        invariant HasConsumed(old(Swapping()), old(Seen()), old(shown), events[..used])
        invariant forall k | 0 <= k < used :: NothingAfter(was, buffers[..], curBack, events[..k])
        invariant HasBegun(was, events[..used])
        decreases |events| - used
      {
        id, place := FindPassAfter(was, events[..used]);
        if id != -1 || used == |events| {
          return;
        }
        TakeEvent(was, events, used, old(Swapping()), old(Seen()), old(shown));
        used := used + 1;
      }
    }

    /** dri3_find_back. */
    method FindBack(events: seq<Notify>) returns (id: int, used: nat, ghost place: nat)
      requires Valid() && ShownArePosted()
      modifies this`width, this`height, this`recvSbc, this`recvMscSerial, this`flipping, this`ust, this`msc,
               this`outstanding, this`curBack, this`shown, Slots()`status
      ensures Valid() && used <= |events|
      ensures ShownArePosted() && shown == StillShown(old(shown), events[..used])
      ensures Swapping() == Completed(old(Swapping()), events[..used])
      ensures Seen() == Observed(old(Seen()), events[..used])
      ensures SearchEnds(old(Statuses()), buffers[..], old(curBack), events, id != -1, used)
      ensures id != -1 ==> place < maxBack && id == SlotAt(place, old(curBack), maxBack)
                           && FirstFound(old(Statuses()), place, buffers[..], old(curBack), events[..used])
      ensures id == -1 ==> used == |events|
      ensures id != -1 ==> 0 <= id < maxBack && curBack == id && SlotFree(id)
      ensures id != -1 && used == 0 <==> !old(RingIsFull())
      ensures (exists j | 0 <= j < maxBack :: old(SlotFree(j))) ==> id != -1 && used == 0
    {
      if RingIsFull() {
        FullRingHasNoFreeSlot();
      }
      assert events[..0] == [];
      assert RingIsFull() <==> NothingAfter(Statuses(), buffers[..], curBack, []);
      id, used, place := Search(events);
    }

    /** Gives a slot a new buffer, which has never been swapped. */
    method Replace(id: nat, buffer: Buffer)
      requires Valid() && id < maxBack && buffer !in Slots()
      requires buffer.age == 0 && buffer.lastSwap == 0 && buffer.swappedAt == 0
      modifies buffers
      ensures Valid() && buffers[..] == old(buffers[..][id := buffer])
    {
      buffers[id] := buffer;
      assert forall i | 0 <= i < buffers.Length && i != id && buffers[i] != null :: buffers[i] in old(buffers[..]);
    }

    predicate Fits(b: Buffer?)
      reads this
    {
      b != null && b.width == width && b.height == height
    }

    /** Puts a new buffer into the slot unless the one there fits. */
    method FillSlot(id: nat, pixmap: nat, canAllocate: bool) returns (back: Buffer?, reuse: bool)
      requires Valid() && ShownArePosted() && id < maxBack
      modifies buffers
      ensures Valid() && ShownArePosted()
      ensures buffers[..] == if back == null then old(buffers[..]) else old(buffers[..][id := back])
      ensures back == null <==> !old(Fits(buffers[id])) && !canAllocate
      ensures old(Fits(buffers[id])) ==> back == old(buffers[id])
      ensures !old(Fits(buffers[id])) && back != null ==> fresh(back) && back !in shown && back.pixmap == pixmap
      ensures back != null ==> Fits(back) && (reuse <==> back == old(buffers[id]))
    {
      back, reuse := buffers[id], true;
      if back == null || back.width != width || back.height != height {
        if !canAllocate {
          return null, false;
        }
        back := new Buffer(pixmap, width, height);
        Replace(id, back);
        reuse := false;
      }
    }

    /** Hands out the buffer in a free slot, a new one if there is none that fits. */
    method TakeSlot(id: nat, pixmap: nat, canAllocate: bool) returns (back: Buffer?)
      requires Valid() && ShownArePosted() && id < maxBack && SlotFree(id)
      modifies buffers, Slots()`status, Slots()`reused
      ensures Valid() && ShownArePosted()
      ensures back == null <==> !old(Fits(buffers[id])) && !canAllocate
      ensures buffers[..] == if back == null then old(buffers[..]) else old(buffers[..][id := back])
      ensures back != null ==> back !in shown && Fits(back) && back.status == Busy
      ensures back != null ==> (back.reused <==> old(Fits(buffers[id])))
      ensures back != null ==> if back.reused then back == old(buffers[id]) else fresh(back) && back.pixmap == pixmap
      ensures forall b | b in old(Slots()) && b != back :: b.status == old(b.status)
    {
      var reuse;
      back, reuse := FillSlot(id, pixmap, canAllocate);
      if back != null {
        assert back in buffers[..];
        back.status, back.reused := Busy, reuse;
      }
    }

    /** dri3_get_window_buffer; `canAllocate` says whether a new buffer with the pixmap can be
        had. The result is null when none can, and when waiting for events fails (where the
        source goes on with the slot number -1). */
    method GetWindowBuffer(events: seq<Notify>, pixmap: nat, canAllocate: bool)
      returns (back: Buffer?, used: nat, ghost found: bool, ghost place: nat)
      requires Valid() && ShownArePosted()
      modifies this`width, this`height, this`recvSbc, this`recvMscSerial, this`flipping, this`ust, this`msc,
               this`outstanding, this`curBack, this`shown, buffers, Slots()`status, Slots()`reused
      ensures Valid() && used <= |events|
      ensures ShownArePosted() && shown == StillShown(old(shown), events[..used])
      ensures Swapping() == Completed(old(Swapping()), events[..used])
      ensures Seen() == Observed(old(Seen()), events[..used])
      ensures SearchEnds(old(Statuses()), old(buffers[..]), old(curBack), events, found, used)
      ensures found ==> place < maxBack && curBack == SlotAt(place, old(curBack), maxBack)
                        && FirstFound(old(Statuses()), place, old(buffers[..]), old(curBack), events[..used])
      ensures back != null <==> found && (canAllocate || Fits(old(buffers[..])[curBack]))
      ensures back != null ==> back !in shown && Fits(back) && back.status == Busy
      ensures back == null ==> buffers[..] == old(buffers[..]) && (canAllocate ==> used == |events|)
      ensures back != null ==> buffers[..] == old(buffers[..])[curBack := back]
      ensures back != null ==> (back.reused <==> back == old(buffers[..])[curBack]) && (back.reused || fresh(back))
      ensures back != null ==> (back.reused <==> Fits(old(buffers[..])[curBack]))
    {
      var id;
      id, used, place := FindBack(events);
      found := id != -1;
      if id == -1 {
        return null, used, found, place;
      }
      back := TakeSlot(id, pixmap, canAllocate);
    }

    /** The ages between the ageing loop and the posting: one ahead of the sent count, so
        that none is 1. */
    ghost predicate AgesAhead()
      requires Shaped()
      reads this`sendSbc, this`swaps, this`curBack, buffers, Slots()`age, Slots()`lastSwap, Slots()`swappedAt
    {
      && (forall i | 0 <= i < maxBack && buffers[i] != null :: AgeAhead(buffers[i]))
      && (forall i, j | 0 <= i < j < maxBack && buffers[i] != null && buffers[j] != null && buffers[i].age > 0 ::
            buffers[i].age != buffers[j].age)
    }

    ghost predicate AgeAhead(b: Buffer)
      reads this`sendSbc, this`swaps, b`age, b`lastSwap, b`swappedAt
    {
      && b.age < WORD && b.lastSwap < LONG && b.age != 1
      && b.swappedAt <= swaps && b.age == LifeAge(swaps + 1, b.swappedAt)
      && (b.age > 0 ==> b.age == (sendSbc - b.lastSwap + 2) % LONG)
    }

    /** The ageing loop of dri3_swap_buffers; an age of 2^32 - 1 wraps to none. */
    method AgeBuffers()
      requires Shaped()
      modifies Slots()`age
      ensures forall i | 0 <= i < maxBack && buffers[i] != null :: buffers[i].age == Older(old(buffers[i].age))
    {
      var i := 0;
      while i < maxBack
        invariant 0 <= i <= maxBack
        invariant forall k | 0 <= k < i && buffers[k] != null :: buffers[k].age == Older(old(buffers[k].age))
        invariant forall k | i <= k < maxBack && buffers[k] != null :: buffers[k].age == old(buffers[k].age)
      {
        var b := buffers[i];
        if b != null && b.age > 0 {
          assert b in buffers[..];
          b.age := (b.age + 1) % WORD;
        }
        i := i + 1;
      }
    }

    /** AgeBuffers, in terms of the sent count. */
    method AgeAllBuffers()
      requires Valid()
      modifies Slots()`age
      ensures Shaped() && AgesAhead()
      ensures forall i | 0 <= i < maxBack && buffers[i] != null :: buffers[i].age == Older(old(buffers[i].age))
    {
      AgeBuffers();
      forall i | 0 <= i < maxBack && buffers[i] != null ensures AgeAhead(buffers[i]) {
        assert old(AgeExact(buffers[i]));
        AgeStep(sendSbc, buffers[i].lastSwap, old(buffers[i].age));
        LifeAgeStep(swaps, buffers[i].swappedAt);
      }
      forall i, j | 0 <= i < j < maxBack && buffers[i] != null && buffers[j] != null && buffers[i].age > 0
        ensures buffers[i].age != buffers[j].age
      {
        OlderKeepsApart(old(buffers[i].age), old(buffers[j].age));
      }
    }

    /** Counts and stamps the buffer about to be presented. */
    method Stamp(back: Buffer)
      requires Shaped() && AgesAhead() && ShownArePosted()
      modifies this`sendSbc, this`swaps, this`outstanding, this`shown, back
      ensures ShownArePosted() && shown == old(shown) + {back}
      ensures Valid() && sendSbc == Increment(old(sendSbc)) && outstanding == old(outstanding) + [sendSbc]
      ensures back.age == 1 && back.status == Posted && back.lastSwap == sendSbc
      ensures swaps == old(swaps) + 1 && back.swappedAt == swaps
    {
      back.age := 1;
      back.status := Posted;
      sendSbc := (sendSbc + 1) % LONG;
      swaps := swaps + 1;
      back.lastSwap, back.swappedAt := sendSbc, swaps;
      shown, outstanding := shown + {back}, outstanding + [sendSbc];
      forall i | 0 <= i < maxBack && buffers[i] != null ensures AgeExact(buffers[i]) {
        CountStep(old(sendSbc), buffers[i].lastSwap);
      }
    }

    /** The bookkeeping of dri3_swap_buffers once the wait is over. */
    method Post(back: Buffer)
      requires Valid() && ShownArePosted()
      requires WaitIsOver(sendSbc, recvSbc)
      modifies this`sendSbc, this`swaps, this`outstanding, this`shown, Slots()`age, back
      ensures ShownArePosted() && shown == old(shown) + {back}
      ensures Valid() && Swapping() == Apply(old(Swapping()), Present)
      ensures back.age == 1 && back.status == Posted && back.lastSwap == sendSbc
      ensures swaps == old(swaps) + 1 && back.swappedAt == swaps
      ensures forall i | 0 <= i < maxBack && buffers[i] != null && buffers[i] != back ::
                buffers[i].age == Older(old(buffers[i].age))
    {
      AgeAllBuffers();
      Stamp(back);
    }

    /** dri3_swap_buffers on a window. */
    method SwapBuffers(back: Buffer, events: seq<Notify>) returns (ret: int, used: nat)
      requires Valid() && ShownArePosted()
      modifies this`width, this`height, this`recvSbc, this`recvMscSerial, this`flipping, this`ust, this`msc,
               this`outstanding, this`sendSbc, this`swaps, this`shown, Slots()`status, Slots()`age, back
      ensures Valid() && used <= |events|
      ensures ret != -1 <==> OverAfter(old(Swapping()), events[..used])
      ensures ret == -1 ==> used == |events|
      ensures forall i | 0 <= i < used :: !OverAfter(old(Swapping()), events[..i])
      ensures old(WaitIsOver(sendSbc, recvSbc)) ==> ret != -1 && used == 0
      ensures ret == -1 || ret == sendSbc
      ensures Seen() == Observed(old(Seen()), events[..used])
      ensures forall i | 0 <= i < buffers.Length && buffers[i] != null && (ret == -1 || buffers[i] != back) ::
                buffers[i].status == StatusAfter(old(buffers[i].status), buffers[..], i, events[..used])
      ensures ret == -1 ==> Swapping() == Completed(old(Swapping()), events[..used]) && back.age == old(back.age)
      ensures ret != -1 ==>
                var s := Completed(old(Swapping()), events[..used]);
                Enabled(s, Present) && Swapping() == Apply(s, Present)
      ensures ret != -1 ==>
                back.age == 1 && back.status == Posted && back.lastSwap == sendSbc && back.swappedAt == swaps
      ensures swaps == old(swaps) + if ret == -1 then 0 else 1
      ensures ret != -1 ==> forall i | 0 <= i < maxBack && buffers[i] != null && buffers[i] != back ::
                buffers[i].age == Older(old(buffers[i].age))
      ensures ShownArePosted()
      ensures shown == StillShown(old(shown), events[..used]) + if ret == -1 then {} else {back}
    {
      assert events[..0] == [] && Completed(Swapping(), []) == Swapping();
      var ok;
      ok, used := WaitForNotify(events);
      if !ok {
        return -1, used;
      }
      Post(back);
      ret := sendSbc;
    }
  }
}
