/** How a block request crosses the cores (main/hyp_virtio_blk.c): the guest's driver and the device's
    registers on core 1, the service task on core 0. They share the rings in guest memory and two flags.
    Every access to something shared is one step, and steps of the two cores interleave freely. */
module VirtioProtocol {
  datatype Elem = Elem(id: int, len: int)

  /** Core 0: where the service task is. `any` says that it has published an entry in this pass. */
  datatype Core0 =
    | Idle
    | Kicked                                    // has read s_kick as set
    | Check(any: bool)                          // about to read avail.idx
    | Fetch(any: bool)                          // it differed; about to read the ring slot
    | Serve(head: int, any: bool)               // doing the request
    | PutId(head: int, len: int)                // about to write the used entry's id
    | PutLen(head: int, len: int)               // ... and its length
    | Bump(head: int, len: int)                 // about to advance used.idx
    | Advance                                   // about to advance last_avail
    | Raise                                     // about to set s_irq

  /** Core 1: where the driver's interrupt handler is. */
  datatype Handler =
    | Away
    | Claimed                                   // has read the PLIC's claim register
    | Read(status: bool)                        // has read InterruptStatus
    | Walk                                      // has acknowledged; about to compare used.idx
    | Take                                      // it differed; about to read the entry
    | Finished                                  // used.idx was equal; about to complete the claim

  /** Core 1: where hyp_virtio_blk_poll is. */
  datatype Poll =
    | Quiet
    | Saw                                       // has read s_irq as set
    | Took                                      // has cleared it; about to raise the line

  /** The two rings in guest memory, and how far core 0 has consumed the first. */
  datatype Rings = Rings(availRing: seq<int>, availIdx: nat,
                         usedIds: seq<int>, usedLens: seq<int>, usedIdx: nat, lastAvail: nat)

  /** s_kick, s_irq, bit 0 of InterruptStatus, and source 11 of the PLIC. */
  datatype Flags = Flags(kick: bool, irq: bool, status: bool, pending: bool, claimed: bool)

  /** What has happened so far: heads the driver has exposed, how many of them its last notification
      covered, entries core 0 has exposed, entries the driver has taken; and a head written to its slot
      but not exposed yet. */
  datatype Log = Log(published: seq<int>, notified: nat, done: seq<Elem>, got: seq<Elem>, filled: bool, next: int)

  datatype State = State(qn: nat, m: Rings, f: Flags, core0: Core0, poll: Poll, handler: Handler, g: Log)

  const WRAP: nat := 0x10000

  /** 16-bit increment. */
  function Inc(i: nat): nat {
    (i + 1) % WRAP
  }

  datatype Step =
    | Fill(head: int) | Publish | Notify                       // driver, submitting
    | Claim | ReadStatus | Ack | Look | Receive | Complete     // driver, handling the interrupt
    | PollSee | PollTake | PollRaise                             // core 1, hyp_virtio_blk_poll
    | Core0Step(len: int)                                      // core 0

  ghost predicate Shape(qn: nat, m: Rings) {
    0 < qn < WRAP && WRAP % qn == 0 && |m.availRing| == |m.usedIds| == |m.usedLens| == qn
  }

  ghost predicate Initial(s: State) {
    && Shape(s.qn, s.m)
    && s.m.availIdx == s.m.usedIdx == s.m.lastAvail == 0
    && s.f == Flags(false, false, false, false, false)
    && s.core0 == Idle && s.poll.Quiet? && s.handler == Away
    && s.g == Log([], 0, [], [], false, s.g.next)
  }

  /** When a step can be taken. The driver and the poll share core 1, so the driver waits while a poll is
      under way; the driver keeps at most `qn` requests outstanding. */
  ghost predicate Enabled(s: State, step: Step) {
    match step
    case Fill(_) => s.poll.Quiet? && !s.g.filled && |s.g.published| < |s.g.got| + s.qn
    case Publish => s.poll.Quiet? && s.g.filled
    case Notify => s.poll.Quiet?
    case Claim => s.poll.Quiet? && s.handler.Away? && s.f.pending && !s.f.claimed
    case ReadStatus => s.poll.Quiet? && s.handler.Claimed?
    case Ack => s.poll.Quiet? && s.handler.Read?
    case Look => s.poll.Quiet? && s.handler.Walk?
    case Receive => s.poll.Quiet? && s.handler.Take?
    case Complete => s.poll.Quiet? && s.handler.Finished?
    case PollSee => s.poll.Quiet? && s.f.irq
    case PollTake => s.poll.Saw?
    case PollRaise => s.poll.Took?
    case Core0Step(_) => true
  }

  /** The service task, one shared access at a time. */
  function Core0Next(s: State, len: int): State
    requires Shape(s.qn, s.m)
  {
    var m, g := s.m, s.g;
    match s.core0
    case Idle => if s.f.kick then s.(core0 := Kicked) else s
    case Kicked => s.(f := s.f.(kick := false), core0 := Check(false))
    case Check(any) =>
      s.(core0 := if m.lastAvail != m.availIdx then Fetch(any) else if any then Raise else Idle)
    case Fetch(any) => s.(core0 := Serve(m.availRing[m.lastAvail % s.qn], any))
    case Serve(head, _) => s.(core0 := PutId(head, len))
    case PutId(head, n) => s.(m := m.(usedIds := m.usedIds[m.usedIdx % s.qn := head]), core0 := PutLen(head, n))
    case PutLen(head, n) => s.(m := m.(usedLens := m.usedLens[m.usedIdx % s.qn := n]), core0 := Bump(head, n))
    case Bump(head, n) =>
      s.(m := m.(usedIdx := Inc(m.usedIdx)), g := g.(done := g.done + [Elem(head, n)]), core0 := Advance)
    case Advance => s.(m := m.(lastAvail := Inc(m.lastAvail)), core0 := Check(true))
    case Raise => s.(f := s.f.(irq := true), core0 := Idle)
  }

  /** The driver's handler: claim, read the status, acknowledge what was read, walk, complete; and the
      poll, which turns core 0's flag into an interrupt. */
  function LineNext(s: State, step: Step): State {
    var f := s.f;
    match step
    case Claim => s.(f := f.(pending := false, claimed := true), handler := Claimed)
    case ReadStatus => s.(handler := Read(f.status))
    case Ack =>
      var left := f.status && !(s.handler.Read? && s.handler.status);
      s.(f := f.(status := left, pending := f.pending && left), handler := Walk)
    case Look => s.(handler := if |s.g.got| % WRAP != s.m.usedIdx then Take else Finished)
    case Complete => s.(f := f.(claimed := false), handler := Away)
    case PollSee => s.(poll := Saw)
    case PollTake => s.(f := f.(irq := false), poll := Took)
    case PollRaise => s.(f := f.(status := true, pending := true), poll := Quiet)
    case _ => s
  }

  function Next(s: State, step: Step): State
    requires Shape(s.qn, s.m)
  {
    var m, g := s.m, s.g;
    match step
    case Fill(head) =>
      s.(m := m.(availRing := m.availRing[m.availIdx % s.qn := head]), g := g.(next := head, filled := true))
    case Publish =>
      s.(m := m.(availIdx := Inc(m.availIdx)), g := g.(published := g.published + [g.next], filled := false))
    case Notify => s.(f := s.f.(kick := true), g := g.(notified := |g.published|))
    case Receive =>
      var slot := (|g.got| % WRAP) % s.qn;
      s.(g := g.(got := g.got + [Elem(m.usedIds[slot], m.usedLens[slot])]), handler := Walk)
    case Core0Step(len) => Core0Next(s, len)
    case _ => LineNext(s, step)
  }

  // ---- arithmetic of the rings --------------------------------------------------------------------

  lemma AtLeastOne(k: int, d: nat)
    requires d > 0
    ensures k >= 1 ==> k * d >= d
    ensures k <= -1 ==> k * d <= -1 * d
  {
  }

  lemma RemainderOf(x: nat, d: nat, q: int, r: nat)
    requires d > 0 && x == q * d + r && r < d
    ensures x % d == r
  {
    var p := x / d;
    assert x == p * d + x % d;
    assert (p - q) * d == r - x % d;
    AtLeastOne(p - q, d);
  }

  /** Two positions fewer than `qn` apart never share a slot. */
  lemma SlotsDiffer(x: nat, y: nat, qn: nat)
    requires qn > 0 && x < y < x + qn
    ensures x % qn != y % qn
  {
    if x % qn == y % qn {
      assert x == x / qn * qn + x % qn && y == y / qn * qn + y % qn;
      assert (y / qn - x / qn) * qn == y - x;
      AtLeastOne(y / qn - x / qn, qn);
    }
  }

  /** With a ring size that divides 65536, a wrapped index finds the same slot as an unbounded one. */
  lemma SlotOfWrapped(x: nat, qn: nat)
    requires 0 < qn && WRAP % qn == 0
    ensures x % WRAP % qn == x % qn
  {
    var m, a, b := WRAP / qn, x / WRAP, x % WRAP;
    assert WRAP == m * qn;
    var c, r := b / qn, b % qn;
    assert b == c * qn + r;
    assert x == a * WRAP + b;
    assert a * (m * qn) == (a * m) * qn;
    assert x == (a * m + c) * qn + r;
    RemainderOf(x, qn, a * m + c, r);
  }

  lemma IncCounts(x: nat)
    ensures Inc(x % WRAP) == (x + 1) % WRAP
  {
  }

  // ---- the invariant -------------------------------------------------------------------------------

  /** How many requests core 0 has accounted for in last_avail. */
  function Served(c: Core0, g: Log): int {
    if c.Advance? then |g.done| - 1 else |g.done|
  }

  /** The indices count what has happened, modulo 65536. */
  ghost predicate Counts(m: Rings, c: Core0, g: Log) {
    && m.availIdx == |g.published| % WRAP && m.usedIdx == |g.done| % WRAP
    && Served(c, g) >= 0 && m.lastAvail == Served(c, g) % WRAP
  }

  /** Nothing overtakes, and at most `qn` requests are outstanding. */
  ghost predicate Bounds(qn: nat, g: Log) {
    && |g.got| <= |g.done| <= |g.published| <= |g.got| + qn && g.notified <= |g.published|
    && (g.filled ==> |g.published| < |g.got| + qn)
  }

  ghost predicate AvailAt(qn: nat, m: Rings, g: Log, k: nat)
    requires Shape(qn, m)
  {
    k < |g.published| && m.availRing[k % qn] == g.published[k]
  }

  ghost predicate UsedAt(qn: nat, m: Rings, g: Log, k: nat)
    requires Shape(qn, m)
  {
    k < |g.done| && m.usedIds[k % qn] == g.done[k].id && m.usedLens[k % qn] == g.done[k].len
  }

  /** The slots hold what was published and what was completed, as long as somebody still needs it. */
  ghost predicate Slots(qn: nat, m: Rings, g: Log)
    requires Shape(qn, m)
  {
    && (forall k: nat :: |g.done| <= k < |g.published| ==> AvailAt(qn, m, g, k))
    && (forall k: nat :: |g.got| <= k < |g.done| ==> UsedAt(qn, m, g, k))
    && (g.filled ==> m.availRing[|g.published| % qn] == g.next)
  }

  /** Core 0 is working on the oldest request not yet completed, and writes its entry before exposing it. */
  ghost predicate Working(qn: nat, m: Rings, c: Core0, g: Log)
    requires Shape(qn, m)
  {
    var k := |g.done|;
    match c
    case Fetch(_) => k < |g.published|
    case Serve(head, _) => k < |g.published| && head == g.published[k]
    case PutId(head, _) => k < |g.published| && head == g.published[k]
    case PutLen(head, _) => k < |g.published| && head == g.published[k] && m.usedIds[k % qn] == head
    case Bump(head, n) =>
      k < |g.published| && head == g.published[k] && m.usedIds[k % qn] == head && m.usedLens[k % qn] == n
    case Advance => k > 0
    case _ => true
  }

  /** The k-th completion is the k-th request; the driver has taken a prefix of the completions. */
  ghost predicate InOrder(g: Log) {
    && |g.done| <= |g.published|
    && (forall k :: 0 <= k < |g.done| ==> g.done[k].id == g.published[k])
    && g.got <= g.done
  }

  /** Everything about the rings. */
  ghost predicate Data(s: State) {
    && Shape(s.qn, s.m) && Counts(s.m, s.core0, s.g) && Bounds(s.qn, s.g) && Slots(s.qn, s.m, s.g)
    && Working(s.qn, s.m, s.core0, s.g) && InOrder(s.g)
    && (s.handler.Take? ==> |s.g.got| < |s.g.done|)
  }

  /** A request the driver has notified of is not forgotten: the flag is up, or core 0 will read
      avail.idx again. */
  ghost predicate KickHeld(f: Flags, c: Core0, g: Log) {
    g.notified > |g.done| ==> f.kick || !(c.Idle? || c.Raise?)
  }

  /** Core 0 has exposed an entry in this pass, or is about to, and has yet to raise s_irq. */
  predicate WillRaise(c: Core0) {
    match c
    case Check(any) => any
    case Fetch(any) => any
    case Serve(_, any) => any
    case PutId(_, _) => true
    case PutLen(_, _) => true
    case Bump(_, _) => true
    case Advance => true
    case Raise => true
    case _ => false
  }

  /** A completion the driver has not taken is on its way to it. */
  ghost predicate IrqHeld(s: State) {
    |s.g.got| < |s.g.done| ==>
      || WillRaise(s.core0) || s.f.irq || !s.poll.Quiet? || s.f.status
      || s.handler.Walk? || s.handler.Take?
  }

  /** The interrupt line follows the status register; the handler never finds the status clear. */
  ghost predicate Line(f: Flags, h: Handler) {
    && (f.claimed <==> !h.Away?)
    && (f.pending ==> f.status)
    && (f.status ==> f.pending || h.Claimed? || h.Read?)
    && (h.Claimed? ==> f.status)
    && (h.Read? ==> f.status && h.status)
  }

  ghost predicate Inv(s: State) {
    Data(s) && KickHeld(s.f, s.core0, s.g) && IrqHeld(s) && Line(s.f, s.handler)
  }

  // ---- every step keeps it -------------------------------------------------------------------------

  /** Comparing the wrapped indices is comparing the counts. */
  lemma WrappedEqual(a: nat, b: nat)
    requires a <= b < a + WRAP
    ensures a % WRAP == b % WRAP <==> a == b
  {
  }

  lemma FillData(s: State, head: int)
    requires Data(s) && Enabled(s, Fill(head))
    ensures Data(Next(s, Fill(head)))
  {
    var t := Next(s, Fill(head));
    SlotOfWrapped(|s.g.published|, s.qn);
    forall k: nat | |t.g.done| <= k < |t.g.published|
      ensures AvailAt(t.qn, t.m, t.g, k)
    {
      assert AvailAt(s.qn, s.m, s.g, k);
      SlotsDiffer(k, |s.g.published|, s.qn);
    }
    UsedSame(s, t);
  }

  /** Nothing changes for the completed entries when their part of memory is not written. */
  lemma UsedSame(s: State, t: State)
    requires Shape(s.qn, s.m) && Shape(t.qn, t.m) && s.qn == t.qn
    requires t.m.usedIds == s.m.usedIds && t.m.usedLens == s.m.usedLens
    requires s.g.done <= t.g.done
    ensures forall k: nat :: UsedAt(s.qn, s.m, s.g, k) ==> UsedAt(t.qn, t.m, t.g, k)
  {
  }

  lemma AvailSame(s: State, t: State)
    requires Shape(s.qn, s.m) && Shape(t.qn, t.m) && s.qn == t.qn
    requires t.m.availRing == s.m.availRing && s.g.published <= t.g.published
    ensures forall k: nat :: AvailAt(s.qn, s.m, s.g, k) ==> AvailAt(t.qn, t.m, t.g, k)
  {
  }

  lemma PublishData(s: State)
    requires Data(s) && Enabled(s, Publish)
    ensures Data(Next(s, Publish))
  {
    var t := Next(s, Publish);
    IncCounts(|s.g.published|);
    UsedSame(s, t);
    AvailSame(s, t);
  }

  lemma ReceiveData(s: State)
    requires Data(s) && Enabled(s, Receive)
    ensures Data(Next(s, Receive))
  {
    var t := Next(s, Receive);
    SlotOfWrapped(|s.g.got|, s.qn);
    assert UsedAt(s.qn, s.m, s.g, |s.g.got|);
    UsedSame(s, t);
    AvailSame(s, t);
  }

  lemma FetchData(s: State, len: int)
    requires Data(s) && s.core0.Fetch?
    ensures Data(Next(s, Core0Step(len)))
  {
    SlotOfWrapped(|s.g.done|, s.qn);
    assert AvailAt(s.qn, s.m, s.g, |s.g.done|);
  }

  lemma CheckData(s: State, len: int)
    requires Data(s) && s.core0.Check?
    ensures Data(Next(s, Core0Step(len)))
  {
    WrappedEqual(|s.g.done|, |s.g.published|);
  }

  lemma PutData(s: State, len: int)
    requires Data(s) && (s.core0.PutId? || s.core0.PutLen?)
    ensures Data(Next(s, Core0Step(len)))
  {
    var t := Next(s, Core0Step(len));
    SlotOfWrapped(|s.g.done|, s.qn);
    forall k: nat | |t.g.got| <= k < |t.g.done|
      ensures UsedAt(t.qn, t.m, t.g, k)
    {
      assert UsedAt(s.qn, s.m, s.g, k);
      SlotsDiffer(k, |s.g.done|, s.qn);
    }
    AvailSame(s, t);
  }

  lemma BumpData(s: State, len: int)
    requires Data(s) && s.core0.Bump?
    ensures Data(Next(s, Core0Step(len)))
  {
    var t := Next(s, Core0Step(len));
    IncCounts(|s.g.done|);
    UsedSame(s, t);
    AvailSame(s, t);
  }

  lemma AdvanceData(s: State, len: int)
    requires Data(s) && s.core0.Advance?
    ensures Data(Next(s, Core0Step(len)))
  {
    var t := Next(s, Core0Step(len));
    IncCounts(|s.g.done| - 1);
    UsedSame(s, t);
    AvailSame(s, t);
  }

  lemma SimpleCore0Data(s: State, len: int)
    requires Data(s) && (s.core0.Idle? || s.core0.Kicked? || s.core0.Serve? || s.core0.Raise?)
    ensures Data(Next(s, Core0Step(len)))
  {
    hide Slots, Shape, Bounds, InOrder;
  }

  lemma NotifyData(s: State)
    requires Data(s)
    ensures Data(Next(s, Notify))
  {
    hide Working;
    UsedSame(s, Next(s, Notify));
    AvailSame(s, Next(s, Notify));
    WorkingSame(s, Next(s, Notify));
  }

  lemma WorkingSame(s: State, t: State)
    requires Shape(s.qn, s.m) && s.qn == t.qn && s.m == t.m && s.core0 == t.core0
    requires s.g.done == t.g.done && s.g.published == t.g.published
    ensures Working(s.qn, s.m, s.core0, s.g) ==> Working(t.qn, t.m, t.core0, t.g)
  {
  }

  lemma LookData(s: State)
    requires Data(s) && Enabled(s, Look)
    ensures Data(Next(s, Look))
  {
    hide Working, InOrder, Slots;
    WrappedEqual(|s.g.got|, |s.g.done|);
  }

  /** The remaining steps leave the rings alone. */
  lemma LineData(s: State, step: Step)
    requires Data(s) && Enabled(s, step)
    requires step.Claim? || step.ReadStatus? || step.Ack? || step.Complete? || step.PollSee? || step.PollTake? || step.PollRaise?
    ensures Data(Next(s, step))
  {
    hide Working, InOrder, Slots, Counts, Bounds, Shape;
  }

  /** No two of the counts are a whole wrap apart. */
  lemma Close(s: State)
    requires Data(s)
    ensures |s.g.got| <= |s.g.done| <= |s.g.published| < |s.g.got| + WRAP
  {
    hide Working, InOrder, Slots, Counts;
  }

  lemma DataKept(s: State, step: Step)
    requires Data(s) && Enabled(s, step)
    ensures Data(Next(s, step))
  {
    hide Next, Enabled;
    match step
    case Fill(head) => FillData(s, head);
    case Publish => PublishData(s);
    case Receive => ReceiveData(s);
    case Notify => NotifyData(s);
    case Look => LookData(s);
    case Core0Step(len) =>
      match s.core0 {
        case Fetch(_) => FetchData(s, len);
        case Check(_) => CheckData(s, len);
        case PutId(_, _) => PutData(s, len);
        case PutLen(_, _) => PutData(s, len);
        case Bump(_, _) => BumpData(s, len);
        case Advance => AdvanceData(s, len);
        case _ => SimpleCore0Data(s, len);
      }
    case _ => LineData(s, step);
  }

  lemma KickKeptByCore0(s: State, len: int)
    requires Data(s) && KickHeld(s.f, s.core0, s.g)
    ensures var t := Next(s, Core0Step(len)); KickHeld(t.f, t.core0, t.g)
  {
    hide Shape, Slots, InOrder;
    Close(s);
    WrappedEqual(|s.g.done|, |s.g.published|);
  }

  lemma IrqKeptByCore0(s: State, len: int)
    requires Data(s) && IrqHeld(s)
    ensures IrqHeld(Next(s, Core0Step(len)))
  {
    hide Data;
    hide Bounds, Slots, InOrder, Working, Counts, Shape, Inc;
  }

  lemma LineKeptByCore0(s: State, len: int)
    requires Data(s) && Line(s.f, s.handler)
    ensures var t := Next(s, Core0Step(len)); Line(t.f, t.handler)
  {
    hide Bounds, Slots, InOrder, Working, Counts, Shape, Inc;
  }

  lemma FlagsKeptByCore1(s: State, step: Step)
    requires Inv(s) && Enabled(s, step) && !step.Core0Step?
    ensures var t := Next(s, step); KickHeld(t.f, t.core0, t.g) && IrqHeld(t) && Line(t.f, t.handler)
  {
    hide Shape, Slots, InOrder, Working;
    Close(s);
    WrappedEqual(|s.g.got|, |s.g.done|);
  }

  lemma InvKept(s: State, step: Step)
    requires Inv(s) && Enabled(s, step)
    ensures Inv(Next(s, step))
  {
    hide Data, KickHeld, IrqHeld, Line, Next, Enabled;
    DataKept(s, step);
    match step
    case Core0Step(len) =>
      KickKeptByCore0(s, len);
      IrqKeptByCore0(s, len);
      LineKeptByCore0(s, len);
    case _ => FlagsKeptByCore1(s, step);
  }

  lemma InitialInv(s: State)
    requires Initial(s)
    ensures Inv(s)
  {
  }

  // ---- whole runs ----------------------------------------------------------------------------------

  /** An execution starts at set-up, and each state follows from the one before by some enabled step. */
  ghost predicate Execution(run: seq<State>) {
    && run != [] && Initial(run[0])
    && forall i: nat :: i + 1 < |run| ==> Follows(run, i)
  }

  ghost predicate Follows(run: seq<State>, i: nat)
    requires i + 1 < |run|
  {
    Shape(run[i].qn, run[i].m) && exists step :: Enabled(run[i], step) && run[i + 1] == Next(run[i], step)
  }

  lemma {:induction false} AlwaysInv(run: seq<State>, i: nat)
    requires Execution(run) && i < |run|
    ensures Inv(run[i])
  {
    hide Initial, Inv, Shape, Enabled, Next;
    if i == 0 {
      InitialInv(run[0]);
    } else {
      AlwaysInv(run, i - 1);
      assert Follows(run, i - 1);
      var step :| Enabled(run[i - 1], step) && run[i] == Next(run[i - 1], step);
      InvKept(run[i - 1], step);
    }
  }

  /** No request is lost. */
  lemma NoRequestLost(run: seq<State>, i: nat)
    requires Execution(run) && i < |run|
    ensures var s := run[i];
      s.g.notified > |s.g.done| ==> s.f.kick || !(s.core0.Idle? || s.core0.Raise?)
  {
    hide Execution, Data, IrqHeld, Line;
    AlwaysInv(run, i);
  }

  /** No completion is lost, and no interrupt is spurious: the handler always reads a set status. */
  lemma NoCompletionLost(run: seq<State>, i: nat)
    requires Execution(run) && i < |run|
    ensures var s := run[i];
      && (|s.g.got| < |s.g.done| ==>
            WillRaise(s.core0) || s.f.irq || !s.poll.Quiet? || s.f.status || s.handler.Walk? || s.handler.Take?)
      && (s.f.status ==> s.f.pending || s.f.claimed)
      && (s.f.pending ==> s.f.status)
      && (s.handler.Read? ==> s.handler.status)
  {
    hide Execution, Data, KickHeld, WillRaise;
    AlwaysInv(run, i);
  }

  /** The used ring is the avail ring in order, and the driver takes exactly its entries: none dropped,
      none repeated, whatever the wrap of the 16-bit indices. */
  lemma UsedIsAvail(run: seq<State>, i: nat)
    requires Execution(run) && i < |run|
    ensures var s := run[i];
      && s.g.got <= s.g.done && |s.g.done| <= |s.g.published| <= |s.g.got| + s.qn
      && (forall k :: 0 <= k < |s.g.done| ==> s.g.done[k].id == s.g.published[k])
      && (!s.core0.Advance? ==> s.m.usedIdx == s.m.lastAvail)
  {
    hide Execution, KickHeld, IrqHeld, Line, Slots, Working;
    AlwaysInv(run, i);
  }

  /** An entry that used.idx exposes is complete in memory, for as long as the driver has not taken it. */
  lemma ExposedIsWritten(run: seq<State>, i: nat, k: nat)
    requires Execution(run) && i < |run| && |run[i].g.got| <= k < |run[i].g.done|
    ensures var s := run[i];
      && Shape(s.qn, s.m) && UsedAt(s.qn, s.m, s.g, k)
      && k < |s.g.published| && s.g.done[k].id == s.g.published[k]
  {
    hide Execution, KickHeld, IrqHeld, Line, Working;
    AlwaysInv(run, i);
    var s := run[i];
    assert UsedAt(s.qn, s.m, s.g, k);
  }

  /** Once both cores are at rest and nothing is signalled, every request the driver notified of has been
      served and its completion taken. */
  lemma RestMeansDone(run: seq<State>, i: nat)
    requires Execution(run) && i < |run|
    requires run[i].core0.Idle? && run[i].handler.Away? && run[i].poll.Quiet?
    requires !run[i].f.kick && !run[i].f.irq && !run[i].f.pending
    ensures var g := run[i].g; g.notified <= |g.done| && g.got == g.done
  {
    NoRequestLost(run, i);
    NoCompletionLost(run, i);
    UsedIsAvail(run, i);
    var s := run[i];
    AlwaysInv(run, i);
    hide Execution, Slots, Working;
  }

  // ---- nothing gets stuck ----------------------------------------------------------------------------

  /** Core 0 has nothing to do. */
  predicate Core0AtRest(s: State) {
    s.core0.Idle? && !s.f.kick
  }

  function Core0Place(c: Core0): nat {
    match c
    case Idle => 3
    case Kicked => 22
    case Check(_) => 9
    case Fetch(_) => 8
    case Serve(_, _) => 7
    case PutId(_, _) => 6
    case PutLen(_, _) => 5
    case Bump(_, _) => 4
    case Advance => 10
    case Raise => 4
  }

  /** How far core 0 is from rest. */
  function Core0Work(s: State): int {
    20 * (|s.g.published| - |s.g.done|) + (if s.f.kick && !s.core0.Kicked? then 20 else 0) + Core0Place(s.core0)
  }

  lemma Core0Progress(s: State, len: int)
    requires Data(s) && !Core0AtRest(s)
    ensures 0 <= Core0Work(Next(s, Core0Step(len))) < Core0Work(s)
  {
    DataKept(s, Core0Step(len));
    Close(s);
    Close(Next(s, Core0Step(len)));
    hide Slots, InOrder, Counts, Shape, Inc, Bounds, Working;
    match s.core0
    case Idle => case Kicked => case Check(_) => case Fetch(_) => case Serve(_, _) => case PutId(_, _) =>
    case PutLen(_, _) => case Bump(_, _) => case Advance => case Raise =>
  }

  lemma Core0Keeps(s: State, len: int)
    requires Inv(s)
    ensures var t := Next(s, Core0Step(len));
      && t.g.notified == s.g.notified && s.g.done <= t.g.done
      && t.poll == s.poll && t.handler == s.handler && t.g.got == s.g.got
  {
    hide Slots, Bounds, InOrder, Counts, Working, IrqHeld, KickHeld, Line, Inc;
  }

  /** Core 1 has nothing to do for the device. */
  predicate Core1AtRest(s: State) {
    s.poll.Quiet? && !s.f.irq && s.handler.Away? && !s.f.pending
  }

  /** What core 1 does next: finish or start a poll, or go on with the interrupt. */
  function Core1Step(s: State): Step {
    if s.poll.Took? then PollRaise
    else if s.poll.Saw? then PollTake
    else if s.f.irq then PollSee
    else match s.handler
      case Away => Claim
      case Claimed => ReadStatus
      case Read(_) => Ack
      case Walk => Look
      case Take => Receive
      case Finished => Complete
  }

  function HandlerPlace(h: Handler): nat {
    match h
    case Away => 0
    case Claimed => 20
    case Read(_) => 19
    case Walk => 18
    case Take => 17
    case Finished => 10
  }

  function PollPlace(p: Poll): nat {
    match p
    case Quiet => 2
    case Saw => 41
    case Took => 38
  }

  function Core1Work(s: State): int {
    3 * (|s.g.done| - |s.g.got|) + (if s.f.irq && !s.poll.Saw? then 40 else 0) + (if s.f.pending then 30 else 0)
    + PollPlace(s.poll) + HandlerPlace(s.handler)
  }

  /** The steps by which the cores finish what is under way: any of core 0's while it has something to do,
      with whatever length a request reports, and those of the poll and of the interrupt handler. The
      driver submits nothing new. */
  ghost predicate Service(s: State, step: Step) {
    match step
    case Fill(_) => false
    case Publish => false
    case Notify => false
    case Core0Step(_) => !Core0AtRest(s)
    case _ => Enabled(s, step)
  }

  lemma Core1Progress(s: State, step: Step)
    requires Inv(s) && Service(s, step) && !step.Core0Step?
    ensures var t := Next(s, step);
      && 0 <= Core1Work(t) < Core1Work(s) && Core0Work(t) == Core0Work(s)
      && t.g.notified == s.g.notified && t.g.done == s.g.done
  {
    hide Slots, InOrder, Counts, Working, KickHeld, IrqHeld, Shape;
    InvKept(s, step);
    Close(s);
    Close(Next(s, step));
  }

  lemma Core1Enabled(s: State)
    requires Inv(s) && !Core1AtRest(s)
    ensures Enabled(s, Core1Step(s)) && Service(s, Core1Step(s))
  {
    hide Data, KickHeld, IrqHeld;
  }

  /** A step of core 0 gives core 1 at most an entry to take and a flag to poll. */
  lemma Core0Gives(s: State, len: int)
    requires Inv(s)
    ensures 0 <= Core1Work(Next(s, Core0Step(len))) <= Core1Work(s) + 40
  {
    hide Slots, InOrder, Counts, Working, KickHeld, IrqHeld, Line, Shape, Inc, Bounds, Data, PollPlace, HandlerPlace;
    InvHasData(s);
    InvKept(s, Core0Step(len));
    WorkIsPositive(Next(s, Core0Step(len)));
    match s.core0
    case Idle => case Kicked => case Check(_) => case Fetch(_) => case Serve(_, _) => case PutId(_, _) =>
    case PutLen(_, _) => case Bump(_, _) => case Advance => case Raise =>
  }

  /** How far both are from rest. */
  function Work(s: State): int {
    50 * Core0Work(s) + Core1Work(s)
  }

  lemma ServiceProgress(s: State, step: Step)
    requires Inv(s) && Service(s, step)
    ensures var t := Next(s, step);
      && Inv(t) && 0 <= Work(t) < Work(s) && 0 <= Work(s)
      && t.g.notified == s.g.notified && s.g.done <= t.g.done
  {
    hide Core0Work, Core1Work, Next, Core0AtRest;
    WorkIsPositive(s);
    assert Enabled(s, step);
    InvKept(s, step);
    if step.Core0Step? {
      InvHasData(s);
      Core0Progress(s, step.len);
      Core0Gives(s, step.len);
      Core0Keeps(s, step.len);
    } else {
      Core1Progress(s, step);
    }
  }

  lemma InvHasData(s: State)
    requires Inv(s)
    ensures Data(s) && Shape(s.qn, s.m)
  {
  }

  lemma WorkIsPositive(s: State)
    requires Inv(s)
    ensures 0 <= Core0Work(s) && 0 <= Core1Work(s)
  {
    hide Slots, InOrder, Counts, Working, KickHeld, IrqHeld, Line, Shape;
    Close(s);
  }

  /** Such steps in any order. */
  ghost predicate Schedule(s: State, steps: seq<Step>)
    decreases |steps|
  {
    steps != [] ==> Shape(s.qn, s.m) && Service(s, steps[0]) && Schedule(Next(s, steps[0]), steps[1..])
  }

  ghost function Outcome(s: State, steps: seq<Step>): State
    requires Schedule(s, steps)
    decreases |steps|
  {
    if steps == [] then s else Outcome(Next(s, steps[0]), steps[1..])
  }

  lemma {:induction false} ScheduleEnds(s: State, steps: seq<Step>)
    requires Inv(s) && Schedule(s, steps)
    ensures var t := Outcome(s, steps);
      && Inv(t) && |steps| <= Work(s) - Work(t) && 0 <= Work(t)
      && t.g.notified == s.g.notified && s.g.done <= t.g.done
    decreases |steps|
  {
    hide Inv, Next, Service, Work;
    if steps == [] {
      WorkIsPositive(s);
      WorkMeans(s);
    } else {
      InvHasData(s);
      ServiceProgress(s, steps[0]);
      ScheduleEnds(Next(s, steps[0]), steps[1..]);
    }
  }

  lemma WorkMeans(s: State)
    ensures Work(s) == 50 * Core0Work(s) + Core1Work(s)
  {
  }

  /** From every reachable state, whatever the order in which the two cores take their turns: they come to
      rest within a bounded number of steps, they can always go on until then, and once they rest every
      request notified of has been completed and the driver has taken every completion. */
  lemma NothingIsStranded(run: seq<State>, i: nat, steps: seq<Step>)
    requires Execution(run) && i < |run|
    requires Schedule(run[i], steps)
    ensures |steps| <= Work(run[i])
    ensures var t := Outcome(run[i], steps);
      && ((forall step :: !Service(t, step)) <==> Core0AtRest(t) && Core1AtRest(t))
      && (Core0AtRest(t) && Core1AtRest(t) ==>
            t.g.notified == run[i].g.notified <= |t.g.done| && run[i].g.done <= t.g.done && t.g.got == t.g.done)
  {
    hide Execution, Inv, Service, Work, Outcome, Schedule, Core0AtRest, Core1AtRest;
    AlwaysInv(run, i);
    ScheduleEnds(run[i], steps);
    var t := Outcome(run[i], steps);
    RestMeansNothingToDo(t);
    if Core0AtRest(t) && Core1AtRest(t) { AllTaken(t); }
  }

  lemma RestMeansNothingToDo(t: State)
    requires Inv(t)
    ensures (forall step :: !Service(t, step)) <==> Core0AtRest(t) && Core1AtRest(t)
  {
    if !Core0AtRest(t) {
      assert Service(t, Core0Step(0));
    } else if !Core1AtRest(t) {
      hide Data, IrqHeld, KickHeld, Line;
      Core1Enabled(t);
    } else {
      hide Data, IrqHeld, KickHeld;
      forall step
        ensures !Service(t, step)
      {
      }
    }
  }

  lemma AllTaken(t: State)
    requires Inv(t) && Core0AtRest(t) && Core1AtRest(t)
    ensures t.g.got == t.g.done && t.g.notified <= |t.g.done|
  {
    hide Slots, Counts, Working, Shape;
  }
}
