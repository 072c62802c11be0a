/** The guest's timer (main/hyp_clint.c) and the host alarm behind it. Time is a count that only grows. */
module Clint {
  const WORD: nat := 0x1_0000_0000
  /** Deadlines from here on mean that the timer is off (HYP_MTIME_MAX). */
  const NEVER: nat := 0x10_0000_0000_0000

  /** The host's one-shot alarm. */
  datatype Alarm = Alarm(on: bool, target: nat, fired: bool)

  datatype Regs = Regs(mtimecmp: nat, alarm: Alarm)

  /** MTIP is a wire. */
  predicate MtipPending(r: Regs, now: nat) {
    now >= r.mtimecmp
  }

  /** hyp_arm_timer: point the alarm at the deadline. */
  function Arm(r: Regs): Regs {
    var quiet := r.alarm.(on := false, fired := false);
    if r.mtimecmp >= NEVER then r.(alarm := quiet)
    else r.(alarm := quiet.(target := r.mtimecmp, on := true))
  }

  /** `value` is a 32-bit word. */
  function Write(r: Regs, offset: nat, value: nat): Regs {
    if offset == 0x4000 then Arm(r.(mtimecmp := r.mtimecmp / WORD * WORD + value))
    else if offset == 0x4004 then Arm(r.(mtimecmp := value * WORD + r.mtimecmp % WORD))
    else r
  }

  function Read(r: Regs, now: nat, offset: nat): (v: nat)
    ensures v < WORD
  {
    if offset == 0x4000 then r.mtimecmp % WORD
    else if offset == 0x4004 then r.mtimecmp / WORD % WORD
    else if offset == 0xBFF8 then now % WORD
    else if offset == 0xBFFC then now / WORD % WORD
    else 0
  }

  /** The alarm goes off by itself once its target has passed, even if it was in the past already. */
  function Fire(r: Regs, now: nat): Regs {
    if r.alarm.on && now >= r.alarm.target then r.(alarm := r.alarm.(fired := true)) else r
  }

  /** The part of the poll that concerns the alarm: it is switched off once it has fired. */
  function Service(r: Regs): Regs {
    if r.alarm.fired then r.(alarm := r.alarm.(on := false, fired := false)) else r
  }

  // ---- the alarm is never lost ---------------------------------------------------------------------

  /** A timer that is off has its alarm off. One that is on has the alarm set for exactly its deadline, or
      the deadline has passed and MTIP is up. */
  ghost predicate Covered(r: Regs, now: nat) {
    && (if r.mtimecmp >= NEVER then !r.alarm.on
        else (r.alarm.on && r.alarm.target == r.mtimecmp) || now >= r.mtimecmp)
    && (r.alarm.fired ==> r.alarm.on && now >= r.alarm.target)
  }

  lemma WriteCovered(r: Regs, now: nat, offset: nat, value: nat)
    requires Covered(r, now)
    ensures Covered(Write(r, offset, value), now)
  {
  }

  lemma TimeCovered(r: Regs, now: nat, later: nat)
    requires Covered(r, now) && now <= later
    ensures Covered(r, later) && Covered(Fire(r, later), later)
  {
  }

  lemma ServiceCovered(r: Regs, now: nat)
    requires Covered(r, now)
    ensures Covered(Service(r), now)
  {
  }

  /** When nothing will be lost by sleeping: an armed timer either has the hardware alarm set to wake the
      core at its deadline, or is pending now. */
  lemma SleepIsSafe(r: Regs, now: nat)
    requires Covered(r, now) && r.mtimecmp < NEVER
    ensures MtipPending(r, now) || (r.alarm.on && r.alarm.target == r.mtimecmp)
  {
  }

  /** The guest reads the time in two halves, and its deadline; it cannot write the time. */
  lemma TimeReads(r: Regs, now: nat, value: nat)
    ensures Read(r, now, 0xBFF8) + WORD * Read(r, now, 0xBFFC) == now % (WORD * WORD)
    ensures r.mtimecmp < WORD * WORD ==> Read(r, now, 0x4000) + WORD * Read(r, now, 0x4004) == r.mtimecmp
    ensures Write(r, 0xBFF8, value) == r && Write(r, 0xBFFC, value) == r
  {
    Halves(now);
    Halves(r.mtimecmp);
  }

  lemma Halves(n: nat)
    ensures n % WORD + WORD * (n / WORD % WORD) == n % (WORD * WORD)
    ensures n < WORD * WORD ==> n % (WORD * WORD) == n
  {
    var q := n / WORD;
    assert n == WORD * q + n % WORD && q == WORD * (q / WORD) + q % WORD;
    assert n == WORD * WORD * (q / WORD) + (WORD * (q % WORD) + n % WORD);
    SquareRemainder(n, q / WORD, WORD * (q % WORD) + n % WORD);
  }

  lemma SquareRemainder(n: nat, e: nat, x: nat)
    requires n == WORD * WORD * e + x && x < WORD * WORD
    ensures n % (WORD * WORD) == x
  {
  }

  /** Nothing else is a register; and a new deadline sets the alarm for itself, unless it is one of those that
      mean never. */
  lemma OtherOffsets(r: Regs, now: nat, offset: nat, value: nat)
    ensures offset != 0x4000 && offset != 0x4004 && offset != 0xBFF8 && offset != 0xBFFC ==>
              Read(r, now, offset) == 0 && Write(r, offset, value) == r
    ensures offset == 0x4000 || offset == 0x4004 ==>
              var t := Write(r, offset, value);
              && (t.alarm.on <==> t.mtimecmp < 0x10_0000_0000_0000)
              && (t.alarm.on ==> t.alarm.target == t.mtimecmp) && !t.alarm.fired
  {
  }

  /** The alarm goes off exactly when it is on and its target has come; a poll then turns it off. */
  lemma AlarmMeans(r: Regs, now: nat)
    requires !r.alarm.fired
    ensures Fire(r, now).alarm.fired <==> r.alarm.on && r.alarm.target <= now
    ensures Service(Fire(r, now)).alarm.on <==> r.alarm.on && now < r.alarm.target
    ensures !Service(Fire(r, now)).alarm.fired && Service(Fire(r, now)).mtimecmp == r.mtimecmp
  {
  }

  /** Two half writes, in either order, set the deadline, and the halves read back. */
  lemma HalvesMake(r: Regs, lo: nat, hi: nat, now: nat)
    requires lo < WORD && hi < WORD
    ensures var a := Write(Write(r, 0x4000, lo), 0x4004, hi);
      a.mtimecmp == hi * WORD + lo && Read(a, now, 0x4000) == lo && Read(a, now, 0x4004) == hi
    ensures Write(Write(r, 0x4004, hi), 0x4000, lo).mtimecmp == hi * WORD + lo
  {
    assert (r.mtimecmp / WORD * WORD + lo) % WORD == lo;
    assert (hi * WORD + r.mtimecmp % WORD) / WORD == hi;
    assert (hi * WORD + lo) / WORD == hi;
  }
}
