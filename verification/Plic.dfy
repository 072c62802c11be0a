/** The guest's interrupt controller (main/hyp_plic.c): 31 sources, one context. */
module Plic {
  import opened Bits

  const MAX_SOURCE: Index := 31
  const UART_SOURCE: Index := 10
  const VIRTIO_BLK_SOURCE: Index := 11

  datatype Regs = Regs(priority: seq<bv32>, enable: bv32, pending: bv32, claimed: bv32, threshold: bv32)

  predicate Ok(r: Regs) {
    |r.priority| == 32
  }

  predicate Open(r: Regs, n: Index) {
    Has(r.pending, n) && Has(r.enable, n) && !Has(r.claimed, n)
  }

  /** A source that a claim may return. */
  predicate Claimable(r: Regs, n: Index)
    requires Ok(r)
  {
    n != 0 && Open(r, n) && Num(r.priority[n]) > Num(r.threshold)
  }

  /** The scan from source `n` on, with the best source so far and its priority. */
  function Scan(r: Regs, n: nat, best: Index, priority: bv32): Index
    requires Ok(r)
    decreases 32 - n
  {
    if n > MAX_SOURCE then best
    else if Open(r, n) && Num(r.priority[n]) > Num(priority) then Scan(r, n + 1, n, r.priority[n])
    else Scan(r, n + 1, best, priority)
  }

  /** The source a claim returns, 0 for none. */
  function Peek(r: Regs): Index
    requires Ok(r)
  {
    Scan(r, 1, 0, r.threshold)
  }

  /** `a` is to be served before `b`: it has the higher priority, or the same and the lower id. */
  predicate Before(r: Regs, a: Index, b: Index)
    requires Ok(r)
  {
    Num(r.priority[a]) > Num(r.priority[b]) || (Num(r.priority[a]) == Num(r.priority[b]) && a < b)
  }

  /** `best` is what a claim must return among the sources below `n`. */
  ghost predicate Best(r: Regs, n: nat, best: Index)
    requires Ok(r)
  {
    && (best != 0 ==> best < n && Claimable(r, best))
    && (best == 0 ==> forall m: Index :: m < n ==> !Claimable(r, m))
    && (best != 0 ==> forall m: Index :: m < n && Claimable(r, m) && m != best ==> Before(r, best, m))
  }

  function Bar(r: Regs, best: Index): bv32
    requires Ok(r)
  {
    if best == 0 then r.threshold else r.priority[best]
  }

  lemma BetterAt(r: Regs, n: Index, best: Index)
    requires Ok(r) && n != 0 && Best(r, n, best) && Open(r, n) && Num(r.priority[n]) > Num(Bar(r, best))
    ensures Best(r, n + 1, n)
  {
    hide Has, Num, Open;
  }

  lemma NoBetterAt(r: Regs, n: Index, best: Index)
    requires Ok(r) && n != 0 && Best(r, n, best) && !(Open(r, n) && Num(r.priority[n]) > Num(Bar(r, best)))
    ensures Best(r, n + 1, best)
  {
    hide Has, Num, Open;
  }

  lemma {:induction false} ScanIsBest(r: Regs, n: nat, best: Index)
    requires Ok(r) && 1 <= n <= 32 && Best(r, n, best)
    ensures Best(r, 32, Scan(r, n, best, Bar(r, best)))
    decreases 32 - n
  {
    hide Has, Num, Open, Best;
    if n <= MAX_SOURCE {
      if Open(r, n) && Num(r.priority[n]) > Num(Bar(r, best)) {
        BetterAt(r, n, best);
        ScanIsBest(r, n + 1, n);
      } else {
        NoBetterAt(r, n, best);
        ScanIsBest(r, n + 1, best);
      }
    }
  }

  /** No two sources are best. */
  lemma BestIsUnique(r: Regs, a: Index, b: Index)
    requires Ok(r) && Best(r, 32, a) && Best(r, 32, b)
    ensures a == b
  {
    hide Has, Num, Open;
  }

  /** A claim returns the one claimable source of highest priority, the lowest id among equals, and 0
      exactly when there is none. */
  lemma PeekIsBest(r: Regs)
    requires Ok(r)
    ensures forall m: Index :: Best(r, 32, m) <==> m == Peek(r)
  {
    hide Has, Num, Open, Best, Peek;
    PeekFits(r);
    forall m: Index | Best(r, 32, m) { BestIsUnique(r, m, Peek(r)); }
  }

  lemma PeekFits(r: Regs)
    requires Ok(r)
    ensures Best(r, 32, Peek(r))
  {
    hide Has, Num, Open;
    ScanIsBest(r, 1, 0);
  }

  // ---- operations ----------------------------------------------------------------------------------

  function SetPending(r: Regs, source: Index, asserted: bool): Regs {
    r.(pending := Put(r.pending, source, asserted))
  }

  /** What reading the claim register does. */
  function Claim(r: Regs): (c: (Regs, Index))
    requires Ok(r)
    ensures Ok(c.0)
  {
    var n := Peek(r);
    (if n == 0 then r else r.(pending := Clear(r.pending, n), claimed := Set(r.claimed, n)), n)
  }

  /** What writing the completion register does to the controller; the source may be asserted again. */
  function Complete(r: Regs, source: nat): (Regs, bool)
  {
    if source != 0 && source <= MAX_SOURCE && Has(r.claimed, source)
    then (r.(claimed := Clear(r.claimed, source)), true)
    else (r, false)
  }

  const CLAIM: nat := 0x200004
  const THRESHOLD: nat := 0x200000

  function Id(n: Index): bv32 {
    (n as bv5) as bv32
  }

  lemma IdBack(n: Index)
    ensures Num(Id(n)) == n
  {
  }

  function Read(r: Regs, offset: nat): (v: (Regs, bv32))
    requires Ok(r)
    ensures Ok(v.0)
  {
    if offset < 0x1000 then (r, if offset / 4 <= MAX_SOURCE then r.priority[offset / 4] else 0)
    else if offset < 0x2000 then (r, if offset == 0x1000 then r.pending else 0)
    else if offset < 0x200000 then (r, if offset == 0x2000 then r.enable else 0)
    else if offset == THRESHOLD then (r, r.threshold)
    else if offset == CLAIM then (Claim(r).0, Id(Claim(r).1))
    else (r, 0)
  }

  /** The second component names a source whose device has to be asked for its level again. */
  function Write(r: Regs, offset: nat, value: bv32): (w: (Regs, Index))
    requires Ok(r)
    ensures Ok(w.0)
  {
    if offset < 0x1000 then
      (if offset / 4 <= MAX_SOURCE then r.(priority := r.priority[offset / 4 := value]) else r, 0)
    else if 0x2000 <= offset < 0x200000 then (if offset == 0x2000 then r.(enable := value) else r, 0)
    else if offset == THRESHOLD then (r.(threshold := value), 0)
    else if offset == CLAIM then
      var (t, done) := Complete(r, Num(value));
      (t, if done then Num(value) else 0)
    else (r, 0)
  }

  /** Priorities, the enable bits and the threshold read back as written, and a write to one changes no
      other of them. */
  lemma ReadsBack(r: Regs, offset: nat, value: bv32, other: nat)
    requires Ok(r) && Stored(offset) && Stored(other) && other / 4 != offset / 4
    ensures Read(Write(r, offset, value).0, offset).1 == value
    ensures Read(Write(r, offset, value).0, other).1 == Read(r, other).1
  {
    hide Num, Complete, Claim, Id, Read, Write;
    WriteStored(r, offset, value);
    ReadStored(r, other);
    ReadStored(Write(r, offset, value).0, offset);
    ReadStored(Write(r, offset, value).0, other);
  }

  /** The value of a stored register. */
  function Value(r: Regs, offset: nat): bv32
    requires Ok(r) && Stored(offset)
  {
    if offset / 4 <= MAX_SOURCE then r.priority[offset / 4] else if offset == 0x2000 then r.enable else r.threshold
  }

  lemma WriteStored(r: Regs, offset: nat, value: bv32)
    requires Ok(r) && Stored(offset)
    ensures Write(r, offset, value).0 ==
              if offset / 4 <= MAX_SOURCE then r.(priority := r.priority[offset / 4 := value])
              else if offset == 0x2000 then r.(enable := value) else r.(threshold := value)
  {
    hide Num, Complete;
    assert offset / 4 <= MAX_SOURCE ==> offset < 0x1000;
  }

  lemma ReadStored(r: Regs, offset: nat)
    requires Ok(r) && Stored(offset)
    ensures Read(r, offset).1 == Value(r, offset)
  {
    hide Claim, Id;
    assert offset / 4 <= MAX_SOURCE ==> offset < 0x1000;
  }

  predicate Stored(offset: nat) {
    offset / 4 <= MAX_SOURCE || offset == 0x2000 || offset == THRESHOLD
  }

  /** The register map: a priority for each source, the pending bits, the enable bits, the threshold; and
      what the guest sets there decides what it can claim. */
  lemma RegisterMap(r: Regs, n: Index, priority: bv32, enable: bv32, threshold: bv32)
    requires Ok(r)
    ensures var t := Write(Write(Write(r, 4 * n, priority).0, 0x2000, enable).0, 0x200000, threshold).0;
      && Read(t, 4 * n).1 == priority && Read(t, 0x2000).1 == enable && Read(t, 0x200000).1 == threshold
      && Read(t, 0x1000).1 == r.pending && t.pending == r.pending && t.claimed == r.claimed
      && (Claimable(t, n) <==> n != 0 && Has(enable, n) && Has(r.pending, n) && !Has(r.claimed, n)
                               && Num(priority) > Num(threshold))
  {
    hide Has, Num, Claim, Complete, Id;
  }

  /** Every other offset reads as 0 and takes no write; the pending bits take none either. */
  lemma OtherOffsets(r: Regs, offset: nat, value: bv32)
    requires Ok(r) && !Stored(offset) && offset != 0x200004
    ensures Write(r, offset, value) == (r, 0)
    ensures Read(r, offset) == (r, if offset == 0x1000 then r.pending else 0)
  {
    hide Num, Complete, Claim, Id;
    assert offset < 0x1000 ==> offset / 4 > 31;
  }

  /** Reading the claim register claims; any other read changes nothing. */
  lemma ReadsClaim(r: Regs, offset: nat)
    requires Ok(r)
    ensures Read(r, 0x200004) == (Claim(r).0, Id(Claim(r).1)) && Num(Id(Claim(r).1)) == Claim(r).1
    ensures offset != 0x200004 ==> Read(r, offset).0 == r
  {
    hide Claim, Id;
    IdBack(Claim(r).1);
  }

  // ---- claims --------------------------------------------------------------------------------------

  /** A claim takes the source it returns out of the claimable ones, and no other. */
  lemma ClaimTakesOne(r: Regs, n: Index)
    requires Ok(r)
    ensures Claimable(Claim(r).0, n) <==> Claimable(r, n) && n != Claim(r).1
  {
    hide Has, Num, Set, Clear, Peek;
    PeekFits(r);
    var m := Peek(r);
    HasClear(r.pending, m, n);
    HasSet(r.claimed, m, n);
    assert m == 0 ==> !Claimable(r, n);
  }

  /** A source in service is not claimed again, and stays in service until it is completed. */
  lemma InServiceIsSafe(r: Regs, n: Index)
    requires Ok(r) && n != 0 && Has(r.claimed, n)
    ensures Claim(r).1 != n && Has(Claim(r).0.claimed, n)
  {
    hide Has, Num, Set, Clear, Peek;
    PeekFits(r);
    HasSet(r.claimed, Peek(r), n);
  }

  /** A write changes no pending bit, and the service of no source but the one it names. */
  lemma WriteKeepsOthers(r: Regs, offset: nat, value: bv32, n: Index)
    requires Ok(r)
    ensures var (t, again) := Write(r, offset, value);
      t.pending == r.pending && (again != n || n == 0 ==> (Has(t.claimed, n) <==> Has(r.claimed, n)))
  {
    hide Has, Num, Clear;
    if offset == CLAIM && 0 < Num(value) <= MAX_SOURCE { HasClear(r.claimed, Num(value), n); }
  }

  lemma WriteKeepsService(r: Regs, offset: nat, value: bv32, n: Index)
    requires Ok(r) && Has(r.claimed, n) && !(offset == CLAIM && Num(value) == n)
    ensures Has(Write(r, offset, value).0.claimed, n)
  {
    hide Has, Num, Clear;
    if offset == CLAIM && 0 < Num(value) <= MAX_SOURCE { HasClear(r.claimed, Num(value), n); }
  }

  /** Writing back what a claim returned ends the service of that source and of no other. */
  lemma CompleteUndoesClaim(r: Regs, m: Index)
    requires Ok(r) && Claim(r).1 != 0
    ensures var (t, n) := Claim(r);
      var (u, again) := Write(t, CLAIM, Id(n));
      again == n && (Has(u.claimed, m) <==> m != n && Has(r.claimed, m)) && u.pending == t.pending
  {
    hide Has, Num, Set, Clear, Peek, Id;
    var (t, n) := Claim(r);
    PeekFits(r);
    IdBack(n);
    HasSet(r.claimed, n, n);
    HasSet(r.claimed, n, m);
    HasClear(t.claimed, n, m);
  }

  /** How many sources from `n` on can be claimed. */
  function Waiting(r: Regs, n: nat): nat
    requires Ok(r) && n <= 32
    decreases 32 - n
  {
    if n == 32 then 0 else (if Claimable(r, n) then 1 else 0) + Waiting(r, n + 1)
  }

  lemma {:induction false} WaitingSame(r: Regs, t: Regs, n: nat, m: Index)
    requires Ok(r) && Ok(t) && n <= 32
    requires forall k: Index :: Claimable(t, k) <==> Claimable(r, k) && k != m
    ensures Waiting(r, n) == Waiting(t, n) + if n <= m && Claimable(r, m) then 1 else 0
    decreases 32 - n
  {
    hide Claimable;
    if n < 32 { WaitingSame(r, t, n + 1, m); }
  }

  lemma ClaimCounts(r: Regs)
    requires Ok(r)
    ensures Waiting(r, 0) == Waiting(Claim(r).0, 0) + if Claim(r).1 == 0 then 0 else 1
  {
    hide Claimable, Peek, Waiting, Clear, Set;
    PeekFits(r);
    var (t, m) := Claim(r);
    forall k: Index
      ensures Claimable(t, k) <==> Claimable(r, k) && k != m
    {
      ClaimTakesOne(r, k);
    }
    NothingAtZero(r);
    WaitingSame(r, t, 0, m);
  }

  lemma NothingAtZero(r: Regs)
    requires Ok(r)
    ensures !Claimable(r, 0)
  {
  }

  /** A guest that reads the claim register until it gets 0, with nothing new asserted. */
  method Drain(r: Regs) returns (claims: seq<Index>, t: Regs)
    requires Ok(r)
    ensures |claims| == Waiting(r, 0)
    ensures Ok(t) && forall n: Index :: !Claimable(t, n)
    ensures forall n: Index :: n in claims <==> Claimable(r, n)
    ensures forall i, j :: 0 <= i < j < |claims| ==> Before(r, claims[i], claims[j])
  {
    hide Claimable, Waiting, Peek, Best, Num, Claim;
    claims, t := [], r;
    while true
      invariant Ok(t) && t.priority == r.priority
      invariant |claims| + Waiting(t, 0) == Waiting(r, 0)
      invariant forall n: Index :: Claimable(r, n) <==> Claimable(t, n) || n in claims
      invariant forall i, n: Index :: 0 <= i < |claims| && Claimable(t, n) ==> Before(r, claims[i], n)
      invariant forall i, j :: 0 <= i < j < |claims| ==> Before(r, claims[i], claims[j])
      decreases Waiting(t, 0)
    {
      ghost var was := t;
      var (next, n) := Claim(t);
      ClaimCounts(t);
      DrainStep(t);
      forall m: Index { ClaimTakesOne(was, m); }
      t := next;
      if n == 0 { break; }
      claims := claims + [n];
    }
    NothingWaiting(t, 0);
  }

  lemma {:induction false} NothingWaiting(r: Regs, n: nat)
    requires Ok(r) && n <= 32 && forall m: Index :: !Claimable(r, m)
    ensures Waiting(r, n) == 0
    decreases 32 - n
  {
    hide Claimable;
    if n < 32 { NothingWaiting(r, n + 1); }
  }

  lemma DrainStep(r: Regs)
    requires Ok(r)
    ensures var (t, n) := Claim(r);
      && t.priority == r.priority
      && (n == 0 ==> forall m: Index :: !Claimable(r, m))
      && (n != 0 ==> Claimable(r, n) && forall m: Index :: Claimable(r, m) && m != n ==> Before(r, n, m))
  {
    hide Claimable, Peek, Before;
    PeekFits(r);
  }

  // ---- the device ----------------------------------------------------------------------------------

  class Device {
    const priority: array<bv32>
    var enable: bv32
    var pending: bv32
    var claimed: bv32
    var threshold: bv32

    ghost predicate Valid()
      reads this
    {
      priority.Length == 32
    }

    ghost function View(): (r: Regs)
      requires Valid()
      reads this, priority
      ensures Ok(r)
    {
      Regs(priority[..], enable, pending, claimed, threshold)
    }

    constructor ()
      ensures Valid() && fresh(priority) && View() == Regs(seq(32, _ => 0), 0, 0, 0, 0)
    {
      enable, pending, claimed, threshold := 0, 0, 0, 0;
      priority := new bv32[32](_ => 0);
    }

    method PlicPeek() returns (best: Index)
      requires Valid()
      ensures best == Peek(View())
    {
      hide Has, Num;
      best := 0;
      var bestPriority := threshold;
      for n := 1 to 32
        invariant Peek(View()) == Scan(View(), n, best, bestPriority)
      {
        if !Has(pending, n) { continue; }
        if !Has(enable, n) { continue; }
        if Has(claimed, n) { continue; }
        if Num(priority[n]) <= Num(bestPriority) { continue; }
        best := n;
        bestPriority := priority[n];
      }
    }

    method PlicSetPending(source: Index, asserted: bool)
      requires Valid()
      modifies `pending
      ensures View() == SetPending(old(View()), source, asserted)
    {
      if asserted { pending := Set(pending, source); } else { pending := Clear(pending, source); }
    }

    method PlicRead(offset: nat) returns (value: bv32)
      requires Valid()
      modifies `pending, `claimed
      ensures (View(), value) == Read(old(View()), offset)
    {
      hide Has, Num, Set, Clear, Id, Peek;
      if offset < 0x1000 {
        var n := offset / 4;
        return if n <= MAX_SOURCE then priority[n] else 0;
      }
      if 0x1000 <= offset < 0x2000 { return if offset == 0x1000 then pending else 0; }
      if 0x2000 <= offset < 0x200000 { return if offset == 0x2000 then enable else 0; }
      if 0x200000 <= offset < 0x201000 {
        if offset == 0x200000 { return threshold; }
        if offset == 0x200004 {
          var source := PlicPeek();
          if source != 0 {
            pending := Clear(pending, source);
            claimed := Set(claimed, source);
          }
          return Id(source);
        }
      }
      return 0;
    }

    method PlicWrite(offset: nat, value: bv32) returns (again: Index)
      requires Valid()
      modifies this, priority
      ensures (View(), again) == Write(old(View()), offset, value)
    {
      hide Has, Num, Clear;
      again := 0;
      if offset < 0x1000 {
        var n := offset / 4;
        if n <= MAX_SOURCE { priority[n] := value; }
        return;
      }
      if 0x2000 <= offset < 0x200000 {
        if offset == 0x2000 { enable := value; }
        return;
      }
      if 0x200000 <= offset < 0x201000 {
        if offset == 0x200000 { threshold := value; return; }
        if offset == 0x200004 {
          var source := Num(value);
          if source != 0 && source <= MAX_SOURCE && Has(claimed, source) {
            claimed := Clear(claimed, source);
            again := source;
          }
        }
      }
    }
  }
}
