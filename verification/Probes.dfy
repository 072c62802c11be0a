/** `split_probes` of tools/hypmon.py: a filter between the guest's serial stream and the screen that
    takes out the two size questions a guest asks, holding back a question cut off by a read. */
module Probes {
  type Byte = b: int | 0 <= b < 256

  const ESC: Byte := 0x1B

  /** `ESC [ 6 n` */
  predicate IsCursorProbe(s: seq<Byte>) {
    |s| >= 4 && s[0] == ESC && s[1] == 0x5B && s[2] == 0x36 && s[3] == 0x6E
  }

  /** `ESC [ 1 8 t` */
  predicate IsAreaProbe(s: seq<Byte>) {
    |s| >= 5 && s[0] == ESC && s[1] == 0x5B && s[2] == 0x31 && s[3] == 0x38 && s[4] == 0x74
  }

  /** The length of the probe that `s` starts with, 0 for none. */
  function Hit(s: seq<Byte>): (h: nat)
    ensures h <= |s| && (h > 0 ==> s[0] == ESC)
  {
    if IsCursorProbe(s) then 4 else if IsAreaProbe(s) then 5 else 0
  }

  /** `s` is the beginning of a probe, and no more than that. */
  predicate Unfinished(s: seq<Byte>) {
    && 0 < |s| && s[0] == ESC && (|s| > 1 ==> s[1] == 0x5B)
    && (|s| > 2 ==>
          || (s[2] == 0x36 && |s| == 3)
          || (s[2] == 0x31 && (|s| == 3 || (|s| == 4 && s[3] == 0x38))))
  }

  /** The two questions as text: the cursor's position, and the size of the text area. */
  function Text(question: string): seq<Byte>
    requires forall k :: 0 <= k < |question| ==> question[k] < 128 as char
  {
    seq(|question|, k requires 0 <= k < |question| => question[k] as int)
  }

  /** A probe is one of the two texts behind an ESC; its beginning is a shorter beginning of one of them. */
  lemma ProbesAre(s: seq<Byte>)
    ensures var cpr, area := [0x1B] + Text("[6n"), [0x1B] + Text("[18t");
      && (Hit(s) == 4 <==> cpr <= s) && (Hit(s) == 5 <==> area <= s) && (Hit(s) in {0, 4, 5})
      && (Unfinished(s) <==> s != [] && (s < cpr || s < area))
  {
    var cpr, area := [0x1B] + Text("[6n"), [0x1B] + Text("[18t");
    assert cpr == [0x1B, 0x5B, 0x36, 0x6E];
    assert area == [0x1B, 0x5B, 0x31, 0x38, 0x74];
  }

  datatype Split = Split(out: seq<Byte>, carry: seq<Byte>, n: nat)

  /** One pass over a whole stream. */
  function Scan(s: seq<Byte>): Split {
    if s == [] then Split([], [], 0)
    else if Hit(s) > 0 then
      var r := Scan(s[Hit(s)..]);
      r.(n := r.n + 1)
    else if Unfinished(s) then Split([], s, 0)
    else
      var r := Scan(s[1..]);
      r.(out := [s[0]] + r.out)
  }

  /** What more input cannot undo: a probe stays one, and what is not the beginning of one never will be. */
  lemma HitIsFinal(a: seq<Byte>, b: seq<Byte>)
    requires a != [] && !Unfinished(a)
    ensures Hit(a + b) == Hit(a) && !Unfinished(a + b)
  {
    var s := a + b;
    assert forall k :: 0 <= k < |a| ==> s[k] == a[k];
  }

  /** Resuming with the held-back bytes in front gives what one pass over everything gives. */
  lemma {:induction false} ScanAppend(a: seq<Byte>, b: seq<Byte>)
    ensures
      var s, t := Scan(a), Scan(Scan(a).carry + b);
      Scan(a + b) == Split(s.out + t.out, t.carry, s.n + t.n)
  {
    hide Hit, Unfinished;
    if a == [] {
      assert a + b == b == Scan(a).carry + b;
    } else if Hit(a) == 0 && Unfinished(a) {
    } else {
      hide Scan;
      var k := if Hit(a) > 0 then Hit(a) else 1;
      if Unfinished(a) { HitExcludesUnfinished(a); }
      HitIsFinal(a, b);
      assert (a + b)[k..] == a[k..] + b;
      ScanAppend(a[k..], b);
      ScanStep(a);
      ScanStep(a + b);
      Regroup(a[0], Scan(a[k..]).out, Scan(Scan(a[k..]).carry + b).out);
    }
  }

  lemma Regroup(x: Byte, a: seq<Byte>, b: seq<Byte>)
    ensures [x] + (a + b) == ([x] + a) + b
  {
  }

  lemma HitExcludesUnfinished(s: seq<Byte>)
    requires Unfinished(s)
    ensures Hit(s) == 0
  {
  }

  lemma ScanStep(s: seq<Byte>)
    requires s != [] && (Hit(s) > 0 || !Unfinished(s))
    ensures Hit(s) > 0 ==> Scan(s) == Split(Scan(s[Hit(s)..]).out, Scan(s[Hit(s)..]).carry, Scan(s[Hit(s)..]).n + 1)
    ensures Hit(s) == 0 ==> Scan(s) == Split([s[0]] + Scan(s[1..]).out, Scan(s[1..]).carry, Scan(s[1..]).n)
  {
  }

  /** Some occurrence of a probe in the stream covers position `k`. */
  ghost predicate Covered(s: seq<Byte>, k: nat) {
    exists i: nat :: i <= k && i <= |s| && k < i + Hit(s[i..])
  }

  /** The bytes from `i` on that no occurrence covers, in order. */
  ghost function Kept(s: seq<Byte>, i: nat): seq<Byte>
    requires i <= |s|
    decreases |s| - i
  {
    if i == |s| then [] else (if Covered(s, i) then [] else [s[i]]) + Kept(s, i + 1)
  }

  /** How many occurrences start at `i` or later. */
  function Occurrences(s: seq<Byte>, i: nat): nat
    requires i <= |s|
    decreases |s| - i
  {
    if i == |s| then 0 else (if Hit(s[i..]) > 0 then 1 else 0) + Occurrences(s, i + 1)
  }

  /** No occurrence starts before `i` and ends after it. */
  ghost predicate Clear(s: seq<Byte>, i: nat)
    requires i <= |s|
  {
    forall j: nat :: j < i ==> j + Hit(s[j..]) <= i
  }

  /** Only the first byte of a probe is an escape, so no two occurrences overlap. */
  lemma OccurrencesApart(s: seq<Byte>, i: nat, j: nat)
    requires i < |s| && i < j < i + Hit(s[i..])
    ensures j <= |s| && Hit(s[j..]) == 0
  {
    var t := s[i..];
    assert t[j - i] == s[j] && s[j] != ESC;
  }

  lemma CoveredBy(s: seq<Byte>, i: nat, k: nat)
    requires i <= k <= |s| && k < i + Hit(s[i..])
    ensures Covered(s, k)
  {
  }

  lemma NotCovered(s: seq<Byte>, i: nat)
    requires i < |s| && Clear(s, i) && Hit(s[i..]) == 0
    ensures !Covered(s, i)
  {
    hide Hit;
  }

  lemma ClearStep(s: seq<Byte>, i: nat, h: nat)
    requires i < |s| && Clear(s, i) && h <= |s| - i
    requires h == if Hit(s[i..]) > 0 then Hit(s[i..]) else 1
    ensures Clear(s, i + h)
  {
    hide Hit;
    forall j: nat | j < i + h
      ensures j + Hit(s[j..]) <= i + h
    {
      if i < j { OccurrencesApart(s, i, j); }
    }
  }

  /** A covered stretch contributes nothing. */
  lemma {:induction false} SkipCovered(s: seq<Byte>, i: nat, k: nat)
    requires i < |s| && i < k <= i + Hit(s[i..])
    ensures k <= |s| && Kept(s, k) == Kept(s, i + Hit(s[i..]))
    ensures Occurrences(s, k) == Occurrences(s, i + Hit(s[i..]))
    decreases |s| - k
  {
    hide Hit, Covered;
    if k < i + Hit(s[i..]) {
      CoveredBy(s, i, k);
      OccurrencesApart(s, i, k);
      SkipCovered(s, i, k + 1);
    }
  }

  /** The tail that is held back holds no occurrence. */
  lemma {:induction false} UnfinishedKept(s: seq<Byte>, i: nat, k: nat)
    requires i <= k <= |s| && i < |s| && Clear(s, i) && Unfinished(s[i..])
    ensures Kept(s, k) == s[k..] && Occurrences(s, k) == 0
    decreases |s| - k
  {
    hide Hit, Covered, Unfinished;
    if k < |s| {
      UnfinishedKept(s, i, k + 1);
      forall j: nat | i <= j <= k
        ensures Hit(s[j..]) == 0
      {
        NoHitInside(s, i, j);
      }
      NotCoveredInside(s, i, k);
      assert s[k..] == [s[k]] + s[k + 1..];
    }
  }

  lemma NoHitInside(s: seq<Byte>, i: nat, j: nat)
    requires i <= j < |s| && Unfinished(s[i..])
    ensures Hit(s[j..]) == 0
  {
    var t := s[i..];
    assert t[j - i] == s[j];
    if j > i { assert s[j] != ESC; }
  }

  lemma NotCoveredInside(s: seq<Byte>, i: nat, k: nat)
    requires i <= k < |s| && Clear(s, i) && forall j: nat :: i <= j <= k ==> Hit(s[j..]) == 0
    ensures !Covered(s, k)
  {
    hide Hit;
  }

  /** From `i` on, what is forwarded and then held back is the stream without its occurrences, and the
      count is how many there were. */
  ghost predicate Deletes(s: seq<Byte>, i: nat)
    requires i <= |s|
  {
    && Scan(s[i..]).out + Scan(s[i..]).carry == Kept(s, i)
    && Scan(s[i..]).n == Occurrences(s, i)
  }

  lemma DeletesProbe(s: seq<Byte>, i: nat)
    requires i < |s| && Clear(s, i) && Hit(s[i..]) > 0 && Deletes(s, i + Hit(s[i..]))
    ensures Deletes(s, i)
  {
    hide Hit, Unfinished, Covered, Clear, Scan;
    var t := s[i..];
    ScanStep(t);
    assert t[Hit(t)..] == s[i + Hit(t)..];
    CoveredBy(s, i, i);
    SkipCovered(s, i, i + 1);
  }

  lemma DeletesByte(s: seq<Byte>, i: nat)
    requires i < |s| && Clear(s, i) && Hit(s[i..]) == 0 && !Unfinished(s[i..]) && Deletes(s, i + 1)
    ensures Deletes(s, i)
  {
    hide Hit, Unfinished, Covered, Clear, Scan;
    var t := s[i..];
    ScanStep(t);
    assert t[1..] == s[i + 1..] && t[0] == s[i];
    NotCovered(s, i);
    Regroup(s[i], Scan(s[i + 1..]).out, Scan(s[i + 1..]).carry);
  }

  /** The filter deletes exactly the occurrences of the two probes, counts them, and loses nothing else. */
  lemma {:induction false} ScanDeletes(s: seq<Byte>, i: nat)
    requires i <= |s| && Clear(s, i)
    ensures Deletes(s, i)
    decreases |s| - i
  {
    hide Hit, Unfinished, Covered, Clear;
    if i < |s| {
      var h := Hit(s[i..]);
      if h > 0 {
        hide Deletes;
        ClearStep(s, i, h);
        ScanDeletes(s, i + h);
        DeletesProbe(s, i);
      } else if Unfinished(s[i..]) {
        UnfinishedKept(s, i, i);
      } else {
        hide Deletes;
        ClearStep(s, i, 1);
        ScanDeletes(s, i + 1);
        DeletesByte(s, i);
      }
    }
  }

  /** The same for a whole stream. */
  lemma StreamWithoutProbes(s: seq<Byte>)
    ensures Scan(s).out + Scan(s).carry == Kept(s, 0) && Scan(s).n == Occurrences(s, 0)
  {
    ScanDeletes(s, 0);
    assert s[0..] == s;
  }

  /** Only the beginning of a probe is ever held back. */
  lemma {:induction false} CarryIsUnfinished(s: seq<Byte>)
    ensures Scan(s).carry == [] || Unfinished(Scan(s).carry)
  {
    hide Hit, Unfinished;
    if s != [] {
      if Hit(s) > 0 { CarryIsUnfinished(s[Hit(s)..]); }
      else if !Unfinished(s) { CarryIsUnfinished(s[1..]); }
    }
  }

  /** The filter as the monitor runs it, one call for each read of the serial port. */
  class Splitter {
    var carry: seq<Byte>
    ghost var seen: seq<Byte>
    ghost var forwarded: seq<Byte>
    ghost var probes: nat

    /** However the reads cut the stream: what has been forwarded, held back and counted is what one
        pass over the whole stream forwards, holds back and counts. */
    ghost predicate Valid()
      reads this
    {
      Scan(seen) == Split(forwarded, carry, probes)
    }

    constructor ()
      ensures Valid() && seen == [] && carry == []
    {
      carry, seen, forwarded, probes := [], [], [], 0;
    }

    method SplitProbes(data: seq<Byte>) returns (out: seq<Byte>, n: nat)
      requires Valid()
      modifies this
      ensures Valid()
      ensures seen == old(seen) + data && forwarded == old(forwarded) + out && probes == old(probes) + n
      ensures Split(out, carry, n) == Scan(old(carry) + data)
    {
      var buf := carry + data;
      ScanAppend(seen, data);
      out, n := Filter(buf);
      seen, forwarded, probes := seen + data, forwarded + out, probes + n;
    }

    method Filter(buf: seq<Byte>) returns (out: seq<Byte>, n: nat)
      modifies `carry
      ensures Split(out, carry, n) == Scan(buf)
    {
      hide Hit, Unfinished;
      carry := [];
      out, n := [], 0;
      var i := 0;
      while i < |buf|
        invariant i <= |buf| && carry == []
        invariant Filtered(buf, i, out, n)
      {
        hide Filtered;
        if buf[i] != ESC {
          EscapeStarts(buf[i..]);
          FilterByte(buf, i, out, n);
          out := out + [buf[i]];
          i := i + 1;
        } else {
          var rest := buf[i..];
          var hit := Hit(rest);
          if hit > 0 {
            FilterProbe(buf, i, out, n);
            n := n + 1;
            i := i + hit;
          } else if Unfinished(rest) {
            carry := rest;
            FilterEnd(buf, i, out, n);
            return;
          } else {
            FilterByte(buf, i, out, n);
            out := out + [buf[i]];
            i := i + 1;
          }
        }
      }
      FilterEnd(buf, |buf|, out, n);
    }
  }

  /** The loop has done the first `i` bytes. */
  ghost predicate Filtered(buf: seq<Byte>, i: nat, out: seq<Byte>, n: nat)
    requires i <= |buf|
  {
    var r := Scan(buf[i..]);
    Scan(buf) == Split(out + r.out, r.carry, n + r.n)
  }

  lemma FilterByte(buf: seq<Byte>, i: nat, out: seq<Byte>, n: nat)
    requires i < |buf| && Filtered(buf, i, out, n) && Hit(buf[i..]) == 0 && !Unfinished(buf[i..])
    ensures Filtered(buf, i + 1, out + [buf[i]], n)
  {
    hide Hit, Unfinished, Scan;
    var rest := buf[i..];
    ScanStep(rest);
    assert rest[1..] == buf[i + 1..] && rest[0] == buf[i];
    var r := Scan(buf[i + 1..]);
    assert out + ([buf[i]] + r.out) == (out + [buf[i]]) + r.out;
  }

  lemma FilterProbe(buf: seq<Byte>, i: nat, out: seq<Byte>, n: nat)
    requires i < |buf| && Filtered(buf, i, out, n) && Hit(buf[i..]) > 0
    ensures Filtered(buf, i + Hit(buf[i..]), out, n + 1)
  {
    hide Hit, Unfinished, Scan;
    var rest := buf[i..];
    ScanStep(rest);
    assert rest[Hit(rest)..] == buf[i + Hit(rest)..];
  }

  lemma FilterEnd(buf: seq<Byte>, i: nat, out: seq<Byte>, n: nat)
    requires i <= |buf| && Filtered(buf, i, out, n)
    requires i < |buf| ==> Hit(buf[i..]) == 0 && Unfinished(buf[i..])
    ensures Scan(buf) == Split(out, buf[i..], n)
  {
    hide Hit, Unfinished;
    assert out + [] == out;
  }

  lemma EscapeStarts(s: seq<Byte>)
    requires s != [] && s[0] != ESC
    ensures Hit(s) == 0 && !Unfinished(s)
  {
  }
}
