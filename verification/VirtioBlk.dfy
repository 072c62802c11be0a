/** What core 0 does with one request (main/hyp_virtio_blk.c): walk the descriptor chain, and move each
    segment between guest memory and the card through a 32 KiB bounce buffer. */
module VirtioBlk {
  type Byte = b: int | 0 <= b < 256

  const SECTOR: nat := 512
  const CHUNK: nat := 64 * 512
  const WORD: nat := 0x1_0000_0000

  const IN: nat := 0
  const OUT: nat := 1
  const FLUSH: nat := 4
  const GET_ID: nat := 8

  const S_OK: Byte := 0
  const S_IOERR: Byte := 1
  const S_UNSUPP: Byte := 2

  /** Whole sectors, and how many. */
  predicate Whole(len: nat) {
    len % SECTOR == 0
  }

  function Count(len: nat): nat {
    len / SECTOR
  }

  /** 32-bit arithmetic. */
  function Word(n: nat): nat {
    n % WORD
  }

  lemma WordAdd(a: nat, b: nat)
    ensures Word(Word(a) + b) == Word(a + b)
  {
  }

  /** A descriptor; `more` is the NEXT flag. */
  datatype Desc = Desc(addr: nat, len: nat, more: bool, next: nat)

  /** The card: its bytes, and the sectors it fails on. */
  datatype Disk = Disk(bytes: seq<Byte>, bad: set<nat>)

  datatype Machine = Machine(mem: seq<Byte>, disk: Disk)

  /** `m` with `bytes` at `at`. */
  function Put(m: seq<Byte>, at: nat, bytes: seq<Byte>): (r: seq<Byte>)
    requires bytes != [] ==> at + |bytes| <= |m|
    ensures |r| == |m|
  {
    if bytes == [] then m else m[..at] + bytes + m[at + |bytes|..]
  }

  /** The card answers a request for these sectors. */
  predicate Serves(d: Disk, sector: nat, count: nat) {
    SECTOR * (sector + count) <= |d.bytes| && forall s :: sector <= s < sector + count ==> s !in d.bad
  }

  // ---- one segment ---------------------------------------------------------------------------------

  /** How many of `len` bytes are moved before a call to the card fails; all of them if none does. */
  function Moved(d: Disk, sector: nat, len: nat): (n: nat)
    requires Whole(len)
    ensures n <= len && Whole(n)
    ensures n > 0 ==> SECTOR * sector + n <= |d.bytes|
    decreases len
  {
    if len == 0 then 0
    else
      var n := if len > CHUNK then CHUNK else len;
      if Serves(d, sector, Count(n)) then n + Moved(d, sector + Count(n), len - n) else 0
  }

  /** The chunks do not show: everything is moved exactly when the card serves the whole stretch. */
  lemma {:induction false} MovedAll(d: Disk, sector: nat, len: nat)
    requires Whole(len)
    ensures Moved(d, sector, len) == len <==> len == 0 || Serves(d, sector, Count(len))
    decreases len
  {
    if len > 0 {
      var n := if len > CHUNK then CHUNK else len;
      MovedAll(d, sector + Count(n), len - n);
    }
  }

  lemma PutPut(m: seq<Byte>, at: nat, x: seq<Byte>, y: seq<Byte>)
    requires x + y != [] ==> at + |x| + |y| <= |m|
    ensures Put(Put(m, at, x), at + |x|, y) == Put(m, at, x + y)
  {
    if x == [] { assert x + y == y; }
    if y == [] { assert x + y == x; }
  }

  lemma PutReadsBack(m: seq<Byte>, at: nat, x: seq<Byte>, lo: nat, hi: nat)
    requires (x != [] ==> at + |x| <= |m|) && lo <= hi <= |m|
    ensures x != [] ==> Put(m, at, x)[at..at + |x|] == x
    ensures hi <= at || at + |x| <= lo ==> Put(m, at, x)[lo..hi] == m[lo..hi]
  {
    var r := Put(m, at, x);
    if x != [] && (hi <= at || at + |x| <= lo) {
      assert forall k :: lo <= k < hi ==> r[k] == m[k];
    }
  }

  /** The bytes a GET_ID answers with: the name and its terminator, the rest of the buffer zero. */
  function Serial(len: nat): (r: seq<Byte>)
    ensures |r| == len
  {
    var id: seq<Byte> := [0x65, 0x73, 0x70, 0x33, 0x32, 0x70, 0x34, 0x2D, 0x73, 0x64];
    seq(len, i requires 0 <= i < len => if i < |id| then id[i] else 0)
  }

  predicate Fits(m: seq<Byte>, d: Desc) {
    d.addr + d.len <= |m|
  }

  /** One data segment of a request; false when it fails. */
  function Segment(m: Machine, kind: nat, sector: nat, d: Desc): (Machine, bool)
    requires Fits(m.mem, d)
  {
    if kind == IN && Whole(d.len) then
      var n, at := Moved(m.disk, sector, d.len), SECTOR * sector;
      (m.(mem := Put(m.mem, d.addr, if n == 0 then [] else m.disk.bytes[at..at + n])), n == d.len)
    else if kind == OUT && Whole(d.len) then
      var n, at := Moved(m.disk, sector, d.len), SECTOR * sector;
      (m.(disk := m.disk.(bytes := Put(m.disk.bytes, at, m.mem[d.addr..d.addr + n]))), n == d.len)
    else if kind == GET_ID then (m.(mem := Put(m.mem, d.addr, Serial(d.len))), true)
    else (m, kind == FLUSH)
  }

  /** What a segment adds to the count of bytes written: a failing read still adds its length. */
  function Counted(kind: nat, d: Desc): nat {
    if (kind == IN && Whole(d.len)) || kind == GET_ID then d.len else 0
  }

  /** Where the next segment goes on. */
  function Onward(kind: nat, sector: nat, d: Desc): nat {
    if kind == IN || kind == OUT then Word(sector + Count(d.len)) else sector
  }

  datatype Outcome = Outcome(m: Machine, written: nat, ok: bool, answered: bool)

  ghost predicate Inside(m: seq<Byte>, ds: seq<Desc>) {
    forall k :: 0 <= k < |ds| ==> if k == |ds| - 1 then ds[k].addr < |m| else Fits(m, ds[k])
  }

  /** The rest of a chain, the last descriptor being the status byte. A failing segment ends the request
      on the spot: nothing after it is done, the status byte included. */
  function Chain(m: Machine, kind: nat, sector: nat, ds: seq<Desc>, written: nat): (o: Outcome)
    requires Inside(m.mem, ds)
    ensures |o.m.mem| == |m.mem| && |o.m.disk.bytes| == |m.disk.bytes| && o.m.disk.bad == m.disk.bad
    decreases |ds|
  {
    if |ds| == 0 then Outcome(m, written, true, false)
    else if |ds| == 1 then Outcome(m.(mem := m.mem[ds[0].addr := S_OK]), Word(written + 1), true, true)
    else
      var (m', ok) := Segment(m, kind, sector, ds[0]);
      var w := Word(written + Counted(kind, ds[0]));
      if ok then Chain(m', kind, Onward(kind, sector, ds[0]), ds[1..], w) else Outcome(m', w, false, false)
  }

  // ---- what a whole request does -------------------------------------------------------------------

  /** The bytes of the data segments, in order. */
  function Gather(m: seq<Byte>, ds: seq<Desc>): seq<Byte>
    requires Inside(m, ds)
  {
    if |ds| <= 1 then [] else m[ds[0].addr..ds[0].addr + ds[0].len] + Gather(m, ds[1..])
  }

  function Total(ds: seq<Desc>): nat {
    if |ds| <= 1 then 0 else ds[0].len + Total(ds[1..])
  }

  predicate AllWhole(ds: seq<Desc>) {
    |ds| > 1 ==> Whole(ds[0].len) && AllWhole(ds[1..])
  }

  lemma {:induction false} GatherLength(m: seq<Byte>, ds: seq<Desc>)
    requires Inside(m, ds)
    ensures |Gather(m, ds)| == Total(ds)
  {
    if |ds| > 1 { GatherLength(m, ds[1..]); }
  }

  lemma {:induction false} TotalWhole(ds: seq<Desc>)
    requires AllWhole(ds)
    ensures Whole(Total(ds))
  {
    if |ds| > 1 { TotalWhole(ds[1..]); }
  }

  /** The card serves the stretch of a chain. */
  predicate Available(d: Disk, sector: nat, len: nat) {
    len == 0 || Serves(d, sector, Count(len))
  }

  lemma AvailableSplit(d: Disk, sector: nat, a: nat, b: nat)
    requires Whole(a) && Whole(b)
    ensures Available(d, sector, a + b) <==> Available(d, sector, a) && Available(d, sector + Count(a), b)
  {
    assert Count(a + b) == Count(a) + Count(b);
    assert a > 0 ==> Count(a) > 0;
    assert b > 0 ==> Count(b) > 0;
  }

  /** The sector number does not wrap before the card runs out. */
  lemma OnwardInRange(m: Machine, kind: nat, sector: nat, d: Desc)
    requires |m.disk.bytes| < SECTOR * WORD && Whole(d.len) && Available(m.disk, sector, d.len) && sector < WORD
    requires kind == IN || kind == OUT
    ensures Onward(kind, sector, d) == sector + Count(d.len)
  {
    if d.len > 0 { assert sector + Count(d.len) < WORD; }
  }

  /** One segment, without the bounces. */
  lemma SegmentWhole(m: Machine, kind: nat, sector: nat, d: Desc)
    requires Fits(m.mem, d) && (kind == IN || kind == OUT)
    ensures var (t, ok) := Segment(m, kind, sector, d);
      && (ok <==> Whole(d.len) && Available(m.disk, sector, d.len))
      && t.disk.bad == m.disk.bad && |t.disk.bytes| == |m.disk.bytes| && |t.mem| == |m.mem|
      && (ok && kind == IN ==> t == m.(mem := Put(m.mem, d.addr, Stretch(m.disk, sector, d.len))))
      && (ok && kind == OUT ==> t == m.(disk := m.disk.(bytes :=
            Put(m.disk.bytes, SECTOR * sector, m.mem[d.addr..d.addr + d.len]))))
  {
    hide Whole, Count, Word, Put;
    if Whole(d.len) { MovedAll(m.disk, sector, d.len); }
  }

  /** `len` bytes of the card, from the start of a sector. */
  function Stretch(d: Disk, sector: nat, len: nat): (r: seq<Byte>)
    requires Available(d, sector, len) && Whole(len)
    ensures |r| == len
  {
    if len == 0 then [] else d.bytes[SECTOR * sector..SECTOR * sector + len]
  }

  lemma AvailableSame(d: Disk, d': Disk, sector: nat, len: nat)
    requires d'.bad == d.bad && |d'.bytes| == |d.bytes|
    ensures Available(d', sector, len) <==> Available(d, sector, len)
  {
  }

  ghost predicate Sized(m: Machine, sector: nat) {
    |m.disk.bytes| < SECTOR * WORD && sector < WORD
  }

  /** A chain can go on past its first segment exactly when the rest can. */
  lemma HeadOfTransfer(m: Machine, kind: nat, sector: nat, ds: seq<Desc>)
    requires Inside(m.mem, ds) && |ds| > 1 && Sized(m, sector) && (kind == IN || kind == OUT)
    ensures var (t, ok) := Segment(m, kind, sector, ds[0]);
      var on := Onward(kind, sector, ds[0]);
      && (AllWhole(ds) && Available(m.disk, sector, Total(ds)) <==>
            ok && AllWhole(ds[1..]) && Available(t.disk, on, Total(ds[1..])))
      && (ok ==> Whole(ds[0].len) && Available(m.disk, sector, ds[0].len) && Sized(t, on)
                 && on == sector + Count(ds[0].len))
      && Inside(t.mem, ds[1..])
  {
    hide Whole, Count, Word, Segment, Put, Available, Onward, Inside;
    var d, rest := ds[0], ds[1..];
    InsideHead(m.mem, ds);
    SegmentWhole(m, kind, sector, d);
    InsideTail(m.mem, Segment(m, kind, sector, d).0.mem, ds);
    OnwardSmall(kind, sector, d);
    if Whole(d.len) && Available(m.disk, sector, d.len) {
      OnwardInRange(m, kind, sector, d);
      AvailableSame(m.disk, Segment(m, kind, sector, d).0.disk, sector + Count(d.len), Total(rest));
    }
    if Whole(d.len) && AllWhole(rest) {
      TotalWhole(rest);
      AvailableSplit(m.disk, sector, d.len, Total(rest));
    }
  }

  lemma InsideHead(m: seq<Byte>, ds: seq<Desc>)
    requires Inside(m, ds) && |ds| > 1
    ensures Fits(m, ds[0])
  {
  }

  lemma InsideTail(m: seq<Byte>, m': seq<Byte>, ds: seq<Desc>)
    requires Inside(m, ds) && |ds| > 1 && |m'| == |m|
    ensures Inside(m', ds[1..])
  {
  }

  lemma OnwardSmall(kind: nat, sector: nat, d: Desc)
    requires sector < WORD
    ensures Onward(kind, sector, d) < WORD
  {
  }

  /** A read or a write succeeds exactly when every segment is whole sectors and the card serves all of
      them, however the driver cut the request into segments. Only then is it answered. */
  lemma {:induction false} TransferSucceeds(m: Machine, kind: nat, sector: nat, ds: seq<Desc>, written: nat)
    requires Inside(m.mem, ds) && |ds| > 0 && Sized(m, sector) && (kind == IN || kind == OUT)
    ensures var o := Chain(m, kind, sector, ds, written);
      (o.ok <==> AllWhole(ds) && Available(m.disk, sector, Total(ds))) && o.answered == o.ok
    decreases |ds|
  {
    hide Whole, Count, Word, Segment, Put, Available, Onward, Sized;
    if |ds| > 1 {
      hide AllWhole, Total;
      HeadOfTransfer(m, kind, sector, ds);
      var (t, ok) := Segment(m, kind, sector, ds[0]);
      if ok {
        TransferSucceeds(t, kind, Onward(kind, sector, ds[0]), ds[1..], Word(written + Counted(kind, ds[0])));
      }
    } else {
      AvailableNothing(m.disk, sector);
    }
  }

  lemma AvailableNothing(d: Disk, sector: nat)
    ensures Available(d, sector, 0)
  {
  }

  /** Then a write leaves on the card the concatenation of its segments, and changes nothing in memory but
      the status byte. */
  lemma {:induction false} WriteEffect(m: Machine, sector: nat, ds: seq<Desc>, written: nat)
    requires Inside(m.mem, ds) && |ds| > 0 && Sized(m, sector)
    requires AllWhole(ds) && Available(m.disk, sector, Total(ds))
    ensures var o, all := Chain(m, OUT, sector, ds, written), Gather(m.mem, ds);
      && |all| == Total(ds) && (all != [] ==> SECTOR * sector + |all| <= |m.disk.bytes|)
      && o.m.disk.bytes == Put(m.disk.bytes, SECTOR * sector, all)
      && o.m.mem == m.mem[ds[|ds| - 1].addr := S_OK]
      && o.written == Word(written + 1)
    decreases |ds|
  {
    hide Whole, Count, Word, Segment, Put, Available, Onward, Sized;
    GatherLength(m.mem, ds);
    TotalWhole(ds);
    AvailableMeans(m.disk, sector, Total(ds));
    if |ds| > 1 {
      hide AllWhole;
      var d, rest := ds[0], ds[1..];
      HeadOfTransfer(m, OUT, sector, ds);
      SegmentWhole(m, OUT, sector, d);
      var t := Segment(m, OUT, sector, d).0;
      WordAdd(written, 1);
      Position(sector, d.len);
      WriteEffect(t, sector + Count(d.len), rest, Word(written));
      PutPut(m.disk.bytes, SECTOR * sector, m.mem[d.addr..d.addr + d.len], Gather(m.mem, rest));
    } else {
      PutNothing(m.disk.bytes, SECTOR * sector);
    }
  }

  lemma Position(sector: nat, len: nat)
    requires Whole(len)
    ensures SECTOR * (sector + Count(len)) == SECTOR * sector + len
  {
  }

  lemma PutNothing(m: seq<Byte>, at: nat)
    ensures Put(m, at, []) == m
  {
  }

  lemma AvailableMeans(d: Disk, sector: nat, len: nat)
    requires Whole(len)
    ensures Available(d, sector, len) && len > 0 ==> SECTOR * sector + len <= |d.bytes|
  {
  }

  /** Two data segments, or a data segment and the status byte, share no byte. */
  predicate Apart(ds: seq<Desc>) {
    |ds| > 1 ==> DisjointFrom(ds[0], ds[1..]) && Apart(ds[1..])
  }

  predicate DisjointFrom(d: Desc, ds: seq<Desc>) {
    ds != [] ==>
      var size := if |ds| == 1 then 1 else ds[0].len;
      (d.addr + d.len <= ds[0].addr || ds[0].addr + size <= d.addr) && DisjointFrom(d, ds[1..])
  }

  /** What a read does not touch. */
  lemma {:induction false} ReadFrame(m: Machine, sector: nat, ds: seq<Desc>, written: nat, d: Desc)
    requires Inside(m.mem, ds) && |ds| > 0 && Sized(m, sector)
    requires AllWhole(ds) && Available(m.disk, sector, Total(ds))
    requires Fits(m.mem, d) && DisjointFrom(d, ds)
    ensures var o := Chain(m, IN, sector, ds, written);
      o.m.mem[d.addr..d.addr + d.len] == m.mem[d.addr..d.addr + d.len]
    decreases |ds|
  {
    hide Whole, Count, Word, Segment, Put, Available, Onward;
    if |ds| > 1 {
      var e, rest := ds[0], ds[1..];
      ReadStep(m, sector, ds);
      var t := Segment(m, IN, sector, e).0;
      ReadFrame(t, sector + Count(e.len), rest, Word(written + Counted(IN, e)), d);
      PutReadsBack(m.mem, e.addr, Stretch(m.disk, sector, e.len), d.addr, d.addr + d.len);
    }
  }

  lemma ReadStep(m: Machine, sector: nat, ds: seq<Desc>)
    requires Inside(m.mem, ds) && |ds| > 1 && Sized(m, sector)
    requires AllWhole(ds) && Available(m.disk, sector, Total(ds))
    ensures Fits(m.mem, ds[0])
    ensures var (t, ok) := Segment(m, IN, sector, ds[0]);
      && ok && Whole(ds[0].len) && Available(m.disk, sector, ds[0].len) && Whole(ds[0].len)
      && t == m.(mem := Put(m.mem, ds[0].addr, Stretch(m.disk, sector, ds[0].len)))
      && Onward(IN, sector, ds[0]) == sector + Count(ds[0].len)
      && AllWhole(ds[1..]) && Whole(Total(ds[1..]))
      && Available(m.disk, sector + Count(ds[0].len), Total(ds[1..])) && Sized(t, sector + Count(ds[0].len))
      && Inside(t.mem, ds[1..])
  {
    hide Whole, Count, Word, Segment, Put, Available, Onward, Total, Inside;
    InsideHead(m.mem, ds);
    HeadOfTransfer(m, IN, sector, ds);
    SegmentWhole(m, IN, sector, ds[0]);
    AvailableSame(m.disk, Segment(m, IN, sector, ds[0]).0.disk, sector + Count(ds[0].len), Total(ds[1..]));
    SizedMeans(m, sector + Count(ds[0].len));
    TotalWhole(ds[1..]);
  }

  lemma SizedMeans(m: Machine, sector: nat)
    requires Sized(m, sector)
    ensures sector < WORD
  {
  }

  /** The memory and the card after the first segment of a read. */
  function AfterHead(m: Machine, sector: nat, d: Desc): (t: Machine)
    requires Fits(m.mem, d) && Whole(d.len) && Available(m.disk, sector, d.len)
    ensures |t.mem| == |m.mem| && t.disk == m.disk
  {
    m.(mem := Put(m.mem, d.addr, Stretch(m.disk, sector, d.len)))
  }

  /** A successful read does its first segment and goes on with the rest. */
  lemma ReadUnfold(m: Machine, sector: nat, ds: seq<Desc>, written: nat)
    requires Inside(m.mem, ds) && |ds| > 1 && Sized(m, sector)
    requires AllWhole(ds) && Available(m.disk, sector, Total(ds))
    ensures Fits(m.mem, ds[0]) && Whole(ds[0].len) && Available(m.disk, sector, ds[0].len)
    ensures var t, on := AfterHead(m, sector, ds[0]), sector + Count(ds[0].len);
      && Inside(t.mem, ds[1..]) && Sized(t, on) && AllWhole(ds[1..]) && Whole(Total(ds[1..])) && Whole(Total(ds))
      && Available(m.disk, on, Total(ds[1..]))
      && Chain(m, IN, sector, ds, written) == Chain(t, IN, on, ds[1..], Word(written + ds[0].len))
  {
    hide Whole, Count, Word, Segment, Put, Available, Onward, Total, Sized, Stretch;
    ReadStep(m, sector, ds);
    CountedRead(ds[0]);
    TotalWhole(ds);
  }

  /** A read fills its segments, taken together, with the sectors. */
  lemma {:induction false} ReadFills(m: Machine, sector: nat, ds: seq<Desc>, written: nat)
    requires Inside(m.mem, ds) && |ds| > 0 && Sized(m, sector) && Apart(ds)
    requires AllWhole(ds) && Whole(Total(ds)) && Available(m.disk, sector, Total(ds))
    ensures var o := Chain(m, IN, sector, ds, written);
      Inside(o.m.mem, ds) && Gather(o.m.mem, ds) == Stretch(m.disk, sector, Total(ds))
    decreases |ds|
  {
    hide Whole, Count, Word, Segment, Put, Available, Onward, Stretch, Sized, DisjointFrom;
    if |ds| > 1 {
      hide Inside, AllWhole, Total, Gather, Chain;
      var d, rest := ds[0], ds[1..];
      ReadUnfold(m, sector, ds, written);
      var t, on, w := AfterHead(m, sector, d), sector + Count(d.len), Word(written + d.len);
      ReadFills(t, on, rest, w);
      ReadFrame(t, on, rest, w, d);
      FillsStep(m, sector, ds, Chain(t, IN, on, rest, w).m.mem);
    } else {
      StretchSplit(m.disk, sector, 0, 0);
    }
  }

  lemma HeadReadsBack(m: Machine, sector: nat, d: Desc)
    requires Fits(m.mem, d) && Whole(d.len) && Available(m.disk, sector, d.len)
    ensures AfterHead(m, sector, d).mem[d.addr..d.addr + d.len] == Stretch(m.disk, sector, d.len)
  {
    hide Put, Whole, Available, Stretch;
    PutReadsBack(m.mem, d.addr, Stretch(m.disk, sector, d.len), d.addr, d.addr + d.len);
  }

  lemma FillsStep(m: Machine, sector: nat, ds: seq<Desc>, u: seq<Byte>)
    requires Inside(m.mem, ds) && |ds| > 1 && |u| == |m.mem| && Whole(Total(ds)) && Whole(Total(ds[1..]))
    requires Fits(m.mem, ds[0]) && Whole(ds[0].len) && Available(m.disk, sector, ds[0].len)
    requires Available(m.disk, sector, Total(ds)) && Available(m.disk, sector + Count(ds[0].len), Total(ds[1..]))
    requires var d := ds[0]; u[d.addr..d.addr + d.len] == AfterHead(m, sector, d).mem[d.addr..d.addr + d.len]
    requires Inside(u, ds[1..])
    requires Gather(u, ds[1..]) == Stretch(m.disk, sector + Count(ds[0].len), Total(ds[1..]))
    ensures Inside(u, ds) && Gather(u, ds) == Stretch(m.disk, sector, Total(ds))
  {
    hide Whole, Count, Put, Available, Stretch, Inside, Total, Gather, AfterHead;
    var d := ds[0];
    HeadReadsBack(m, sector, d);
    GatherCons(u, m.mem, ds);
    StretchSplit(m.disk, sector, d.len, Total(ds[1..]));
  }

  /** It leaves the card alone, answers, and reports the bytes of the segments and the status byte. */
  lemma {:induction false} ReadReports(m: Machine, sector: nat, ds: seq<Desc>, written: nat)
    requires Inside(m.mem, ds) && |ds| > 0 && Sized(m, sector)
    requires AllWhole(ds) && Available(m.disk, sector, Total(ds))
    ensures var o := Chain(m, IN, sector, ds, written);
      && o.m.disk == m.disk && o.m.mem[ds[|ds| - 1].addr] == S_OK
      && o.written == Word(written + Total(ds) + 1)
    decreases |ds|
  {
    hide Whole, Count, Word, Segment, Put, Available, Onward, Sized;
    if |ds| > 1 {
      hide AllWhole, Total;
      var d, rest := ds[0], ds[1..];
      GatherCons(m.mem, m.mem, ds);
      ReadUnfold(m, sector, ds, written);
      WordAdd(written + d.len, Total(rest) + 1);
      ReadReports(AfterHead(m, sector, d), sector + Count(d.len), rest, Word(written + d.len));
    }
  }

  lemma GatherCons(m: seq<Byte>, was: seq<Byte>, ds: seq<Desc>)
    requires |ds| > 1 && Inside(was, ds) && |m| == |was|
    ensures Inside(m, ds) && Inside(m, ds[1..]) && Fits(m, ds[0]) && Total(ds) == ds[0].len + Total(ds[1..])
    ensures Gather(m, ds) == m[ds[0].addr..ds[0].addr + ds[0].len] + Gather(m, ds[1..])
  {
  }

  lemma CountedRead(d: Desc)
    requires Whole(d.len)
    ensures Counted(IN, d) == d.len
  {
  }

  lemma StretchSplit(d: Disk, sector: nat, a: nat, b: nat)
    requires Whole(a) && Whole(b) && Whole(a + b)
    requires Available(d, sector, a) && Available(d, sector + Count(a), b) && Available(d, sector, a + b)
    ensures Stretch(d, sector, a + b) == Stretch(d, sector, a) + Stretch(d, sector + Count(a), b)
  {
    assert SECTOR * (sector + Count(a)) == SECTOR * sector + a;
  }

  lemma WriteLeaves(m: Machine, sector: nat, out: seq<Desc>)
    requires Inside(m.mem, out) && |out| > 0 && Sized(m, sector)
    requires AllWhole(out) && Available(m.disk, sector, Total(out))
    ensures var w := Chain(m, OUT, sector, out, 0);
      && w.ok && w.answered && w.written == 1 && w.m.mem == m.mem[out[|out| - 1].addr := S_OK]
      && Sized(w.m, sector) && Available(w.m.disk, sector, Total(out)) && Whole(Total(out))
      && Stretch(w.m.disk, sector, Total(out)) == Gather(m.mem, out)
  {
    hide Chain, Inside, Gather, Total, AllWhole, Whole, Count, Available, Put, Stretch, Word;
    var w := Chain(m, OUT, sector, out, 0);
    TransferSucceeds(m, OUT, sector, out, 0);
    WriteEffect(m, sector, out, 0);
    AvailableSame(m.disk, w.m.disk, sector, Total(out));
    SizedSame(m, w.m, sector);
    TotalWhole(out);
    GatherLength(m.mem, out);
    StretchOfPut(m.disk, w.m.disk, sector, Gather(m.mem, out));
    WordOne();
  }

  /** A write chain, then a read chain of the same sectors. */
  lemma ChainRoundTrip(m: Machine, sector: nat, out: seq<Desc>, m': Machine, ins: seq<Desc>)
    requires Inside(m.mem, out) && |out| > 0 && Sized(m, sector)
    requires AllWhole(out) && Available(m.disk, sector, Total(out))
    requires Inside(m'.mem, ins) && |ins| > 0 && AllWhole(ins) && Apart(ins) && Total(ins) == Total(out)
    requires m'.disk == Chain(m, OUT, sector, out, 0).m.disk
    ensures var w := Chain(m, OUT, sector, out, 0);
      w.ok && w.answered && w.written == 1 && w.m.mem == m.mem[out[|out| - 1].addr := S_OK]
    ensures var r := Chain(m', IN, sector, ins, 0);
      && r.ok && r.answered && r.written == Word(Total(ins) + 1) && r.m.mem[ins[|ins| - 1].addr] == S_OK
      && Inside(r.m.mem, ins) && Gather(r.m.mem, ins) == Gather(m.mem, out)
  {
    hide Chain, Inside, Gather, Total, AllWhole, Apart, Whole, Count, Available, Put, Stretch, Word, Sized;
    WriteLeaves(m, sector, out);
    SizedSame(Chain(m, OUT, sector, out, 0).m, m', sector);
    TransferSucceeds(m', IN, sector, ins, 0);
    ReadFills(m', sector, ins, 0);
    ReadReports(m', sector, ins, 0);
  }

  lemma WordOne()
    ensures Word(1) == 1
  {
  }

  lemma SizedSame(m: Machine, m': Machine, sector: nat)
    requires Sized(m, sector) && |m'.disk.bytes| == |m.disk.bytes|
    ensures Sized(m', sector)
  {
  }

  lemma StretchOfPut(d: Disk, d': Disk, sector: nat, x: seq<Byte>)
    requires Whole(|x|) && Available(d', sector, |x|)
    requires (x != [] ==> SECTOR * sector + |x| <= |d.bytes|) && d'.bytes == Put(d.bytes, SECTOR * sector, x)
    ensures Stretch(d', sector, |x|) == x
  {
  }

  /** A status byte is written exactly when the chain has one and no segment failed, and then it says OK. */
  lemma {:induction false} ChainAnswered(m: Machine, kind: nat, sector: nat, ds: seq<Desc>, written: nat)
    requires Inside(m.mem, ds)
    ensures var o := Chain(m, kind, sector, ds, written);
      && (o.answered <==> o.ok && |ds| > 0)
      && (o.answered ==> ds[|ds| - 1].addr < |o.m.mem| && o.m.mem[ds[|ds| - 1].addr] == S_OK)
    decreases |ds|
  {
    hide Segment, Onward, Word, Counted;
    if |ds| > 1 {
      SegmentSize(m, kind, sector, ds[0]);
      var (t, ok) := Segment(m, kind, sector, ds[0]);
      if ok { ChainAnswered(t, kind, Onward(kind, sector, ds[0]), ds[1..], Word(written + Counted(kind, ds[0]))); }
    }
  }

  lemma SegmentSize(m: Machine, kind: nat, sector: nat, d: Desc)
    requires Fits(m.mem, d)
    ensures |Segment(m, kind, sector, d).0.mem| == |m.mem|
  {
  }

  /** A kind the device does not know succeeds when it carries no data, and is dropped unanswered
      otherwise; the two kinds that move no sectors always succeed. */
  lemma {:induction false} OtherKinds(m: Machine, kind: nat, sector: nat, ds: seq<Desc>, written: nat)
    requires Inside(m.mem, ds) && kind != IN && kind != OUT
    ensures var o := Chain(m, kind, sector, ds, written);
      && (o.ok <==> kind == GET_ID || kind == FLUSH || |ds| <= 1)
      && o.m.disk == m.disk
    decreases |ds|
  {
    hide Put, Word;
    if |ds| > 1 {
      var (t, ok) := Segment(m, kind, sector, ds[0]);
      if ok { OtherKinds(t, kind, sector, ds[1..], Word(written + Counted(kind, ds[0]))); }
    }
  }

  // ---- the code --------------------------------------------------------------------------------------

  function Le32(m: seq<Byte>, at: nat): nat
    requires at + 4 <= |m|
  {
    var a: int, b: int, c: int, d: int := m[at], m[at + 1], m[at + 2], m[at + 3];
    a + 0x100 * b + 0x1_0000 * c + 0x100_0000 * d
  }

  /** `ds` are the descriptors that follow `d` in the table. Such a list exists when the chain is acyclic. */
  predicate Links(table: seq<Desc>, d: Desc, ds: seq<Desc>)
    requires |table| > 0
    decreases |ds|
  {
    if d.more then ds != [] && ds[0] == table[d.next % |table|] && Links(table, ds[0], ds[1..]) else ds == []
  }

  /** `done` bytes of a segment have been moved. */
  ghost predicate Partly(m: Machine, kind: nat, sector: nat, addr: nat, done: nat, t: Machine)
    requires addr + done <= |m.mem| && (done > 0 ==> SECTOR * sector + done <= |m.disk.bytes|)
  {
    var at := SECTOR * sector;
    if kind == IN then t == m.(mem := Put(m.mem, addr, if done == 0 then [] else m.disk.bytes[at..at + done]))
    else t == m.(disk := m.disk.(bytes := Put(m.disk.bytes, at, m.mem[addr..addr + done])))
  }

  lemma PutByByte(m: seq<Byte>, at: nat, x: seq<Byte>, r: seq<Byte>)
    requires at + |x| <= |m| == |r|
    requires forall j :: 0 <= j < |m| ==> r[j] == if at <= j < at + |x| then x[j - at] else m[j]
    ensures r == Put(m, at, x)
  {
  }

  lemma ReadMore(m: Machine, sector: nat, addr: nat, done: nat, n: nat, t: Machine)
    requires addr + done + n <= |m.mem| && n > 0 && SECTOR * sector + done + n <= |m.disk.bytes|
    requires Partly(m, IN, sector, addr, done, t)
    ensures var x := t.disk.bytes[SECTOR * sector + done..SECTOR * sector + done + n];
      Partly(m, IN, sector, addr, done + n, t.(mem := Put(t.mem, addr + done, x)))
  {
    hide Put;
    var at, b := SECTOR * sector, m.disk.bytes;
    var x := if done == 0 then [] else b[at..at + done];
    PutPut(m.mem, addr, x, b[at + done..at + done + n]);
    assert x + b[at + done..at + done + n] == b[at..at + done + n];
  }

  lemma WriteMore(m: Machine, sector: nat, addr: nat, done: nat, n: nat, t: Machine)
    requires addr + done + n <= |m.mem| && n > 0 && SECTOR * sector + done + n <= |m.disk.bytes|
    requires Partly(m, OUT, sector, addr, done, t)
    ensures var x := t.mem[addr + done..addr + done + n];
      Partly(m, OUT, sector, addr, done + n,
             t.(disk := t.disk.(bytes := Put(t.disk.bytes, SECTOR * sector + done, x))))
  {
    hide Put;
    var b := m.mem;
    PutPut(m.disk.bytes, SECTOR * sector, b[addr..addr + done], b[addr + done..addr + done + n]);
    assert b[addr..addr + done] + b[addr + done..addr + done + n] == b[addr..addr + done + n];
  }

  /** The transfer of the segment `d` has `len` bytes to go, from `sector` on. */
  ghost predicate Going(m: Machine, kind: nat, sector0: nat, d: Desc, sector: nat, len: nat, t: Machine) {
    && (kind == IN || kind == OUT)
    && Fits(m.mem, d) && Whole(d.len) && Whole(len) && len <= d.len && sector == sector0 + Count(d.len - len)
    && (len < d.len ==> SECTOR * sector <= |m.disk.bytes|)
    && Moved(m.disk, sector0, d.len) == (d.len - len) + Moved(m.disk, sector, len)
    && t.disk.bad == m.disk.bad && |t.disk.bytes| == |m.disk.bytes| && |t.mem| == |m.mem|
    && Partly(m, kind, sector0, d.addr, d.len - len, t)
  }

  lemma GoingStart(m: Machine, kind: nat, sector: nat, d: Desc)
    requires (kind == IN || kind == OUT) && Fits(m.mem, d) && Whole(d.len)
    ensures Going(m, kind, sector, d, sector, d.len, m)
  {
    hide Moved;
  }

  function Piece(len: nat): nat {
    if len > CHUNK then CHUNK else len
  }

  lemma ServesSame(d: Disk, d': Disk, sector: nat, count: nat)
    requires d'.bad == d.bad && |d'.bytes| == |d.bytes|
    ensures Serves(d', sector, count) <==> Serves(d, sector, count)
  {
  }

  /** A call to the card fails: the segment fails with what has been moved so far. */
  lemma GoingFails(m: Machine, kind: nat, sector0: nat, d: Desc, sector: nat, len: nat, t: Machine)
    requires Going(m, kind, sector0, d, sector, len, t) && len > 0 && !Serves(t.disk, sector, Count(Piece(len)))
    ensures Segment(m, kind, sector0, d) == (t, false)
  {
    hide Put, Serves;
    ServesSame(m.disk, t.disk, sector, Count(Piece(len)));
    assert Moved(m.disk, sector, len) == 0;
  }

  /** One call to the card that succeeds, as the machine it leaves. */
  function WithPiece(kind: nat, buf: nat, sector: nat, n: nat, t: Machine): (u: Machine)
    requires buf + n <= |t.mem| && SECTOR * sector + n <= |t.disk.bytes|
    ensures |u.mem| == |t.mem| && |u.disk.bytes| == |t.disk.bytes| && u.disk.bad == t.disk.bad
  {
    var at := SECTOR * sector;
    if kind == IN then t.(mem := Put(t.mem, buf, t.disk.bytes[at..at + n]))
    else t.(disk := t.disk.(bytes := Put(t.disk.bytes, at, t.mem[buf..buf + n])))
  }

  lemma PartlyOn(m: Machine, kind: nat, sector0: nat, d: Desc, len: nat, t: Machine, sector: nat, n: nat)
    requires (kind == IN || kind == OUT) && Fits(m.mem, d) && 0 < n <= len <= d.len && Whole(d.len - len)
    requires sector == sector0 + Count(d.len - len) && SECTOR * sector + n <= |m.disk.bytes| == |t.disk.bytes|
    requires SECTOR * sector == SECTOR * sector0 + (d.len - len) && |t.mem| == |m.mem|
    requires Partly(m, kind, sector0, d.addr, d.len - len, t)
    ensures Partly(m, kind, sector0, d.addr, d.len - len + n, WithPiece(kind, d.addr + (d.len - len), sector, n, t))
  {
    hide Put, Partly, Whole, Count;
    if kind == IN {
      ReadMore(m, sector0, d.addr, d.len - len, n, t);
    } else {
      WriteMore(m, sector0, d.addr, d.len - len, n, t);
    }
  }

  lemma MovedOn(d: Disk, sector: nat, len: nat)
    requires Whole(len) && len > 0 && Serves(d, sector, Count(Piece(len)))
    ensures Whole(len - Piece(len))
    ensures Moved(d, sector, len) == Piece(len) + Moved(d, sector + Count(Piece(len)), len - Piece(len))
  {
    hide Serves;
    PieceWhole(len);
  }

  /** It succeeds: one piece further. */
  lemma GoingOn(m: Machine, kind: nat, sector0: nat, d: Desc, sector: nat, len: nat, t: Machine)
    requires Going(m, kind, sector0, d, sector, len, t) && len > 0 && Serves(t.disk, sector, Count(Piece(len)))
    ensures Fits(t.mem, d) && len <= d.len && Piece(len) <= len
    ensures SECTOR * sector + Piece(len) <= |t.disk.bytes|
    ensures
      var n := Piece(len);
      Going(m, kind, sector0, d, sector + Count(n), len - n, WithPiece(kind, d.addr + (d.len - len), sector, n, t))
  {
    hide Put, Serves, Partly, Moved, WithPiece, Whole, Count, Piece;
    var n, done := Piece(len), d.len - len;
    PieceWhole(len);
    ServesMeans(t.disk, sector, n);
    ServesSame(m.disk, t.disk, sector, Count(n));
    WholeDifference(d.len, len);
    Position(sector0, done);
    CountAdd(done, n);
    MovedOn(m.disk, sector, len);
    PartlyOn(m, kind, sector0, d, len, t, sector, n);
    Position(sector0, done + n);
  }

  lemma WholeDifference(a: nat, b: nat)
    requires b <= a && Whole(a) && Whole(b)
    ensures Whole(a - b)
  {
  }

  lemma PieceWhole(len: nat)
    requires Whole(len) && len > 0
    ensures Whole(Piece(len)) && 0 < Piece(len) <= len && Whole(len - Piece(len)) && SECTOR * Count(Piece(len)) == Piece(len)
  {
  }

  lemma ServesMeans(d: Disk, sector: nat, n: nat)
    requires Whole(n) && Serves(d, sector, Count(n))
    ensures SECTOR * sector + n <= |d.bytes|
  {
  }

  lemma CountAdd(a: nat, b: nat)
    requires Whole(a) && Whole(b)
    ensures Count(a + b) == Count(a) + Count(b) && Whole(a + b)
  {
  }

  lemma GoingEnds(m: Machine, kind: nat, sector0: nat, d: Desc, sector: nat, t: Machine)
    requires Going(m, kind, sector0, d, sector, 0, t)
    ensures Segment(m, kind, sector0, d) == (t, true)
  {
    hide Put;
  }

  method Memcpy(dst: array<Byte>, to: nat, src: array<Byte>, from: nat, n: nat)
    requires dst != src && to + n <= dst.Length && from + n <= src.Length
    modifies dst
    ensures dst[..] == Put(old(dst[..]), to, src[from..from + n])
  {
    for k := 0 to n
      invariant forall j :: to <= j < to + k ==> dst[j] == src[from + (j - to)]
      invariant forall j :: 0 <= j < dst.Length && !(to <= j < to + k) ==> dst[j] == old(dst[j])
    {
      dst[to + k] := src[from + k];
    }
    PutByByte(old(dst[..]), to, src[from..from + n], dst[..]);
  }

  /** The service task's view: guest memory, the card, and the bounce buffer between them. */
  class Server {
    const mem: array<Byte>
    const bounce: array<Byte>
    var disk: Disk

    ghost predicate Valid()
      reads this
    {
      mem != bounce && bounce.Length == CHUNK && |disk.bytes| < SECTOR * WORD
    }

    ghost function View(): Machine
      reads this, mem
    {
      Machine(mem[..], disk)
    }

    constructor (mem: array<Byte>, disk: Disk)
      requires |disk.bytes| < SECTOR * WORD
      ensures Valid() && this.mem == mem && this.disk == disk && fresh(bounce)
    {
      this.mem, this.disk := mem, disk;
      this.bounce := new Byte[CHUNK](_ => 0);
    }

    /** The card's driver: it fills the bounce buffer, or fails and leaves everything as it was. */
    method SdRead(sector: nat, count: nat) returns (ok: bool)
      requires Valid() && SECTOR * count <= CHUNK
      modifies bounce
      ensures ok <==> Serves(disk, sector, count)
      ensures ok ==> bounce[..SECTOR * count] == disk.bytes[SECTOR * sector..SECTOR * sector + SECTOR * count]
    {
      ok := Serves(disk, sector, count);
      if ok {
        for k := 0 to SECTOR * count
          invariant forall j :: 0 <= j < k ==> bounce[j] == disk.bytes[SECTOR * sector + j]
        {
          bounce[k] := disk.bytes[SECTOR * sector + k];
        }
      }
    }

    method SdWrite(sector: nat, count: nat) returns (ok: bool)
      requires Valid() && SECTOR * count <= CHUNK
      modifies `disk
      ensures ok <==> Serves(old(disk), sector, count)
      ensures ok ==> disk == old(disk).(bytes := Put(old(disk).bytes, SECTOR * sector, bounce[..SECTOR * count]))
      ensures !ok ==> disk == old(disk)
    {
      ok := Serves(disk, sector, count);
      if ok {
        disk := disk.(bytes := Put(disk.bytes, SECTOR * sector, bounce[..SECTOR * count]));
      }
    }

    /** One piece, through the bounce buffer. */
    method Move(write: bool, sector: nat, buf: nat, n: nat) returns (ok: bool)
      requires Valid() && buf + n <= mem.Length && n <= CHUNK && Whole(n)
      modifies `disk, mem, bounce
      ensures Valid() && (ok <==> Serves(old(disk), sector, Count(n)))
      ensures ok ==> SECTOR * sector + n <= |old(disk).bytes|
                     && View() == WithPiece(if write then OUT else IN, buf, sector, n, old(View()))
      ensures !ok ==> View() == old(View())
    {
      hide Put, Serves;
      var sectors := Count(n);
      assert SECTOR * sectors == n;
      if write {
        Memcpy(bounce, 0, mem, buf, n);
        assert bounce[..n] == mem[buf..buf + n] by { PutWhole(old(bounce[..]), mem[buf..buf + n]); }
        assert mem[buf..buf + n] == mem[..][buf..buf + n];
        ok := SdWrite(sector, sectors);
        if ok { ServesMeans(old(disk), sector, n); }
      } else {
        ok := SdRead(sector, sectors);
        if ok {
          ServesMeans(disk, sector, n);
          assert bounce[0..n] == disk.bytes[SECTOR * sector..SECTOR * sector + n];
          Memcpy(mem, buf, bounce, 0, n);
        }
      }
    }

    /** Move one segment, in pieces of at most the bounce buffer. */
    method Transfer(write: bool, sector0: nat, addr: nat, len0: nat) returns (ok: bool)
      requires Valid() && addr + len0 <= mem.Length && Whole(len0) && sector0 < WORD
      modifies `disk, mem, bounce
      ensures Valid()
      ensures (View(), ok) == Segment(old(View()), if write then OUT else IN, sector0, Desc(addr, len0, true, 0))
    {
      hide Put, Serves, Partly, Moved, Going, Segment, WithPiece, Whole, Count, Word;
      ghost var m, kind, d := View(), if write then OUT else IN, Desc(addr, len0, true, 0);
      GoingStart(m, kind, sector0, d);
      var sector: nat, buf: nat, len: nat := sector0, addr, len0;
      while len > 0
        invariant Valid() && len <= len0 && buf == addr + (len0 - len)
        invariant Going(m, kind, sector0, d, sector, len, View())
        decreases len
      {
        var n := if len > CHUNK then CHUNK else len;
        ghost var t := View();
        GoingWhole(m, kind, sector0, d, sector, len, t);
        var moved := Move(write, sector, buf, n);
        if !moved {
          GoingFails(m, kind, sector0, d, sector, len, t);
          return false;
        }
        GoingOn(m, kind, sector0, d, sector, len, t);
        SectorInRange(t.disk, sector, n);
        buf, sector, len := buf + n, Word(sector + Count(n)), len - n;
      }
      ok := true;
      GoingEnds(m, kind, sector0, d, sector, View());
    }

    /** GET_ID: clear the buffer, then copy in as much of the serial as fits. */
    method Identify(addr: nat, len: nat)
      requires Valid() && addr + len <= mem.Length
      modifies mem
      ensures mem[..] == Put(old(mem[..]), addr, Serial(len))
    {
      var id: seq<Byte> := [0x65, 0x73, 0x70, 0x33, 0x32, 0x70, 0x34, 0x2D, 0x73, 0x64, 0];
      for k := 0 to len
        invariant forall j :: 0 <= j < mem.Length ==> mem[j] == if addr <= j < addr + k then 0 else old(mem[j])
      {
        mem[addr + k] := 0;
      }
      var n := if len < |id| then len else |id|;
      for k := 0 to n
        invariant forall j :: 0 <= j < mem.Length ==>
          mem[j] == if addr <= j < addr + len then (if j < addr + k then id[j - addr] else 0) else old(mem[j])
      {
        mem[addr + k] := id[k];
      }
      PutSerial(old(mem[..]), addr, len, mem[..]);
    }

    /** The switch on the request's type, for one data segment. */
    method DoSegment(kind: nat, sector0: nat, d: Desc, written0: nat)
      returns (ok: bool, sector: nat, written: nat)
      requires Valid() && Fits(mem[..], d) && sector0 < WORD && written0 < WORD
      modifies `disk, mem, bounce
      ensures Valid() && (View(), ok) == Segment(old(View()), kind, sector0, d)
      ensures written == Word(written0 + Counted(kind, d)) && sector < WORD
      ensures ok ==> sector == Onward(kind, sector0, d)
    {
      hide Put, Moved;
      ok, sector, written := true, sector0, written0;
      match kind
      case 0 =>
        if !Whole(d.len) { return false, sector, written; }
        SegmentSame(View(), IN, sector, d);
        ok := Transfer(false, sector, d.addr, d.len);
        sector, written := Word(sector + Count(d.len)), Word(written + d.len);
      case 1 =>
        if !Whole(d.len) { return false, sector, written; }
        SegmentSame(View(), OUT, sector, d);
        ok := Transfer(true, sector, d.addr, d.len);
        sector := Word(sector + Count(d.len));
      case 8 =>
        Identify(d.addr, d.len);
        written := Word(written + d.len);
      case 4 =>
      case _ => ok := false;
    }

    /** Handle one descriptor chain. `ds` are the descriptors after the header: the driver's chain has
        an end. The buffers lie in guest memory. */
    method DoRequest(table: seq<Desc>, head: nat, ghost ds: seq<Desc>) returns (written: nat)
      requires Valid() && |table| > 0 && Links(table, table[head % |table|], ds)
      requires Inside(mem[..], ds) && HeaderInside(mem[..], table[head % |table|])
      modifies `disk, mem, bounce
      ensures Valid() && (View(), written) == Request(old(View()), table, head, ds)
    {
      hide Segment, Chain, Onward, Counted, Word, Inside, Links;
      var d := table[head % |table|];
      if d.len < HEADER { return 0; }
      var kind: nat := Le32(mem[..], d.addr);
      var sector: nat := Le32(mem[..], d.addr + 8);
      Le32Word(mem[..], d.addr + 8);
      ghost var all, rest := Chain(View(), kind, sector, ds, 0), ds;
      LinksHead(table, d, rest);

      var idx, hasNext := d.next, d.more;
      var statusByte: Option<nat>, ok := None, true;
      written := 0;
      while hasNext
        invariant Valid() && Inside(mem[..], rest) && sector < WORD && written < WORD && ok && statusByte == None
        invariant Links(table, d, rest) && hasNext == d.more && idx == d.next && (hasNext <==> rest != [])
        invariant all == Chain(View(), kind, sector, rest, written)
        decreases |rest|
      {
        LinksHead(table, d, rest);
        d := table[idx % |table|];
        LinksHead(table, d, rest[1..]);
        InsideLast(mem[..], rest);
        if !d.more {
          assert |rest| == 1;
          statusByte := Some(d.addr);
          break;
        }
        ChainUnfold(View(), kind, sector, rest, written);
        WordSmall(written + Counted(kind, d));
        ok, sector, written := DoSegment(kind, sector, d, written);
        if !ok { break; }
        rest := rest[1..];
        idx, hasNext := d.next, true;
      }
      if ok { ChainEnds(View(), kind, sector, rest, written); }

      if statusByte.Some? {
        mem[statusByte.value] := StatusOf(ok, kind);
        written := Word(written + 1);
      }
    }

    /** blk_service: drain the avail ring. Each entry is on the used ring before the next head is read. */
    method Service(table: seq<Desc>, ring: seq<nat>, last0: nat, idx: nat, ghost chains: seq<seq<Desc>>)
      returns (used: seq<Elem>, last: nat)
      requires Valid() && |table| > 0 && |ring| == |table| && last0 < INDICES && idx < INDICES
      requires |chains| == Behind(idx, last0)
      requires Posted(mem.Length, table, Heads(ring, last0, |chains|), chains)
      modifies `disk, mem, bounce
      ensures Valid() && last == idx
      ensures (View(), used) == Served(old(View()), table, Heads(ring, last0, |chains|), chains)
    {
      hide Request, Links, Inside, HeaderInside, Served, PostedAt, Heads, Wrapped, Behind;
      ghost var heads, k: nat := Heads(ring, last0, |chains|), 0;
      ghost var m := View();
      used, last := [], last0;
      ServedNone(m, table);
      assert heads[..0] == [] && chains[..0] == [];
      CountEnds(last0, idx);
      while last != idx
        invariant Valid() && k <= |chains| && last == Wrapped(last0 + k) && |View().mem| == |m.mem|
        invariant PostedSome(|m.mem|, table, heads, chains, k)
        invariant (View(), used) == Served(m, table, heads[..k], chains[..k])
        decreases |chains| - k
      {
        ServedNext(m, table, heads, chains, k);
        NextOf(last0, k);
        HeadAt(ring, last0, |chains|, k);
        var head := ring[last % |ring|];
        var written := DoRequest(table, head, chains[k]);
        used := used + [Elem(head, written)];
        last, k := Wrapped(last + 1), k + 1;
      }
      CaughtUp(last0, idx, k);
      assert heads[..|chains|] == heads && chains[..|chains|] == chains;
    }
  }

  function StatusOf(ok: bool, kind: nat): Byte {
    if ok then S_OK else if kind > GET_ID then S_UNSUPP else S_IOERR
  }

  datatype Option<T> = None | Some(value: T)

  // ---- the avail ring --------------------------------------------------------------------------------

  /** A used-ring entry. */
  datatype Elem = Elem(id: nat, len: nat)

  const INDICES: nat := 0x10000

  function Wrapped(i: nat): nat {
    i % INDICES
  }

  /** How far `last` is behind `idx`, both wrapped. */
  function Behind(idx: nat, last: nat): nat
    requires last < INDICES
  {
    (idx + INDICES - last) % INDICES
  }

  /** The heads in the avail ring from index `last` on. */
  function Heads(ring: seq<nat>, last: nat, count: nat): (hs: seq<nat>)
    requires |ring| > 0
    ensures |hs| == count
  {
    seq(count, k requires 0 <= k < count => ring[(last + k) % INDICES % |ring|])
  }

  /** Every chain the driver has posted lies in memory. */
  ghost predicate Posted(size: nat, table: seq<Desc>, heads: seq<nat>, chains: seq<seq<Desc>>)
    requires |table| > 0
  {
    |heads| == |chains| && forall k :: 0 <= k < |heads| ==> PostedAt(size, table, heads[k], chains[k])
  }

  ghost predicate PostedAt(size: nat, table: seq<Desc>, head: nat, ds: seq<Desc>)
    requires |table| > 0
  {
    && Links(table, table[head % |table|], ds)
    && forall m: seq<Byte> :: |m| == size ==> Inside(m, ds) && HeaderInside(m, table[head % |table|])
  }

  /** The requests one after another: what they leave, and an entry for each, in order. */
  ghost function Served(m: Machine, table: seq<Desc>, heads: seq<nat>, chains: seq<seq<Desc>>): (r: (Machine, seq<Elem>))
    requires |table| > 0 && Posted(|m.mem|, table, heads, chains)
    ensures |r.0.mem| == |m.mem| && |r.1| == |heads|
    decreases |heads|
  {
    if heads == [] then (m, [])
    else
      var n := |heads| - 1;
      var (t, es) := Served(m, table, heads[..n], chains[..n]);
      assert PostedAt(|m.mem|, table, heads[n], chains[n]);
      var (u, written) := Request(t, table, heads[n], chains[n]);
      (u, es + [Elem(heads[n], written)])
  }

  lemma ServedNone(m: Machine, table: seq<Desc>)
    requires |table| > 0
    ensures Posted(|m.mem|, table, [], []) && Served(m, table, [], []) == (m, [])
  {
  }

  ghost predicate PostedSome(size: nat, table: seq<Desc>, heads: seq<nat>, chains: seq<seq<Desc>>, k: nat)
    requires |table| > 0
  {
    Posted(size, table, heads, chains) && k <= |heads| && Posted(size, table, heads[..k], chains[..k])
  }

  lemma ServedNext(m: Machine, table: seq<Desc>, heads: seq<nat>, chains: seq<seq<Desc>>, k: nat)
    requires |table| > 0 && PostedSome(|m.mem|, table, heads, chains, k) && k < |heads|
    ensures PostedSome(|m.mem|, table, heads, chains, k + 1)
    ensures |heads| == |chains| && Links(table, table[heads[k] % |table|], chains[k])
    ensures var (t, es) := Served(m, table, heads[..k], chains[..k]);
      && Inside(t.mem, chains[k]) && HeaderInside(t.mem, table[heads[k] % |table|])
      && Served(m, table, heads[..k + 1], chains[..k + 1])
         == (Request(t, table, heads[k], chains[k]).0, es + [Elem(heads[k], Request(t, table, heads[k], chains[k]).1)])
  {
    hide Request, Links, Inside, HeaderInside;
    assert PostedAt(|m.mem|, table, heads[k], chains[k]);
    assert heads[..k + 1][..k] == heads[..k] && chains[..k + 1][..k] == chains[..k];
  }

  lemma HeadAt(ring: seq<nat>, last: nat, count: nat, k: nat)
    requires |ring| > 0 && k < count
    ensures Heads(ring, last, count)[k] == ring[Wrapped(last + k) % |ring|]
  {
  }

  lemma NextOf(last: nat, k: nat)
    ensures Wrapped(Wrapped(last + k) + 1) == Wrapped(last + (k + 1))
  {
  }

  lemma CaughtUp(last: nat, idx: nat, k: nat)
    requires last < INDICES && idx < INDICES && k <= Behind(idx, last) && Wrapped(last + k) == idx
    ensures k == Behind(idx, last)
  {
  }

  lemma CountEnds(last: nat, idx: nat)
    requires last < INDICES && idx < INDICES
    ensures Wrapped(last + Behind(idx, last)) == idx && Wrapped(last) == last
  {
  }

  /** The k-th entry answers the k-th head, with the length the k-th request reported. */
  lemma {:induction false} ServedInOrder(m: Machine, table: seq<Desc>, heads: seq<nat>, chains: seq<seq<Desc>>, k: nat)
    requires |table| > 0 && Posted(|m.mem|, table, heads, chains) && k < |heads|
    ensures var before := Served(m, table, heads[..k], chains[..k]).0;
      && PostedAt(|before.mem|, table, heads[k], chains[k])
      && Inside(before.mem, chains[k]) && HeaderInside(before.mem, table[heads[k] % |table|])
      && Served(m, table, heads, chains).1[k] == Elem(heads[k], Request(before, table, heads[k], chains[k]).1)
    decreases |heads|
  {
    hide Request, Links, Inside, HeaderInside;
    var n := |heads| - 1;
    assert PostedAt(|m.mem|, table, heads[k], chains[k]);
    assert Posted(|m.mem|, table, heads[..n], chains[..n]);
    if k < n {
      assert heads[..n][..k] == heads[..k] && chains[..n][..k] == chains[..k];
      ServedInOrder(m, table, heads[..n], chains[..n], k);
    }
  }

  lemma LinksHead(table: seq<Desc>, d: Desc, ds: seq<Desc>)
    requires |table| > 0 && Links(table, d, ds)
    ensures d.more <==> ds != []
    ensures d.more ==> ds[0] == table[d.next % |table|] && Links(table, ds[0], ds[1..])
  {
  }

  lemma InsideLast(m: seq<Byte>, ds: seq<Desc>)
    requires Inside(m, ds) && ds != []
    ensures |ds| == 1 ==> ds[0].addr < |m|
    ensures |ds| > 1 ==> Fits(m, ds[0])
  {
  }

  lemma ChainEnds(m: Machine, kind: nat, sector: nat, ds: seq<Desc>, written: nat)
    requires Inside(m.mem, ds) && |ds| <= 1
    ensures ds == [] ==> Chain(m, kind, sector, ds, written) == Outcome(m, written, true, false)
    ensures ds != [] ==> Chain(m, kind, sector, ds, written)
                         == Outcome(m.(mem := m.mem[ds[0].addr := S_OK]), Word(written + 1), true, true)
  {
  }

  lemma WordSmall(n: nat)
    ensures Word(n) < WORD
  {
  }

  /** The request whose header is at `head`: a header too short to be one is refused without an answer. */
  function Request(m: Machine, table: seq<Desc>, head: nat, ds: seq<Desc>): (r: (Machine, nat))
    requires |table| > 0 && Inside(m.mem, ds) && HeaderInside(m.mem, table[head % |table|])
    ensures |r.0.mem| == |m.mem| && |r.0.disk.bytes| == |m.disk.bytes|
  {
    var o := Respond(m, table[head % |table|], ds);
    (o.m, o.written)
  }

  /** The same with whether it succeeded and whether it was answered. */
  function Respond(m: Machine, h: Desc, ds: seq<Desc>): (o: Outcome)
    requires Inside(m.mem, ds) && HeaderInside(m.mem, h)
    ensures |o.m.mem| == |m.mem| && |o.m.disk.bytes| == |m.disk.bytes|
  {
    if h.len < HEADER then Outcome(m, 0, false, false)
    else Chain(m, KindOf(m.mem, h), SectorOf(m.mem, h), ds, 0)
  }

  /** The type and the low word of the sector, as the driver left them in guest memory. */
  function KindOf(m: seq<Byte>, h: Desc): nat
    requires h.len >= HEADER && HeaderInside(m, h)
  {
    Le32(m, h.addr)
  }

  function SectorOf(m: seq<Byte>, h: Desc): nat
    requires h.len >= HEADER && HeaderInside(m, h)
  {
    Le32(m, h.addr + 8)
  }

  const HEADER: nat := 16

  predicate HeaderInside(m: seq<Byte>, h: Desc) {
    h.len >= HEADER ==> h.addr + HEADER <= |m|
  }

  lemma Le32Word(m: seq<Byte>, at: nat)
    requires at + 4 <= |m|
    ensures Le32(m, at) < WORD
  {
    var a: int, b: int, c: int, d: int := m[at], m[at + 1], m[at + 2], m[at + 3];
    assert a < 256 && b < 256 && c < 256 && d < 256;
  }

  lemma SegmentSame(m: Machine, kind: nat, sector: nat, d: Desc)
    requires Fits(m.mem, d)
    ensures Fits(m.mem, Desc(d.addr, d.len, true, 0))
    ensures Segment(m, kind, sector, d) == Segment(m, kind, sector, Desc(d.addr, d.len, true, 0))
  {
    hide Put, Moved;
  }

  lemma ChainUnfold(m: Machine, kind: nat, sector: nat, ds: seq<Desc>, written: nat)
    requires Inside(m.mem, ds) && |ds| > 1
    ensures Fits(m.mem, ds[0]) && Inside(Segment(m, kind, sector, ds[0]).0.mem, ds[1..])
    ensures
      var (t, ok) := Segment(m, kind, sector, ds[0]);
      var w := Word(written + Counted(kind, ds[0]));
      Chain(m, kind, sector, ds, written) ==
        if ok then Chain(t, kind, Onward(kind, sector, ds[0]), ds[1..], w) else Outcome(t, w, false, false)
  {
    InsideHead(m.mem, ds);
    SegmentSize(m, kind, sector, ds[0]);
    InsideTail(m.mem, Segment(m, kind, sector, ds[0]).0.mem, ds);
  }

  lemma PutSerial(m: seq<Byte>, at: nat, len: nat, r: seq<Byte>)
    requires at + len <= |m| == |r|
    requires forall j :: 0 <= j < |m| ==> r[j] == if at <= j < at + len then Serial(len)[j - at] else m[j]
    ensures r == Put(m, at, Serial(len))
  {
    PutByByte(m, at, Serial(len), r);
  }

  lemma PutWhole(m: seq<Byte>, x: seq<Byte>)
    requires |x| <= |m|
    ensures Put(m, 0, x)[..|x|] == x
  {
  }

  lemma GoingWhole(m: Machine, kind: nat, sector0: nat, d: Desc, sector: nat, len: nat, t: Machine)
    requires Going(m, kind, sector0, d, sector, len, t) && len > 0
    ensures Whole(Piece(len))
  {
    PieceWhole(len);
  }

  lemma SectorInRange(d: Disk, sector: nat, n: nat)
    requires SECTOR * sector + n <= |d.bytes| < SECTOR * WORD
    ensures Word(sector + Count(n)) == sector + Count(n)
  {
  }

  // ---- whole requests ----------------------------------------------------------------------------------

  /** When a request gets its status byte, from what the driver left in memory: its header is long enough,
      its chain has a last descriptor, and what its type asks for can be done. Nothing else is answered, so
      the status it gets is always OK. */
  predicate Answerable(m: Machine, h: Desc, ds: seq<Desc>)
    requires HeaderInside(m.mem, h)
  {
    && h.len >= HEADER && ds != []
    && (var kind := KindOf(m.mem, h);
        if kind == IN || kind == OUT then AllWhole(ds) && Available(m.disk, SectorOf(m.mem, h), Total(ds))
        else kind == GET_ID || kind == FLUSH || |ds| == 1)
  }

  lemma AnsweredExactly(m: Machine, table: seq<Desc>, head: nat, ds: seq<Desc>)
    requires |table| > 0 && Inside(m.mem, ds) && HeaderInside(m.mem, table[head % |table|])
    requires |m.disk.bytes| < SECTOR * WORD
    ensures var h := table[head % |table|];
      var o := Respond(m, h, ds);
      && Request(m, table, head, ds) == (o.m, o.written)
      && (o.answered <==> Answerable(m, h, ds))
      && (o.answered ==> o.ok && ds[|ds| - 1].addr < |o.m.mem| && o.m.mem[ds[|ds| - 1].addr] == S_OK)
      && (h.len < HEADER ==> o.m == m && o.written == 0)
  {
    hide Chain, Inside, AllWhole, Total, Available, Le32;
    var h := table[head % |table|];
    if h.len >= HEADER {
      var kind, sector := KindOf(m.mem, h), SectorOf(m.mem, h);
      Le32Word(m.mem, h.addr + 8);
      ChainAnswered(m, kind, sector, ds, 0);
      if kind == IN || kind == OUT {
        if ds != [] { TransferSucceeds(m, kind, sector, ds, 0); }
      } else {
        OtherKinds(m, kind, sector, ds, 0);
      }
    }
  }

  /** What is written comes back: a write request, then a read request of the same sectors whatever its own
      segments, at any later time, with any descriptors and into any memory, as long as the card is as the
      write left it. Both report exactly the bytes they wrote to memory. */
  lemma RoundTrip(m: Machine, table: seq<Desc>, head: nat, out: seq<Desc>,
                  m': Machine, table': seq<Desc>, head': nat, ins: seq<Desc>)
    requires |table| > 0 && Inside(m.mem, out) && HeaderInside(m.mem, table[head % |table|])
    requires |table'| > 0 && Inside(m'.mem, ins) && HeaderInside(m'.mem, table'[head' % |table'|])
    requires |m.disk.bytes| < SECTOR * WORD
    requires Answerable(m, table[head % |table|], out) && KindOf(m.mem, table[head % |table|]) == OUT
    requires m'.disk == Request(m, table, head, out).0.disk
    requires var h, h' := table[head % |table|], table'[head' % |table'|];
      h'.len >= HEADER && KindOf(m'.mem, h') == IN && SectorOf(m'.mem, h') == SectorOf(m.mem, h)
    requires ins != [] && AllWhole(ins) && Apart(ins) && Total(ins) == Total(out)
    ensures var (w, written) := Request(m, table, head, out);
      written == 1 && w.mem == m.mem[out[|out| - 1].addr := S_OK]
    ensures var (r, written) := Request(m', table', head', ins);
      && written == Word(Total(ins) + 1) && Inside(r.mem, ins) && r.mem[ins[|ins| - 1].addr] == S_OK
      && Gather(r.mem, ins) == Gather(m.mem, out)
    ensures Answerable(m', table'[head' % |table'|], ins)
  {
    hide Chain, Inside, Gather, Total, AllWhole, Apart, Available, Word, Le32, HeaderInside;
    var sector := SectorOf(m.mem, table[head % |table|]);
    LongHeader(m.mem, table[head % |table|]);
    Le32Word(m.mem, table[head % |table|].addr + 8);
    ChainRoundTrip(m, sector, out, m', ins);
    AvailableSame(m.disk, m'.disk, sector, Total(ins));
    CardKept(m, OUT, sector, out);
  }

  lemma LongHeader(m: seq<Byte>, h: Desc)
    requires HeaderInside(m, h) && h.len >= HEADER
    ensures h.addr + HEADER <= |m|
  {
  }

  lemma CardKept(m: Machine, kind: nat, sector: nat, ds: seq<Desc>)
    requires Inside(m.mem, ds)
    ensures var o := Chain(m, kind, sector, ds, 0);
      o.m.disk.bad == m.disk.bad && |o.m.disk.bytes| == |m.disk.bytes|
  {
    hide Chain, Inside;
  }

  // ---- requests as a driver writes them ------------------------------------------------------------------

  /** A number as `k` bytes, little end first. */
  function Little(n: nat, k: nat): (bs: seq<Byte>)
    ensures |bs| == k
  {
    if k == 0 then [] else [n % 256] + Little(n / 256, k - 1)
  }

  /** The request header of section 5.2.6 of the virtio specification: the type and a reserved word of
      32 bits, then the sector, of 64. */
  function HeaderBytes(kind: nat, reserved: nat, sector: nat): (bs: seq<Byte>)
    ensures |bs| == 16
  {
    Little(kind, 4) + Little(reserved, 4) + Little(sector, 8)
  }

  /** The driver has written this header where the first descriptor points. */
  ghost predicate Posts(m: seq<Byte>, h: Desc, kind: nat, reserved: nat, sector: nat) {
    && h.len >= 16 && h.addr + 16 <= |m| && kind < 0x1_0000_0000
    && m[h.addr..h.addr + 16] == HeaderBytes(kind, reserved, sector)
  }

  lemma LittleReads(n: nat, m: seq<Byte>, at: nat)
    requires at + 4 <= |m| && m[at..at + 4] == Little(n, 4)
    ensures Le32(m, at) == n % 0x1_0000_0000
  {
    var b, c, d := n / 256, n / 256 / 256, n / 256 / 256 / 256;
    var x := m[at..at + 4];
    assert Little(n, 4)[1..] == Little(b, 3) && Little(b, 3)[1..] == Little(c, 2) && Little(c, 2)[1..] == Little(d, 1);
    assert x[0] == n % 256 && x[1..][0] == b % 256 && x[2..][0] == c % 256 && x[3..][0] == d % 256;
    FourBytes(n, b, c, d);
  }

  lemma FourBytes(n: nat, b: nat, c: nat, d: nat)
    requires b == n / 256 && c == b / 256 && d == c / 256
    ensures n % 256 + 0x100 * (b % 256) + 0x1_0000 * (c % 256) + 0x100_0000 * (d % 256) == n % 0x1_0000_0000
  {
    var e := d / 256;
    var x := n % 256 + 0x100 * (b % 256) + 0x1_0000 * (c % 256) + 0x100_0000 * (d % 256);
    assert n == 256 * b + n % 256 && b == 256 * c + b % 256 && c == 256 * d + c % 256 && d == 256 * e + d % 256;
    WordRemainder(n, e, x);
  }

  lemma WordRemainder(n: nat, e: nat, x: nat)
    requires n == 0x1_0000_0000 * e + x && x < 0x1_0000_0000
    ensures n % 0x1_0000_0000 == x
  {
  }

  lemma {:induction false} LittlePrefix(n: nat, j: nat, k: nat)
    requires j <= k
    ensures Little(n, k)[..j] == Little(n, j)
  {
    if j > 0 {
      LittlePrefix(n / 256, j - 1, k - 1);
      assert Little(n, k)[..j] == [n % 256] + Little(n / 256, k - 1)[..j - 1];
    }
  }

  lemma SliceOfSlice(m: seq<Byte>, at: nat, n: nat, lo: nat, hi: nat)
    requires lo <= hi <= n && at + n <= |m|
    ensures m[at..at + n][lo..hi] == m[at + lo..at + hi]
  {
    var x := m[at..at + n];
    assert forall k :: 0 <= k < hi - lo ==> x[lo..hi][k] == x[lo + k] == m[at + (lo + k)] == m[at + lo..at + hi][k];
  }

  /** The device takes the type as it was written, and of the sector its low 32 bits. */
  lemma HeaderSays(m: seq<Byte>, h: Desc, kind: nat, reserved: nat, sector: nat)
    requires Posts(m, h, kind, reserved, sector)
    ensures h.len >= HEADER && HeaderInside(m, h)
    ensures KindOf(m, h) == kind && SectorOf(m, h) == sector % 0x1_0000_0000
  {
    hide Le32, Little;
    var x := HeaderBytes(kind, reserved, sector);
    SliceOfSlice(m, h.addr, 16, 0, 4);
    SliceOfSlice(m, h.addr, 16, 8, 12);
    assert x[0..4] == Little(kind, 4);
    assert x[8..12] == Little(sector, 8)[..4];
    LittlePrefix(sector, 4, 8);
    LittleReads(kind, m, h.addr);
    LittleReads(sector, m, h.addr + 8);
  }

  /** A header, one data descriptor and a status byte, as their indices link them. */
  lemma ThreeDescriptors(table: seq<Desc>, head: nat)
    requires head < |table| && table[head].next < |table| && table[table[head].next].next < |table|
    requires var d := table[table[head].next]; table[head].more && d.more && !table[d.next].more
    ensures var d := table[table[head].next];
      head % |table| == head && Links(table, table[head], [d, table[d.next]])
  {
    hide Links;
    var d := table[table[head].next];
    SmallIndex(head, |table|);
    SmallIndex(table[head].next, |table|);
    SmallIndex(d.next, |table|);
    LinkOne(table, table[d.next]);
    LinkMore(table, d, table[d.next], []);
    assert [table[d.next]] + [] == [table[d.next]] && [d] + [table[d.next]] == [d, table[d.next]];
    LinkMore(table, table[head], d, [table[d.next]]);
  }

  lemma SmallIndex(i: nat, n: nat)
    requires i < n
    ensures i % n == i
  {
  }

  lemma LinkOne(table: seq<Desc>, d: Desc)
    requires |table| > 0 && !d.more
    ensures Links(table, d, [])
  {
  }

  lemma LinkMore(table: seq<Desc>, d: Desc, e: Desc, ds: seq<Desc>)
    requires |table| > 0 && d.more && d.next < |table| && e == table[d.next] && Links(table, e, ds)
    ensures Links(table, d, [e] + ds)
  {
    SmallIndex(d.next, |table|);
    assert ([e] + ds)[0] == e && ([e] + ds)[1..] == ds;
  }

  /** The card has these sectors and does not fail on them. */
  ghost predicate CardHas(d: Disk, sector: nat, len: nat) {
    512 * sector + len <= |d.bytes| && forall q :: sector <= q < sector + len / 512 ==> q !in d.bad
  }

  lemma CardServes(d: Disk, sector: nat, len: nat)
    requires CardHas(d, sector, len) && Whole(len)
    ensures Available(d, sector, len)
  {
  }

  lemma StretchIs(d: Disk, sector: nat, len: nat)
    requires CardHas(d, sector, len) && Whole(len) && Available(d, sector, len)
    ensures Stretch(d, sector, len) == d.bytes[512 * sector..512 * sector + len]
  {
  }

  /** The chain of a read, with the card's bytes spelled out. */
  lemma ReadChain(m: Machine, s: nat, ds: seq<Desc>)
    requires Inside(m.mem, ds) && Sized(m, s) && ds != [] && AllWhole(ds) && Apart(ds) && CardHas(m.disk, s, Total(ds))
    ensures 512 * s + Total(ds) <= |m.disk.bytes|
    ensures var o := Chain(m, 0, s, ds, 0);
      && Inside(o.m.mem, ds) && Gather(o.m.mem, ds) == m.disk.bytes[512 * s..512 * s + Total(ds)]
      && o.m.disk == m.disk && o.m.mem[ds[|ds| - 1].addr] == 0 && o.written == (Total(ds) + 1) % 0x1_0000_0000
  {
    hide Chain, Inside, Gather, Total, AllWhole, Apart, Available, Stretch, CardHas, Sized, Word, Whole;
    TotalWhole(ds);
    CardEnd(m.disk, s, Total(ds));
    CardServes(m.disk, s, Total(ds));
    StretchIs(m.disk, s, Total(ds));
    ReadFills(m, s, ds, 0);
    ReadReports(m, s, ds, 0);
    WordIs(0 + Total(ds) + 1);
  }

  lemma WriteChain(m: Machine, s: nat, ds: seq<Desc>)
    requires Inside(m.mem, ds) && Sized(m, s) && ds != [] && AllWhole(ds) && CardHas(m.disk, s, Total(ds))
    ensures 512 * s + Total(ds) <= |m.disk.bytes|
    ensures var o, at, was := Chain(m, 1, s, ds, 0), 512 * s, m.disk.bytes;
      && o.m.disk.bytes == was[..at] + Gather(m.mem, ds) + was[at + Total(ds)..]
      && o.m.mem == m.mem[ds[|ds| - 1].addr := 0] && o.written == 1
  {
    hide Chain, Inside, Gather, Total, AllWhole, Available, Put, CardHas, Sized, Word, Whole;
    TotalWhole(ds);
    CardEnd(m.disk, s, Total(ds));
    CardServes(m.disk, s, Total(ds));
    WriteEffect(m, s, ds, 0);
    WordOne();
    PutIs(m.disk.bytes, 512 * s, Gather(m.mem, ds));
  }

  /** What the device does is the chain of its type, from its sector. */
  lemma RequestIs(m: Machine, table: seq<Desc>, head: nat, ds: seq<Desc>, kind: nat, reserved: nat, sector: nat, s: nat)
    requires |table| > 0 && Inside(m.mem, ds) && Posts(m.mem, table[head % |table|], kind, reserved, sector)
    requires s == sector % 0x1_0000_0000 && |m.disk.bytes| < 512 * 0x1_0000_0000
    ensures HeaderInside(m.mem, table[head % |table|]) && Sized(m, s)
    ensures Respond(m, table[head % |table|], ds) == Chain(m, kind, s, ds, 0)
    ensures var o := Chain(m, kind, s, ds, 0); Request(m, table, head, ds) == (o.m, o.written)
  {
    hide Chain, Inside, Le32, HeaderInside, Posts, KindOf, SectorOf;
    HeaderSays(m.mem, table[head % |table|], kind, reserved, sector);
  }

  /** A read request for a sector fills its segments, in order, with the card's bytes from 512 times that
      sector on, reports them and the status byte, and leaves the card alone. */
  lemma ReadRequest(m: Machine, table: seq<Desc>, head: nat, ds: seq<Desc>, reserved: nat, sector: nat)
    requires |table| > 0 && Inside(m.mem, ds) && Posts(m.mem, table[head % |table|], 0, reserved, sector)
    requires |m.disk.bytes| < 512 * 0x1_0000_0000 && ds != [] && AllWhole(ds) && Apart(ds)
    requires CardHas(m.disk, sector % 0x1_0000_0000, Total(ds))
    ensures HeaderInside(m.mem, table[head % |table|])
    ensures var (t, written) := Request(m, table, head, ds);
      var at := 512 * (sector % 0x1_0000_0000);
      && at + Total(ds) <= |m.disk.bytes|
      && Inside(t.mem, ds) && Gather(t.mem, ds) == m.disk.bytes[at..at + Total(ds)]
      && t.disk == m.disk && t.mem[ds[|ds| - 1].addr] == 0 && written == (Total(ds) + 1) % 0x1_0000_0000
  {
    hide Chain, Request, Respond, Inside, Gather, Total, AllWhole, Apart, HeaderInside, Posts, CardHas, Sized;
    var s := sector % 0x1_0000_0000;
    RequestIs(m, table, head, ds, 0, reserved, sector, s);
    ReadChain(m, s, ds);
  }

  /** A write request for a sector puts its segments, in order, on the card from 512 times that sector on,
      and nothing else there or in memory changes but the status byte. */
  lemma WriteRequest(m: Machine, table: seq<Desc>, head: nat, ds: seq<Desc>, reserved: nat, sector: nat)
    requires |table| > 0 && Inside(m.mem, ds) && Posts(m.mem, table[head % |table|], 1, reserved, sector)
    requires |m.disk.bytes| < 512 * 0x1_0000_0000 && ds != [] && AllWhole(ds)
    requires CardHas(m.disk, sector % 0x1_0000_0000, Total(ds))
    ensures HeaderInside(m.mem, table[head % |table|])
    ensures var (t, written) := Request(m, table, head, ds);
      var at, was := 512 * (sector % 0x1_0000_0000), m.disk.bytes;
      && at + Total(ds) <= |was| && t.disk.bytes == was[..at] + Gather(m.mem, ds) + was[at + Total(ds)..]
      && t.mem == m.mem[ds[|ds| - 1].addr := 0] && written == 1
  {
    hide Chain, Request, Respond, Inside, Gather, Total, AllWhole, HeaderInside, Posts, CardHas, Sized;
    var s := sector % 0x1_0000_0000;
    RequestIs(m, table, head, ds, 1, reserved, sector, s);
    WriteChain(m, s, ds);
  }

  lemma CardEnd(d: Disk, sector: nat, len: nat)
    requires CardHas(d, sector, len)
    ensures 512 * sector + len <= |d.bytes|
  {
  }

  lemma PutIs(m: seq<Byte>, at: nat, x: seq<Byte>)
    requires at + |x| <= |m|
    ensures Put(m, at, x) == m[..at] + x + m[at + |x|..]
  {
    if x == [] { assert m[..at] + x + m[at..] == m; }
  }

  /** GET_ID, with one buffer: the name of the card in ASCII, cut or followed by zeroes. */
  lemma IdRequest(m: Machine, table: seq<Desc>, head: nat, d: Desc, status: Desc, reserved: nat, sector: nat, i: nat)
    requires |table| > 0 && Inside(m.mem, [d, status]) && Posts(m.mem, table[head % |table|], 8, reserved, sector)
    requires i < d.len && !(d.addr <= status.addr < d.addr + d.len)
    ensures HeaderInside(m.mem, table[head % |table|])
    ensures var (t, written) := Request(m, table, head, [d, status]);
      && d.addr + i < |t.mem| && t.mem[d.addr + i] == (if i < 10 then "esp32p4-sd"[i] as int else 0)
      && status.addr < |t.mem| && t.mem[status.addr] == 0 && t.disk == m.disk
      && written == (d.len + 1) % 0x1_0000_0000
  {
    hide Le32, HeaderInside, Posts, Serial, Put, Chain, Inside, Word;
    var h, ds := table[head % |table|], [d, status];
    HeaderSays(m.mem, h, 8, reserved, sector);
    ChainUnfold(m, GET_ID, SectorOf(m.mem, h), ds, 0);
    assert ds[0] == d && ds[1..] == [status];
    var t := Segment(m, GET_ID, SectorOf(m.mem, h), d).0;
    ChainEnds(t, GET_ID, Onward(GET_ID, SectorOf(m.mem, h), d), [status], Word(d.len));
    InsideLast(t.mem, [status]);
    SerialAt(d.len, i);
    SerialPut(m.mem, d, i);
    WordAdd(d.len, 1);
    WordIs(d.len + 1);
  }

  lemma WordIs(n: nat)
    ensures Word(n) == n % 0x1_0000_0000
  {
  }

  lemma SerialAt(len: nat, i: nat)
    requires i < len
    ensures Serial(len)[i] == if i < 10 then "esp32p4-sd"[i] as int else 0
  {
  }

  lemma SerialPut(m: seq<Byte>, d: Desc, i: nat)
    requires Fits(m, d) && i < d.len
    ensures Put(m, d.addr, Serial(d.len))[d.addr + i] == Serial(d.len)[i]
  {
    hide Serial;
  }

  /** FLUSH moves nothing, whatever its segments: the status byte and nothing else. */
  lemma {:induction false} FlushChain(m: Machine, sector: nat, ds: seq<Desc>, written: nat)
    requires Inside(m.mem, ds) && ds != []
    ensures Chain(m, 4, sector, ds, Word(written))
            == Outcome(m.(mem := m.mem[ds[|ds| - 1].addr := 0]), Word(written + 1), true, true)
    decreases |ds|
  {
    hide Put, Moved, Serial;
    WordAdd(written, 1);
    WordAdd(written, 0);
    if |ds| > 1 { FlushChain(m, sector, ds[1..], written); }
  }

  lemma FlushRequest(m: Machine, table: seq<Desc>, head: nat, ds: seq<Desc>, reserved: nat, sector: nat)
    requires |table| > 0 && Inside(m.mem, ds) && Posts(m.mem, table[head % |table|], 4, reserved, sector) && ds != []
    ensures HeaderInside(m.mem, table[head % |table|])
    ensures ds[|ds| - 1].addr < |m.mem|
            && Request(m, table, head, ds) == (m.(mem := m.mem[ds[|ds| - 1].addr := 0]), 1)
  {
    hide Le32, HeaderInside, Posts, Chain, Word, KindOf, SectorOf;
    HeaderSays(m.mem, table[head % |table|], 4, reserved, sector);
    InsideEnd(m.mem, ds);
    WordOne();
    WordIs(0);
    FlushChain(m, sector % 0x1_0000_0000, ds, 0);
  }

  lemma InsideEnd(m: seq<Byte>, ds: seq<Desc>)
    requires Inside(m, ds) && ds != []
    ensures ds[|ds| - 1].addr < |m|
  {
  }

  /** The card serves a stretch exactly when it has all of it and fails on none of its sectors. */
  lemma ServedExactly(d: Disk, sector: nat, len: nat)
    requires Whole(len)
    ensures Available(d, sector, len) <==> len == 0 || CardHas(d, sector, len)
  {
  }

  /** A read or write request is answered exactly when its segments are whole sectors that the card has and
      does not fail on. */
  lemma TransferAnswered(m: Machine, table: seq<Desc>, head: nat, ds: seq<Desc>, kind: nat, reserved: nat, sector: nat)
    requires |table| > 0 && Inside(m.mem, ds) && Posts(m.mem, table[head % |table|], kind, reserved, sector)
    requires (kind == 0 || kind == 1) && |m.disk.bytes| < 512 * 0x1_0000_0000 && ds != []
    ensures HeaderInside(m.mem, table[head % |table|])
    ensures Respond(m, table[head % |table|], ds).answered <==>
              AllWhole(ds) && (Total(ds) == 0 || CardHas(m.disk, sector % 0x1_0000_0000, Total(ds)))
  {
    hide Chain, Respond, Request, Inside, Total, AllWhole, Available, HeaderInside, Posts, CardHas, Sized, Whole;
    var s := sector % 0x1_0000_0000;
    RequestIs(m, table, head, ds, kind, reserved, sector, s);
    TransferSucceeds(m, kind, s, ds, 0);
    if AllWhole(ds) {
      TotalWhole(ds);
      ServedExactly(m.disk, s, Total(ds));
    }
  }

  /** Where the heads are: in the avail ring, at the 16-bit index taken modulo the queue size; and how many
      of them there are. */
  lemma HeadsAre(ring: seq<nat>, last: nat, idx: nat, count: nat, k: nat)
    requires |ring| > 0 && k < count && last < 0x1_0000 && idx < 0x1_0000
    ensures Heads(ring, last, count)[k] == ring[(last + k) % 0x1_0000 % |ring|]
    ensures Behind(idx, last) == if idx >= last then idx - last else idx + 0x1_0000 - last
  {
    SmallIndex(if idx >= last then idx - last else idx + 0x1_0000 - last, 0x1_0000);
  }

  /** FLUSH, and any type without data: the status byte and nothing else. */
  lemma EmptyRequest(m: Machine, table: seq<Desc>, head: nat, status: Desc, kind: nat, reserved: nat, sector: nat)
    requires |table| > 0 && Inside(m.mem, [status]) && Posts(m.mem, table[head % |table|], kind, reserved, sector)
    ensures HeaderInside(m.mem, table[head % |table|])
    ensures status.addr < |m.mem|
            && Request(m, table, head, [status]) == (m.(mem := m.mem[status.addr := 0]), 1)
  {
    hide Le32, HeaderInside, Posts;
    HeaderSays(m.mem, table[head % |table|], kind, reserved, sector);
    InsideLast(m.mem, [status]);
    WordOne();
  }

  // ---- what a failure leaves behind ----------------------------------------------------------------------

  /** Where a transfer stops: after whole pieces of 32 KiB that the card served, at the first it does not. */
  lemma {:induction false} MovedStops(d: Disk, sector: nat, len: nat)
    requires Whole(len) && Moved(d, sector, len) < len
    ensures var n := Moved(d, sector, len);
      && n % 0x8000 == 0 && (n > 0 ==> Serves(d, sector, n / 512))
      && !Serves(d, sector + n / 512, (if len - n > 0x8000 then 0x8000 else len - n) / 512)
    decreases len
  {
    hide Serves;
    var n := if len > CHUNK then CHUNK else len;
    if Serves(d, sector, Count(n)) {
      MovedStops(d, sector + Count(n), len - n);
      var k := Moved(d, sector + Count(n), len - n);
      if k > 0 { ServesJoin(d, sector, Count(n), Count(k)); }
      PieceAndRest(n, k, sector);
    }
  }

  lemma ServesJoin(d: Disk, sector: nat, a: nat, b: nat)
    requires Serves(d, sector, a) && Serves(d, sector + a, b)
    ensures Serves(d, sector, a + b)
  {
  }

  lemma PieceAndRest(n: nat, k: nat, sector: nat)
    requires n == CHUNK && k % 0x8000 == 0
    ensures (n + k) % 0x8000 == 0 && (n + k) / 512 == n / 512 + k / 512
    ensures sector + n / 512 + k / 512 == sector + (n + k) / 512
  {
    var q := k / 0x8000;
    Pieces(q, k);
    Pieces(q + 1, n + k);
  }

  lemma Pieces(q: nat, k: nat)
    requires k == 0x8000 * q
    ensures k % 0x8000 == 0 && k / 512 == 64 * q
  {
  }

  /** A request whose first segment the card fails on is not answered. A read has then filled the segment up
      to there and reports its whole length all the same; a write has put that much on the card and
      reports nothing. */
  lemma FailedRequest(m: Machine, table: seq<Desc>, head: nat, ds: seq<Desc>, kind: nat, reserved: nat, sector: nat)
    requires |table| > 0 && Inside(m.mem, ds) && Posts(m.mem, table[head % |table|], kind, reserved, sector)
    requires |ds| > 1 && Whole(ds[0].len) && (kind == 0 || kind == 1)
    requires Moved(m.disk, sector % 0x1_0000_0000, ds[0].len) < ds[0].len
    ensures HeaderInside(m.mem, table[head % |table|]) && Fits(m.mem, ds[0])
    ensures var (t, written) := Request(m, table, head, ds);
      var s, d := sector % 0x1_0000_0000, ds[0];
      var n := Moved(m.disk, s, d.len);
      && !Respond(m, table[head % |table|], ds).answered
      && (kind == 0 ==> t.disk == m.disk && written == d.len % 0x1_0000_0000)
      && (kind == 1 ==> t.mem == m.mem && written == 0)
      && (n == 0 ==> t.mem == m.mem && t.disk == m.disk)
      && (kind == 0 && n > 0 ==>
            t.mem == m.mem[..d.addr] + m.disk.bytes[512 * s..512 * s + n] + m.mem[d.addr + n..])
      && (kind == 1 && n > 0 ==>
            t.disk.bytes == m.disk.bytes[..512 * s] + m.mem[d.addr..d.addr + n] + m.disk.bytes[512 * s + n..])
  {
    hide Le32, HeaderInside, Posts, Moved, Whole, Serial;
    HeaderSays(m.mem, table[head % |table|], kind, reserved, sector);
    InsideHead(m.mem, ds);
  }
}
