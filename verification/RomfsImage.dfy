/** Emission of a laid-out tree into an image, and the round trip: what the independent reader
    finds in the image the writer made is the tree the writer was given. */
module RomfsImage {
  import opened RomfsFormat
  import opened RomfsTree
  import opened RomfsReader
  import opened RomfsLayout
  import opened RomfsWriter

  // ---- writing into the buffer --------------------------------------------

  function Overwrite(s: Bytes, off: nat, x: Bytes): (t: Bytes)
    requires off + |x| <= |s|
    ensures |t| == |s|
  {
    s[..off] + x + s[off + |x|..]
  }

  lemma OverwriteSlices(s: Bytes, off: nat, x: Bytes, lo: nat, hi: nat)
    requires off + |x| <= |s| && lo <= hi <= |s|
    ensures (hi <= off || off + |x| <= lo) ==> Overwrite(s, off, x)[lo..hi] == s[lo..hi]
    ensures lo == off && hi == off + |x| ==> Overwrite(s, off, x)[lo..hi] == x
  {
    var t := Overwrite(s, off, x);
    assert forall k :: 0 <= k < |t| ==> t[k] == if k < off then s[k] else if k < off + |x| then x[k - off] else s[k];
  }

  lemma OverwriteTwice(s: Bytes, off: nat, a: Bytes, b: Bytes)
    requires off + |a| + |b| <= |s|
    ensures Overwrite(Overwrite(s, off, a), off + |a|, b) == Overwrite(s, off, a + b)
  {
  }

  /** Slice assignment. */
  method WriteAt(buf: array<byte>, off: nat, x: Bytes)
    requires off + |x| <= buf.Length
    modifies buf
    ensures buf[..] == Overwrite(old(buf[..]), off, x)
  {
    forall i | 0 <= i < |x| {
      buf[off + i] := x[i];
    }
  }

  /** Write one inode: its header with the checksum filled in, then its padded data. */
  method Emit(e: Entry, buf: array<byte>)
    requires Encodable(e) && e.off + TotalLen(e) <= buf.Length
    modifies buf
    ensures buf[..] == Overwrite(old(buf[..]), e.off, Extent(e))
  {
    var block := RawHeader(e);
    block := WithWord3(block, Be32(Checksum(block)));
    WriteAt(buf, e.off, block);
    WriteAt(buf, e.off + HdrLen(e.name), PaddedData(e));
    OverwriteTwice(old(buf[..]), e.off, Header(e), PaddedData(e));
  }

  /** An inode's extent stands in the image. */
  ghost predicate Emitted(img: Bytes, e: Entry) {
    Encodable(e) && End(e) <= |img| && img[e.off..End(e)] == Extent(e)
  }

  lemma LaidOutIsEncodable(flat: seq<Entry>, nodes: seq<Node>, par: seq<nat>, lo: nat, size: nat, k: nat)
    requires Listed(flat, nodes, par) && Bounded(flat, size) && InOrder(flat, lo, size)
    requires k < |flat| && size < WORD
    ensures Encodable(flat[k]) && End(flat[k]) <= size && lo <= flat[k].off
  {
    assert Describes(flat[k], nodes[k]) && Fit(nodes[k]);
  }

  /** Emit every inode in order. Extents are disjoint, so none overwrites another, and nothing
      before the first is touched. */
  method EmitAll(flat: seq<Entry>, buf: array<byte>, ghost nodes: seq<Node>, ghost par: seq<nat>, ghost lo: nat)
    requires Listed(flat, nodes, par) && Bounded(flat, buf.Length) && InOrder(flat, lo, buf.Length)
    requires buf.Length < WORD && lo <= buf.Length
    modifies buf
    ensures forall k :: 0 <= k < |flat| ==> Emitted(buf[..], flat[k])
    ensures buf[..lo] == old(buf[..lo])
  {
    for i := 0 to |flat|
      invariant forall k :: 0 <= k < i ==> Emitted(buf[..], flat[k])
      invariant buf[..lo] == old(buf[..lo])
    {
      hide TotalLen, Extent, Encodable;
      LaidOutIsEncodable(flat, nodes, par, lo, buf.Length, i);
      ghost var was := buf[..];
      Emit(flat[i], buf);
      EmittedAfter(was, buf[..], flat, i, lo);
    }
  }

  lemma EmittedAfter(was: Bytes, img: Bytes, flat: seq<Entry>, i: nat, lo: nat)
    requires i < |flat| && InOrder(flat, lo, |was|) && Encodable(flat[i]) && lo <= |was|
    requires forall k :: 0 <= k < i ==> Emitted(was, flat[k])
    requires img == Overwrite(was, flat[i].off, Extent(flat[i]))
    ensures forall k :: 0 <= k <= i ==> Emitted(img, flat[k])
    ensures img[..lo] == was[..lo]
  {
    hide TotalLen, Extent, Encodable, Overwrite;
    OverwriteSlices(was, flat[i].off, Extent(flat[i]), 0, lo);
    forall k | 0 <= k <= i ensures Emitted(img, flat[k]) {
      if k < i { assert Emitted(was, flat[k]); }
      OverwriteSlices(was, flat[i].off, Extent(flat[i]), flat[k].off, End(flat[k]));
    }
  }

  // ---- an emitted layout represents its tree ------------------------------

  ghost predicate HeaderSumsToZero(img: Bytes, e: Entry) {
    e.off + HdrLen(e.name) <= |img| && SumWords(img[e.off..e.off + HdrLen(e.name)]) % WORD == 0
  }

  /** Reading an emitted inode gives back its fields, its successor and its data. */
  lemma EmittedReads(img: Bytes, e: Entry)
    requires Emitted(img, e) && NulFree(e.name)
    ensures ReadHdr(img, e.off) == Some(Hdr(e.nxt + e.kind, SpecField(e), |e.data|, e.name))
    ensures NextOf(img, e.off) == e.nxt && e.off < |img|
    ensures DataOf(img, Inode(e.off, ReadHdr(img, e.off).value)) == e.data
    ensures HeaderSumsToZero(img, e)
  {
    hide Extent, HeaderAt, ReadHdr, SpecField, SumWords, NulFree;
    ExtentReadsBack(img, e);
    HeaderIsRead(img, e.off, e.nxt + e.kind, SpecField(e), |e.data|, e.name);
    WordSplits(e.nxt, e.kind);
  }

  /** A laid-out tree all of whose inodes stand in the image. */
  ghost predicate Written(img: Bytes, flat: seq<Entry>, nodes: seq<Node>, par: seq<nat>, first: map<nat, nat>,
                          root: Node, volume: Bytes) {
    && LaidOut(flat, nodes, par, first, root, volume, |img|)
    && forall k :: 0 <= k < |flat| ==> Emitted(img, flat[k])
  }

  lemma InodeReads(img: Bytes, flat: seq<Entry>, nodes: seq<Node>, par: seq<nat>, first: map<nat, nat>,
                   root: Node, volume: Bytes, k: nat)
    requires Written(img, flat, nodes, par, first, root, volume) && k < |flat|
    ensures var e := flat[k];
            && 0 < e.off < |img| && e.off % 16 == 0 && NextOf(img, e.off) == e.nxt && e.kind < 16
            && ReadHdr(img, e.off) == Some(Hdr(e.nxt + e.kind, SpecField(e), |e.data|, e.name))
            && DataOf(img, Inode(e.off, ReadHdr(img, e.off).value)) == e.data
            && Describes(e, nodes[k])
  {
    hide TotalLen, ReadHdr, NextOf, DataOf, Extent;
    assert Describes(flat[k], nodes[k]) && Fit(nodes[k]) && Emitted(img, flat[k]);
    EmittedReads(img, flat[k]);
  }

  lemma LinkReads(img: Bytes, flat: seq<Entry>, nodes: seq<Node>, par: seq<nat>, first: map<nat, nat>,
                  root: Node, volume: Bytes, k: nat, dots: nat, target: nat)
    requires Written(img, flat, nodes, par, first, root, volume) && k < |flat| && IsLink(flat[k], dots, target)
    ensures LinkAt(img, flat[k].off, Dots(dots), target) && NextOf(img, flat[k].off) == flat[k].nxt
  {
    hide Written, ReadHdr, DataOf;
    InodeReads(img, flat, nodes, par, first, root, volume, k);
    assert SpecField(flat[k]) == flat[k].spec;
  }

  lemma DirReads(img: Bytes, flat: seq<Entry>, nodes: seq<Node>, par: seq<nat>, first: map<nat, nat>,
                 root: Node, volume: Bytes, k: nat)
    requires Written(img, flat, nodes, par, first, root, volume) && k < |flat| == |nodes| == |par| && nodes[k].IsDir()
    ensures k in first && DirAt(flat, nodes, par, k, first[k])
    ensures LinkAt(img, flat[k].spec, Dots(1), flat[k].off)
    ensures var second := NextOf(img, flat[k].spec);
            && LinkAt(img, second, Dots(2), flat[par[k]].off)
            && NextOf(img, second) == ChildOff(flat, first[k], |nodes[k].children|, 0)
    ensures SpecField(flat[k]) == flat[k].spec
  {
    hide LinkAt, NextOf, Emitted, Bounded, InOrder, Fit;
    var f, end := first[k], first[k] + 2 + |nodes[k].children|;
    LinkReads(img, flat, nodes, par, first, root, volume, f, 1, flat[k].off);
    LinkReads(img, flat, nodes, par, first, root, volume, f + 1, 2, flat[par[k]].off);
    assert LinkedOn(flat, f, end) && LinkedOn(flat, f + 1, end);
    assert Describes(flat[k], nodes[k]);
  }

  /** The offset at which the j-th child of a directory is found, 0 past the last. */
  function ChildOff(flat: seq<Entry>, f: nat, n: nat, j: nat): nat
  {
    if j < n && f + 2 + j < |flat| then flat[f + 2 + j].off else 0
  }

  /** What stands at an inode's offset represents the node it was laid out for. */
  lemma {:induction false} InodeRepresents(img: Bytes, flat: seq<Entry>, nodes: seq<Node>, par: seq<nat>,
                                           first: map<nat, nat>, root: Node, volume: Bytes, k: nat)
    requires Written(img, flat, nodes, par, first, root, volume)
    requires k < |flat| == |nodes| == |par| && par[k] < |flat|
    ensures Represents(img, flat[k].off, nodes[k], flat[par[k]].off)
    decreases Cost(nodes[k]), 1
  {
    hide Written, ReadHdr, DataOf, NextOf, LinkAt, DirAt;
    InodeReads(img, flat, nodes, par, first, root, volume, k);
    if nodes[k].IsDir() {
      DirReads(img, flat, nodes, par, first, root, volume, k);
      SiblingsRepresent(img, flat, nodes, par, first, root, volume, k, 0);
      assert nodes[k].children[0..] == nodes[k].children;
    }
  }

  lemma {:induction false} SiblingsRepresent(img: Bytes, flat: seq<Entry>, nodes: seq<Node>, par: seq<nat>,
                                             first: map<nat, nat>, root: Node, volume: Bytes, i: nat, j: nat)
    requires Written(img, flat, nodes, par, first, root, volume)
    requires i < |flat| == |nodes| == |par| && i in first && DirAt(flat, nodes, par, i, first[i])
    requires j <= |nodes[i].children|
    ensures RepresentsAll(img, ChildOff(flat, first[i], |nodes[i].children|, j), nodes[i].children[j..], flat[i].off)
    decreases CostAll(nodes[i].children[j..]), 0
  {
    hide Written, Represents, NextOf, DataOf, ReadHdr;
    var cs, k := nodes[i].children, first[i] + 2 + j;
    if j < |cs| {
      assert cs[j..][0] == cs[j] && cs[j..][1..] == cs[j + 1..];
      assert ChildAt(nodes, par, i, first[i], j) && LinkedOn(flat, k, first[i] + 2 + |cs|);
      InodeReads(img, flat, nodes, par, first, root, volume, k);
      InodeRepresents(img, flat, nodes, par, first, root, volume, k);
      SiblingsRepresent(img, flat, nodes, par, first, root, volume, i, j + 1);
    }
  }

  // ---- what holds of every written image ----------------------------------

  /** Extents are aligned, pairwise disjoint, increasing in order of emission and inside the image;
      the data of a large executable starts on a page; every inode header sums to zero; and the
      spec of a directory is the offset of its first entry. */
  lemma WrittenGeometry(img: Bytes, flat: seq<Entry>, nodes: seq<Node>, par: seq<nat>, first: map<nat, nat>,
                        root: Node, volume: Bytes)
    requires Written(img, flat, nodes, par, first, root, volume)
    ensures |flat| == |nodes| && InOrder(flat, RootOff(volume), |img|)
    ensures forall k :: 0 <= k < |flat| ==> HeaderSumsToZero(img, flat[k])
    ensures forall k :: 0 <= k < |flat| && nodes[k].IsDir() ==>
              k in first && k < first[k] < |flat| && flat[k].spec == flat[first[k]].off && flat[first[k]].name == Dots(1)
  {
    hide ReadHdr, NextOf, DataOf, TotalLen, Extent;
    forall k | 0 <= k < |flat| ensures HeaderSumsToZero(img, flat[k]) {
      assert Describes(flat[k], nodes[k]) && Fit(nodes[k]) && Emitted(img, flat[k]);
      EmittedReads(img, flat[k]);
    }
  }

  // ---- the bytes of an image ------------------------------------------------

  /** An inode as the kernel's header file lays it out (include/uapi/linux/romfs_fs.h): the offset of the
      next one with the kind in its low bits, the device number of a block (4) or character device (5) and
      otherwise the spec, the size, and the name in a header of a multiple of 16 bytes; then the data,
      padded. The data of an executable (10) of a page or more starts on a page. */
  ghost predicate OnDisk(img: Bytes, e: Entry, n: Node) {
    var head, body := (16 + |n.name| + 1 + 15) / 16 * 16, |n.data|;
    var at := e.off + head;
    && at + (body + 15) / 16 * 16 <= |img| && e.nxt % 16 == 0 && n.kind < 16
    && img[e.off..e.off + 4] == Big(e.nxt + n.kind, 4)
    && img[e.off + 4..e.off + 8] == Big(if n.kind == 4 || n.kind == 5 then n.dev else e.spec, 4)
    && img[e.off + 8..e.off + 12] == Big(body, 4)
    && img[e.off + 16..e.off + 16 + |n.name|] == n.name
    && (forall p :: e.off + 16 + |n.name| <= p < at ==> img[p] == 0)
    && img[at..at + body] == n.data
    && (forall p :: at + body <= p < at + (body + 15) / 16 * 16 ==> img[p] == 0)
    && (n.kind == 10 && body >= 4096 ==> at % 4096 == 0)
  }

  /** Every inode of a written image is there, byte for byte. */
  lemma WrittenOnDisk(img: Bytes, flat: seq<Entry>, nodes: seq<Node>, par: seq<nat>, first: map<nat, nat>,
                      root: Node, volume: Bytes, k: nat)
    requires Written(img, flat, nodes, par, first, root, volume) && k < |flat|
    ensures k < |nodes| && OnDisk(img, flat[k], nodes[k])
  {
    hide Extent, OnDisk, InOrder, TotalLen;
    var e := flat[k];
    assert Describes(e, nodes[k]) && Fit(nodes[k]) && Emitted(img, e);
    HeaderOnDisk(img, e);
    DataOnDisk(img, e);
    PageOnDisk(flat, RootOff(volume), |img|, k);
    assert SpecField(e) == if e.kind == 4 || e.kind == 5 then e.dev else e.spec;
    Assembled(img, e, nodes[k]);
  }

  lemma Assembled(img: Bytes, e: Entry, n: Node)
    requires Describes(e, n) && Encodable(e) && e.off + TotalLen(e) <= |img|
    requires SpecField(e) == if e.kind == 4 || e.kind == 5 then e.dev else e.spec
    requires HeaderBytesAt(img, e) && DataBytesAt(img, e)
    requires WantsPageAlign(e) ==> (e.off + HdrLen(e.name)) % PAGE == 0
    ensures OnDisk(img, e, n)
  {
    hide Big, Be32, SpecField, HdrLen, Pad16;
    WordIsBig(e.nxt + e.kind);
    WordIsBig(SpecField(e));
    WordIsBig(|e.data|);
    Lengths(e);
  }

  lemma Lengths(e: Entry)
    ensures HdrLen(e.name) == (16 + |e.name| + 1 + 15) / 16 * 16
    ensures TotalLen(e) == HdrLen(e.name) + (|e.data| + 15) / 16 * 16
  {
  }

  ghost predicate HeaderBytesAt(img: Bytes, e: Entry)
    requires Encodable(e)
  {
    && e.off + HdrLen(e.name) <= |img|
    && img[e.off..e.off + 4] == Be32(e.nxt + e.kind) && img[e.off + 4..e.off + 8] == Be32(SpecField(e))
    && img[e.off + 8..e.off + 12] == Be32(|e.data|) && img[e.off + 16..e.off + 16 + |e.name|] == e.name
    && forall p :: e.off + 16 + |e.name| <= p < e.off + HdrLen(e.name) ==> img[p] == 0
  }

  ghost predicate DataBytesAt(img: Bytes, e: Entry) {
    var at := e.off + HdrLen(e.name);
    && e.off + TotalLen(e) <= |img| && img[at..at + |e.data|] == e.data
    && forall p :: at + |e.data| <= p < e.off + TotalLen(e) ==> img[p] == 0
  }

  lemma HeaderOnDisk(img: Bytes, e: Entry)
    requires Emitted(img, e)
    ensures HeaderBytesAt(img, e)
  {
    hide Header, PaddedData, SpecField, Be32;
    var h, d, n := Header(e), PaddedData(e), |e.name|;
    SplitSlice(img, e.off, h, d);
    HeaderFields(e);
    SubSlice(img, e.off, h, 0, 4);
    SubSlice(img, e.off, h, 4, 8);
    SubSlice(img, e.off, h, 8, 12);
    SubSlice(img, e.off, h, 16, 16 + n);
    forall p | e.off + 16 + n <= p < e.off + |h| ensures img[p] == 0 {
      ByteOfSlice(img, e.off, h, p);
    }
  }

  lemma DataOnDisk(img: Bytes, e: Entry)
    requires Emitted(img, e)
    ensures DataBytesAt(img, e)
  {
    hide Header, SpecField;
    var h, d := Header(e), PaddedData(e);
    var at := e.off + |h|;
    SplitSlice(img, e.off, h, d);
    SubSlice(img, at, d, 0, |e.data|);
    forall p | at + |e.data| <= p < at + |d| ensures img[p] == 0 {
      ByteOfSlice(img, at, d, p);
    }
  }

  lemma PageOnDisk(flat: seq<Entry>, lo: nat, hi: nat, k: nat)
    requires InOrder(flat, lo, hi) && k < |flat|
    ensures WantsPageAlign(flat[k]) ==> (flat[k].off + HdrLen(flat[k].name)) % PAGE == 0
    ensures flat[k].off + TotalLen(flat[k]) <= hi
  {
  }

  /** The magic, the size, and the volume name with its terminator. */
  ghost predicate SuperFields(img: Bytes, volume: Bytes) {
    && 16 + |volume| < |img| < WORD && |img| % 16 == 0
    && (forall i :: 0 <= i < 8 ==> img[i] == MagicByte(i))
    && img[8..12] == Be32(|img|)
    && img[16..16 + |volume|] == volume && img[16 + |volume|] == 0
  }

  /** The superblock: the magic number, the image's size, and the volume's name. */
  ghost predicate SuperOnDisk(img: Bytes, volume: Bytes) {
    && 16 + |volume| < |img|
    && (forall i :: 0 <= i < 8 ==> img[i] == "-rom1fs-"[i] as int)
    && img[8..12] == Big(|img|, 4) && img[16..16 + |volume|] == volume && img[16 + |volume|] == 0
  }

  lemma SuperBytes(img: Bytes, volume: Bytes)
    requires SuperFields(img, volume)
    ensures SuperOnDisk(img, volume)
  {
    WordIsBig(|img|);
  }

  function Span(img: Bytes): (n: nat)
    requires |img| % 16 == 0
    ensures n <= |img| && n % 4 == 0 && (|img| >= 16 ==> n >= 16)
  {
    MultiplesOf16(|img| / 16);
    if |img| < 512 then |img| else 512
  }

  lemma SuperReads(img: Bytes, volume: Bytes)
    requires SuperFields(img, volume) && NulFree(volume) && SumWords(img[..Span(img)]) % WORD == 0
    ensures CheckSuper(img) == Some(RootOff(volume))
  {
    Be32RoundTrip(|img|, img, 8);
    NulEndsName(img, 0, volume);
    MultiplesOf16(Span(img) / 4);
    assert Span(img) / 4 * 4 == Span(img);
  }

  /** Exactly which images pass the superblock checks: the magic number, the size, a first half kilobyte of
      whole words that sums to zero, and a volume name that ends. */
  lemma SuperChecked(img: Bytes)
    ensures CheckSuper(img).Some? <==>
              && |img| >= 16
              && (forall i :: 0 <= i < 8 ==> img[i] == "-rom1fs-"[i] as int)
              && FromBe32(img, 8) == |img|
              && (|img| < 512 ==> |img| % 4 == 0)
              && SumWords(if |img| < 512 then img else img[..512]) % 0x1_0000_0000 == 0
              && (exists i :: 16 <= i < |img| && img[i] == 0)
  {
    hide SumWords, FromBe32, MagicByte;
    if |img| >= 16 {
      MagicIs(img);
      if |img| >= 512 || |img| % 4 == 0 {
        var n := if |img| < 512 then |img| else 512;
        WholeWords(n);
        assert img[..n] == if |img| < 512 then img else img[..512];
      }
      var nul := FirstNul(img, 16);
      assert nul < |img| <==> exists i :: 16 <= i < |img| && img[i] == 0;
    }
  }

  /** The root inode stands at the next multiple of 16 behind the volume name's end. */
  lemma RootFound(img: Bytes, nul: nat)
    requires CheckSuper(img).Some? && 16 <= nul < |img| && img[nul] == 0 && NulFree(img[16..nul])
    ensures CheckSuper(img) == Some((nul / 16 + 1) * 16)
  {
    hide SumWords, FromBe32, MagicByte;
    NulEndsName(img, 0, img[16..nul]);
  }

  lemma WholeWords(n: nat)
    requires n % 4 == 0
    ensures n / 4 * 4 == n
  {
  }

  lemma MagicIs(img: Bytes)
    requires |img| >= 16
    ensures (forall i :: 0 <= i < 8 ==> img[i] == "-rom1fs-"[i] as int) <==> !(exists i :: 0 <= i < 8 && img[i] != MagicByte(i))
  {
    assert forall i :: 0 <= i < 8 ==> MagicByte(i) == "-rom1fs-"[i] as int;
  }

  /** What the reader finds in a written image is the tree, whatever budget it has beyond what the tree costs:
      the walk ends and returns every path with its kind and content, and nothing else. A tree with more than
      40 directories inside one another, the root included, is refused, and no other is. */
  lemma RoundTrip(img: Bytes, flat: seq<Entry>, nodes: seq<Node>, par: seq<nat>, first: map<nat, nat>,
                  root: Node, volume: Bytes, budget: nat)
    requires Written(img, flat, nodes, par, first, root, volume) && CheckSuper(img) == Some(RootOff(volume))
    requires GoodTree(root) && root.IsDir() && budget >= Cost(root)
    ensures ReadImage(img, budget) == if Height(root) <= 40 then Some(Contents(root)) else None
  {
    hide Emitted, InOrder, DirAt;
    InodeReads(img, flat, nodes, par, first, root, volume, 0);
    InodeRepresents(img, flat, nodes, par, first, root, volume, 0);
    NodeIsRead(img, flat[0].off, root, flat[0].off, budget);
    WalkFindsChildren(img, flat[0].off, root, flat[0].off, [], 0, budget, map[]);
  }

  /** Storing the superblock checksum makes the span sum to zero and disturbs nothing else. */
  lemma SuperSummed(img: Bytes, volume: Bytes, flat: seq<Entry>)
    requires SuperFields(img, volume) && img[12..16] == [0, 0, 0, 0]
    requires forall k :: 0 <= k < |flat| ==> Emitted(img, flat[k]) && flat[k].off >= 16
    ensures var t := Overwrite(img, 12, Be32(Checksum(img[..Span(img)])));
            && SuperFields(t, volume) && SumWords(t[..Span(t)]) % WORD == 0
            && forall k :: 0 <= k < |flat| ==> Emitted(t, flat[k])
  {
    hide TotalLen, Extent, Encodable;
    var s, n := img[..Span(img)], Span(img);
    var c := Be32(Checksum(s));
    var t := Overwrite(img, 12, c);
    ChecksumZeroes(s);
    assert t[..n] == WithWord3(s, c);
    OverwriteSlices(img, 12, c, 8, 12);
    OverwriteSlices(img, 12, c, 16, 16 + |volume|);
    forall k | 0 <= k < |flat| ensures Emitted(t, flat[k]) {
      assert Emitted(img, flat[k]);
      OverwriteSlices(img, 12, c, flat[k].off, End(flat[k]));
    }
  }

  /** Write the superblock fields into a zeroed buffer. */
  method WriteSuper(buf: array<byte>, volume: Bytes)
    requires 16 + |volume| < buf.Length < WORD && buf.Length % 16 == 0
    requires forall i :: 0 <= i < buf.Length ==> buf[i] == 0
    modifies buf
    ensures SuperFields(buf[..], volume) && buf[12..16] == [0, 0, 0, 0]
  {
    hide Overwrite;
    var magic: Bytes, size, name := seq(8, i requires 0 <= i => MagicByte(i)), Be32(buf.Length), volume + [0];
    ghost var blank := buf[..];
    assert blank[12..16] == [0, 0, 0, 0];
    WriteAt(buf, 0, magic);
    ghost var one := buf[..];
    OverwriteSlices(blank, 0, magic, 0, 8);
    OverwriteSlices(blank, 0, magic, 12, 16);
    WriteAt(buf, 8, size);
    ghost var two := buf[..];
    OverwriteSlices(one, 8, size, 0, 8);
    OverwriteSlices(one, 8, size, 8, 12);
    OverwriteSlices(one, 8, size, 12, 16);
    WriteAt(buf, 16, name);
    OverwriteSlices(two, 16, name, 0, 8);
    OverwriteSlices(two, 16, name, 8, 12);
    OverwriteSlices(two, 16, name, 12, 16);
    OverwriteSlices(two, 16, name, 16, 16 + |name|);
    assert buf[16..16 + |name|] == name;
    assert buf[16..16 + |volume|] == buf[16..16 + |name|][..|volume|];
    assert buf[16 + |volume|] == buf[16..16 + |name|][|volume|];
  }

  /** Where what comes after a node may start. */
  function EndOf(off: nat, n: Node): nat {
    off + (16 + |n.name| + 1 + 15) / 16 * 16 + (|n.data| + 15) / 16 * 16
  }

  /** A node stands right behind the one before, or, when its data has to start on a page, less than a page
      further. */
  ghost predicate PackedAt(flat: seq<Entry>, nodes: seq<Node>, k: nat)
    requires 0 < k < |flat| == |nodes|
  {
    var before, n := EndOf(flat[k - 1].off, nodes[k - 1]), nodes[k];
    if n.kind == 10 && |n.data| >= 4096 then before <= flat[k].off < before + 4096 else flat[k].off == before
  }

  /** Nothing else takes up room in the image. */
  ghost predicate Packed(flat: seq<Entry>, nodes: seq<Node>, volume: Bytes, size: nat) {
    && |flat| == |nodes| > 0 && flat[0].off == (16 + |volume| + 1 + 15) / 16 * 16
    && (forall k :: 0 < k < |flat| ==> PackedAt(flat, nodes, k))
    && size == EndOf(flat[|flat| - 1].off, nodes[|flat| - 1])
  }

  lemma EndsAgree(e: Entry, n: Node)
    requires Describes(e, n)
    ensures End(e) == EndOf(e.off, n)
  {
  }

  lemma RootOffIs(volume: Bytes)
    ensures RootOff(volume) == (16 + |volume| + 1 + 15) / 16 * 16
  {
  }

  lemma LayoutPacked(flat: seq<Entry>, nodes: seq<Node>, par: seq<nat>, first: map<nat, nat>, root: Node,
                     volume: Bytes, size: nat)
    requires LaidOut(flat, nodes, par, first, root, volume, size)
    requires Chained(flat, RootOff(volume), |flat|) && size == CursorAt(flat, RootOff(volume), |flat|)
    ensures Packed(flat, nodes, volume, size)
  {
    hide TotalLen, RootOff, End, EndOf, DirAt, InOrder, PlaceAt;
    RootOffIs(volume);
    forall k | 0 <= k < |flat| ensures End(flat[k]) == EndOf(flat[k].off, nodes[k]) {
      assert Describes(flat[k], nodes[k]);
      EndsAgree(flat[k], nodes[k]);
    }
    forall k | 0 < k < |flat| ensures PackedAt(flat, nodes, k) {
      assert WellPlaced(flat, RootOff(volume), k) && Describes(flat[k], nodes[k]) && Fit(nodes[k]);
      PageKinds(flat[k], nodes[k]);
    }
  }

  lemma PageKinds(e: Entry, n: Node)
    requires Describes(e, n) && Fit(n)
    ensures WantsPageAlign(e) <==> n.kind == 10 && |n.data| >= 4096
  {
  }

  ghost predicate AllOnDisk(img: Bytes, flat: seq<Entry>, nodes: seq<Node>) {
    |flat| == |nodes| && forall k :: 0 <= k < |flat| ==> OnDisk(img, flat[k], nodes[k])
  }

  lemma AllWritten(img: Bytes, flat: seq<Entry>, nodes: seq<Node>, par: seq<nat>, first: map<nat, nat>,
                   root: Node, volume: Bytes)
    requires Written(img, flat, nodes, par, first, root, volume)
    ensures AllOnDisk(img, flat, nodes)
  {
    hide OnDisk, Emitted, Written;
    WrittenGeometry(img, flat, nodes, par, first, root, volume);
    forall k | 0 <= k < |flat| ensures OnDisk(img, flat[k], nodes[k]) {
      WrittenOnDisk(img, flat, nodes, par, first, root, volume, k);
    }
  }

  /** The first 512 bytes, or all if there are fewer, sum to zero. */
  ghost predicate SuperSumsToZero(img: Bytes) {
    |img| % 16 == 0 && SumWords(img[..Span(img)]) % WORD == 0
  }

  /** The superblock and the inodes of a laid-out tree, in a buffer of its size. */
  method WriteImage(flat: seq<Entry>, size: nat, volume: Bytes, ghost nodes: seq<Node>, ghost par: seq<nat>,
                    ghost first: map<nat, nat>, ghost root: Node)
    returns (buf: array<byte>)
    requires LaidOut(flat, nodes, par, first, root, volume, size) && size < WORD && NulFree(volume)
    ensures buf.Length == size && Written(buf[..], flat, nodes, par, first, root, volume)
    ensures SuperFields(buf[..], volume) && SuperSumsToZero(buf[..])
  {
    hide LaidOut, Emitted, Listed, Bounded, InOrder;
    LayoutFits(flat, nodes, par, first, root, volume, size);
    buf := new byte[size](_ => 0);
    WriteSuper(buf, volume);
    ghost var fields := buf[..];
    EmitAll(flat, buf, nodes, par, RootOff(volume));
    SuperKept(fields, buf[..], volume);
    SuperSummed(buf[..], volume, flat);
    WriteAt(buf, 12, Be32(Checksum(buf[..][..Span(buf[..])])));
  }

  /** The whole writer. It fails, as packing the size does, exactly when the image would reach 2^32
      bytes; otherwise every inode of the tree is in the image, breadth first, byte for byte and without
      room to spare, and the image reads back as the tree. */
  method Build(root: Node, volume: Bytes)
    returns (ok: bool, buf: array<byte>, ghost flat: seq<Entry>, ghost nodes: seq<Node>, ghost par: seq<nat>,
             ghost first: map<nat, nat>, ghost size: nat)
    requires root.IsDir() && GoodTree(root) && NulFree(root.name) && NulFree(volume)
    requires Ascii(root.name) && Ascii(volume)
    ensures LaidOut(flat, nodes, par, first, root, volume, size)
    ensures nodes == [root] + BreadthFirst([root]) && Packed(flat, nodes, volume, size)
    ensures ok <==> size < WORD
    ensures ok ==> buf.Length == size && Written(buf[..], flat, nodes, par, first, root, volume)
    ensures ok ==> AllOnDisk(buf[..], flat, nodes) && SuperOnDisk(buf[..], volume) && SuperSumsToZero(buf[..])
    ensures ok ==> CheckSuper(buf[..]) == Some(RootOff(volume))
    ensures ok ==> forall budget :: budget >= Cost(root) ==>
              ReadImage(buf[..], budget) == if Height(root) <= 40 then Some(Contents(root)) else None
  {
    hide LaidOut, Written, AllOnDisk, SuperOnDisk, Packed, Chained, BreadthFirst, GoodTree, Cost, Contents;
    var entries, length;
    entries, length, nodes, par, first := Layout(root, volume);
    flat, size := entries, length;
    LayoutPacked(flat, nodes, par, first, root, volume, size);
    if length >= WORD {
      return false, new byte[0], flat, nodes, par, first, size;
    }
    buf := WriteImage(entries, length, volume, nodes, par, first, root);
    ok := true;
    SuperReads(buf[..], volume);
    SuperBytes(buf[..], volume);
    AllWritten(buf[..], flat, nodes, par, first, root, volume);
    forall budget | budget >= Cost(root)
      ensures ReadImage(buf[..], budget) == if Height(root) <= 40 then Some(Contents(root)) else None
    {
      RoundTrip(buf[..], flat, nodes, par, first, root, volume, budget);
    }
  }

  lemma LayoutFits(flat: seq<Entry>, nodes: seq<Node>, par: seq<nat>, first: map<nat, nat>,
                   root: Node, volume: Bytes, size: nat)
    requires LaidOut(flat, nodes, par, first, root, volume, size)
    ensures 16 + |volume| < RootOff(volume) <= size && size % 16 == 0
    ensures forall k :: 0 <= k < |flat| ==> flat[k].off >= 16
    ensures Listed(flat, nodes, par) && Bounded(flat, size) && InOrder(flat, RootOff(volume), size)
  {
    assert End(flat[0]) <= size;
  }

  /** Emission leaves what stands before the root inode alone. */
  lemma SuperKept(was: Bytes, img: Bytes, volume: Bytes)
    requires SuperFields(was, volume) && was[12..16] == [0, 0, 0, 0] && |img| == |was|
    requires RootOff(volume) <= |was| && img[..RootOff(volume)] == was[..RootOff(volume)]
    ensures SuperFields(img, volume) && img[12..16] == [0, 0, 0, 0]
  {
    var lo := RootOff(volume);
    assert forall i :: 0 <= i < lo ==> img[i] == img[..lo][i] == was[..lo][i] == was[i];
  }
}
