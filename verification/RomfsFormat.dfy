/** The romfs on-disk format, as buildroot/board-esp32p4/mkromfs.py writes it and
    buildroot/board-esp32p4/checkromfs.py reads it: big-endian words, 16-byte
    alignment, zero-sum checksums, headers and the data that follows them. */
module RomfsFormat {

  type byte = x: int | 0 <= x < 256

  type Bytes = seq<byte>

  const HRD := 0
  const DIR := 1
  const REG := 2
  const SYM := 3
  const BLK := 4
  const CHR := 5
  const SCK := 6
  const FIF := 7
  const EXEC := 8
  const ALIGN := 16
  const PAGE := 4096
  const WORD := 0x1_0000_0000

  const SLASH: byte := 47

  /** "." and "..". */
  function Dots(n: nat): (s: Bytes)
    ensures |s| == n && forall i :: 0 <= i < n ==> s[i] == 46
  {
    seq(n, _ => 46)
  }

  datatype Option<T> = None | Some(value: T)

  /** Rounding up to the romfs alignment. */
  function Pad16(n: nat): (r: nat)
    ensures n <= r < n + 16 && r % 16 == 0 && r % 4 == 0
  {
    var q := (n + 15) / 16;
    MultiplesOf16(q);
    16 * q
  }

  lemma MultiplesOf16(q: nat)
    ensures 16 * q % 16 == 0 && 16 * q % 4 == 0
  {
    assert 16 * q / 16 == q && 16 * q / 4 == 4 * q;
  }

  /** A kind below 16 is what is left of a word whose other part is a multiple of 16. */
  lemma SumKindBits(q: nat, kind: nat)
    requires kind < 16
    ensures (16 * q + kind) % 8 == kind % 8 && (16 * q + kind) % 16 == kind
  {
    var x := 16 * q + kind;
    assert x / 16 == q;
    assert x / 8 == 2 * q + (if kind < 8 then 0 else 1);
  }

  function HdrLen(name: Bytes): (r: nat)
    ensures r % 16 == 0 && r % 4 == 0 && ALIGN + |name| < r
  {
    Pad16(ALIGN + |name| + 1)
  }

  function Zeros(n: nat): (z: Bytes)
    ensures |z| == n && forall i :: 0 <= i < n ==> z[i] == 0
  {
    seq(n, _ => 0)
  }

  // ---- big-endian words ---------------------------------------------------

  function Be32(n: nat): (s: Bytes)
    requires n < WORD
    ensures |s| == 4
  {
    [n / 0x100_0000, n / 0x1_0000 % 256, n / 256 % 256, n % 256]
  }

  function FromBe32(s: Bytes, pos: nat): (n: nat)
    requires pos + 4 <= |s|
    ensures n < WORD
  {
    var b0: int, b1: int, b2: int, b3: int := s[pos], s[pos + 1], s[pos + 2], s[pos + 3];
    b0 * 0x100_0000 + b1 * 0x1_0000 + b2 * 256 + b3
  }

  lemma BytesOfWord(n: nat)
    ensures n == n / 0x100_0000 * 0x100_0000 + n / 0x1_0000 % 256 * 0x1_0000 + n / 256 % 256 * 256 + n % 256
  {
    var q := n / 256;
    assert n == q * 256 + n % 256;
    var r := n / 0x1_0000;
    assert r == q / 256;
    assert q == r * 256 + q % 256;
    var t := n / 0x100_0000;
    assert t == r / 256;
    assert r == t * 256 + r % 256;
  }

  /** Packing a 32-bit value big-endian and unpacking it gives the value back, wherever it lands. */
  lemma Be32RoundTrip(n: nat, s: Bytes, pos: nat)
    requires n < WORD && pos + 4 <= |s| && s[pos..pos + 4] == Be32(n)
    ensures FromBe32(s, pos) == n
  {
    var b, t := Be32(n), s[pos..pos + 4];
    assert s[pos] == t[0] && s[pos + 1] == t[1] && s[pos + 2] == t[2] && s[pos + 3] == t[3];
    BytesOfWord(n);
  }

  /** A number as `k` bytes, big end first. */
  function Big(n: nat, k: nat): (s: Bytes)
    ensures |s| == k
  {
    if k == 0 then [] else Big(n / 256, k - 1) + [n % 256]
  }

  lemma WordIsBig(n: nat)
    requires n < WORD
    ensures Be32(n) == Big(n, 4)
  {
    var a, b, c := n / 256, n / 0x1_0000, n / 0x100_0000;
    assert b == a / 256 && c == b / 256 && c % 256 == c;
    BigSteps(n, a, b, c);
  }

  lemma BigSteps(n: nat, a: nat, b: nat, c: nat)
    requires a == n / 256 && b == a / 256 && c == b / 256
    ensures Big(n, 4) == [c % 256, b % 256, a % 256, n % 256]
  {
    assert Big(c, 1) == [c % 256] by { assert Big(c / 256, 0) == []; }
    assert Big(b, 2) == Big(c, 1) + [b % 256];
    assert Big(a, 3) == Big(b, 2) + [a % 256];
    assert Big(n, 4) == Big(a, 3) + [n % 256];
  }

  // ---- zero-sum checksums -------------------------------------------------

  /** The sum of a block read as big-endian 32-bit words. */
  function SumWords(s: Bytes): nat
    requires |s| % 4 == 0
  {
    if s == [] then 0 else FromBe32(s, 0) + SumWords(s[4..])
  }

  lemma {:induction false} SumWordsConcat(a: Bytes, b: Bytes)
    requires |a| % 4 == 0 && |b| % 4 == 0
    ensures SumWords(a + b) == SumWords(a) + SumWords(b)
  {
    if a == [] {
      assert a + b == b;
    } else {
      SumWordsConcat(a[4..], b);
      assert (a + b)[4..] == a[4..] + b;
    }
  }

  /** The value stored in the checksum word: minus the sum of the block, modulo 2^32. */
  function Checksum(s: Bytes): (c: nat)
    requires |s| % 4 == 0
    ensures c < WORD && (SumWords(s) + c) % WORD == 0
  {
    (WORD - SumWords(s) % WORD) % WORD
  }

  /** A block with its word 3 replaced. */
  function WithWord3(s: Bytes, w: Bytes): (t: Bytes)
    requires |s| >= 16 && |w| == 4
    ensures |t| == |s|
  {
    s[..12] + w + s[16..]
  }

  /** Storing the checksum in a zeroed word 3 makes the whole block sum to zero. */
  lemma ChecksumZeroes(s: Bytes)
    requires |s| % 4 == 0 && |s| >= 16 && s[12..16] == [0, 0, 0, 0]
    ensures SumWords(WithWord3(s, Be32(Checksum(s)))) % WORD == 0
  {
    var c := Checksum(s);
    var w := Be32(c);
    var z: Bytes := [0, 0, 0, 0];
    assert s == s[..12] + z + s[16..];
    SumWordsConcat(s[..12] + z, s[16..]);
    SumWordsConcat(s[..12], z);
    SumWordsConcat(s[..12] + w, s[16..]);
    SumWordsConcat(s[..12], w);
    Be32RoundTrip(c, w, 0);
    assert SumWords(w) == c by { assert w[4..] == []; }
    assert SumWords(z) == 0 by { assert z[4..] == []; }
  }

  // ---- headers ------------------------------------------------------------

  /** One inode as the writer places it: the fields of the writer's node
      objects that the emitted image depends on. */
  datatype Entry = Entry(name: Bytes, kind: nat, data: Bytes, dev: nat, off: nat, spec: nat, nxt: nat)

  function TotalLen(e: Entry): nat {
    HdrLen(e.name) + Pad16(|e.data|)
  }

  predicate WantsPageAlign(e: Entry) {
    e.kind % 8 == REG && e.kind >= EXEC && |e.data| >= PAGE
  }

  function SpecField(e: Entry): nat {
    if e.kind % 8 == CHR || e.kind % 8 == BLK then e.dev else e.spec
  }

  predicate Encodable(e: Entry) {
    e.nxt % 16 == 0 && e.nxt < WORD && e.kind < 16 && SpecField(e) < WORD && |e.data| < WORD
  }

  /** The header with its checksum word still zero. The next-offset is a multiple
      of 16 and the kind is below 16, so or-ing them is adding them. */
  function RawHeader(e: Entry): (s: Bytes)
    requires Encodable(e)
    ensures |s| == HdrLen(e.name) && s[12..16] == [0, 0, 0, 0]
  {
    Be32(e.nxt + e.kind) + Be32(SpecField(e)) + Be32(|e.data|) + [0, 0, 0, 0]
    + e.name + Zeros(HdrLen(e.name) - ALIGN - |e.name|)
  }

  function Header(e: Entry): (s: Bytes)
    requires Encodable(e)
    ensures |s| == HdrLen(e.name)
  {
    var raw := RawHeader(e);
    WithWord3(raw, Be32(Checksum(raw)))
  }

  function PaddedData(e: Entry): (s: Bytes)
    ensures |s| == Pad16(|e.data|) && s[..|e.data|] == e.data
  {
    e.data + Zeros(Pad16(|e.data|) - |e.data|)
  }

  /** Everything one inode contributes to the image. */
  function Extent(e: Entry): (s: Bytes)
    requires Encodable(e)
    ensures |s| == TotalLen(e)
  {
    Header(e) + PaddedData(e)
  }

  predicate NulFree(name: Bytes) {
    forall i :: 0 <= i < |name| ==> name[i] != 0
  }

  /** Names are sized by their characters and written as bytes; for ASCII the two agree. */
  predicate Ascii(name: Bytes) {
    forall i :: 0 <= i < |name| ==> name[i] < 128
  }

  /** A header with these fields, its name NUL-terminated, stands at `off`. */
  ghost predicate HeaderAt(img: Bytes, off: nat, word0: nat, spec: nat, size: nat, name: Bytes) {
    && off + HdrLen(name) <= |img|
    && FromBe32(img, off) == word0
    && FromBe32(img, off + 4) == spec
    && FromBe32(img, off + 8) == size
    && img[off + 16..off + 16 + |name|] == name
    && img[off + 16 + |name|] == 0
  }

  lemma FiveParts(a: Bytes, b: Bytes, c: Bytes, d: Bytes, t: Bytes)
    requires |a| == |b| == |c| == |d| == 4
    ensures var h := a + b + c + d + t;
            h[0..4] == a && h[4..8] == b && h[8..12] == c && h[12..16] == d
            && h[..12] == a + b + c && h[16..] == t
  {
  }

  /** The fields stand at their offsets in the header, followed by the NUL-terminated name. */
  lemma HeaderFields(e: Entry)
    requires Encodable(e)
    ensures var h := Header(e);
            && h[0..4] == Be32(e.nxt + e.kind) && h[4..8] == Be32(SpecField(e)) && h[8..12] == Be32(|e.data|)
            && h[16..16 + |e.name|] == e.name && h[16 + |e.name|] == 0
            && forall p :: 16 + |e.name| <= p < |h| ==> h[p] == 0
  {
    var a, b, c := Be32(e.nxt + e.kind), Be32(SpecField(e)), Be32(|e.data|);
    var raw, pad := RawHeader(e), Zeros(HdrLen(e.name) - ALIGN - |e.name|);
    var sum := Be32(Checksum(raw));
    assert raw == a + b + c + [0, 0, 0, 0] + (e.name + pad);
    FiveParts(a, b, c, [0, 0, 0, 0], e.name + pad);
    var h := Header(e);
    assert h == a + b + c + sum + (e.name + pad);
    FiveParts(a, b, c, sum, e.name + pad);
    assert h[16..16 + |e.name|] == h[16..][..|e.name|] == e.name;
    assert h[16 + |e.name|] == h[16..][|e.name|] == 0;
    assert forall p :: 16 + |e.name| <= p < |h| ==> h[p] == (e.name + pad)[p - 16];
  }

  /** A slice of a slice. */
  lemma SubSlice(img: Bytes, off: nat, x: Bytes, lo: nat, hi: nat)
    requires lo <= hi <= |x| && off + |x| <= |img| && img[off..off + |x|] == x
    ensures img[off + lo..off + hi] == x[lo..hi]
  {
    var s := img[off..off + |x|];
    forall k | 0 <= k < hi - lo
      ensures img[off + lo..off + hi][k] == x[lo..hi][k]
    {
      assert s[lo + k] == img[off + (lo + k)];
    }
  }

  lemma ByteOfSlice(img: Bytes, off: nat, x: Bytes, p: nat)
    requires off + |x| <= |img| && img[off..off + |x|] == x && off <= p < off + |x|
    ensures img[p] == x[p - off]
  {
    assert img[off..off + |x|][p - off] == img[p];
  }

  lemma SplitSlice(img: Bytes, off: nat, a: Bytes, b: Bytes)
    requires off + |a| + |b| <= |img| && img[off..off + |a| + |b|] == a + b
    ensures img[off..off + |a|] == a && img[off + |a|..off + |a| + |b|] == b
  {
    SubSlice(img, off, a + b, 0, |a|);
    SubSlice(img, off, a + b, |a|, |a| + |b|);
  }

  lemma WordAt(img: Bytes, off: nat, h: Bytes, p: nat, v: nat)
    requires p + 4 <= |h| && off + |h| <= |img| && img[off..off + |h|] == h
    requires v < WORD && h[p..p + 4] == Be32(v)
    ensures FromBe32(img, off + p) == v
  {
    SubSlice(img, off, h, p, p + 4);
    Be32RoundTrip(v, img, off + p);
  }

  lemma HeaderReadsBack(img: Bytes, e: Entry)
    requires Encodable(e) && e.off + HdrLen(e.name) <= |img|
    requires img[e.off..e.off + HdrLen(e.name)] == Header(e)
    ensures HeaderAt(img, e.off, e.nxt + e.kind, SpecField(e), |e.data|, e.name)
  {
    var h, n := Header(e), |e.name|;
    HeaderFields(e);
    WordAt(img, e.off, h, 0, e.nxt + e.kind);
    WordAt(img, e.off, h, 4, SpecField(e));
    WordAt(img, e.off, h, 8, |e.data|);
    SubSlice(img, e.off, h, 16, 16 + n);
    SubSlice(img, e.off, h, 16 + n, 17 + n);
    assert img[e.off + 16 + n] == img[e.off + (16 + n)..e.off + (17 + n)][0] == h[16 + n..17 + n][0];
  }

  /** An emitted extent is read back as the header fields and data it was made from,
      and its header sums to zero. */
  lemma ExtentReadsBack(img: Bytes, e: Entry)
    requires Encodable(e) && e.off + TotalLen(e) <= |img|
    requires img[e.off..e.off + TotalLen(e)] == Extent(e)
    ensures HeaderAt(img, e.off, e.nxt + e.kind, SpecField(e), |e.data|, e.name)
    ensures img[e.off + HdrLen(e.name)..e.off + HdrLen(e.name) + |e.data|] == e.data
    ensures SumWords(img[e.off..e.off + HdrLen(e.name)]) % WORD == 0
  {
    hide RawHeader, HeaderAt, FromBe32;
    var h, d := Header(e), PaddedData(e);
    SplitSlice(img, e.off, h, d);
    ChecksumZeroes(RawHeader(e));
    HeaderReadsBack(img, e);
    SubSlice(img, e.off + |h|, d, 0, |e.data|);
  }
}
