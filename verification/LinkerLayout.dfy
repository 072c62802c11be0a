/** Section layout of buildroot/board-esp32p4/mkflt.lua: allocatable sections end to end, each on its
    own alignment, those with contents first and zero-filled ones last; then the bytes copied in. */
module LinkerLayout {
  import Linker

  datatype Section = Section(alloc: bool, nobits: bool, size: nat, align: nat, bytes: seq<bv8>)

  type Bases = map<nat, nat>

  function AlignUp(len: nat, a: nat): (r: nat) {
    if a > 1 then (len + a - 1) / a * a else len
  }

  lemma ProductAtLeast(d: nat, a: nat)
    requires d >= 1
    ensures d * a >= a
  {
  }

  lemma RemainderIsZero(q: nat, a: nat)
    requires a > 0
    ensures q * a % a == 0
  {
    var x := q * a;
    var p, r := x / a, x % a;
    assert x == p * a + r;
    if q > p {
      assert (q - p) * a == r;
      ProductAtLeast(q - p, a);
    } else if p > q {
      assert (p - q) * a == -r;
      ProductAtLeast(p - q, a);
    }
  }

  lemma AlignUpIsNext(len: nat, a: nat)
    ensures a <= 1 ==> AlignUp(len, a) == len
    ensures len <= AlignUp(len, a) && (a > 1 ==> AlignUp(len, a) % a == 0 && AlignUp(len, a) < len + a)
  {
    if a > 1 {
      var x := len + a - 1;
      assert x == x / a * a + x % a;
      RemainderIsZero(x / a, a);
    }
  }

  predicate Wanted(s: Section, nobits: bool) {
    s.alloc && s.size > 0 && s.nobits == nobits
  }

  predicate Aligned(s: Section, at: nat) {
    s.align > 1 ==> at % s.align == 0
  }

  /** Section `k` lies on its alignment between `lo` and `hi`. */
  predicate Within(s: Section, k: nat, base: Bases, lo: nat, hi: nat) {
    k in base && lo <= base[k] && base[k] + s.size <= hi && Aligned(s, base[k])
  }

  /** Section `k` ends before section `l` begins. */
  predicate Before(s: Section, k: nat, l: nat, base: Bases) {
    k in base && l in base && base[k] + s.size <= base[l]
  }

  /** The sections below `n` of one kind have been placed between `lo` and `hi`: in order, aligned, without overlap. */
  ghost predicate PlacedUpTo(secs: seq<Section>, n: nat, nobits: bool, base: Bases, lo: nat, hi: nat)
    requires n <= |secs|
  {
    && lo <= hi
    && (forall k: nat :: k < n && Wanted(secs[k], nobits) ==> Within(secs[k], k, base, lo, hi))
    && (forall k: nat, l: nat :: k < l < n && Wanted(secs[k], nobits) && Wanted(secs[l], nobits) ==>
          Before(secs[k], k, l, base))
  }

  /** `base` is `base0` with exactly the wanted sections below `n` added. */
  ghost predicate Extended(secs: seq<Section>, n: nat, nobits: bool, base0: Bases, base: Bases)
    requires n <= |secs|
  {
    && (forall k: nat :: k in base <==> k in base0 || (k < n && Wanted(secs[k], nobits)))
    && (forall k: nat :: k in base0 ==> base[k] == base0[k])
  }

  lemma ExtendedOne(secs: seq<Section>, n: nat, nobits: bool, base0: Bases, was: Bases, base: Bases)
    requires n < |secs| && Extended(secs, n, nobits, base0, was) && n !in base0
    requires Wanted(secs[n], nobits) && n in base && base == was[n := base[n]]
    ensures Extended(secs, n + 1, nobits, base0, base)
  {
    hide Wanted;
  }

  /** How long the image is once the wanted sections below `n` have been placed. */
  function Length(secs: seq<Section>, n: nat, nobits: bool, len: nat): nat
    requires n <= |secs|
  {
    if n == 0 then len
    else
      var before := Length(secs, n - 1, nobits, len);
      if Wanted(secs[n - 1], nobits) then AlignUp(before, secs[n - 1].align) + secs[n - 1].size else before
  }

  /** Each wanted section below `n` stands at the first multiple of its alignment behind those before it. */
  ghost predicate Tight(secs: seq<Section>, n: nat, nobits: bool, base: Bases, len: nat)
    requires n <= |secs|
  {
    forall k: nat :: k < n && Wanted(secs[k], nobits) ==> TightAt(secs, k, nobits, base, len)
  }

  ghost predicate TightAt(secs: seq<Section>, k: nat, nobits: bool, base: Bases, len: nat)
    requires k < |secs|
  {
    var end := Length(secs, k, nobits, len);
    k in base && end <= base[k] && (secs[k].align <= 1 ==> base[k] == end)
    && (secs[k].align > 1 ==> base[k] < end + secs[k].align && base[k] % secs[k].align == 0)
  }

  lemma TightOne(secs: seq<Section>, n: nat, nobits: bool, was: Bases, base: Bases, len: nat)
    requires n < |secs| && Tight(secs, n, nobits, was, len) && n !in was && Wanted(secs[n], nobits)
    requires base == was[n := AlignUp(Length(secs, n, nobits, len), secs[n].align)]
    ensures Tight(secs, n + 1, nobits, base, len)
  {
    hide Wanted, AlignUp;
    AlignUpIsNext(Length(secs, n, nobits, len), secs[n].align);
    forall k: nat | k < n + 1 && Wanted(secs[k], nobits)
      ensures TightAt(secs, k, nobits, base, len)
    {
      if k < n { assert TightAt(secs, k, nobits, was, len); }
    }
  }

  /** One pass over the sections. */
  method Place(secs: seq<Section>, nobits: bool, base0: Bases, len0: nat) returns (base: Bases, len: nat)
    requires forall k: nat :: k in base0 ==> k < |secs| && !Wanted(secs[k], nobits)
    ensures PlacedUpTo(secs, |secs|, nobits, base, len0, len)
    ensures Extended(secs, |secs|, nobits, base0, base)
    ensures (forall k: nat :: 0 <= k < |secs| ==> !Wanted(secs[k], nobits)) ==> len == len0
    ensures Tight(secs, |secs|, nobits, base, len0) && len == Length(secs, |secs|, nobits, len0)
  {
    hide PlacedUpTo, Extended, Aligned, AlignUp, Wanted, Tight, Length;
    PlaceStart(secs, nobits, base0, len0);
    base, len := base0, len0;
    for n := 0 to |secs|
      invariant PlacedUpTo(secs, n, nobits, base, len0, len)
      invariant Extended(secs, n, nobits, base0, base)
      invariant len == len0 || exists k: nat :: k < n && Wanted(secs[k], nobits)
      invariant Tight(secs, n, nobits, base, len0) && len == Length(secs, n, nobits, len0)
    {
      var s := secs[n];
      ghost var was, from := base, len;
      LengthNext(secs, n, nobits, len0);
      if Wanted(s, nobits) {
        AlignUpIsNext(len, s.align);
        len := AlignUp(len, s.align);
        AlignUpAligned(from, s);
        base := base[n := len];
        len := len + s.size;
        NotYet(secs, n, nobits, base0, was);
        TightOne(secs, n, nobits, was, base, len0);
        ExtendedOne(secs, n, nobits, base0, was, base);
        PlacedOne(secs, n, nobits, was, len0, from, base, len);
      } else {
        TightSkip(secs, n, nobits, base, len0);
        ExtendedSkip(secs, n, nobits, base0, base);
        PlacedSkip(secs, n, nobits, base, len0, len);
      }
    }
  }

  lemma PlaceStart(secs: seq<Section>, nobits: bool, base0: Bases, len0: nat)
    ensures PlacedUpTo(secs, 0, nobits, base0, len0, len0) && Extended(secs, 0, nobits, base0, base0)
    ensures Tight(secs, 0, nobits, base0, len0) && Length(secs, 0, nobits, len0) == len0
  {
  }

  lemma LengthNext(secs: seq<Section>, n: nat, nobits: bool, len: nat)
    requires n < |secs|
    ensures Length(secs, n + 1, nobits, len) ==
              if Wanted(secs[n], nobits) then AlignUp(Length(secs, n, nobits, len), secs[n].align) + secs[n].size
              else Length(secs, n, nobits, len)
  {
  }

  lemma TightSkip(secs: seq<Section>, n: nat, nobits: bool, base: Bases, len: nat)
    requires n < |secs| && Tight(secs, n, nobits, base, len) && !Wanted(secs[n], nobits)
    ensures Tight(secs, n + 1, nobits, base, len)
  {
    hide Wanted, TightAt;
  }

  lemma TightKept(secs: seq<Section>, nobits: bool, base: Bases, more: Bases, len: nat)
    requires Tight(secs, |secs|, nobits, base, len) && forall k: nat :: k in base ==> k in more && more[k] == base[k]
    ensures Tight(secs, |secs|, nobits, more, len)
  {
    hide Wanted, Length;
    forall k: nat | k < |secs| && Wanted(secs[k], nobits)
      ensures TightAt(secs, k, nobits, more, len)
    {
      assert TightAt(secs, k, nobits, base, len);
    }
  }

  lemma NotYet(secs: seq<Section>, n: nat, nobits: bool, base0: Bases, was: Bases)
    requires n < |secs| && Extended(secs, n, nobits, base0, was) && n !in base0
    ensures n !in was
  {
    hide Wanted;
  }

  lemma AlignUpAligned(len: nat, s: Section)
    ensures Aligned(s, AlignUp(len, s.align))
  {
    AlignUpIsNext(len, s.align);
  }

  lemma ExtendedSkip(secs: seq<Section>, n: nat, nobits: bool, base0: Bases, base: Bases)
    requires n < |secs| && Extended(secs, n, nobits, base0, base) && !Wanted(secs[n], nobits)
    ensures Extended(secs, n + 1, nobits, base0, base)
  {
    hide Wanted;
  }

  lemma PlacedSkip(secs: seq<Section>, n: nat, nobits: bool, base: Bases, lo: nat, hi: nat)
    requires n < |secs| && PlacedUpTo(secs, n, nobits, base, lo, hi) && !Wanted(secs[n], nobits)
    ensures PlacedUpTo(secs, n + 1, nobits, base, lo, hi)
  {
    hide Aligned, Wanted;
  }

  lemma PlacedOne(secs: seq<Section>, n: nat, nobits: bool, was: Bases, lo: nat, from: nat, base: Bases, hi: nat)
    requires n < |secs| && PlacedUpTo(secs, n, nobits, was, lo, from) && n in base && base == was[n := base[n]]
    requires from <= base[n] && hi == base[n] + secs[n].size && Aligned(secs[n], base[n])
    ensures PlacedUpTo(secs, n + 1, nobits, base, lo, hi)
  {
    hide Aligned, AlignUp, Wanted;
    forall k: nat | k < n + 1 && Wanted(secs[k], nobits)
      ensures Within(secs[k], k, base, lo, hi)
    {
      assert k < n ==> Within(secs[k], k, was, lo, from);
    }
    forall k: nat, l: nat | k < l < n + 1 && Wanted(secs[k], nobits) && Wanted(secs[l], nobits)
      ensures Before(secs[k], k, l, base)
    {
      assert Within(secs[k], k, was, lo, from);
      assert l < n ==> Before(secs[k], k, l, was);
    }
  }

  /** The memory map: every allocatable section placed, contents below `stored`, zero-filled ones above. */
  ghost predicate Mapped(secs: seq<Section>, base: Bases, stored: nat, len: nat) {
    && (forall k: nat :: k in base <==> k < |secs| && secs[k].alloc && secs[k].size > 0)
    && PlacedUpTo(secs, |secs|, false, base, 0, stored)
    && PlacedUpTo(secs, |secs|, true, base, stored, len)
  }

  /** No two sections overlap, and none lies outside the image. */
  lemma MappedDisjoint(secs: seq<Section>, base: Bases, stored: nat, len: nat, k: nat, l: nat)
    requires Mapped(secs, base, stored, len) && k in base && l in base && k != l
    ensures base[k] + secs[k].size <= base[l] || base[l] + secs[l].size <= base[k]
    ensures base[k] + secs[k].size <= len && Aligned(secs[k], base[k])
    ensures secs[k].nobits <==> base[k] >= stored
  {
    assert Wanted(secs[k], secs[k].nobits) && Wanted(secs[l], secs[l].nobits);
  }

  /** Both passes; false when there is nothing to load. */
  method LayOut(secs: seq<Section>) returns (ok: bool, base: Bases, stored: nat, len: nat)
    ensures Mapped(secs, base, stored, len)
    ensures Tight(secs, |secs|, false, base, 0) && stored == Length(secs, |secs|, false, 0)
    ensures Tight(secs, |secs|, true, base, stored) && len == Length(secs, |secs|, true, stored)
    ensures ok <==> exists k :: 0 <= k < |secs| && Wanted(secs[k], false)
  {
    hide Tight, Length;
    base, stored := Place(secs, false, map[], 0);
    assert forall k: nat :: k < |secs| && Wanted(secs[k], false) ==> Within(secs[k], k, base, 0, stored);
    ghost var contents := base;
    base, len := Place(secs, true, base, stored);
    TightKept(secs, false, contents, base, 0);
    ok := stored != 0;
  }

  /** The j-th byte of a content section is in its place. */
  ghost predicate ByteHeld(secs: seq<Section>, base: Bases, img: seq<bv8>, k: nat, j: nat)
    requires k < |secs| && k in base
  {
    j < |secs[k].bytes| && base[k] + j < |img| && img[base[k] + j] == secs[k].bytes[j]
  }

  ghost predicate Outside(secs: seq<Section>, base: Bases, k: nat, p: nat)
    requires k < |secs|
  {
    k in base && !secs[k].nobits ==> p < base[k] || base[k] + secs[k].size <= p
  }

  /** The image as the first `n` sections define it: the bytes of content sections, zero elsewhere. */
  ghost predicate Holds(secs: seq<Section>, base: Bases, img: seq<bv8>, n: nat)
    requires n <= |secs|
  {
    && (forall k: nat, j: nat :: k < n && k in base && !secs[k].nobits && j < secs[k].size ==>
          ByteHeld(secs, base, img, k, j))
    && (forall p :: 0 <= p < |img| && (forall k: nat :: k < n ==> Outside(secs, base, k, p)) ==> (img[p] == 0))
  }

  method Blit(image: array<bv8>, at: nat, bytes: seq<bv8>)
    requires at + |bytes| <= image.Length
    modifies image
    ensures image[..] == old(image[..at]) + bytes + old(image[at + |bytes|..])
  {
    for k := 0 to |bytes|
      invariant forall j :: 0 <= j < k ==> image[at + j] == bytes[j]
      invariant forall p :: 0 <= p < image.Length && !(at <= p < at + k) ==> image[p] == old(image[p])
    {
      image[at + k] := bytes[k];
    }
  }

  lemma BlitHolds(secs: seq<Section>, base: Bases, stored: nat, img: seq<bv8>, img': seq<bv8>, n: nat)
    requires Mapped(secs, base, stored, |img|) && n < |secs| && Holds(secs, base, img, n)
    requires n in base && !secs[n].nobits && |secs[n].bytes| == secs[n].size && base[n] + secs[n].size <= |img|
    requires img' == img[..base[n]] + secs[n].bytes + img[base[n] + secs[n].size..]
    ensures Holds(secs, base, img', n + 1)
  {
    var at, size := base[n], secs[n].size;
    forall k: nat, j: nat | k < n + 1 && k in base && !secs[k].nobits && j < secs[k].size
      ensures ByteHeld(secs, base, img', k, j)
    {
      if k < n {
        MappedDisjoint(secs, base, stored, |img|, k, n);
        assert ByteHeld(secs, base, img, k, j);
      }
    }
    forall p | 0 <= p < |img'| && forall k: nat :: k < n + 1 ==> Outside(secs, base, k, p)
      ensures img'[p] == 0
    {
      assert Outside(secs, base, n, p);
      assert img'[p] == img[p];
    }
  }

  /** Make the image: zeroes, with each content section's bytes copied to its place. It fails when a
      section's bytes are not as many as its header says. */
  method Load(secs: seq<Section>, base: Bases, stored: nat, len: nat) returns (ok: bool, image: array<bv8>)
    requires Mapped(secs, base, stored, len)
    ensures fresh(image)
    ensures ok <==> forall k: nat :: k in base && !secs[k].nobits ==> |secs[k].bytes| == secs[k].size
    ensures ok ==> image.Length == len && Holds(secs, base, image[..], |secs|)
  {
    image := new bv8[len](_ => 0);
    for n := 0 to |secs|
      invariant image.Length == len && fresh(image)
      invariant Holds(secs, base, image[..], n)
      invariant forall k: nat :: 0 <= k < n && k in base && !secs[k].nobits ==> |secs[k].bytes| == secs[k].size
    {
      hide PlacedUpTo, Holds;
      if n in base && !secs[n].nobits {
        if |secs[n].bytes| != secs[n].size { return false, image; }
        InsideImage(secs, base, stored, len, n);
        ghost var was := image[..];
        Blit(image, base[n], secs[n].bytes);
        BlitHolds(secs, base, stored, was, image[..], n);
      } else {
        SkippedHolds(secs, base, image[..], n);
      }
    }
    ok := true;
  }

  lemma InsideImage(secs: seq<Section>, base: Bases, stored: nat, len: nat, n: nat)
    requires Mapped(secs, base, stored, len) && n in base
    ensures n < |secs| && base[n] + secs[n].size <= len
  {
    assert Wanted(secs[n], secs[n].nobits);
  }

  lemma SkippedHolds(secs: seq<Section>, base: Bases, img: seq<bv8>, n: nat)
    requires n < |secs| && Holds(secs, base, img, n) && (n !in base || secs[n].nobits)
    ensures Holds(secs, base, img, n + 1)
  {
    forall k: nat, j: nat | k < n + 1 && k in base && !secs[k].nobits && j < secs[k].size
      ensures ByteHeld(secs, base, img, k, j)
    {
    }
    assert forall p :: Outside(secs, base, n, p);
  }

  /** Everything from the end of the stored sections on is zero: the memory of the zero-filled sections. */
  lemma TailIsZero(secs: seq<Section>, base: Bases, stored: nat, img: seq<bv8>, p: nat)
    requires Mapped(secs, base, stored, |img|) && Holds(secs, base, img, |secs|) && stored <= p < |img|
    ensures img[p] == 0
  {
    forall k: nat | k < |secs|
      ensures Outside(secs, base, k, p)
    {
      if k in base && !secs[k].nobits { assert Wanted(secs[k], false); }
    }
  }

  /** Lay out, load and relocate. It fails exactly when there is nothing to load, a section's bytes are not
      as many as its header says, or a relocation is refused; otherwise the image is the loaded sections
      with every relocation applied in order. */
  method Link(secs: seq<Section>, relocs: seq<Linker.Reloc>, syms: Linker.Symbols)
    returns (ok: bool, image: array<bv8>, ghost loaded: seq<bv8>, ghost base: Bases, ghost stored: nat)
    ensures Mapped(secs, base, stored, |loaded|)
    ensures Tight(secs, |secs|, false, base, 0) && stored == Length(secs, |secs|, false, 0)
    ensures Tight(secs, |secs|, true, base, stored) && |loaded| == Length(secs, |secs|, true, stored)
    ensures Complete(secs, base) ==> Holds(secs, base, loaded, |secs|)
    ensures ok <==> Complete(secs, base) && Linker.Accepted(relocs, syms, |loaded|)
    ensures ok ==> Linker.AfterAll(relocs, |relocs|, syms, loaded).Some?
    ensures ok ==> image[..] == Linker.AfterAll(relocs, |relocs|, syms, loaded).value.img
  {
    hide Complete;
    hide Mapped, Holds, Tight, Length, Linker.AfterAll, Wanted, Linker.Refuses, Linker.Sites;
    var fits, bases, end, len := LayOut(secs);
    base, stored := bases, end;
    var made, blank := Load(secs, bases, end, len);
    image := blank;
    loaded := seq(len, _ => 0);
    CompleteMeans(secs, bases, end, len);
    if !made { return false, image, loaded, base, stored; }
    loaded := image[..];
    if !fits { return false, image, loaded, base, stored; }
    var patcher := new Linker.Patcher(image);
    ok := patcher.ApplyAll(relocs, syms);
  }

  lemma CompleteMeans(secs: seq<Section>, base: Bases, stored: nat, len: nat)
    requires Mapped(secs, base, stored, len)
    ensures Complete(secs, base) <==>
              (exists k :: 0 <= k < |secs| && Wanted(secs[k], false))
              && forall k: nat :: k in base && !secs[k].nobits ==> |secs[k].bytes| == secs[k].size
  {
    hide Wanted, PlacedUpTo;
  }

  /** Some section has contents, and those placed have as many bytes as their headers say. */
  ghost predicate Complete(secs: seq<Section>, base: Bases) {
    && (exists k :: 0 <= k < |secs| && Wanted(secs[k], false))
    && forall k: nat :: k in base && k < |secs| && !secs[k].nobits ==> |secs[k].bytes| == secs[k].size
  }
}
