/** The layout pass of buildroot/board-esp32p4/mkromfs.py: breadth first, the entries of a
    directory in one run, explicit sibling links, page alignment for large executables. */
module RomfsLayout {
  import opened RomfsFormat
  import opened RomfsTree
  import opened RomfsReader

  // ---- where entries go ---------------------------------------------------

  function End(e: Entry): nat {
    e.off + TotalLen(e)
  }

  lemma PageRemainder(x: nat)
    requires x % 16 == 0
    ensures x % PAGE % 16 == 0 && x % PAGE < PAGE
  {
    var q := x / 16;
    assert x % PAGE == 16 * (q % 256);
  }

  /** The first place from `cursor` on where a header of `n` bytes ends on a page. */
  function OnPage(cursor: nat, n: nat): (r: nat)
    requires cursor % 16 == 0 && n % 16 == 0
    ensures cursor <= r < cursor + PAGE && r % 16 == 0 && (r + n) % PAGE == 0
  {
    PageAhead(cursor, n);
    Ahead(cursor, (cursor + n) % PAGE)
  }

  function Ahead(cursor: nat, overshoot: nat): (r: nat)
    requires overshoot < PAGE
    ensures cursor <= r < cursor + PAGE
  {
    if overshoot != 0 then cursor + PAGE - overshoot else cursor
  }

  lemma PageAhead(cursor: nat, n: nat)
    requires cursor % 16 == 0 && n % 16 == 0
    ensures var r := Ahead(cursor, (cursor + n) % PAGE); r % 16 == 0 && (r + n) % PAGE == 0
  {
    var o := (cursor + n) % PAGE;
    if o != 0 {
      PageRemainder(cursor + n);
      StaysAligned(cursor, cursor / 16, o, o / 16);
      ReachesPage(cursor + n, (cursor + n) / PAGE, o);
    }
  }

  lemma StaysAligned(cursor: nat, a: nat, o: nat, c: nat)
    requires cursor == 16 * a && o == 16 * c && c < 256
    ensures (cursor + PAGE - o) % 16 == 0
  {
    MultiplesOf16(a + 256 - c);
  }

  lemma ReachesPage(x: nat, q: nat, o: nat)
    requires x == PAGE * q + o && o < PAGE
    ensures (x + PAGE - o) % PAGE == 0
  {
    WholePages(q + 1);
  }

  lemma WholePages(q: nat)
    ensures PAGE * q % PAGE == 0
  {
  }

  /** Where an entry goes when the layout has reached `cursor`: padded ahead of the header
      when its data must start on a page, right at the cursor otherwise. */
  function PlaceAt(cursor: nat, e: Entry): (r: nat)
    requires cursor % 16 == 0
    ensures cursor <= r < cursor + PAGE && r % 16 == 0
    ensures WantsPageAlign(e) ==> (r + HdrLen(e.name)) % PAGE == 0
    ensures !WantsPageAlign(e) ==> r == cursor
  {
    if WantsPageAlign(e) then OnPage(cursor, HdrLen(e.name)) else cursor
  }

  /** Entries from `lo` to `hi` in order of emission: aligned, disjoint, increasing, each
      placed where the layout had got to. */
  ghost predicate InOrder(es: seq<Entry>, lo: nat, hi: nat) {
    && (forall i :: 0 <= i < |es| ==> lo <= es[i].off && es[i].off % 16 == 0 && End(es[i]) <= hi)
    && (forall i, j :: 0 <= i < j < |es| ==> End(es[i]) <= es[j].off)
    && (forall i :: 0 <= i < |es| && WantsPageAlign(es[i]) ==> (es[i].off + HdrLen(es[i].name)) % PAGE == 0)
  }

  ghost predicate LinkedOn(es: seq<Entry>, k: nat, n: nat)
    requires k < n <= |es|
  {
    es[k].nxt == if k + 1 < n then es[k + 1].off else 0
  }

  /** Entries `f` up to `n` form a chain that ends there. */
  ghost predicate Linked(es: seq<Entry>, f: nat, n: nat)
    requires f <= n <= |es|
  {
    forall k :: f <= k < n ==> LinkedOn(es, k, n)
  }

  /** The cursor when the layout reaches the k-th entry of a run. */
  function CursorAt(es: seq<Entry>, start: nat, k: nat): nat
    requires k <= |es|
  {
    if k == 0 then start else End(es[k - 1])
  }

  ghost predicate WellPlaced(es: seq<Entry>, start: nat, k: nat)
    requires k < |es|
  {
    var before := CursorAt(es, start, k);
    before % 16 == 0 && es[k].off == PlaceAt(before, es[k])
  }

  /** The first `n` entries of a run stand one after another, each where the padding rule puts it. */
  ghost predicate Chained(es: seq<Entry>, start: nat, n: nat)
    requires n <= |es|
  {
    forall k :: 0 <= k < n ==> WellPlaced(es, start, k)
  }

  lemma EndIsAligned(e: Entry)
    requires e.off % 16 == 0
    ensures End(e) % 16 == 0
  {
    var a, b, c := e.off / 16, HdrLen(e.name) / 16, Pad16(|e.data|) / 16;
    MultiplesOf16(a + b + c);
    assert End(e) == 16 * (a + b + c);
  }

  lemma {:induction false} ChainedAscends(es: seq<Entry>, start: nat, n: nat, i: nat)
    requires n <= |es| && Chained(es, start, n) && i <= n
    ensures CursorAt(es, start, i) <= CursorAt(es, start, n)
    decreases n
  {
    if i < n {
      ChainedAscends(es, start, n - 1, i);
      assert WellPlaced(es, start, n - 1);
    }
  }

  /** A run placed by the rule is aligned, disjoint and increasing. */
  lemma ChainedInOrder(es: seq<Entry>, start: nat)
    requires Chained(es, start, |es|)
    ensures InOrder(es, start, CursorAt(es, start, |es|))
  {
    hide TotalLen;
    forall i | 0 <= i < |es|
      ensures start <= es[i].off && es[i].off % 16 == 0 && End(es[i]) <= CursorAt(es, start, |es|)
      ensures WantsPageAlign(es[i]) ==> (es[i].off + HdrLen(es[i].name)) % PAGE == 0
    {
      assert WellPlaced(es, start, i);
      ChainedAscends(es, start, i, 0);
      ChainedAscends(es, start, |es|, i + 1);
    }
    forall i, j | 0 <= i < j < |es|
      ensures End(es[i]) <= es[j].off
    {
      assert WellPlaced(es, start, j);
      ChainedAscends(es, start, j, i + 1);
    }
  }

  /** A run placed where another ends is one longer run. */
  lemma ChainedJoin(a: seq<Entry>, b: seq<Entry>, start: nat)
    requires Chained(a, start, |a|) && Chained(b, CursorAt(a, start, |a|), |b|)
    ensures Chained(a + b, start, |a + b|)
    ensures CursorAt(a + b, start, |a + b|) == CursorAt(b, CursorAt(a, start, |a|), |b|)
  {
    hide PlaceAt, TotalLen;
    var c, mid := a + b, CursorAt(a, start, |a|);
    forall k | 0 <= k < |c| ensures WellPlaced(c, start, k) {
      if k < |a| {
        assert WellPlaced(a, start, k);
      } else {
        assert WellPlaced(b, mid, k - |a|);
      }
    }
  }

  /** Where a run stands does not depend on specs and links. */
  lemma ChainedSame(a: seq<Entry>, b: seq<Entry>, start: nat)
    requires |a| == |b| && Chained(a, start, |a|)
    requires forall k :: 0 <= k < |a| ==> b[k] == a[k].(spec := b[k].spec, nxt := b[k].nxt)
    ensures Chained(b, start, |b|) && CursorAt(b, start, |b|) == CursorAt(a, start, |a|)
  {
    hide PlaceAt, TotalLen;
    forall k | 0 <= k < |a| ensures End(b[k]) == End(a[k]) {
      SameEnd(a[k], b[k]);
    }
    forall k | 0 <= k < |b| ensures WellPlaced(b, start, k) {
      assert WellPlaced(a, start, k);
      SamePlace(CursorAt(a, start, k), a[k], b[k]);
    }
  }

  lemma SameEnd(a: Entry, b: Entry)
    requires a.name == b.name && a.data == b.data && a.off == b.off
    ensures End(a) == End(b)
  {
  }

  /** Give each entry of a run its offset. */
  method PlaceRun(run: seq<Entry>, start: nat) returns (es: seq<Entry>, cursor: nat)
    requires start % 16 == 0
    ensures |es| == |run| && forall i :: 0 <= i < |es| ==> es[i] == run[i].(off := es[i].off)
    ensures Chained(es, start, |es|) && cursor == CursorAt(es, start, |es|) && cursor % 16 == 0
  {
    es, cursor := run, start;
    var i := 0;
    while i < |es|
      invariant 0 <= i <= |es| == |run|
      invariant forall k :: 0 <= k < |es| ==> es[k] == run[k].(off := es[k].off)
      invariant Chained(es, start, i) && cursor == CursorAt(es, start, i) && cursor % 16 == 0
    {
      hide PlaceAt, TotalLen;
      ghost var was := es;
      es := es[i := es[i].(off := PlaceAt(cursor, es[i]))];
      SamePlace(cursor, run[i], es[i]);
      forall k | 0 <= k < i ensures WellPlaced(es, start, k) {
        assert WellPlaced(was, start, k);
      }
      EndIsAligned(es[i]);
      cursor := End(es[i]);
      i := i + 1;
    }
  }

  lemma SamePlace(cursor: nat, a: Entry, b: Entry)
    requires cursor % 16 == 0 && a.name == b.name && a.kind == b.kind && a.data == b.data
    ensures PlaceAt(cursor, a) == PlaceAt(cursor, b)
  {
  }

  /** Link the entries of a run to one another. */
  method LinkRun(run: seq<Entry>) returns (es: seq<Entry>)
    ensures |es| == |run| && forall i :: 0 <= i < |es| ==> es[i] == run[i].(nxt := es[i].nxt)
    ensures Linked(es, 0, |es|)
  {
    es := run;
    var i := 0;
    while i < |es|
      invariant 0 <= i <= |es| == |run|
      invariant forall k :: 0 <= k < |es| ==> es[k] == run[k].(nxt := es[k].nxt)
      invariant forall k :: 0 <= k < i ==> LinkedOn(es, k, |es|)
    {
      ghost var was := es;
      es := es[i := es[i].(nxt := if i + 1 < |es| then es[i + 1].off else 0)];
      forall k | 0 <= k < i ensures LinkedOn(es, k, |es|) {
        assert LinkedOn(was, k, |es|);
      }
      i := i + 1;
    }
  }
}
