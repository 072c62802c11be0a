/** The relocation loop of buildroot/board-esp32p4/mkflt.lua, run over a whole image, and what every
    relocated instruction then does wherever the image is loaded. */
module Linker {
  import opened Relocations

  datatype Option<T> = None | Some(value: T)

  /** Relocation types, by what the loop does with them. `Refused` stands for the types it reports by
      name: stored pointers, GOT, ALIGN, the narrow label-arithmetic forms, and anything unknown. */
  datatype Kind =
    | Nothing | RvPcrel | PcrelHi20 | PcrelLo12I | PcrelLo12S | AbsHi20 | AbsLo12I | AbsLo12S
    | Branch | Jal | Call | Add32 | Sub32 | Set32 | Refused

  /** One relocation: where in the image, against which symbol, plus what. */
  datatype Reloc = Reloc(kind: Kind, at: bv32, sym: nat, addend: bv32)

  /** Symbol addresses; an undefined symbol has none. */
  type Symbols = seq<Option<bv32>>

  /** The image, and the value computed at each PCREL_HI20 site so far. */
  datatype State = State(img: Image, hi: map<nat, bv32>)

  function Offset(w: bv32): nat { w as nat }

  function Site(r: Reloc): nat { Offset(r.at) }

  function Width(r: Reloc): nat {
    match r.kind
    case Nothing => 0
    case Call => 8
    case _ => 4
  }

  function SymAddr(syms: Symbols, r: Reloc): Option<bv32> {
    if r.sym < |syms| then syms[r.sym] else None
  }

  /** How far from the site the symbol plus addend is. */
  function Distance(addr: bv32, addend: bv32, at: bv32): bv32 {
    addr + addend - at
  }

  function Sub(a: bv32, b: bv32): bv32 { a - b }

  /** The value a relocation puts into its field; nothing when the loop gives up on it. */
  function Value(r: Reloc, syms: Symbols, hi: map<nat, bv32>): Option<bv32> {
    match SymAddr(syms, r)
    case None => None
    case Some(s) =>
      match r.kind
      case Nothing => None
      case Refused => None
      case PcrelLo12I => if Offset(s) in hi then Some(hi[Offset(s)]) else None
      case PcrelLo12S => if Offset(s) in hi then Some(hi[Offset(s)]) else None
      case AbsHi20 => Some(Add(s, r.addend))
      case AbsLo12I => Some(Add(s, r.addend))
      case AbsLo12S => Some(Add(s, r.addend))
      case Add32 => Some(Add(s, r.addend))
      case Sub32 => Some(Add(s, r.addend))
      case Set32 => Some(Add(s, r.addend))
      case Branch => var v := Distance(s, r.addend, r.at); if InRange(v, 0x1000) then Some(v) else None
      case Jal => var v := Distance(s, r.addend, r.at); if InRange(v, 0x10_0000) then Some(v) else None
      case _ => Some(Distance(s, r.addend, r.at))
  }

  /** The word at the site with the value in place. */
  function Patched(kind: Kind, w: bv32, v: bv32): bv32 {
    match kind
    case Nothing => w
    case Refused => w
    case RvPcrel => v
    case PcrelHi20 => PutU(w, Hi20(v))
    case AbsHi20 => PutU(w, Hi20(v))
    case Call => PutU(w, Hi20(v))
    case PcrelLo12I => PutI(w, Lo12(v))
    case AbsLo12I => PutI(w, Lo12(v))
    case PcrelLo12S => PutS(w, Lo12(v))
    case AbsLo12S => PutS(w, Lo12(v))
    case Branch => PutB(w, v)
    case Jal => PutJ(w, v)
    case Add32 => Add(w, v)
    case Sub32 => Sub(w, v)
    case Set32 => v
  }

  /** One turn of the loop. */
  function Applied(r: Reloc, syms: Symbols, s: State): (t: Option<State>)
    ensures t.Some? ==> |t.value.img| == |s.img|
  {
    if r.kind.Nothing? then Some(s)
    else if Site(r) + Width(r) > |s.img| then None
    else match Value(r, syms, s.hi)
      case None => None
      case Some(v) =>
        var img := Wr32(s.img, Site(r), Patched(r.kind, Rd32(s.img, Site(r)), v));
        if r.kind.Call? then
          Some(s.(img := Wr32(img, Site(r) + 4, PutI(Rd32(img, Site(r) + 4), Lo12(v)))))
        else if r.kind.PcrelHi20? then Some(State(img, s.hi[Site(r) := v]))
        else Some(s.(img := img))
  }

  /** The state after the first `n` relocations. */
  function AfterAll(relocs: seq<Reloc>, n: nat, syms: Symbols, img: Image): (t: Option<State>)
    requires n <= |relocs|
    ensures t.Some? ==> |t.value.img| == |img|
  {
    if n == 0 then Some(State(img, map[]))
    else match AfterAll(relocs, n - 1, syms, img)
      case None => None
      case Some(s) => Applied(relocs[n - 1], syms, s)
  }

  // ---- what the script refuses ---------------------------------------------------

  /** Why the script stops at a relocation: its site leaves the image, its symbol is undefined, its kind is
      one it reports by name, no HI20 stands where a LO12 points, or a branch or jal is out of range. `sites`
      are those of the HI20s before it. */
  predicate Refuses(r: Reloc, syms: Symbols, sites: set<nat>, size: nat) {
    !r.kind.Nothing? &&
    (|| Offset(r.at) + (if r.kind.Call? then 8 else 4) > size
     || r.sym >= |syms| || syms[r.sym].None? || r.kind.Refused?
     || ((r.kind.PcrelLo12I? || r.kind.PcrelLo12S?) && Offset(syms[r.sym].value) !in sites)
     || (r.kind.Branch? && !Signed13(Away(syms[r.sym].value, r.addend, r.at)))
     || (r.kind.Jal? && !Signed21(Away(syms[r.sym].value, r.addend, r.at))))
  }

  /** How many bytes further, or back, the symbol plus addend is, in two's complement. */
  function Away(to: bv32, addend: bv32, at: bv32): bv32 {
    to + addend - at
  }

  lemma AwayIsDistance(to: bv32, addend: bv32, at: bv32)
    ensures Away(to, addend, at) == Distance(to, addend, at)
  {
  }

  lemma AppliedUnlessRefused(r: Reloc, syms: Symbols, s: State)
    ensures Applied(r, syms, s).None? <==> Refuses(r, syms, s.hi.Keys, |s.img|)
  {
    hide Patched, Rd32, Wr32, PutI, Lo12, InRange, Signed13, Signed21, Add, Away, Distance, Offset;
    if !r.kind.Nothing? && SymAddr(syms, r).Some? {
      AwayIsDistance(SymAddr(syms, r).value, r.addend, r.at);
      RangeIs13(Distance(SymAddr(syms, r).value, r.addend, r.at));
      RangeIs21(Distance(SymAddr(syms, r).value, r.addend, r.at));
    }
  }

  /** Where the HI20s among the first `n` relocations stand. */
  function Sites(relocs: seq<Reloc>, n: nat): set<nat>
    requires n <= |relocs|
  {
    set j | 0 <= j < n && relocs[j].kind.PcrelHi20? :: Offset(relocs[j].at)
  }

  /** Nothing in the list is refused. */
  ghost predicate Accepted(relocs: seq<Reloc>, syms: Symbols, size: nat) {
    forall k :: 0 <= k < |relocs| ==> !Refuses(relocs[k], syms, Sites(relocs, k), size)
  }

  lemma TableStep(relocs: seq<Reloc>, n: nat, syms: Symbols, s: State)
    requires n < |relocs| && Applied(relocs[n], syms, s).Some? && s.hi.Keys == Sites(relocs, n)
    ensures Applied(relocs[n], syms, s).value.hi.Keys == Sites(relocs, n + 1)
  {
    hide Patched, Rd32, Wr32, PutI, Lo12, Value;
  }

  lemma {:induction false} TableSites(relocs: seq<Reloc>, n: nat, syms: Symbols, img: Image)
    requires n <= |relocs| && AfterAll(relocs, n, syms, img).Some?
    ensures AfterAll(relocs, n, syms, img).value.hi.Keys == Sites(relocs, n)
  {
    hide Applied;
    if n > 0 {
      TableSites(relocs, n - 1, syms, img);
      TableStep(relocs, n - 1, syms, AfterAll(relocs, n - 1, syms, img).value);
    }
  }

  /** The whole list goes through exactly when none of it is refused. */
  lemma {:induction false} AllUnlessRefused(relocs: seq<Reloc>, n: nat, syms: Symbols, img: Image)
    requires n <= |relocs|
    ensures AfterAll(relocs, n, syms, img).Some? <==>
              forall k :: 0 <= k < n ==> !Refuses(relocs[k], syms, Sites(relocs, k), |img|)
  {
    hide Applied, Refuses, Sites;
    if n > 0 {
      AllUnlessRefused(relocs, n - 1, syms, img);
      if AfterAll(relocs, n - 1, syms, img).Some? {
        var s := AfterAll(relocs, n - 1, syms, img).value;
        TableSites(relocs, n - 1, syms, img);
        AppliedUnlessRefused(relocs[n - 1], syms, s);
      }
    }
  }

  // ---- the loop itself -------------------------------------------------------

  /** The image being patched and the table of PCREL_HI20 values, as the script keeps them. */
  class Patcher {
    const image: array<bv8>
    var hi20At: map<nat, bv32>

    constructor (image: array<bv8>)
      ensures this.image == image && hi20At == map[]
    {
      this.image := image;
      hi20At := map[];
    }

    ghost function View(): State
      reads this, image
    {
      State(image[..], hi20At)
    }

    method Put(at: nat, v: bv32)
      requires at + 4 <= image.Length
      modifies image
      ensures image[..] == Wr32(old(image[..]), at, v)
    {
      image[at] := Byte(v);
      image[at + 1] := Byte(v >> 8);
      image[at + 2] := Byte(v >> 16);
      image[at + 3] := Byte(v >> 24);
    }

    /** Read the word at a site and store it back with a value in its field. */
    method PutField(kind: Kind, at: nat, v: bv32)
      requires at + 4 <= image.Length
      modifies image
      ensures image[..] == Wr32(old(image[..]), at, Patched(kind, Rd32(old(image[..]), at), v))
    {
      hide Rd32, Wr32, PutU, PutI, PutS, PutB, PutJ, Hi20, Lo12, Add, Sub;
      var w := Rd32(image[..], at);
      match kind {
        case PcrelHi20 => w := PutU(w, Hi20(v));
        case AbsHi20 => w := PutU(w, Hi20(v));
        case Call => w := PutU(w, Hi20(v));
        case PcrelLo12I => w := PutI(w, Lo12(v));
        case AbsLo12I => w := PutI(w, Lo12(v));
        case PcrelLo12S => w := PutS(w, Lo12(v));
        case AbsLo12S => w := PutS(w, Lo12(v));
        case Branch => w := PutB(w, v);
        case Jal => w := PutJ(w, v);
        case Add32 => w := Add(w, v);
        case Sub32 => w := Sub(w, v);
        case RvPcrel => w := v;
        case Set32 => w := v;
        case _ =>
      }
      Put(at, w);
    }

    /** Apply one relocation; false where the script stops with an error. */
    method Apply(r: Reloc, syms: Symbols) returns (ok: bool)
      modifies this`hi20At, image
      ensures ok == Applied(r, syms, old(View())).Some?
      ensures ok <==> !Refuses(r, syms, old(hi20At).Keys, image.Length)
      ensures ok ==> View() == Applied(r, syms, old(View())).value
    {
      hide Applied, Refuses;
      AppliedUnlessRefused(r, syms, View());
      ok := Patch(r, syms);
    }

    method Patch(r: Reloc, syms: Symbols) returns (ok: bool)
      modifies this`hi20At, image
      ensures ok == Applied(r, syms, old(View())).Some?
      ensures ok ==> View() == Applied(r, syms, old(View())).value
    {
      hide Rd32, Wr32, PutI, Lo12, InRange, Add, Distance, Patched, Offset;
      if r.kind.Nothing? { return true; }
      var at := Site(r);
      if r.kind.Refused? || r.sym >= |syms| || syms[r.sym].None? || at + Width(r) > image.Length { return false; }
      var addr := syms[r.sym].value;
      var v;
      match r.kind {
        case PcrelLo12I =>
          if Offset(addr) !in hi20At { return false; }
          v := hi20At[Offset(addr)];
        case PcrelLo12S =>
          if Offset(addr) !in hi20At { return false; }
          v := hi20At[Offset(addr)];
        case AbsHi20 => v := Add(addr, r.addend);
        case AbsLo12I => v := Add(addr, r.addend);
        case AbsLo12S => v := Add(addr, r.addend);
        case Add32 => v := Add(addr, r.addend);
        case Sub32 => v := Add(addr, r.addend);
        case Set32 => v := Add(addr, r.addend);
        case Branch =>
          v := Distance(addr, r.addend, r.at);
          if !InRange(v, 0x1000) { return false; }
        case Jal =>
          v := Distance(addr, r.addend, r.at);
          if !InRange(v, 0x10_0000) { return false; }
        case _ => v := Distance(addr, r.addend, r.at);
      }
      PutField(r.kind, at, v);
      if r.kind.Call? {
        Put(at + 4, PutI(Rd32(image[..], at + 4), Lo12(v)));
      } else if r.kind.PcrelHi20? {
        hi20At := hi20At[at := v];
      }
      ok := true;
    }

    /** Apply every relocation in order. */
    method ApplyAll(relocs: seq<Reloc>, syms: Symbols) returns (ok: bool)
      requires hi20At == map[]
      modifies this`hi20At, image
      ensures ok == AfterAll(relocs, |relocs|, syms, old(image[..])).Some?
      ensures ok <==> Accepted(relocs, syms, image.Length)
      ensures ok ==> View() == AfterAll(relocs, |relocs|, syms, old(image[..])).value
    {
      hide Applied, Refuses, Sites;
      AllUnlessRefused(relocs, |relocs|, syms, image[..]);
      for k := 0 to |relocs|
        invariant AfterAll(relocs, k, syms, old(image[..])) == Some(View())
      {
        ok := Apply(relocs[k], syms);
        if !ok {
          NeverRecovers(relocs, k + 1, |relocs|, syms, old(image[..]));
          return false;
        }
      }
      ok := true;
    }
  }

  lemma {:induction false} NeverRecovers(relocs: seq<Reloc>, k: nat, n: nat, syms: Symbols, img: Image)
    requires k <= n <= |relocs| && AfterAll(relocs, k, syms, img).None?
    ensures AfterAll(relocs, n, syms, img).None?
    decreases n
  {
    if k < n { NeverRecovers(relocs, k, n - 1, syms, img); }
  }

  // ---- one relocation does not disturb another --------------------------------

  /** The bytes two relocations touch do not overlap. */
  predicate Apart(a: Reloc, b: Reloc) {
    Width(a) == 0 || Width(b) == 0 || Site(a) + Width(a) <= Site(b) || Site(b) + Width(b) <= Site(a)
  }

  /** No other relocation touches what this one touches. */
  ghost predicate Isolated(relocs: seq<Reloc>, i: nat)
    requires i < |relocs|
  {
    forall j :: 0 <= j < |relocs| && j != i ==> Apart(relocs[i], relocs[j])
  }

  /** A relocation touches none of the four bytes at `p`. */
  predicate Clear(r: Reloc, p: nat) {
    Width(r) == 0 || Site(r) + Width(r) <= p || p + 4 <= Site(r)
  }

  lemma AppliedFrame(r: Reloc, syms: Symbols, s: State, p: nat)
    requires Applied(r, syms, s).Some? && p + 4 <= |s.img|
    requires Clear(r, p)
    ensures Rd32(Applied(r, syms, s).value.img, p) == Rd32(s.img, p)
  {
    hide Patched, PutI, Lo12, Value, Rd32, Wr32, Offset;
    if !r.kind.Nothing? {
      var v, at := Value(r, syms, s.hi).value, Site(r);
      var w := Patched(r.kind, Rd32(s.img, at), v);
      WriteElsewhere(s.img, at, w, p);
      if r.kind.Call? {
        var img := Wr32(s.img, at, w);
        WriteElsewhere(img, at + 4, PutI(Rd32(img, at + 4), Lo12(v)), p);
      }
    }
  }

  /** A word that no relocation from `a` to `b` touches is the same before and after them. */
  lemma {:induction false} Untouched(relocs: seq<Reloc>, a: nat, b: nat, syms: Symbols, img: Image, p: nat)
    requires a <= b <= |relocs| && AfterAll(relocs, b, syms, img).Some? && p + 4 <= |img|
    requires forall j :: a <= j < b ==> Clear(relocs[j], p)
    ensures AfterAll(relocs, a, syms, img).Some?
    ensures Rd32(AfterAll(relocs, b, syms, img).value.img, p) == Rd32(AfterAll(relocs, a, syms, img).value.img, p)
    decreases b
  {
    hide Applied, Rd32, Clear;
    if a < b {
      Untouched(relocs, a, b - 1, syms, img, p);
      AppliedFrame(relocs[b - 1], syms, AfterAll(relocs, b - 1, syms, img).value, p);
    }
  }

  /** What one relocation leaves at its own site. */
  lemma AppliedAtSite(r: Reloc, syms: Symbols, s: State) returns (v: bv32)
    requires Applied(r, syms, s).Some? && !r.kind.Nothing?
    ensures Site(r) + Width(r) <= |s.img| && Value(r, syms, s.hi) == Some(v)
    ensures Rd32(Applied(r, syms, s).value.img, Site(r)) == Patched(r.kind, Rd32(s.img, Site(r)), v)
    ensures r.kind.Call? ==> Rd32(Applied(r, syms, s).value.img, Site(r) + 4) == PutI(Rd32(s.img, Site(r) + 4), Lo12(v))
  {
    hide Rd32, Wr32, Patched, PutI, Lo12, Value, Offset;
    v := Value(r, syms, s.hi).value;
    var w := Patched(r.kind, Rd32(s.img, Site(r)), v);
    var img := Wr32(s.img, Site(r), w);
    ReadWritten(s.img, Site(r), w);
    if r.kind.Call? {
      var w2 := PutI(Rd32(img, Site(r) + 4), Lo12(v));
      ReadWritten(img, Site(r) + 4, w2);
      WriteElsewhere(s.img, Site(r), w, Site(r) + 4);
      WriteElsewhere(img, Site(r) + 4, w2, Site(r));
    }
  }

  lemma WriteElsewhere(img: Image, at: nat, v: bv32, p: nat)
    requires at + 4 <= |img| && p + 4 <= |img| && (p + 4 <= at || at + 4 <= p)
    ensures Rd32(Wr32(img, at, v), p) == Rd32(img, p)
  {
    hide Byte;
  }

  /** After the whole loop, an isolated site holds its original word with the relocation's value in place. */
  lemma FinalAtSite(relocs: seq<Reloc>, i: nat, syms: Symbols, img: Image) returns (before: State, v: bv32)
    requires AfterAll(relocs, |relocs|, syms, img).Some? && i < |relocs|
    requires Isolated(relocs, i) && !relocs[i].kind.Nothing?
    ensures AfterAll(relocs, i, syms, img) == Some(before)
    ensures Value(relocs[i], syms, before.hi) == Some(v)
    ensures var r, end := relocs[i], AfterAll(relocs, |relocs|, syms, img).value.img;
            && Site(r) + Width(r) <= |img|
            && Rd32(end, Site(r)) == Patched(r.kind, Rd32(img, Site(r)), v)
            && (r.kind.Call? ==> Rd32(end, Site(r) + 4) == PutI(Rd32(img, Site(r) + 4), Lo12(v)))
  {
    hide Applied, Rd32, Patched, PutI, Lo12, Value, Isolated, Clear, AfterAll, Offset;
    var r := relocs[i];
    SomeBefore(relocs, i + 1, |relocs|, syms, img);
    OneTurn(relocs, i, syms, img);
    before := AfterAll(relocs, i, syms, img).value;
    v := AppliedAtSite(r, syms, before);
    OthersClear(relocs, i);
    Untouched(relocs, 0, i, syms, img, Site(r));
    Untouched(relocs, i + 1, |relocs|, syms, img, Site(r));
    if r.kind.Call? {
      Untouched(relocs, 0, i, syms, img, Site(r) + 4);
      Untouched(relocs, i + 1, |relocs|, syms, img, Site(r) + 4);
    }
  }

  lemma OneTurn(relocs: seq<Reloc>, i: nat, syms: Symbols, img: Image)
    requires i < |relocs| && AfterAll(relocs, i + 1, syms, img).Some?
    ensures AfterAll(relocs, 0, syms, img) == Some(State(img, map[])) && AfterAll(relocs, i, syms, img).Some?
    ensures AfterAll(relocs, i + 1, syms, img) == Applied(relocs[i], syms, AfterAll(relocs, i, syms, img).value)
  {
    hide Applied;
  }

  lemma OthersClear(relocs: seq<Reloc>, i: nat)
    requires i < |relocs| && Isolated(relocs, i) && !relocs[i].kind.Nothing?
    ensures forall j :: 0 <= j < |relocs| && j != i ==> Clear(relocs[j], Site(relocs[i]))
    ensures relocs[i].kind.Call? ==>
              forall j :: 0 <= j < |relocs| && j != i ==> Clear(relocs[j], Site(relocs[i]) + 4)
  {
    forall j | 0 <= j < |relocs| && j != i
      ensures Clear(relocs[j], Site(relocs[i]))
      ensures relocs[i].kind.Call? ==> Clear(relocs[j], Site(relocs[i]) + 4)
    {
      assert Apart(relocs[i], relocs[j]);
    }
  }

  lemma {:induction false} SomeBefore(relocs: seq<Reloc>, a: nat, b: nat, syms: Symbols, img: Image)
    requires a <= b <= |relocs| && AfterAll(relocs, b, syms, img).Some?
    ensures AfterAll(relocs, a, syms, img).Some?
    decreases b
  {
    if a < b { SomeBefore(relocs, a, b - 1, syms, img); }
  }

  // ---- what relocated instructions do at any load address ---------------------

  /** Where a pc-relative instruction at the site ends up, loaded at `base`. */
  function FromSite(base: bv32, at: bv32, imm: bv32): bv32 { base + at + imm }

  /** Where it should: symbol plus addend in the loaded image. */
  function Loaded(base: bv32, addr: bv32, addend: bv32): bv32 { base + addr + addend }

  // Sums of words are compared one definition at a time: unfolding several at once is costly.

  lemma RawDistanceLands(base: bv32, addr: bv32, addend: bv32, at: bv32)
    ensures FromSite(base, at, addr + addend - at) == Loaded(base, addr, addend)
  {
  }

  lemma DistanceLands(base: bv32, addr: bv32, addend: bv32, at: bv32)
    ensures FromSite(base, at, Distance(addr, addend, at)) == Loaded(base, addr, addend)
  {
    hide FromSite, Loaded;
    RawDistanceLands(base, addr, addend, at);
  }

  lemma RawFromSite(base: bv32, at: bv32, high: bv32, low: bv32)
    ensures FromSite(base, at, high + low) == (base + at + high) + low
  {
  }

  lemma FromSiteOfSum(base: bv32, at: bv32, high: bv32, low: bv32)
    ensures FromSite(base, at, Add(high, low)) == (base + at + high) + low
  {
    hide FromSite;
    RawFromSite(base, at, high, low);
  }

  lemma RawAdd(base: bv32, at: bv32, high: bv32, low: bv32)
    ensures Add(base + at + high, low) == (base + at + high) + low
  {
  }

  lemma AddToFromSite(base: bv32, at: bv32, high: bv32, low: bv32)
    ensures Add(FromSite(base, at, high), low) == (base + at + high) + low
  {
    hide Add;
    RawAdd(base, at, high, low);
  }

  /** Adding the low part to what auipc computed is adding both parts to its address. */
  lemma Associates(base: bv32, at: bv32, high: bv32, low: bv32)
    ensures Add(FromSite(base, at, high), low) == FromSite(base, at, Add(high, low))
  {
    hide Add, FromSite;
    FromSiteOfSum(base, at, high, low);
    AddToFromSite(base, at, high, low);
  }

  predicate Even(v: bv32) { v & 1 == 0 }

  lemma EvenKeeps(v: bv32)
    requires Even(v)
    ensures v & !1 == v
  {
  }

  /** The word a site holds once every relocation is applied. */
  ghost function WordAfter(relocs: seq<Reloc>, syms: Symbols, img: Image, at: nat): bv32
    requires AfterAll(relocs, |relocs|, syms, img).Some? && at + 4 <= |img|
  {
    Rd32(AfterAll(relocs, |relocs|, syms, img).value.img, at)
  }

  lemma RawImmediateBack(base: bv32, at: bv32, imm: bv32)
    ensures Sub(base + at + imm, base + at) == imm
  {
  }

  lemma ImmediateBack(base: bv32, at: bv32, imm: bv32)
    ensures Sub(FromSite(base, at, imm), base + at) == imm
  {
    hide Sub;
    RawImmediateBack(base, at, imm);
  }

  lemma OddLoses(v: bv32)
    ensures v & !1 == v ==> Even(v)
  {
  }

  /** A branch immediate without bit 0 reaches what the whole distance reaches only when there was none. */
  lemma EvenIsNeeded(base: bv32, at: bv32, v: bv32)
    ensures FromSite(base, at, v & !1) == FromSite(base, at, v) <==> Even(v)
  {
    hide FromSite, Sub, Even;
    if FromSite(base, at, v & !1) == FromSite(base, at, v) {
      ImmediateBack(base, at, v & !1);
      ImmediateBack(base, at, v);
      OddLoses(v);
    }
    if Even(v) { EvenKeeps(v); }
  }

  /** A relocated branch or jal, executed at any load address, reaches its symbol plus addend exactly when
      the distance is even; the field has no bit 0, and the script does not check for it. */
  lemma BranchReachesSymbol(relocs: seq<Reloc>, i: nat, syms: Symbols, img: Image, base: bv32)
    requires AfterAll(relocs, |relocs|, syms, img).Some? && i < |relocs| && Isolated(relocs, i)
    requires relocs[i].kind.Branch? || relocs[i].kind.Jal?
    ensures SymAddr(syms, relocs[i]).Some? && Site(relocs[i]) + 4 <= |img|
    ensures var r, addr, w := relocs[i], SymAddr(syms, relocs[i]).value, WordAfter(relocs, syms, img, Site(relocs[i]));
            var imm := if r.kind.Branch? then ImmB(w) else ImmJ(w);
            FromSite(base, r.at, imm) == Loaded(base, addr, r.addend) <==> Even(Distance(addr, r.addend, r.at))
  {
    hide Offset, AfterAll, Rd32, PutB, PutJ, ImmB, ImmJ, InRange, Distance, FromSite, Loaded, Even;
    var before, v := FinalAtSite(relocs, i, syms, img);
    var r, addr := relocs[i], SymAddr(syms, relocs[i]).value;
    var w := Rd32(img, Site(r));
    DistanceLands(base, addr, r.addend, r.at);
    EvenIsNeeded(base, r.at, v);
    if r.kind.Branch? { BranchReaches(v, w); } else { JumpReaches(v, w); }
  }

  /** Where a jalr goes, given the sum of its register and its immediate: section 2.5.1 of the RISC-V
      unprivileged architecture clears bit 0. */
  function Target(v: bv32): bv32 { v & !1 }

  lemma TargetKeeps(v: bv32)
    ensures Target(v) == v <==> Even(v)
  {
  }

  /** A relocated auipc+jalr pair computes its symbol plus addend at any load address, and jumps there
      exactly when that is even; the script does not check for it. */
  lemma CallReachesSymbol(relocs: seq<Reloc>, i: nat, syms: Symbols, img: Image, base: bv32)
    requires AfterAll(relocs, |relocs|, syms, img).Some? && i < |relocs| && Isolated(relocs, i)
    requires relocs[i].kind.Call?
    ensures SymAddr(syms, relocs[i]).Some? && Site(relocs[i]) + 8 <= |img|
    ensures var r, addr := relocs[i], SymAddr(syms, relocs[i]).value;
            var auipc, jalr := WordAfter(relocs, syms, img, Site(r)), WordAfter(relocs, syms, img, Site(r) + 4);
            var sum, there := Add(FromSite(base, r.at, ImmU(auipc)), ImmI(jalr)), Loaded(base, addr, r.addend);
            sum == there && (Target(sum) == there <==> Even(there))
  {
    hide Offset, AfterAll, Rd32, PutU, PutI, Hi20, Lo12, ImmU, ImmI, Distance, FromSite, Loaded, Add, Target, Even;
    var before, v := FinalAtSite(relocs, i, syms, img);
    var r, addr := relocs[i], SymAddr(syms, relocs[i]).value;
    var w1, w2 := Rd32(img, Site(r)), Rd32(img, Site(r) + 4);
    PairAddsUpI(v, w1, w2);
    Associates(base, r.at, ImmU(PutU(w1, Hi20(v))), ImmI(PutI(w2, Lo12(v))));
    DistanceLands(base, addr, r.addend, r.at);
    TargetKeeps(Loaded(base, addr, r.addend));
  }

  lemma AppliedTable(r: Reloc, syms: Symbols, s: State)
    requires Applied(r, syms, s).Some?
    ensures !r.kind.PcrelHi20? ==> Applied(r, syms, s).value.hi == s.hi
    ensures r.kind.PcrelHi20? ==>
              SymAddr(syms, r).Some?
              && Applied(r, syms, s).value.hi == s.hi[Site(r) := Distance(SymAddr(syms, r).value, r.addend, r.at)]
  {
    hide Patched, Rd32, Wr32, PutI, Lo12, Distance, InRange, Add, Offset;
  }

  /** Every entry of the table of high parts comes from a PCREL_HI20 relocation at that offset. */
  lemma {:induction false} TableOrigin(relocs: seq<Reloc>, n: nat, syms: Symbols, img: Image, site: nat)
    returns (j: nat)
    requires n <= |relocs| && AfterAll(relocs, n, syms, img).Some? && site in AfterAll(relocs, n, syms, img).value.hi
    ensures j < n && relocs[j].kind.PcrelHi20? && Site(relocs[j]) == site && SymAddr(syms, relocs[j]).Some?
    ensures AfterAll(relocs, n, syms, img).value.hi[site] == Distance(SymAddr(syms, relocs[j]).value, relocs[j].addend, relocs[j].at)
  {
    hide Applied, Distance, Offset;
    assert n > 0;
    var s, r := AfterAll(relocs, n - 1, syms, img).value, relocs[n - 1];
    assert AfterAll(relocs, n, syms, img) == Applied(r, syms, s);
    AppliedTable(r, syms, s);
    if r.kind.PcrelHi20? && Site(r) == site {
      j := n - 1;
    } else {
      j := TableOrigin(relocs, n - 1, syms, img, site);
    }
  }

  /** The auipc of a HI20 relocation and a load, addi or store whose LO12 relocation names its label
      together address the symbol plus addend of the HI20, at any load address. A jalr in that place jumps
      there exactly when it is even. */
  lemma PairReachesSymbol(relocs: seq<Reloc>, h: nat, i: nat, syms: Symbols, img: Image, base: bv32)
    requires AfterAll(relocs, |relocs|, syms, img).Some?
    requires h < |relocs| && i < |relocs| && Isolated(relocs, h) && Isolated(relocs, i)
    requires relocs[h].kind.PcrelHi20? && (relocs[i].kind.PcrelLo12I? || relocs[i].kind.PcrelLo12S?)
    requires SymAddr(syms, relocs[i]) == Some(relocs[h].at)
    ensures SymAddr(syms, relocs[h]).Some? && Site(relocs[h]) + 4 <= |img| && Site(relocs[i]) + 4 <= |img|
    ensures var r, addr := relocs[h], SymAddr(syms, relocs[h]).value;
            var auipc, low := WordAfter(relocs, syms, img, Site(r)), WordAfter(relocs, syms, img, Site(relocs[i]));
            var imm := if relocs[i].kind.PcrelLo12I? then ImmI(low) else ImmS(low);
            var sum, there := Add(FromSite(base, r.at, ImmU(auipc)), imm), Loaded(base, addr, r.addend);
            sum == there && (Target(sum) == there <==> Even(there))
  {
    hide Offset, AfterAll, Rd32, PutU, PutI, PutS, Hi20, Lo12, ImmU, ImmI, ImmS, Distance, FromSite, Loaded, Add;
    hide Target, Even;
    var beforeH, u := FinalAtSite(relocs, h, syms, img);
    var beforeI, v := FinalAtSite(relocs, i, syms, img);
    var j := TableOrigin(relocs, i, syms, img, Site(relocs[h]));
    SameSite(relocs, h, j);
    var r, addr := relocs[h], SymAddr(syms, relocs[h]).value;
    var w1, w2 := Rd32(img, Site(r)), Rd32(img, Site(relocs[i]));
    PairAddsUpI(v, w1, w2);
    PairAddsUpS(v, w1, w2);
    var high := ImmU(PutU(w1, Hi20(v)));
    Associates(base, r.at, high, ImmI(PutI(w2, Lo12(v))));
    Associates(base, r.at, high, ImmS(PutS(w2, Lo12(v))));
    DistanceLands(base, addr, r.addend, r.at);
    TargetKeeps(Loaded(base, addr, r.addend));
  }

  lemma SameSite(relocs: seq<Reloc>, h: nat, j: nat)
    requires h < |relocs| && j < |relocs| && Isolated(relocs, h)
    requires relocs[h].kind.PcrelHi20? && relocs[j].kind.PcrelHi20? && Site(relocs[j]) == Site(relocs[h])
    ensures j == h
  {
    assert forall k :: 0 <= k < |relocs| && k != h ==> Apart(relocs[h], relocs[k]);
  }

  /** A stored pc-relative word, added to its own address, gives its symbol plus addend. */
  lemma StoredDistance(relocs: seq<Reloc>, i: nat, syms: Symbols, img: Image, base: bv32)
    requires AfterAll(relocs, |relocs|, syms, img).Some? && i < |relocs| && Isolated(relocs, i)
    requires relocs[i].kind.RvPcrel?
    ensures SymAddr(syms, relocs[i]).Some? && Site(relocs[i]) + 4 <= |img|
    ensures FromSite(base, relocs[i].at, WordAfter(relocs, syms, img, Site(relocs[i])))
            == Loaded(base, SymAddr(syms, relocs[i]).value, relocs[i].addend)
  {
    hide Offset, AfterAll, Rd32, Distance, FromSite, Loaded;
    var before, v := FinalAtSite(relocs, i, syms, img);
    DistanceLands(base, SymAddr(syms, relocs[i]).value, relocs[i].addend, relocs[i].at);
  }

  lemma ZeroBase(addr: bv32, addend: bv32)
    ensures Loaded(0, addr, addend) == Add(addr, addend)
  {
  }

  lemma RawOnlyZeroBase(base: bv32, addr: bv32, addend: bv32)
    ensures Sub(base + addr + addend, addr + addend) == base
  {
  }

  lemma OnlyZeroBase(base: bv32, addr: bv32, addend: bv32)
    ensures Sub(Loaded(base, addr, addend), Add(addr, addend)) == base
  {
    hide Sub;
    RawOnlyZeroBase(base, addr, addend);
  }

  lemma SelfDifference(v: bv32)
    ensures Sub(v, v) == 0
  {
  }

  lemma AddBase(base: bv32, addr: bv32, addend: bv32)
    ensures Loaded(base, addr, addend) == Add(addr, addend) <==> base == 0
  {
    hide Loaded, Add, Sub;
    ZeroBase(addr, addend);
    OnlyZeroBase(base, addr, addend);
    SelfDifference(Add(addr, addend));
  }

  /** A lui+lo12 pair is not position-independent, for loads and for stores: it addresses the symbol's
      offset in the image, which is where the symbol is loaded exactly when the load address is 0. */
  lemma AbsolutePairNeedsBaseZero(relocs: seq<Reloc>, h: nat, i: nat, syms: Symbols, img: Image, base: bv32)
    requires AfterAll(relocs, |relocs|, syms, img).Some?
    requires h < |relocs| && i < |relocs| && Isolated(relocs, h) && Isolated(relocs, i)
    requires relocs[h].kind.AbsHi20? && (relocs[i].kind.AbsLo12I? || relocs[i].kind.AbsLo12S?)
    requires relocs[i].sym == relocs[h].sym && relocs[i].addend == relocs[h].addend
    ensures SymAddr(syms, relocs[h]).Some? && Site(relocs[h]) + 4 <= |img| && Site(relocs[i]) + 4 <= |img|
    ensures var addr := SymAddr(syms, relocs[h]).value;
            var lui, low := WordAfter(relocs, syms, img, Site(relocs[h])), WordAfter(relocs, syms, img, Site(relocs[i]));
            var imm := if relocs[i].kind.AbsLo12S? then ImmS(low) else ImmI(low);
            Add(ImmU(lui), imm) == Loaded(base, addr, relocs[h].addend) <==> base == 0
  {
    hide Offset, AfterAll, Rd32, PutU, PutI, PutS, Hi20, Lo12, ImmU, ImmI, ImmS, Loaded, Add;
    var beforeH, u := FinalAtSite(relocs, h, syms, img);
    var beforeI, v := FinalAtSite(relocs, i, syms, img);
    PairAddsUpI(v, Rd32(img, Site(relocs[h])), Rd32(img, Site(relocs[i])));
    PairAddsUpS(v, Rd32(img, Site(relocs[h])), Rd32(img, Site(relocs[i])));
    AddBase(base, SymAddr(syms, relocs[h]).value, relocs[h].addend);
  }

  const LAST: bv32 := 0xFFFF_FFFF

  lemma OddTarget(x: bv32)
    ensures !Even(x) ==> Target(x) == Add(LAST, x)
  {
  }

  lemma RawShift(base: bv32, x: bv32)
    ensures Sub(base + x, x) == base
  {
  }

  lemma ShiftBack(base: bv32, x: bv32)
    ensures Sub(Add(base, x), x) == base
  {
    hide Sub;
    RawShift(base, x);
  }

  lemma ZeroPlus(x: bv32)
    ensures Add(0, x) == x
  {
  }

  lemma TargetShift(base: bv32, x: bv32)
    ensures Target(x) == Add(base, x) <==> base == if Even(x) then 0 else LAST
  {
    hide Target, Even, Add, Sub;
    TargetKeeps(x);
    OddTarget(x);
    ZeroPlus(x);
    ShiftBack(base, x);
    ShiftBack(LAST, x);
    ShiftBack(0, x);
  }

  lemma RawLoadedFromZero(base: bv32, addr: bv32, addend: bv32)
    ensures Loaded(base, addr, addend) == base + (addr + addend)
  {
  }

  lemma RawPlusSum(base: bv32, addr: bv32, addend: bv32)
    ensures Add(base, addr + addend) == base + (addr + addend)
  {
  }

  lemma FlatPlusSum(base: bv32, addr: bv32, addend: bv32)
    ensures Add(base, Add(addr, addend)) == Add(base, addr + addend)
  {
  }

  lemma LoadedIsShifted(base: bv32, addr: bv32, addend: bv32)
    ensures Loaded(base, addr, addend) == Add(base, Add(addr, addend))
  {
    hide Add, Loaded;
    RawLoadedFromZero(base, addr, addend);
    RawPlusSum(base, addr, addend);
    FlatPlusSum(base, addr, addend);
  }

  lemma TargetMoves(base: bv32, addr: bv32, addend: bv32)
    ensures Target(Add(addr, addend)) == Loaded(base, addr, addend)
            <==> base == if Even(Add(addr, addend)) then 0 else LAST
  {
    hide Add, Loaded, Target, Even;
    LoadedIsShifted(base, addr, addend);
    TargetShift(base, Add(addr, addend));
  }

  /** A lui+jalr pair jumps to the loaded symbol exactly when the load address is 0 and the symbol plus
      addend even. (With an odd one it would have to be the last address, which no image is loaded at.) */
  lemma AbsoluteJumpNeedsBaseZero(relocs: seq<Reloc>, h: nat, i: nat, syms: Symbols, img: Image, base: bv32)
    requires AfterAll(relocs, |relocs|, syms, img).Some?
    requires h < |relocs| && i < |relocs| && Isolated(relocs, h) && Isolated(relocs, i)
    requires relocs[h].kind.AbsHi20? && relocs[i].kind.AbsLo12I?
    requires relocs[i].sym == relocs[h].sym && relocs[i].addend == relocs[h].addend
    ensures SymAddr(syms, relocs[h]).Some? && Site(relocs[h]) + 4 <= |img| && Site(relocs[i]) + 4 <= |img|
    ensures var addr, addend := SymAddr(syms, relocs[h]).value, relocs[h].addend;
            var lui, jalr := WordAfter(relocs, syms, img, Site(relocs[h])), WordAfter(relocs, syms, img, Site(relocs[i]));
            var lands := Target(Add(ImmU(lui), ImmI(jalr))) == Loaded(base, addr, addend);
            lands <==> base == if Even(Add(addr, addend)) then 0 else LAST
  {
    hide Offset, AfterAll, Rd32, PutU, PutI, Hi20, Lo12, ImmU, ImmI, Loaded, Add, Target, Even;
    var beforeH, u := FinalAtSite(relocs, h, syms, img);
    var beforeI, v := FinalAtSite(relocs, i, syms, img);
    PairAddsUpI(v, Rd32(img, Site(relocs[h])), Rd32(img, Site(relocs[i])));
    TargetMoves(base, SymAddr(syms, relocs[h]).value, relocs[h].addend);
  }

  // ---- label differences -----------------------------------------------------------

  lemma RawAddThenSub(w: bv32, a: bv32, b: bv32)
    ensures Sub(w + a, b) == w + (a - b)
  {
  }

  lemma FlatAddThenSub(w: bv32, a: bv32, b: bv32)
    ensures Sub(Add(w, a), b) == w + (a - b)
  {
    hide Sub;
    RawAddThenSub(w, a, b);
  }

  lemma RawSubThenAdd(w: bv32, a: bv32, b: bv32)
    ensures Add(w - b, a) == w + (a - b)
  {
  }

  lemma FlatSubThenAdd(w: bv32, a: bv32, b: bv32)
    ensures Add(Sub(w, b), a) == w + (a - b)
  {
    hide Add;
    RawSubThenAdd(w, a, b);
  }

  lemma RawAddDifference(w: bv32, a: bv32, b: bv32)
    ensures Add(w, a - b) == w + (a - b)
  {
  }

  lemma FlatAddDifference(w: bv32, a: bv32, b: bv32)
    ensures Add(w, Sub(a, b)) == w + (a - b)
  {
    hide Add;
    RawAddDifference(w, a, b);
  }

  lemma AddThenSub(w: bv32, a: bv32, b: bv32)
    ensures Sub(Add(w, a), b) == Add(w, Sub(a, b))
  {
    hide Add, Sub;
    FlatAddThenSub(w, a, b);
    FlatAddDifference(w, a, b);
  }

  lemma SubThenAdd(w: bv32, a: bv32, b: bv32)
    ensures Add(Sub(w, b), a) == Add(w, Sub(a, b))
  {
    hide Add, Sub;
    FlatSubThenAdd(w, a, b);
    FlatAddDifference(w, a, b);
  }

  /** What ADD32, SUB32 and SET32 each do to the word at their site. */
  lemma StoredWord(relocs: seq<Reloc>, i: nat, syms: Symbols, img: Image)
    requires AfterAll(relocs, |relocs|, syms, img).Some? && i < |relocs| && Isolated(relocs, i)
    requires relocs[i].kind in {Add32, Sub32, Set32}
    ensures SymAddr(syms, relocs[i]).Some? && Site(relocs[i]) + 4 <= |img|
    ensures var r, v := relocs[i], SymAddr(syms, relocs[i]).value;
            var was, now := Rd32(img, Site(r)), WordAfter(relocs, syms, img, Site(r));
            && (r.kind.Add32? ==> now == Add(was, Add(v, r.addend)))
            && (r.kind.Sub32? ==> now == Sub(was, Add(v, r.addend)))
            && (r.kind.Set32? ==> now == Add(v, r.addend))
  {
    hide Offset, AfterAll, Rd32, Add, Sub;
    var before, v := FinalAtSite(relocs, i, syms, img);
  }

  /** Two relocations share a site, and no other touches it. */
  ghost predicate Share(relocs: seq<Reloc>, i: nat, j: nat)
    requires i < |relocs| && j < |relocs|
  {
    && i != j && Site(relocs[i]) == Site(relocs[j])
    && forall k :: 0 <= k < |relocs| && k != i && k != j ==> Clear(relocs[k], Site(relocs[i]))
  }

  /** The two in turn, with everything between them elsewhere. */
  lemma SharedSite(relocs: seq<Reloc>, i: nat, j: nat, syms: Symbols, img: Image) returns (first: bv32, second: bv32)
    requires AfterAll(relocs, |relocs|, syms, img).Some? && i < j < |relocs| && Share(relocs, i, j)
    requires relocs[i].kind in {Add32, Sub32} && relocs[j].kind in {Add32, Sub32}
    ensures SymAddr(syms, relocs[i]).Some? && SymAddr(syms, relocs[j]).Some? && Site(relocs[i]) + 4 <= |img|
    ensures first == Add(SymAddr(syms, relocs[i]).value, relocs[i].addend)
    ensures second == Add(SymAddr(syms, relocs[j]).value, relocs[j].addend)
    ensures var w := Rd32(img, Site(relocs[i]));
            Rd32(AfterAll(relocs, |relocs|, syms, img).value.img, Site(relocs[i]))
              == Patched(relocs[j].kind, Patched(relocs[i].kind, w, first), second)
  {
    hide Applied, Rd32, Patched, Clear, AfterAll, Add, SymAddr;
    SharedTurns(relocs, i, j, syms, img);
    first := AddsAtSite(relocs[i], syms, AfterAll(relocs, i, syms, img).value);
    second := AddsAtSite(relocs[j], syms, AfterAll(relocs, j, syms, img).value);
    SharedStretches(relocs, i, j, syms, img);
  }

  lemma AddsAtSite(r: Reloc, syms: Symbols, s: State) returns (v: bv32)
    requires Applied(r, syms, s).Some? && r.kind in {Add32, Sub32}
    ensures SymAddr(syms, r).Some? && Site(r) + 4 <= |s.img| && v == Add(SymAddr(syms, r).value, r.addend)
    ensures Rd32(Applied(r, syms, s).value.img, Site(r)) == Patched(r.kind, Rd32(s.img, Site(r)), v)
  {
    hide Applied, Rd32, Patched, Add;
    v := AppliedAtSite(r, syms, s);
  }

  lemma SharedTurns(relocs: seq<Reloc>, i: nat, j: nat, syms: Symbols, img: Image)
    requires AfterAll(relocs, |relocs|, syms, img).Some? && i < j < |relocs|
    ensures AfterAll(relocs, i, syms, img).Some? && AfterAll(relocs, j, syms, img).Some?
    ensures AfterAll(relocs, i + 1, syms, img) == Applied(relocs[i], syms, AfterAll(relocs, i, syms, img).value)
    ensures AfterAll(relocs, j + 1, syms, img) == Applied(relocs[j], syms, AfterAll(relocs, j, syms, img).value)
    ensures AfterAll(relocs, i + 1, syms, img).Some? && AfterAll(relocs, j + 1, syms, img).Some?
  {
    hide Applied, AfterAll;
    SomeBefore(relocs, j + 1, |relocs|, syms, img);
    SomeBefore(relocs, i + 1, |relocs|, syms, img);
    OneTurn(relocs, i, syms, img);
    OneTurn(relocs, j, syms, img);
  }

  /** The shared word does not change before the first, between the two, or after the second. */
  lemma SharedStretches(relocs: seq<Reloc>, i: nat, j: nat, syms: Symbols, img: Image)
    requires AfterAll(relocs, |relocs|, syms, img).Some? && i < j < |relocs| && Share(relocs, i, j)
    requires AfterAll(relocs, i, syms, img).Some? && AfterAll(relocs, j, syms, img).Some?
    requires AfterAll(relocs, i + 1, syms, img).Some? && AfterAll(relocs, j + 1, syms, img).Some?
    requires Site(relocs[i]) + 4 <= |img|
    ensures var p := Site(relocs[i]);
      && Rd32(AfterAll(relocs, i, syms, img).value.img, p) == Rd32(img, p)
      && Rd32(AfterAll(relocs, j, syms, img).value.img, p) == Rd32(AfterAll(relocs, i + 1, syms, img).value.img, p)
      && Rd32(AfterAll(relocs, |relocs|, syms, img).value.img, p)
         == Rd32(AfterAll(relocs, j + 1, syms, img).value.img, p)
  {
    hide Applied, Rd32, Clear, AfterAll;
    var p := Site(relocs[i]);
    OneTurn(relocs, i, syms, img);
    Untouched(relocs, 0, i, syms, img, p);
    Untouched(relocs, i + 1, j, syms, img, p);
    Untouched(relocs, j + 1, |relocs|, syms, img, p);
  }

  /** An ADD32 and a SUB32 on one site, in either order, add the difference of the two labels to the word
      there: the same wherever the image is loaded. */
  lemma LabelDifference(relocs: seq<Reloc>, i: nat, j: nat, syms: Symbols, img: Image, base: bv32)
    requires AfterAll(relocs, |relocs|, syms, img).Some?
    requires i < |relocs| && j < |relocs| && Share(relocs, i, j)
    requires relocs[i].kind.Add32? && relocs[j].kind.Sub32?
    ensures SymAddr(syms, relocs[i]).Some? && SymAddr(syms, relocs[j]).Some? && Site(relocs[i]) + 4 <= |img|
    ensures var a, b := SymAddr(syms, relocs[i]).value, SymAddr(syms, relocs[j]).value;
            WordAfter(relocs, syms, img, Site(relocs[i]))
              == Add(Rd32(img, Site(relocs[i])),
                     Sub(Loaded(base, a, relocs[i].addend), Loaded(base, b, relocs[j].addend)))
  {
    hide Offset, AfterAll, Rd32, Add, Sub, Loaded;
    if i < j {
      var a, b := SharedSite(relocs, i, j, syms, img);
      AddThenSub(Rd32(img, Site(relocs[i])), a, b);
    } else {
      var b, a := SharedSite(relocs, j, i, syms, img);
      SubThenAdd(Rd32(img, Site(relocs[i])), a, b);
    }
    LoadedDifference(base, SymAddr(syms, relocs[i]).value, relocs[i].addend,
                     SymAddr(syms, relocs[j]).value, relocs[j].addend);
  }

  lemma RawLoadedDifference(base: bv32, a: bv32, c: bv32, b: bv32, d: bv32)
    ensures Sub(base + a + c, base + b + d) == (a + c) - (b + d)
  {
  }

  lemma FlatLoadedDifference(base: bv32, a: bv32, c: bv32, b: bv32, d: bv32)
    ensures Sub(Loaded(base, a, c), Loaded(base, b, d)) == (a + c) - (b + d)
  {
    hide Sub;
    RawLoadedDifference(base, a, c, b, d);
  }

  lemma RawDifference(a: bv32, c: bv32, b: bv32, d: bv32)
    ensures Sub(a + c, b + d) == (a + c) - (b + d)
  {
  }

  lemma FlatDifference(a: bv32, c: bv32, b: bv32, d: bv32)
    ensures Sub(Add(a, c), Add(b, d)) == (a + c) - (b + d)
  {
    hide Sub;
    RawDifference(a, c, b, d);
  }

  lemma LoadedDifference(base: bv32, a: bv32, c: bv32, b: bv32, d: bv32)
    ensures Sub(Loaded(base, a, c), Loaded(base, b, d)) == Sub(Add(a, c), Add(b, d))
  {
    hide Add, Sub, Loaded;
    FlatLoadedDifference(base, a, c, b, d);
    FlatDifference(a, c, b, d);
  }

  // ---- what a relocation leaves alone ------------------------------------------

  /** The bits outside the immediate field of the instruction a relocation patches. */
  function KeepMask(kind: Kind): bv32 {
    match kind
    case PcrelHi20 => 0xfff
    case AbsHi20 => 0xfff
    case Call => 0xfff
    case Jal => 0xfff
    case PcrelLo12I => 0xfffff
    case AbsLo12I => 0xfffff
    case PcrelLo12S => 0x1fff07f
    case AbsLo12S => 0x1fff07f
    case Branch => 0x1fff07f
    case _ => 0
  }

  function Masked(w: bv32, mask: bv32): bv32 { w & mask }

  lemma UKept(w: bv32, v: bv32)
    ensures Masked(PutU(w, v), 0xfff) == Masked(w, 0xfff)
  {
  }

  lemma JKept(w: bv32, v: bv32)
    ensures Masked(PutJ(w, v), 0xfff) == Masked(w, 0xfff)
  {
  }

  lemma IBits(w: bv32, v: bv32)
    ensures PutI(w, v) & 0xfffff == w & 0xfffff
  {
  }

  lemma IKept(w: bv32, v: bv32)
    ensures Masked(PutI(w, v), 0xfffff) == Masked(w, 0xfffff)
  {
    hide PutI;
    IBits(w, v);
  }

  lemma SBits(w: bv32, v: bv32)
    ensures PutS(w, v) & 0x1fff07f == w & 0x1fff07f
  {
  }

  lemma SKept(w: bv32, v: bv32)
    ensures Masked(PutS(w, v), 0x1fff07f) == Masked(w, 0x1fff07f)
  {
    hide PutS;
    SBits(w, v);
  }

  lemma BBits(w: bv32, v: bv32)
    ensures PutB(w, v) & 0x1fff07f == w & 0x1fff07f
  {
  }

  lemma BKept(w: bv32, v: bv32)
    ensures Masked(PutB(w, v), 0x1fff07f) == Masked(w, 0x1fff07f)
  {
    hide PutB;
    BBits(w, v);
  }

  lemma NoneKept(w: bv32, v: bv32)
    ensures Masked(w, 0) == Masked(v, 0)
  {
  }

  lemma PatchedKeeps(kind: Kind, w: bv32, v: bv32)
    ensures Masked(Patched(kind, w, v), KeepMask(kind)) == Masked(w, KeepMask(kind))
  {
    hide PutU, PutI, PutS, PutB, PutJ, Hi20, Lo12, Add, Sub, Masked;
    match kind {
      case PcrelHi20 => UKept(w, Hi20(v));
      case AbsHi20 => UKept(w, Hi20(v));
      case Call => UKept(w, Hi20(v));
      case Jal => JKept(w, v);
      case PcrelLo12I => IKept(w, Lo12(v));
      case AbsLo12I => IKept(w, Lo12(v));
      case PcrelLo12S => SKept(w, Lo12(v));
      case AbsLo12S => SKept(w, Lo12(v));
      case Branch => BKept(w, v);
      case _ => NoneKept(Patched(kind, w, v), w);
    }
  }

  /** The whole loop changes no bit of an isolated instruction outside its immediate. */
  lemma InstructionKept(relocs: seq<Reloc>, i: nat, syms: Symbols, img: Image)
    requires AfterAll(relocs, |relocs|, syms, img).Some? && i < |relocs| && Isolated(relocs, i)
    requires !relocs[i].kind.Nothing?
    ensures Site(relocs[i]) + Width(relocs[i]) <= |img|
    ensures var r := relocs[i];
            && Masked(WordAfter(relocs, syms, img, Site(r)), KeepMask(r.kind)) == Masked(Rd32(img, Site(r)), KeepMask(r.kind))
            && (r.kind.Call? ==> Masked(WordAfter(relocs, syms, img, Site(r) + 4), 0xfffff)
                                 == Masked(Rd32(img, Site(r) + 4), 0xfffff))
  {
    hide Offset, AfterAll, Rd32, Patched, PutI, Lo12, Value, KeepMask, Masked;
    var before, v := FinalAtSite(relocs, i, syms, img);
    PatchedKeeps(relocs[i].kind, Rd32(img, Site(relocs[i])), v);
    if relocs[i].kind.Call? { IKept(Rd32(img, Site(relocs[i]) + 4), Lo12(v)); }
  }

  /** A word that no relocation touches is as it was. */
  lemma OtherWordsKept(relocs: seq<Reloc>, syms: Symbols, img: Image, at: nat)
    requires AfterAll(relocs, |relocs|, syms, img).Some? && at + 4 <= |img|
    requires forall j :: 0 <= j < |relocs| ==> Clear(relocs[j], at)
    ensures WordAfter(relocs, syms, img, at) == Rd32(img, at)
  {
    Untouched(relocs, 0, |relocs|, syms, img, at);
  }
}
