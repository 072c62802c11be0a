/** The independent reader, buildroot/board-esp32p4/checkromfs.py: superblock checks, header
    parsing, hard-link resolution and the recursive walk.

    The loops of the reader follow offsets found in the image, so on an arbitrary image they may
    never end; here each takes a step budget, and `None` stands for a failed assertion, an
    exception, or a budget that ran out. */
module RomfsReader {
  import opened RomfsFormat
  import opened RomfsTree

  datatype Hdr = Hdr(word0: nat, spec: nat, size: nat, name: Bytes)

  datatype Inode = Inode(pos: nat, hdr: Hdr)

  /** "-rom1fs-" */
  function MagicByte(i: nat): byte {
    if i == 0 || i == 7 then 45 else if i == 1 then 114 else if i == 2 then 111 else if i == 3 then 109
    else if i == 4 then 49 else if i == 5 then 102 else 115
  }

  /** A word with the low four bits cleared. */
  function Aligned(w: nat): (r: nat)
    ensures r <= w < r + 16 && r % 16 == 0
  {
    w - w % 16
  }

  function FirstNul(img: Bytes, pos: nat): (r: nat)
    requires pos <= |img|
    ensures pos <= r <= |img|
    ensures forall i :: pos <= i < r ==> img[i] != 0
    ensures r < |img| ==> img[r] == 0
    decreases |img| - pos
  {
    if pos == |img| || img[pos] == 0 then pos else FirstNul(img, pos + 1)
  }

  function ReadHdr(img: Bytes, pos: nat): Option<Hdr> {
    if pos + 16 > |img| then None
    else
      var nul := FirstNul(img, pos + 16);
      if nul == |img| then None
      else Some(Hdr(FromBe32(img, pos), FromBe32(img, pos + 4), FromBe32(img, pos + 8), img[pos + 16..nul]))
  }

  /** Follow hard links to the inode they stand for. */
  function Resolved(img: Bytes, pos: nat, budget: nat): Option<Inode>
    decreases budget
  {
    match ReadHdr(img, pos)
    case None => None
    case Some(h) =>
      if h.word0 % 8 != HRD then Some(Inode(pos, h))
      else if budget == 0 then None
      else Resolved(img, Aligned(h.spec), budget - 1)
  }

  function DataOf(img: Bytes, t: Inode): Bytes {
    var from := t.pos + HdrLen(t.hdr.name);
    var to := from + t.hdr.size;
    if from >= |img| then [] else if to > |img| then img[from..] else img[from..to]
  }

  function ReadItem(img: Bytes, t: Inode): Item {
    var kind := t.hdr.word0 % 8;
    if kind == DIR then DirItem
    else if kind == SYM then SymItem(DataOf(img, t))
    else if kind == REG then RegItem(DataOf(img, t))
    else OtherItem
  }

  /** The paths found below the directory at `pos`, added to `found`. */
  function Walked(img: Bytes, pos: nat, path: Bytes, depth: nat, budget: nat, found: Found): Option<Found>
    decreases budget, 1
  {
    if depth >= 40 then None
    else match Resolved(img, pos, budget)
      case None => None
      case Some(t) => WalkedFrom(img, Aligned(t.hdr.spec), path, depth, budget, found)
  }

  /** The same, from the directory entry at `off` on. */
  function WalkedFrom(img: Bytes, off: nat, path: Bytes, depth: nat, budget: nat, found: Found): Option<Found>
    decreases budget, 0
  {
    if off == 0 || off >= |img| then Some(found)
    else if budget == 0 then None
    else match (ReadHdr(img, off), Resolved(img, off, budget))
      case (Some(h), Some(t)) =>
        var full := path + [SLASH] + h.name;
        var f :=
          if h.name == Dots(1) || h.name == Dots(2) then Some(found)
          else if t.hdr.word0 % 8 == DIR then Walked(img, t.pos, full, depth + 1, budget - 1, found[full := DirItem])
          else Some(found[full := ReadItem(img, t)]);
        if f.None? then None else WalkedFrom(img, Aligned(h.word0), path, depth, budget - 1, f.value)
      case _ => None
  }

  /** The superblock checks; the offset of the root inode when they pass. */
  function CheckSuper(img: Bytes): Option<nat> {
    if |img| < 16 || (exists i :: 0 <= i < 8 && img[i] != MagicByte(i)) then None
    else if FromBe32(img, 8) != |img| then None
    else
      var span := if |img| < 512 then |img| else 512;
      var sum := SumWords(img[..span / 4 * 4]);
      if span % 4 != 0 || sum % WORD != 0 then None
      else
        var nul := FirstNul(img, 16);
        if nul == |img| then None else Some((ALIGN + (nul - 16) + 1 + 15) / 16 * 16)
  }

  /** What the whole program finds in an image. */
  function ReadImage(img: Bytes, budget: nat): Option<Found> {
    match CheckSuper(img)
    case None => None
    case Some(root) => Walked(img, root, [], 0, budget, map[])
  }

  // ---- the reader's loops -------------------------------------------------

  method Resolve(img: Bytes, start: nat, budget: nat) returns (r: Option<Inode>)
    ensures r == Resolved(img, start, budget)
  {
    var pos: nat, left: nat := start, budget;
    while true
      invariant Resolved(img, pos, left) == Resolved(img, start, budget)
      decreases left
    {
      match ReadHdr(img, pos)
      case None => return None;
      case Some(h) =>
        if h.word0 % 8 != HRD { return Some(Inode(pos, h)); }
        if left == 0 { return None; }
        pos, left := Aligned(h.spec), left - 1;
    }
  }

  method Walk(img: Bytes, pos: nat, path: Bytes, depth: nat, budget: nat, found0: Found)
    returns (r: Option<Found>)
    ensures r == Walked(img, pos, path, depth, budget, found0)
    decreases budget
  {
    hide ReadHdr, ReadItem, Resolved;
    if depth >= 40 { return None; }
    var dir := Resolve(img, pos, budget);
    if dir.None? { return None; }
    var off: nat, left: nat, found := Aligned(dir.value.hdr.spec), budget, found0;
    while off != 0 && off < |img|
      invariant left <= budget
      invariant WalkedFrom(img, off, path, depth, left, found) == Walked(img, pos, path, depth, budget, found0)
      decreases left
    {
      if left == 0 { return None; }
      var entry := ReadHdr(img, off);
      var inode := Resolve(img, off, left);
      if entry.None? || inode.None? { return None; }
      var name := entry.value.name;
      if name != Dots(1) && name != Dots(2) {
        var full := path + [SLASH] + name;
        if inode.value.hdr.word0 % 8 == DIR {
          var below := Walk(img, inode.value.pos, full, depth + 1, left - 1, found[full := DirItem]);
          if below.None? { return None; }
          found := below.value;
        } else {
          found := found[full := ReadItem(img, inode.value)];
        }
      }
      off, left := Aligned(entry.value.word0), left - 1;
    }
    return Some(found);
  }

  // ---- images that represent a tree ---------------------------------------

  /** The header of a directory inode stands at `off`. */
  ghost predicate DirectoryAt(img: Bytes, off: nat) {
    off % 16 == 0 && ReadHdr(img, off).Some? && ReadHdr(img, off).value.word0 % 8 == DIR
  }

  /** The offset an entry gives for its successor. */
  ghost function NextOf(img: Bytes, off: nat): nat {
    match ReadHdr(img, off)
    case None => 0
    case Some(h) => Aligned(h.word0)
  }

  /** A hard link named `name` to the inode at `target`. */
  ghost predicate LinkAt(img: Bytes, off: nat, name: Bytes, target: nat) {
    && 0 < off < |img| && off % 16 == 0
    && ReadHdr(img, off) == Some(Hdr(NextOf(img, off) + HRD, target, 0, name))
  }

  /** The inode at `off` stands for `node`, an entry of the directory at `parent`: header, data,
      and for a directory a list of entries that starts with links to itself and to its parent. */
  ghost predicate Represents(img: Bytes, off: nat, node: Node, parent: nat)
    decreases node, 1
  {
    && 0 < off < |img| && off % 16 == 0 && node.kind < 16
    && match ReadHdr(img, off)
       case None => false
       case Some(h) =>
         && h.word0 == NextOf(img, off) + node.kind && h.size == |node.data| && h.name == node.name
         && DataOf(img, Inode(off, h)) == node.data
         && (node.IsDir() ==>
               && LinkAt(img, h.spec, Dots(1), off)
               && var second := NextOf(img, h.spec);
               && LinkAt(img, second, Dots(2), parent)
               && RepresentsAll(img, NextOf(img, second), node.children, off))
  }

  /** The chain of entries starting at `off` stands for these siblings and then ends. */
  ghost predicate RepresentsAll(img: Bytes, off: nat, cs: seq<Node>, parent: nat)
    decreases cs, 0
  {
    if cs == [] then off == 0
    else Represents(img, off, cs[0], parent) && RepresentsAll(img, NextOf(img, off), cs[1..], parent)
  }

  /** Steps the walk needs below a node. */
  function Cost(n: Node): nat
    decreases n, 0
  {
    3 + CostAll(n.children)
  }

  function CostAll(cs: seq<Node>): nat
    decreases cs, 0
  {
    if cs == [] then 1 else 2 + Cost(cs[0]) + CostAll(cs[1..])
  }

  lemma NulEndsName(img: Bytes, off: nat, name: Bytes)
    requires off + 16 + |name| < |img| && NulFree(name)
    requires img[off + 16..off + 16 + |name|] == name && img[off + 16 + |name|] == 0
    ensures FirstNul(img, off + 16) == off + 16 + |name|
  {
    var nul, s := FirstNul(img, off + 16), img[off + 16..off + 16 + |name|];
    assert forall i :: off + 16 <= i < off + 16 + |name| ==> s[i - (off + 16)] == img[i];
    assert forall i :: off + 16 <= i < off + 16 + |name| ==> img[i] != 0;
  }

  lemma HeaderIsRead(img: Bytes, off: nat, word0: nat, spec: nat, size: nat, name: Bytes)
    requires HeaderAt(img, off, word0, spec, size, name) && NulFree(name)
    ensures ReadHdr(img, off) == Some(Hdr(word0, spec, size, name))
  {
    NulEndsName(img, off, name);
  }

  /** The low bits of a header's first word are the kind, the rest the successor. */
  lemma WordSplits(next: nat, kind: nat)
    requires next % 16 == 0 && kind < 16
    ensures (next + kind) % 8 == kind % 8 && Aligned(next + kind) == next
  {
    SumKindBits(next / 16, kind);
  }

  lemma NodeIsRead(img: Bytes, off: nat, node: Node, parent: nat, budget: nat)
    requires Represents(img, off, node, parent) && GoodKind(node)
    ensures ReadHdr(img, off).Some? && ReadHdr(img, off).value.name == node.name
    ensures Resolved(img, off, budget) == Some(Inode(off, ReadHdr(img, off).value))
    ensures ReadHdr(img, off).value.word0 % 8 == node.kind % 8
    ensures ReadItem(img, Inode(off, ReadHdr(img, off).value)) == ItemOf(node)
  {
    WordSplits(NextOf(img, off), node.kind);
  }

  /** Walking past a dot entry adds nothing. */
  lemma LinkIsSkipped(img: Bytes, off: nat, name: Bytes, target: nat,
                      path: Bytes, depth: nat, budget: nat, found: Found)
    requires LinkAt(img, off, name, target) && (name == Dots(1) || name == Dots(2))
    requires DirectoryAt(img, target) && budget > 0
    ensures WalkedFrom(img, off, path, depth, budget, found)
            == WalkedFrom(img, NextOf(img, off), path, depth, budget - 1, found)
  {
    WordSplits(NextOf(img, off), HRD);
    assert Aligned(target) == target;
    assert Resolved(img, off, budget) == Resolved(img, target, budget - 1);
  }

  /** What stands where a directory is represented: its dot entries, and its children behind them. */
  lemma DirectoryShape(img: Bytes, off: nat, node: Node, parent: nat, budget: nat)
    requires Represents(img, off, node, parent) && node.IsDir() && GoodTree(node)
    ensures ReadHdr(img, off).Some? && Resolved(img, off, budget) == Some(Inode(off, ReadHdr(img, off).value))
    ensures DirectoryAt(img, off) && GoodSiblings(node.children)
    ensures var spec := ReadHdr(img, off).value.spec;
      var second := NextOf(img, spec);
      && Aligned(spec) == spec && LinkAt(img, spec, Dots(1), off) && LinkAt(img, second, Dots(2), parent)
      && RepresentsAll(img, NextOf(img, second), node.children, off)
    ensures Cost(node) == 3 + CostAll(node.children) && Height(node) == 1 + MaxHeight(node.children)
  {
    hide ReadHdr, ReadItem, Resolved, DataOf, RepresentsAll, CostAll, GoodSiblings;
    NodeIsRead(img, off, node, parent, budget);
  }

  lemma WalkedUnfolds(img: Bytes, off: nat, path: Bytes, depth: nat, budget: nat, found: Found)
    requires depth < 40 && Resolved(img, off, budget).Some?
    ensures Walked(img, off, path, depth, budget, found)
            == WalkedFrom(img, Aligned(Resolved(img, off, budget).value.hdr.spec), path, depth, budget, found)
  {
    hide WalkedFrom, Resolved;
  }

  /** Walking a directory that represents a node finds the node's children and what is below them,
      or fails, exactly when a directory below it is nested too deep. */
  lemma {:induction false} WalkFindsChildren(img: Bytes, off: nat, node: Node, parent: nat,
                                             path: Bytes, depth: nat, budget: nat, found: Found)
    requires Represents(img, off, node, parent) && node.IsDir() && GoodTree(node) && DirectoryAt(img, parent)
    requires budget >= Cost(node)
    ensures Walked(img, off, path, depth, budget, found)
            == if depth + Height(node) <= 40 then Some(AddChildren(found, path, node.children)) else None
    decreases node, 1
  {
    hide Represents, RepresentsAll, ReadHdr, ReadItem, LinkAt, NextOf, DataOf, DirectoryAt, WalkedFrom, Resolved;
    hide AddChildren, Cost, CostAll, GoodTree, GoodKind;
    DirectoryShape(img, off, node, parent, budget);
    if depth < 40 {
      var spec := ReadHdr(img, off).value.spec;
      var second := NextOf(img, spec);
      WalkedUnfolds(img, off, path, depth, budget, found);
      LinkIsSkipped(img, spec, Dots(1), off, path, depth, budget, found);
      LinkIsSkipped(img, second, Dots(2), parent, path, depth, budget - 1, found);
      WalkFindsSiblings(img, NextOf(img, second), node.children, off, path, depth, budget - 2, found);
    }
  }

  /** One entry of a directory: its node is added, then the walk goes on with its successor, unless it
      fails in the directory the entry stands for. */
  lemma WalkTakesOne(img: Bytes, off: nat, c: Node, parent: nat,
                     path: Bytes, depth: nat, budget: nat, found: Found, fits: bool)
    requires Represents(img, off, c, parent) && GoodName(c.name) && GoodKind(c) && budget > 0
    requires var full := path + [SLASH] + c.name;
             if c.IsDir() then
               Walked(img, off, full, depth + 1, budget - 1, found[full := DirItem])
               == if fits then Some(AddChildren(found[full := DirItem], full, c.children)) else None
             else fits
    ensures WalkedFrom(img, off, path, depth, budget, found)
            == if fits then WalkedFrom(img, NextOf(img, off), path, depth, budget - 1, AddChild(found, path, c)) else None
  {
    NodeIsRead(img, off, c, parent, budget);
  }

  lemma {:induction false} WalkFindsSiblings(img: Bytes, off: nat, cs: seq<Node>, parent: nat,
                                             path: Bytes, depth: nat, budget: nat, found: Found)
    requires RepresentsAll(img, off, cs, parent) && DirectoryAt(img, parent)
    requires GoodSiblings(cs)
    requires depth < 40 && budget >= CostAll(cs)
    ensures WalkedFrom(img, off, path, depth, budget, found)
            == if depth + 1 + MaxHeight(cs) <= 40 then Some(AddChildren(found, path, cs)) else None
    decreases cs, 0
  {
    hide ReadHdr, ReadItem, Resolved, NextOf, GoodTree, GoodSiblings, Walked;
    if cs != [] {
      var c := cs[0];
      var full := path + [SLASH] + c.name;
      GoodSiblingsTail(cs);
      if c.IsDir() {
        WalkFindsChildren(img, off, c, parent, full, depth + 1, budget - 1, found[full := DirItem]);
      }
      WalkTakesOne(img, off, c, parent, path, depth, budget, found, depth + 1 + Height(c) <= 40);
      WalkFindsSiblings(img, NextOf(img, off), cs[1..], parent, path, depth, budget - 1, AddChild(found, path, c));
    }
  }
}
