/** Directory trees, the path-to-content map a reader should find in one, and
    what that map means path by path. */
module RomfsTree {
  import opened RomfsFormat

  /** What `scan` builds: one file-system object with its children in order. */
  datatype Node = Node(name: Bytes, kind: nat, data: Bytes, dev: nat, children: seq<Node>) {
    predicate IsDir() { kind % 8 == DIR }
  }

  datatype Item = DirItem | SymItem(target: Bytes) | RegItem(content: Bytes) | OtherItem

  type Found = map<Bytes, Item>

  function ItemOf(n: Node): Item {
    if n.kind % 8 == DIR then DirItem
    else if n.kind % 8 == SYM then SymItem(n.data)
    else if n.kind % 8 == REG then RegItem(n.data)
    else OtherItem
  }

  // ---- trees a scan can produce -------------------------------------------

  predicate GoodName(name: Bytes) {
    && name != [] && name != Dots(1) && name != Dots(2)
    && forall i :: 0 <= i < |name| ==> name[i] != 0 && name[i] != SLASH && name[i] < 128
  }

  /** The kinds `scan` assigns; only regular files and links carry data, only directories children. */
  predicate GoodKind(n: Node) {
    && n.kind in {DIR + EXEC, SYM, REG, REG + EXEC, CHR, BLK, FIF, SCK}
    && (n.kind != DIR + EXEC ==> n.children == [])
    && (n.kind !in {SYM, REG, REG + EXEC} ==> n.data == [])
    && n.dev < WORD
  }

  /** In the numbers of the format: 9 is a directory, 3 a link, 2 and 10 are files, 4 and 5 devices. */
  lemma KindNumbers(n: Node)
    requires GoodKind(n)
    ensures n.kind in {2, 3, 4, 5, 6, 7, 9, 10} && (n.IsDir() <==> n.kind == 9)
    ensures ItemOf(n) == match n.kind
                         case 9 => DirItem
                         case 3 => SymItem(n.data)
                         case 2 => RegItem(n.data)
                         case 10 => RegItem(n.data)
                         case _ => OtherItem
  {
  }

  predicate Distinct(cs: seq<Node>) {
    forall i, j :: 0 <= i < j < |cs| ==> cs[i].name != cs[j].name
  }

  predicate GoodTree(n: Node)
    decreases n, 1
  {
    GoodKind(n) && GoodSiblings(n.children)
  }

  predicate GoodSiblings(cs: seq<Node>)
    decreases cs, 0
  {
    && Distinct(cs)
    && forall i :: 0 <= i < |cs| ==> GoodName(cs[i].name) && GoodTree(cs[i])
  }

  lemma ChildIsGood(n: Node, j: nat)
    requires GoodTree(n) && j < |n.children|
    ensures GoodName(n.children[j].name) && GoodTree(n.children[j])
  {
    assert GoodSiblings(n.children);
  }

  /** Nesting depth of directories below and including this node. */
  function Height(n: Node): nat
    decreases n, 0
  {
    if n.IsDir() then 1 + MaxHeight(n.children) else 0
  }

  function MaxHeight(cs: seq<Node>): nat
    decreases cs, 0
  {
    if cs == [] then 0
    else
      var a, b := Height(cs[0]), MaxHeight(cs[1..]);
      if a > b then a else b
  }

  // ---- the map a reader should find ---------------------------------------

  function AddChild(found: Found, path: Bytes, c: Node): Found
    decreases c, 1
  {
    var full := path + [SLASH] + c.name;
    var f := found[full := ItemOf(c)];
    if c.IsDir() then AddChildren(f, full, c.children) else f
  }

  function AddChildren(found: Found, path: Bytes, cs: seq<Node>): Found
    decreases cs, 0
  {
    if cs == [] then found else AddChildren(AddChild(found, path, cs[0]), path, cs[1..])
  }

  /** Every path below the root, with its kind and content. */
  function Contents(root: Node): Found {
    AddChildren(map[], [], root.children)
  }

  // ---- what that map means ------------------------------------------------

  /** The node reached from a directory's children by following a list of names. */
  function Lookup(cs: seq<Node>, names: seq<Bytes>): Option<Node>
    requires names != []
    decreases |names|, |cs|
  {
    if cs == [] then None
    else if cs[0].name != names[0] then Lookup(cs[1..], names)
    else if |names| == 1 then Some(cs[0])
    else if cs[0].IsDir() then Lookup(cs[0].children, names[1..])
    else None
  }

  function PathOf(names: seq<Bytes>): Bytes {
    if names == [] then [] else [SLASH] + names[0] + PathOf(names[1..])
  }

  /** A slash, character 47, stands in front of every name of a path. */
  lemma PathSpelled(name: Bytes, names: seq<Bytes>)
    ensures PathOf([name]) == [47] + name
    ensures PathOf([name] + names) == [47] + name + PathOf(names)
  {
    assert PathOf([name]) == [47] + name + PathOf([]);
    assert ([name] + names)[1..] == names;
  }

  /** A path that goes through the child `c` of `path`: its own, or one beneath it. */
  ghost predicate Under(key: Bytes, path: Bytes, c: Bytes) {
    var full := path + [SLASH] + c;
    |full| <= |key| && key[..|full|] == full && (|key| > |full| ==> key[|full|] == SLASH)
  }

  /** A path through two sibling names, one longer, has a slash inside the longer one. */
  lemma LongerNameHasSlash(key: Bytes, path: Bytes, a: Bytes, b: Bytes)
    requires Under(key, path, a) && Under(key, path, b) && |a| < |b|
    ensures SLASH in b
  {
    var fa, fb := path + [SLASH] + a, path + [SLASH] + b;
    assert key[|fa|] == key[..|fb|][|fa|] == fb[|fa|] == b[|a|];
  }

  /** Slash-free sibling names that differ lead to different paths. */
  lemma UnderIsUnique(key: Bytes, path: Bytes, a: Bytes, b: Bytes)
    requires Under(key, path, a) && Under(key, path, b)
    requires SLASH !in a && SLASH !in b
    ensures a == b
  {
    if |a| < |b| {
      LongerNameHasSlash(key, path, a, b);
    } else if |b| < |a| {
      LongerNameHasSlash(key, path, b, a);
    } else {
      var fa, fb := path + [SLASH] + a, path + [SLASH] + b;
      assert fa == fb;
      assert fa[|path| + 1..] == a && fb[|path| + 1..] == b;
    }
  }

  /** A path beneath a grandchild is beneath the child. */
  lemma UnderGrandchild(key: Bytes, path: Bytes, c: Bytes, d: Bytes)
    requires Under(key, path + [SLASH] + c, d)
    ensures Under(key, path, c)
    ensures key != path + [SLASH] + c
  {
    var full := path + [SLASH] + c;
    var deep := full + [SLASH] + d;
    assert key[..|full|] == key[..|deep|][..|full|] == full;
    assert key[|full|] == key[..|deep|][|full|] == SLASH;
  }

  lemma GoodSiblingsTail(cs: seq<Node>)
    requires GoodSiblings(cs) && cs != []
    ensures GoodSiblings(cs[1..]) && GoodName(cs[0].name) && GoodTree(cs[0]) && SLASH !in cs[0].name
    ensures forall c :: c in cs[1..] ==> c.name != cs[0].name && SLASH !in c.name
  {
  }

  /** Adding siblings changes nothing at paths that go through none of them. */
  lemma {:induction false} AddChildrenFrame(found: Found, path: Bytes, cs: seq<Node>, key: Bytes)
    requires forall c :: c in cs ==> !Under(key, path, c.name)
    ensures key in AddChildren(found, path, cs) <==> key in found
    ensures key in found ==> AddChildren(found, path, cs)[key] == found[key]
    decreases cs, 0
  {
    if cs != [] {
      AddChildFrame(found, path, cs[0], key);
      AddChildrenFrame(AddChild(found, path, cs[0]), path, cs[1..], key);
    }
  }

  lemma {:induction false} AddChildFrame(found: Found, path: Bytes, c: Node, key: Bytes)
    requires !Under(key, path, c.name)
    ensures key in AddChild(found, path, c) <==> key in found
    ensures key in found ==> AddChild(found, path, c)[key] == found[key]
    decreases c, 1
  {
    var full := path + [SLASH] + c.name;
    assert key != full by { assert full[..|full|] == full; }
    if c.IsDir() {
      forall d | d in c.children ensures !Under(key, full, d.name) {
        if Under(key, full, d.name) { UnderGrandchild(key, path, c.name, d.name); }
      }
      AddChildrenFrame(found[full := ItemOf(c)], full, c.children, key);
    }
  }

  /** A child's own path carries the child, whatever is beneath it. */
  lemma OwnPath(found: Found, path: Bytes, c: Node)
    ensures var full := path + [SLASH] + c.name;
            full in AddChild(found, path, c) && AddChild(found, path, c)[full] == ItemOf(c)
  {
    var full := path + [SLASH] + c.name;
    forall d | d in c.children ensures !Under(full, full, d.name) {
      if Under(full, full, d.name) { UnderGrandchild(full, path, c.name, d.name); }
    }
    AddChildrenFrame(found[full := ItemOf(c)], full, c.children, full);
  }

  lemma ExtensionIsUnder(path: Bytes, c: Bytes, rest: Bytes)
    requires rest == [] || rest[0] == SLASH
    ensures Under(path + [SLASH] + c + rest, path, c)
  {
    var full := path + [SLASH] + c;
    assert (full + rest)[..|full|] == full;
  }

  lemma Reassociate(path: Bytes, c: Bytes, rest: Bytes)
    ensures path + ([SLASH] + c + rest) == path + [SLASH] + c + rest
  {
  }

  lemma PathStartsWithName(path: Bytes, names: seq<Bytes>)
    requires names != []
    ensures path + PathOf(names) == path + [SLASH] + names[0] + PathOf(names[1..])
    ensures Under(path + PathOf(names), path, names[0])
  {
    hide Under;
    var rest := PathOf(names[1..]);
    Reassociate(path, names[0], rest);
    ExtensionIsUnder(path, names[0], rest);
  }

  /** Every path of the tree is in the map with the node found there. */
  lemma {:induction false} PathsArePresent(found: Found, path: Bytes, cs: seq<Node>, names: seq<Bytes>)
    requires GoodSiblings(cs) && names != [] && Lookup(cs, names).Some?
    ensures var key := path + PathOf(names);
            key in AddChildren(found, path, cs) && AddChildren(found, path, cs)[key] == ItemOf(Lookup(cs, names).value)
    decreases |names|, |cs|
  {
    GoodSiblingsTail(cs);
    PathStartsWithName(path, names);
    var c, key := cs[0], path + PathOf(names);
    if c.name != names[0] {
      PathsArePresent(AddChild(found, path, c), path, cs[1..], names);
    } else {
      var full := path + [SLASH] + c.name;
      forall d | d in cs[1..] ensures !Under(key, path, d.name) {
        if Under(key, path, d.name) { UnderIsUnique(key, path, c.name, d.name); }
      }
      AddChildrenFrame(AddChild(found, path, c), path, cs[1..], key);
      if |names| == 1 {
        assert key == full;
        OwnPath(found, path, c);
      } else {
        assert GoodSiblings(c.children);
        PathsArePresent(found[full := ItemOf(c)], full, c.children, names[1..]);
      }
    }
  }

  /** Nothing is in the map but what was there before and the paths of the tree. */
  lemma {:induction false} NothingElseIsPresent(found: Found, path: Bytes, cs: seq<Node>, key: Bytes)
    returns (names: seq<Bytes>)
    requires GoodSiblings(cs) && key in AddChildren(found, path, cs) && key !in found
    ensures names != [] && key == path + PathOf(names) && Lookup(cs, names).Some?
    decreases cs, 0
  {
    GoodSiblingsTail(cs);
    var c := cs[0];
    var f := AddChild(found, path, c);
    if key !in f {
      names := NothingElseIsPresent(f, path, cs[1..], key);
      LookupFindsAName(cs[1..], names);
    } else {
      var full := path + [SLASH] + c.name;
      if key == full {
        names := [c.name];
        PathStartsWithName(path, names);
        assert full + PathOf([]) == full;
      } else {
        assert GoodSiblings(c.children);
        var rest := NothingElseIsPresent(found[full := ItemOf(c)], full, c.children, key);
        names := [c.name] + rest;
        assert names[1..] == rest;
        PathStartsWithName(path, names);
      }
    }
  }

  lemma {:induction false} LookupFindsAName(cs: seq<Node>, names: seq<Bytes>)
    requires names != [] && Lookup(cs, names).Some?
    ensures exists c :: c in cs && c.name == names[0]
    decreases |cs|
  {
    if cs[0].name != names[0] {
      LookupFindsAName(cs[1..], names);
    } else {
      assert cs[0] in cs;
    }
  }

  /** This list of names leads from the root to a node, along the path `key`. */
  ghost predicate Leads(root: Node, names: seq<Bytes>, key: Bytes) {
    names != [] && key == PathOf(names) && Lookup(root.children, names).Some?
  }

  /** The map is exactly the tree: the paths in it are the ones names lead to, and
      each carries the kind and content of the node reached. */
  lemma ContentsMeaning(root: Node, key: Bytes)
    requires GoodTree(root)
    ensures key in Contents(root) <==> exists names :: Leads(root, names, key)
    ensures forall names :: Leads(root, names, key) ==>
              key in Contents(root) && Contents(root)[key] == ItemOf(Lookup(root.children, names).value)
  {
    forall names | Leads(root, names, key)
      ensures key in Contents(root) && Contents(root)[key] == ItemOf(Lookup(root.children, names).value)
    {
      PathsArePresent(map[], [], root.children, names);
      assert [] + PathOf(names) == PathOf(names);
    }
    if key in Contents(root) {
      var names := NothingElseIsPresent(map[], [], root.children, key);
      assert key == [] + PathOf(names) == PathOf(names);
      assert Leads(root, names, key);
    }
  }
}
