/** The image writer, buildroot/board-esp32p4/mkromfs.py: the breadth-first layout of a whole
    tree, the emission of every inode, and the superblock. */
module RomfsWriter {
  import opened RomfsFormat
  import opened RomfsTree
  import opened RomfsReader
  import opened RomfsLayout

  // ---- the flat list of inodes --------------------------------------------

  function EntryFor(n: Node): Entry {
    Entry(n.name, n.kind, n.data, n.dev, 0, 0, 0)
  }

  /** The node a dot entry stands for in the list. */
  function LinkNode(dots: nat): Node {
    Node(Dots(dots), HRD, [], 0, [])
  }

  ghost predicate Describes(e: Entry, n: Node) {
    e.name == n.name && e.kind == n.kind && e.data == n.data && e.dev == n.dev
  }

  /** A node the writer can emit: a dot entry, or part of a tree a scan produced. */
  ghost predicate Fit(n: Node) {
    NulFree(n.name) && ((n.kind == HRD && n.dev == 0 && n.data == []) || GoodTree(n))
  }

  ghost predicate IsLink(e: Entry, dots: nat, target: nat) {
    e.name == Dots(dots) && e.kind == HRD && e.data == [] && e.spec == target
  }

  /** The list so far: each inode with the tree node it stands for and the index of the
      directory that holds it. */
  ghost predicate Listed(flat: seq<Entry>, nodes: seq<Node>, par: seq<nat>) {
    && |flat| == |nodes| == |par|
    && (forall k :: 0 <= k < |flat| ==> Describes(flat[k], nodes[k]) && par[k] < |flat|)
    && (forall k :: 0 <= k < |flat| ==> Fit(nodes[k]))
  }

  ghost predicate ChildAt(nodes: seq<Node>, par: seq<nat>, i: nat, f: nat, j: nat)
    requires i < |nodes| == |par| && j < |nodes[i].children| && f + 2 + j < |nodes|
  {
    nodes[f + 2 + j] == nodes[i].children[j] && par[f + 2 + j] == i
  }

  /** The directory at index `i` has been laid out: its spec is its first entry, at index `f`; its
      entries are links to itself and to its parent and then its children, chained to one another. */
  ghost predicate DirAt(flat: seq<Entry>, nodes: seq<Node>, par: seq<nat>, i: nat, f: nat)
    requires |flat| == |nodes| == |par| && i < |flat|
  {
    var n := |nodes[i].children|;
    && i < f && f + 2 + n <= |flat| && par[i] < |flat|
    && flat[i].spec == flat[f].off
    && IsLink(flat[f], 1, flat[i].off) && IsLink(flat[f + 1], 2, flat[par[i]].off)
    && (forall j :: 0 <= j < n ==> ChildAt(nodes, par, i, f, j))
    && Linked(flat, f, f + 2 + n)
  }

  /** A longer list that only gave the directory at index `i` its spec keeps other directories laid out. */
  ghost predicate Grows(flat: seq<Entry>, grown: seq<Entry>, i: nat) {
    && |flat| <= |grown|
    && forall k :: 0 <= k < |flat| ==>
         grown[k] == (if k == i then flat[k].(spec := grown[k].spec) else flat[k])
  }

  lemma DirAtKept(flat: seq<Entry>, nodes: seq<Node>, par: seq<nat>,
                  grown: seq<Entry>, nodes': seq<Node>, par': seq<nat>, i: nat, d: nat, f: nat)
    requires Listed(flat, nodes, par) && d < |flat| && DirAt(flat, nodes, par, d, f)
    requires i < |flat| && nodes[i].IsDir() && d != i
    requires Grows(flat, grown, i) && |grown| == |nodes'| == |par'| && nodes <= nodes' && par <= par'
    ensures DirAt(grown, nodes', par', d, f)
  {
    assert Describes(flat[i], nodes[i]);
    var n := |nodes[d].children|;
    forall j | 0 <= j < n ensures ChildAt(nodes', par', d, f, j) {
      assert ChildAt(nodes, par, d, f, j);
    }
    var end := f + 2 + n;
    forall k | f <= k < end ensures LinkedOn(grown, k, end) {
      assert LinkedOn(flat, k, end);
    }
  }

  lemma InOrderJoin(a: seq<Entry>, b: seq<Entry>, lo: nat, mid: nat, hi: nat)
    requires InOrder(a, lo, mid) && InOrder(b, mid, hi) && lo <= mid <= hi
    ensures InOrder(a + b, lo, hi)
  {
    hide TotalLen;
    var c := a + b;
    assert forall k :: 0 <= k < |a| ==> c[k] == a[k];
    assert forall k :: |a| <= k < |c| ==> c[k] == b[k - |a|];
  }

  // ---- the queue of directories -------------------------------------------

  datatype Job = Job(index: nat, node: Node, parent: nat)

  ghost predicate Queued(queue: seq<Job>, i: nat) {
    exists q :: 0 <= q < |queue| && queue[q].index == i
  }

  ghost predicate Ascending(queue: seq<Job>) {
    forall a, b :: 0 <= a < b < |queue| ==> queue[a].index < queue[b].index
  }

  ghost function Pending(queue: seq<Job>): nat {
    if queue == [] then 0 else Cost(queue[0].node) + Pending(queue[1..])
  }

  lemma {:induction false} PendingJoin(a: seq<Job>, b: seq<Job>)
    ensures Pending(a + b) == Pending(a) + Pending(b)
  {
    if a == [] {
      assert a + b == b;
    } else {
      assert (a + b)[1..] == a[1..] + b;
      PendingJoin(a[1..], b);
    }
  }

  /** A job for one of these children of the directory at index `i`, the first of which is at `base`. */
  ghost predicate JobFor(job: Job, cs: seq<Node>, base: nat, i: nat) {
    base <= job.index < base + |cs| && job == Job(job.index, cs[job.index - base], i) && job.node.IsDir()
  }

  lemma {:induction false} CostAllSnoc(cs: seq<Node>, c: Node)
    ensures CostAll(cs + [c]) == CostAll(cs) + 2 + Cost(c)
  {
    if cs == [] {
      assert ([c])[1..] == [];
      assert cs + [c] == [c];
    } else {
      assert (cs + [c])[1..] == cs[1..] + [c];
      CostAllSnoc(cs[1..], c);
    }
  }

  /** What is queued for the subdirectories among these children. */
  ghost function SubJobs(cs: seq<Node>, base: nat, i: nat): seq<Job> {
    if cs == [] then []
    else
      var n := |cs| - 1;
      SubJobs(cs[..n], base, i) + (if cs[n].IsDir() then [Job(base + n, cs[n], i)] else [])
  }

  lemma {:induction false} SubJobsAreJobs(cs: seq<Node>, base: nat, i: nat)
    ensures forall q :: 0 <= q < |SubJobs(cs, base, i)| ==> JobFor(SubJobs(cs, base, i)[q], cs, base, i)
    ensures Ascending(SubJobs(cs, base, i))
  {
    if cs != [] {
      var n := |cs| - 1;
      var was, jobs := SubJobs(cs[..n], base, i), SubJobs(cs, base, i);
      SubJobsAreJobs(cs[..n], base, i);
      forall q | 0 <= q < |was| ensures JobFor(jobs[q], cs, base, i) {
        assert JobFor(was[q], cs[..n], base, i);
      }
      forall a, b | 0 <= a < b < |jobs| ensures jobs[a].index < jobs[b].index {
        assert JobFor(was[a], cs[..n], base, i);
      }
    }
  }

  lemma {:induction false} SubJobsCover(cs: seq<Node>, base: nat, i: nat, j: nat)
    requires j < |cs| && cs[j].IsDir()
    ensures Queued(SubJobs(cs, base, i), base + j)
  {
    var n := |cs| - 1;
    var was, jobs := SubJobs(cs[..n], base, i), SubJobs(cs, base, i);
    if j < n {
      SubJobsCover(cs[..n], base, i, j);
      var q :| 0 <= q < |was| && was[q].index == base + j;
      assert jobs[q].index == base + j;
    } else {
      assert jobs[|was|].index == base + j;
    }
  }

  lemma PendingOne(job: Job)
    ensures Pending([job]) == Cost(job.node)
  {
    hide Cost;
    assert [job][1..] == [];
  }

  lemma SubJobsSnoc(cs: seq<Node>, base: nat, i: nat)
    requires cs != []
    ensures var n := |cs| - 1;
      SubJobs(cs, base, i) == SubJobs(cs[..n], base, i) + if cs[n].IsDir() then [Job(base + n, cs[n], i)] else []
  {
  }

  lemma NoJobs(base: nat, i: nat)
    ensures Pending(SubJobs([], base, i)) == 0 && CostAll([]) == 1
  {
  }

  lemma {:induction false} SubJobsPending(cs: seq<Node>, base: nat, i: nat)
    ensures Pending(SubJobs(cs, base, i)) < CostAll(cs)
  {
    hide Cost, CostAll, Pending, SubJobs;
    if cs == [] {
      NoJobs(base, i);
    } else {
      var n := |cs| - 1;
      SubJobsPending(cs[..n], base, i);
      SubJobsSnoc(cs, base, i);
      assert cs == cs[..n] + [cs[n]];
      CostAllSnoc(cs[..n], cs[n]);
      if cs[n].IsDir() {
        var job := Job(base + n, cs[n], i);
        PendingJoin(SubJobs(cs[..n], base, i), [job]);
        PendingOne(job);
      } else {
        assert SubJobs(cs[..n], base, i) + [] == SubJobs(cs[..n], base, i);
      }
    }
  }

  // ---- the layout ---------------------------------------------------------

  function RootOff(volume: Bytes): (r: nat)
    ensures r % 16 == 0 && r >= 32
  {
    var r := Pad16(ALIGN + |volume| + 1);
    assert r >= 17 && r % 16 == 0;
    r
  }

  /** Specs and successors point inside the image laid out so far. */
  ghost predicate Bounded(flat: seq<Entry>, hi: nat) {
    forall k :: 0 <= k < |flat| ==> flat[k].spec <= hi && flat[k].nxt <= hi && flat[k].nxt % 16 == 0
  }

  /** A finished layout: every inode of the tree listed, in order of emission, every directory laid out. */
  ghost predicate LaidOut(flat: seq<Entry>, nodes: seq<Node>, par: seq<nat>, first: map<nat, nat>,
                          root: Node, volume: Bytes, size: nat) {
    && Listed(flat, nodes, par) && |flat| > 0
    && nodes[0] == root && par[0] == 0 && flat[0].off == RootOff(volume) && flat[0].nxt == 0
    && InOrder(flat, RootOff(volume), size) && size % 16 == 0 && Bounded(flat, size)
    && (forall k :: 0 <= k < |flat| && nodes[k].IsDir() ==> k in first && DirAt(flat, nodes, par, k, first[k]))
  }

  /** A layout under way: the directories still queued are the ones not laid out. */
  ghost predicate Underway(flat: seq<Entry>, nodes: seq<Node>, par: seq<nat>, first: map<nat, nat>, queue: seq<Job>) {
    && Listed(flat, nodes, par)
    && Ascending(queue)
    && (forall q :: 0 <= q < |queue| ==> JobOf(queue[q], nodes, par) && queue[q].index !in first)
    && (forall k :: 0 <= k < |flat| && nodes[k].IsDir() ==> k in first || Queued(queue, k))
    && (forall k :: k in first ==> k < |flat| && DirAt(flat, nodes, par, k, first[k]))
  }

  ghost predicate JobOf(job: Job, nodes: seq<Node>, par: seq<nat>)
    requires |nodes| == |par|
  {
    job.index < |nodes| && job.node.IsDir() && nodes[job.index] == job.node && par[job.index] == job.parent
  }

  /** The run of entries of a directory: two links, then its children. */
  function RunFor(node: Node, off: nat, parentOff: nat): seq<Entry> {
    [EntryFor(LinkNode(1)).(spec := off), EntryFor(LinkNode(2)).(spec := parentOff)]
    + seq(|node.children|, j requires 0 <= j < |node.children| => EntryFor(node.children[j]))
  }

  /** A placed and linked run holds what it was given. */
  ghost predicate RunMatches(es: seq<Entry>, node: Node, off: nat, parentOff: nat) {
    && |es| == 2 + |node.children|
    && Linked(es, 0, |es|)
    && IsLink(es[0], 1, off) && Describes(es[0], LinkNode(1))
    && IsLink(es[1], 2, parentOff) && Describes(es[1], LinkNode(2))
    && (forall j :: 0 <= j < |node.children| ==> Describes(es[2 + j], node.children[j]))
    && (forall j :: 2 <= j < |es| ==> es[j].spec == 0)
  }

  lemma RunIsKept(run: seq<Entry>, es: seq<Entry>, node: Node, off: nat, parentOff: nat)
    requires run == RunFor(node, off, parentOff) && |es| == |run|
    requires forall k :: 0 <= k < |run| ==> es[k] == run[k].(off := es[k].off, nxt := es[k].nxt)
    requires Linked(es, 0, |es|)
    ensures RunMatches(es, node, off, parentOff)
  {
    forall j | 0 <= j < |node.children| ensures Describes(es[2 + j], node.children[j]) {
      assert run[2 + j] == EntryFor(node.children[j]);
    }
    forall j | 2 <= j < |es| ensures es[j].spec == 0 {
      assert run[j] == EntryFor(node.children[j - 2]);
    }
  }

  function FlatAfter(flat: seq<Entry>, i: nat, es: seq<Entry>): seq<Entry>
    requires i < |flat| && es != []
  {
    flat[i := flat[i].(spec := es[0].off)] + es
  }

  ghost function NodesAfter(nodes: seq<Node>, cs: seq<Node>): seq<Node> {
    nodes + ([LinkNode(1), LinkNode(2)] + cs)
  }

  ghost function ParAfter(par: seq<nat>, i: nat, n: nat): seq<nat> {
    par + seq(n, _ => i)
  }

  lemma ListedAfter(flat: seq<Entry>, nodes: seq<Node>, par: seq<nat>, i: nat, node: Node,
                    es: seq<Entry>, parentOff: nat)
    requires Listed(flat, nodes, par) && i < |flat| && nodes[i] == node && node.IsDir()
    requires RunMatches(es, node, flat[i].off, parentOff)
    ensures var flat' := FlatAfter(flat, i, es);
            Listed(flat', NodesAfter(nodes, node.children), ParAfter(par, i, |es|)) && Grows(flat, flat', i)
  {
    var flat', nodes', par' := FlatAfter(flat, i, es), NodesAfter(nodes, node.children), ParAfter(par, i, |es|);
    assert GoodTree(node) by { assert Fit(nodes[i]); }
    forall k | 0 <= k < |flat'| ensures Fit(nodes'[k]) {
      if k >= |flat| + 2 {
        var j := k - |flat| - 2;
        ChildIsGood(node, j);
        assert nodes'[k] == node.children[j];
      } else if k < |flat| {
        assert nodes'[k] == nodes[k];
      }
    }
    forall k | 0 <= k < |flat'| ensures Describes(flat'[k], nodes'[k]) && par'[k] < |flat'| {
      if k < |flat| {
        assert Describes(flat[k], nodes[k]);
      } else if k >= |flat| + 2 {
        var j := k - |flat| - 2;
        assert Describes(es[2 + j], node.children[j]);
      }
    }
  }

  lemma NewDirAt(flat: seq<Entry>, nodes: seq<Node>, par: seq<nat>, i: nat, node: Node, es: seq<Entry>)
    requires Listed(flat, nodes, par) && i < |flat| && nodes[i] == node
    requires RunMatches(es, node, flat[i].off, flat[par[i]].off)
    ensures DirAt(FlatAfter(flat, i, es), NodesAfter(nodes, node.children), ParAfter(par, i, |es|), i, |flat|)
  {
    var flat', nodes', par' := FlatAfter(flat, i, es), NodesAfter(nodes, node.children), ParAfter(par, i, |es|);
    var f, n := |flat|, |node.children|;
    assert flat'[par[i]].off == flat[par[i]].off;
    forall j | 0 <= j < n ensures ChildAt(nodes', par', i, f, j) {
      assert nodes'[f + 2 + j] == node.children[j];
    }
    var end := f + 2 + n;
    forall k | f <= k < end ensures LinkedOn(flat', k, end) {
      assert LinkedOn(es, k - f, |es|);
      assert flat'[k] == es[k - f];
    }
  }

  lemma QueueAfter(nodes: seq<Node>, par: seq<nat>, first: map<nat, nat>, queue: seq<Job>)
    requires |nodes| == |par| && Ascending(queue) && queue != []
    requires forall q :: 0 <= q < |queue| ==> JobOf(queue[q], nodes, par) && queue[q].index !in first
    requires forall k :: k in first ==> k < |nodes|
    ensures var i, f, cs := queue[0].index, |nodes|, queue[0].node.children;
            var queue' := queue[1..] + SubJobs(cs, f + 2, i);
            && Ascending(queue')
            && forall q :: 0 <= q < |queue'| ==>
                 JobOf(queue'[q], NodesAfter(nodes, cs), ParAfter(par, i, 2 + |cs|)) && queue'[q].index !in first[i := f]
  {
    var i, f, cs := queue[0].index, |nodes|, queue[0].node.children;
    var jobs, nodes', par' := SubJobs(cs, f + 2, i), NodesAfter(nodes, cs), ParAfter(par, i, 2 + |cs|);
    var queue', m := queue[1..] + jobs, |queue| - 1;
    hide SubJobs, ParAfter;
    SubJobsAreJobs(cs, f + 2, i);
    forall q | 0 <= q < |queue'| ensures JobOf(queue'[q], nodes', par') && queue'[q].index !in first[i := f] {
      if q < m {
        assert JobOf(queue[q + 1], nodes, par);
      } else {
        assert JobFor(jobs[q - m], cs, f + 2, i);
      }
    }
    forall a, b | 0 <= a < b < |queue'| ensures queue'[a].index < queue'[b].index {
      if a < m && b >= m {
        assert JobOf(queue[a + 1], nodes, par);
        assert JobFor(jobs[b - m], cs, f + 2, i);
      } else if a >= m {
        assert jobs[a - m].index < jobs[b - m].index;
      }
    }
  }

  /** Every directory of the longer list is laid out or queued. */
  lemma CoveredAfter(nodes: seq<Node>, first: map<nat, nat>, queue: seq<Job>, k: nat)
    requires queue != [] && k < |NodesAfter(nodes, queue[0].node.children)|
    requires NodesAfter(nodes, queue[0].node.children)[k].IsDir()
    requires k < |nodes| ==> k in first || Queued(queue, k)
    ensures var i, f, cs := queue[0].index, |nodes|, queue[0].node.children;
            k in first[i := f] || Queued(queue[1..] + SubJobs(cs, f + 2, i), k)
  {
    var i, f, cs := queue[0].index, |nodes|, queue[0].node.children;
    var jobs := SubJobs(cs, f + 2, i);
    var queue' := queue[1..] + jobs;
    if k < f {
      if k !in first[i := f] {
        var q :| 0 <= q < |queue| && queue[q].index == k;
        assert queue'[q - 1].index == k;
      }
    } else {
      var j := k - (f + 2);
      SubJobsCover(cs, f + 2, i, j);
      var q :| 0 <= q < |jobs| && jobs[q].index == k;
      assert queue'[|queue| - 1 + q].index == k;
    }
  }

  /** Directories laid out before stay laid out. */
  lemma DirsKept(flat: seq<Entry>, nodes: seq<Node>, par: seq<nat>, i: nat, node: Node, es: seq<Entry>, k: nat, f: nat)
    requires Listed(flat, nodes, par) && i < |flat| && node.IsDir() && nodes[i] == node && k != i && k < |flat|
    requires RunMatches(es, node, flat[i].off, flat[par[i]].off) && DirAt(flat, nodes, par, k, f)
    ensures DirAt(FlatAfter(flat, i, es), NodesAfter(nodes, node.children), ParAfter(par, i, |es|), k, f)
  {
    hide DirAt, Describes, RunMatches;
    assert |es| == 2 + |node.children| by { RunLength(es, node, flat[i].off, flat[par[i]].off); }
    ListedAfter(flat, nodes, par, i, node, es, flat[par[i]].off);
    DirAtKept(flat, nodes, par, FlatAfter(flat, i, es), NodesAfter(nodes, node.children), ParAfter(par, i, |es|), i, k, f);
  }

  lemma RunLength(es: seq<Entry>, node: Node, off: nat, parentOff: nat)
    requires RunMatches(es, node, off, parentOff)
    ensures |es| == 2 + |node.children|
  {
  }

  /** What the loop knows about the job at hand and about the rest. */
  lemma JobAtHand(flat: seq<Entry>, nodes: seq<Node>, par: seq<nat>, first: map<nat, nat>, queue: seq<Job>)
    requires Underway(flat, nodes, par, first, queue) && queue != []
    ensures |flat| == |nodes| == |par| && Listed(flat, nodes, par) && Ascending(queue)
    ensures var job := queue[0];
      job.index < |flat| && nodes[job.index] == job.node && job.node.IsDir() && par[job.index] == job.parent < |flat|
    ensures forall q :: 0 <= q < |queue| ==> JobOf(queue[q], nodes, par) && queue[q].index !in first
    ensures forall k :: k in first ==> k < |flat| && DirAt(flat, nodes, par, k, first[k])
    ensures forall k :: 0 <= k < |nodes| && nodes[k].IsDir() ==> k in first || Queued(queue, k)
  {
    hide DirAt, Describes, Queued, Ascending;
    assert JobOf(queue[0], nodes, par);
  }

  lemma DirsAfter(flat: seq<Entry>, nodes: seq<Node>, par: seq<nat>, first: map<nat, nat>, i: nat, node: Node,
                  es: seq<Entry>)
    requires Listed(flat, nodes, par) && i < |flat| && node.IsDir() && nodes[i] == node && i !in first
    requires RunMatches(es, node, flat[i].off, flat[par[i]].off)
    requires forall k :: k in first ==> k < |flat| && DirAt(flat, nodes, par, k, first[k])
    ensures |es| == 2 + |node.children|
    ensures var flat', nodes', par' := FlatAfter(flat, i, es), NodesAfter(nodes, node.children), ParAfter(par, i, |es|);
      && |flat'| == |nodes'| == |par'| && |flat| <= |flat'| && DirAt(flat', nodes', par', i, |flat|)
      && forall k :: k in first ==> DirAt(flat', nodes', par', k, first[k])
  {
    hide DirAt, Describes, RunMatches;
    RunLength(es, node, flat[i].off, flat[par[i]].off);
    NewDirAt(flat, nodes, par, i, node, es);
    forall k | k in first
      ensures DirAt(FlatAfter(flat, i, es), NodesAfter(nodes, node.children), ParAfter(par, i, |es|), k, first[k])
    {
      DirsKept(flat, nodes, par, i, node, es, k, first[k]);
    }
  }

  lemma AllCovered(nodes: seq<Node>, first: map<nat, nat>, queue: seq<Job>)
    requires queue != [] && forall k :: 0 <= k < |nodes| && nodes[k].IsDir() ==> k in first || Queued(queue, k)
    ensures var i, f, cs := queue[0].index, |nodes|, queue[0].node.children;
      forall k :: 0 <= k < |NodesAfter(nodes, cs)| && NodesAfter(nodes, cs)[k].IsDir() ==>
        k in first[i := f] || Queued(queue[1..] + SubJobs(cs, f + 2, i), k)
  {
    hide Queued, SubJobs;
    var i, f, cs := queue[0].index, |nodes|, queue[0].node.children;
    forall k | 0 <= k < |NodesAfter(nodes, cs)| && NodesAfter(nodes, cs)[k].IsDir()
      ensures k in first[i := f] || Queued(queue[1..] + SubJobs(cs, f + 2, i), k)
    {
      assert k < |nodes| ==> NodesAfter(nodes, cs)[k] == nodes[k];
      CoveredAfter(nodes, first, queue, k);
    }
  }

  /** Laying out the first queued directory keeps the layout under way. */
  lemma DirectoryLaidOut(flat: seq<Entry>, nodes: seq<Node>, par: seq<nat>, first: map<nat, nat>, queue: seq<Job>,
                         es: seq<Entry>)
    requires Underway(flat, nodes, par, first, queue) && queue != [] && JobOf(queue[0], nodes, par)
    requires RunMatches(es, queue[0].node, flat[queue[0].index].off, flat[queue[0].parent].off)
    ensures var i, f, cs := queue[0].index, |flat|, queue[0].node.children;
            Underway(FlatAfter(flat, i, es), NodesAfter(nodes, cs), ParAfter(par, i, |es|), first[i := f],
                     queue[1..] + SubJobs(cs, f + 2, i))
  {
    hide DirAt, Describes, RunMatches, SubJobs, Queued, Listed, Ascending, JobOf, FlatAfter, NodesAfter, ParAfter;
    var i, f, node := queue[0].index, |flat|, queue[0].node;
    JobAtHand(flat, nodes, par, first, queue);
    ListedAfter(flat, nodes, par, i, node, es, flat[par[i]].off);
    DirsAfter(flat, nodes, par, first, i, node, es);
    QueueAfter(nodes, par, first, queue);
    AllCovered(nodes, first, queue);
  }

  lemma OrderAfter(flat: seq<Entry>, i: nat, es: seq<Entry>, lo: nat, mid: nat, hi: nat)
    requires InOrder(flat, lo, mid) && i < |flat| && es != [] && InOrder(es, mid, hi) && lo <= mid <= hi
    ensures InOrder(FlatAfter(flat, i, es), lo, hi)
  {
    hide TotalLen;
    var upd := flat[i := flat[i].(spec := es[0].off)];
    assert TotalLen(upd[i]) == TotalLen(flat[i]) by { SameLength(flat[i], upd[i]); }
    assert InOrder(upd, lo, mid);
    InOrderJoin(upd, es, lo, mid, hi);
  }

  lemma BoundedAfter(flat: seq<Entry>, i: nat, es: seq<Entry>, node: Node, parentOff: nat, lo: nat, mid: nat, hi: nat)
    requires Bounded(flat, mid) && InOrder(flat, lo, mid) && i < |flat| && mid <= hi
    requires RunMatches(es, node, flat[i].off, parentOff) && parentOff <= mid && InOrder(es, mid, hi)
    ensures Bounded(FlatAfter(flat, i, es), hi)
  {
    hide TotalLen;
    var flat' := FlatAfter(flat, i, es);
    forall k | 0 <= k < |flat'|
      ensures flat'[k].spec <= hi && flat'[k].nxt <= hi && flat'[k].nxt % 16 == 0
    {
      if k >= |flat| {
        assert LinkedOn(es, k - |flat|, |es|);
      }
    }
  }

  lemma OffsetBelow(flat: seq<Entry>, k: nat, lo: nat, hi: nat)
    requires InOrder(flat, lo, hi) && k < |flat|
    ensures flat[k].off <= hi
  {
  }

  lemma SameLength(a: Entry, b: Entry)
    requires a.name == b.name && a.data == b.data
    ensures TotalLen(a) == TotalLen(b)
  {
  }

  lemma PendingAfter(queue: seq<Job>, base: nat)
    requires queue != []
    ensures Pending(queue[1..] + SubJobs(queue[0].node.children, base, queue[0].index)) < Pending(queue)
  {
    var cs, i := queue[0].node.children, queue[0].index;
    SubJobsPending(cs, base, i);
    PendingJoin(queue[1..], SubJobs(cs, base, i));
  }

  /** Give the entries of one run their offsets and successors. */
  method PlaceAndLink(run: seq<Entry>, start: nat) returns (es: seq<Entry>, cursor: nat)
    requires start % 16 == 0
    ensures |es| == |run| && forall k :: 0 <= k < |es| ==> es[k] == run[k].(off := es[k].off, nxt := es[k].nxt)
    ensures Linked(es, 0, |es|) && cursor % 16 == 0 && start <= cursor && InOrder(es, start, cursor)
    ensures es != [] && !WantsPageAlign(run[0]) ==> es[0].off == start
    ensures Chained(es, start, |es|) && cursor == CursorAt(es, start, |es|)
  {
    hide Chained, TotalLen;
    var placed;
    placed, cursor := PlaceRun(run, start);
    ChainedInOrder(placed, start);
    ChainedAscends(placed, start, |placed|, 0);
    es := LinkRun(placed);
    ChainedSame(placed, es, start);
    FirstPlaced(placed, start);
    LinkKeepsOrder(placed, es, start, cursor);
  }

  lemma FirstPlaced(placed: seq<Entry>, start: nat)
    requires Chained(placed, start, |placed|)
    ensures placed != [] && !WantsPageAlign(placed[0]) ==> placed[0].off == start
  {
    hide TotalLen;
    if placed != [] { assert WellPlaced(placed, start, 0); }
  }

  lemma LinkKeepsOrder(placed: seq<Entry>, es: seq<Entry>, lo: nat, hi: nat)
    requires |es| == |placed| && forall k :: 0 <= k < |es| ==> es[k] == placed[k].(nxt := es[k].nxt)
    requires InOrder(placed, lo, hi)
    ensures InOrder(es, lo, hi)
  {
    hide TotalLen;
    forall k | 0 <= k < |es| ensures TotalLen(es[k]) == TotalLen(placed[k]) {
      SameLength(es[k], placed[k]);
    }
  }

  /** Lay out the entries of one directory and record where they start. */
  method LayoutDirectory(flat: seq<Entry>, job: Job, start: nat)
    returns (flat': seq<Entry>, cursor: nat, ghost es: seq<Entry>)
    requires job.index < |flat| && job.parent < |flat| && start % 16 == 0
    ensures RunMatches(es, job.node, flat[job.index].off, flat[job.parent].off)
    ensures InOrder(es, start, cursor) && start <= cursor && cursor % 16 == 0 && es[0].off == start
    ensures Chained(es, start, |es|) && cursor == CursorAt(es, start, |es|)
    ensures flat' == FlatAfter(flat, job.index, es)
  {
    var run := RunFor(job.node, flat[job.index].off, flat[job.parent].off);
    var entries;
    entries, cursor := PlaceAndLink(run, start);
    RunIsKept(run, entries, job.node, flat[job.index].off, flat[job.parent].off);
    es := entries;
    flat' := flat[job.index := flat[job.index].(spec := start)] + entries;
  }

  /** Queue the subdirectories among a directory's children. */
  method QueueSubdirectories(waiting: seq<Job>, cs: seq<Node>, base: nat, i: nat) returns (queue: seq<Job>)
    ensures queue == waiting + SubJobs(cs, base, i)
  {
    queue := waiting;
    for j := 0 to |cs|
      invariant queue == waiting + SubJobs(cs[..j], base, i)
    {
      assert cs[..j + 1][..j] == cs[..j];
      if cs[j].IsDir() {
        queue := queue + [Job(base + j, cs[j], i)];
      }
    }
    assert cs[..|cs|] == cs;
  }

  /** Give every inode its offset, its spec and its successor. */
  method Layout(root: Node, volume: Bytes)
    returns (flat: seq<Entry>, size: nat, ghost nodes: seq<Node>, ghost par: seq<nat>, ghost first: map<nat, nat>)
    requires root.IsDir() && GoodTree(root) && NulFree(root.name)
    ensures LaidOut(flat, nodes, par, first, root, volume, size)
    ensures Chained(flat, RootOff(volume), |flat|) && size == CursorAt(flat, RootOff(volume), |flat|)
    ensures nodes == [root] + BreadthFirst([root])
  {
    hide Underway, RunMatches, SubJobs, InOrder, Pending, DirAt, Listed, Bounded, GoodTree, Chained, CursorAt;
    hide BreadthFirst, NodesIn, FlatAfter;
    var cursor: nat := RootOff(volume);
    flat, nodes, par, first := [EntryFor(root).(off := cursor)], [root], [0], map[];
    var queue := [Job(0, root, 0)];
    cursor := cursor + HdrLen(root.name);
    RootAlone(flat, nodes, par, queue, volume);
    RootChained(root, volume);
    assert NodesIn(queue) == [root] by { OneJob(queue[0]); }
    while queue != []
      invariant Underway(flat, nodes, par, first, queue) && cursor % 16 == 0
      invariant |flat| > 0 && Bounded(flat, cursor) && InOrder(flat, RootOff(volume), cursor) && RootOff(volume) <= cursor
      invariant nodes != [] && par != [] && nodes[0] == root && par[0] == 0 && flat[0].off == RootOff(volume) && flat[0].nxt == 0
      invariant Chained(flat, RootOff(volume), |flat|) && cursor == CursorAt(flat, RootOff(volume), |flat|)
      invariant nodes + BreadthFirst(NodesIn(queue)) == [root] + BreadthFirst([root])
      decreases Pending(queue)
    {
      FirstJob(flat, nodes, par, first, queue);
      var job := queue[0];
      var longer, end; ghost var es;
      longer, end, es := LayoutDirectory(flat, job, cursor);
      DirectoryLaidOut(flat, nodes, par, first, queue, es);
      RunLength(es, job.node, flat[job.index].off, flat[job.parent].off);
      OrderAfter(flat, job.index, es, RootOff(volume), cursor, end);
      OffsetBelow(flat, job.parent, RootOff(volume), cursor);
      BoundedAfter(flat, job.index, es, job.node, flat[job.parent].off, RootOff(volume), cursor, end);
      PendingAfter(queue, |flat| + 2);
      ChainedAfter(flat, job.index, es, RootOff(volume));
      RootKept(flat, job.index, es);
      BreadthStep(nodes, queue, |flat| + 2);
      queue := QueueSubdirectories(queue[1..], job.node.children, |flat| + 2, job.index);
      nodes, par := NodesAfter(nodes, job.node.children), ParAfter(par, job.index, |es|);
      first, flat, cursor := first[job.index := |flat|], longer, end;
    }
    size := cursor;
    AllJobsDone(flat, nodes, par, first);
    NothingLeft(nodes, queue);
  }

  lemma RootKept(flat: seq<Entry>, i: nat, es: seq<Entry>)
    requires i < |flat| && es != []
    ensures var longer := FlatAfter(flat, i, es);
      |longer| == |flat| + |es| && longer[0].off == flat[0].off && longer[0].nxt == flat[0].nxt
  {
  }

  lemma ChainedAfter(flat: seq<Entry>, i: nat, es: seq<Entry>, start: nat)
    requires i < |flat| && es != [] && Chained(flat, start, |flat|) && Chained(es, CursorAt(flat, start, |flat|), |es|)
    ensures var longer := FlatAfter(flat, i, es);
      && Chained(longer, start, |longer|)
      && CursorAt(longer, start, |longer|) == CursorAt(es, CursorAt(flat, start, |flat|), |es|)
  {
    hide Chained, TotalLen;
    var upd := flat[i := flat[i].(spec := es[0].off)];
    ChainedSame(flat, upd, start);
    ChainedJoin(upd, es, start);
  }

  lemma RootChained(root: Node, volume: Bytes)
    requires root.IsDir() && GoodTree(root)
    ensures var flat := [EntryFor(root).(off := RootOff(volume))];
      && Chained(flat, RootOff(volume), 1) && CursorAt(flat, RootOff(volume), 1) == RootOff(volume) + HdrLen(root.name)
  {
    hide RootOff;
    assert root.data == [];
    var e := EntryFor(root).(off := RootOff(volume));
    assert WellPlaced([e], RootOff(volume), 0);
  }

  // ---- the order of the list -------------------------------------------------

  ghost function NodesIn(queue: seq<Job>): seq<Node> {
    seq(|queue|, q requires 0 <= q < |queue| => queue[q].node)
  }

  lemma OneJob(job: Job)
    ensures NodesIn([job]) == [job.node]
  {
  }

  lemma NothingLeft(nodes: seq<Node>, queue: seq<Job>)
    requires queue == []
    ensures nodes + BreadthFirst(NodesIn(queue)) == nodes
  {
  }

  /** The directories among some nodes. */
  ghost function Directories(cs: seq<Node>): seq<Node> {
    if cs == [] then [] else Directories(cs[..|cs| - 1]) + if cs[|cs| - 1].IsDir() then [cs[|cs| - 1]] else []
  }

  ghost function Waiting(ns: seq<Node>): nat {
    if ns == [] then 0 else Cost(ns[0]) + Waiting(ns[1..])
  }

  lemma {:induction false} WaitingJoin(a: seq<Node>, b: seq<Node>)
    ensures Waiting(a + b) == Waiting(a) + Waiting(b)
  {
    hide Cost;
    if a == [] {
      assert a + b == b;
    } else {
      assert (a + b)[1..] == a[1..] + b;
      WaitingJoin(a[1..], b);
    }
  }

  lemma {:induction false} DirectoriesWaiting(cs: seq<Node>)
    ensures Waiting(Directories(cs)) < CostAll(cs)
  {
    hide Cost;
    if cs != [] {
      var n := |cs| - 1;
      DirectoriesWaiting(cs[..n]);
      assert cs == cs[..n] + [cs[n]];
      CostAllSnoc(cs[..n], cs[n]);
      WaitingJoin(Directories(cs[..n]), [cs[n]]);
      assert [cs[n]][1..] == [];
      assert Directories(cs[..n]) + [] == Directories(cs[..n]);
    }
  }

  lemma WaitingAfter(ns: seq<Node>)
    requires ns != []
    ensures Waiting(ns[1..] + Directories(ns[0].children)) < Waiting(ns)
  {
    WaitingJoin(ns[1..], Directories(ns[0].children));
    DirectoriesWaiting(ns[0].children);
  }

  /** What stands behind the nodes of some directories that wait in line: for each in turn "." and ".." and
      its children, its subdirectories joining the line. */
  ghost function BreadthFirst(ns: seq<Node>): seq<Node>
    decreases Waiting(ns)
  {
    if ns == [] then []
    else
      WaitingAfter(ns);
      [Node([46], 0, [], 0, []), Node([46, 46], 0, [], 0, [])] + ns[0].children
      + BreadthFirst(ns[1..] + Directories(ns[0].children))
  }

  lemma {:induction false} NodesOfJobs(cs: seq<Node>, base: nat, i: nat)
    ensures NodesIn(SubJobs(cs, base, i)) == Directories(cs)
  {
    if cs != [] {
      var n := |cs| - 1;
      NodesOfJobs(cs[..n], base, i);
      NodesJoin(SubJobs(cs[..n], base, i), if cs[n].IsDir() then [Job(base + n, cs[n], i)] else []);
    }
  }

  lemma NodesJoin(a: seq<Job>, b: seq<Job>)
    ensures NodesIn(a + b) == NodesIn(a) + NodesIn(b)
    ensures b == [] ==> NodesIn(b) == []
    ensures |b| == 1 ==> NodesIn(b) == [b[0].node]
  {
  }

  lemma BreadthStep(nodes: seq<Node>, queue: seq<Job>, base: nat)
    requires queue != []
    ensures var cs, i := queue[0].node.children, queue[0].index;
      NodesAfter(nodes, cs) + BreadthFirst(NodesIn(queue[1..] + SubJobs(cs, base, i)))
        == nodes + BreadthFirst(NodesIn(queue))
  {
    hide SubJobs, Directories;
    var cs, i := queue[0].node.children, queue[0].index;
    var ns := NodesIn(queue);
    NodesOfJobs(cs, base, i);
    NodesJoin(queue[1..], SubJobs(cs, base, i));
    assert NodesIn(queue[1..]) == ns[1..] && ns[0] == queue[0].node;
    assert Dots(1) == [46] && Dots(2) == [46, 46];
  }

  lemma FirstJob(flat: seq<Entry>, nodes: seq<Node>, par: seq<nat>, first: map<nat, nat>, queue: seq<Job>)
    requires Underway(flat, nodes, par, first, queue) && queue != []
    ensures |flat| == |nodes| == |par| && JobOf(queue[0], nodes, par) && queue[0].parent < |flat|
  {
    assert Describes(flat[queue[0].index], nodes[queue[0].index]);
  }

  lemma AllJobsDone(flat: seq<Entry>, nodes: seq<Node>, par: seq<nat>, first: map<nat, nat>)
    requires Underway(flat, nodes, par, first, [])
    ensures Listed(flat, nodes, par)
    ensures forall k :: 0 <= k < |flat| && nodes[k].IsDir() ==> k in first && DirAt(flat, nodes, par, k, first[k])
  {
  }

  lemma RootAlone(flat: seq<Entry>, nodes: seq<Node>, par: seq<nat>, queue: seq<Job>, volume: Bytes)
    requires |nodes| == 1 && nodes[0].IsDir() && GoodTree(nodes[0]) && NulFree(nodes[0].name) && par == [0] && queue == [Job(0, nodes[0], 0)]
    requires flat == [EntryFor(nodes[0]).(off := RootOff(volume))]
    ensures Underway(flat, nodes, par, map[], queue)
    ensures var hi := RootOff(volume) + HdrLen(nodes[0].name);
            InOrder(flat, RootOff(volume), hi) && hi % 16 == 0 && Bounded(flat, hi)
  {
    EndIsAligned(flat[0]);
    assert queue[0].index == 0;
    assert JobOf(queue[0], nodes, par);
  }
}
