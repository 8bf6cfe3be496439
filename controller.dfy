/** The coordinator's scheduler: the work iterator (requeued jobs first, then freshly numbered
    jobs), the worker registry with its per-worker outstanding jobs, the worker messages
    `connect`, `disconnect` and `job_done`, least-loaded dispatch under a per-worker cap, and the
    directory tree built at start-up by `build_recursive_tree`. The socket is replaced by a sequence
    of inbound message batches and a list of outbound sends. */
module Controller {
  import opened Common

  const MAX_FILES_PER_DIR: nat := 1000
  const MAX_JOBS_PER_WORKER: nat := 50
  /** `xrange(0, 10000)`: the numbers the work iterator mints. */
  const JOB_NUMBERS: nat := 10000

  // ================================================================ the start-up directory tree

  /** Random names are drawn from a counter: a directory takes one name, each of its files one more. */
  const NAMES_PER_DIRECTORY: nat := 1001

  /** `Directory()` with its `MAX_FILES_PER_DIR` `File()`s. */
  datatype DirEntry = DirEntry(name: nat, files: seq<nat>)

  /** The directory whose names start at `next`: the directory's own name, then one per file. */
  function NewDirectory(next: nat): (d: DirEntry)
    ensures d.name == next && |d.files| == MAX_FILES_PER_DIR
    ensures forall i :: 0 <= i < |d.files| ==> next < d.files[i] < next + NAMES_PER_DIRECTORY
    ensures forall i, j :: 0 <= i < j < |d.files| ==> d.files[i] < d.files[j]
  {
    DirEntry(next, seq(MAX_FILES_PER_DIR, i requires 0 <= i => next + 1 + i))
  }

  /** A tree node: its parent's position (none for the root) and its directory (none for the root). */
  datatype Node = Node(parent: Option<nat>, dir: Option<DirEntry>)

  /** `tree.children(p)`: the positions of p's children, in creation order. */
  function ChildrenOf(nodes: seq<Node>, p: nat): (cs: seq<nat>)
    ensures forall k :: 0 <= k < |cs| ==> cs[k] < |nodes| && nodes[cs[k]].parent == Some(p)
    decreases |nodes|
  {
    if nodes == [] then []
    else
      var init := nodes[..|nodes| - 1];
      assert forall i :: 0 <= i < |init| ==> init[i] == nodes[i];
      ChildrenOf(init, p) + (if nodes[|nodes| - 1].parent == Some(p) then [|nodes| - 1] else [])
  }

  /** `tree.children(p)` lists every child of p exactly once, in creation order. */
  lemma {:induction false} ChildrenOfComplete(nodes: seq<Node>, p: nat)
    ensures forall i :: 0 <= i < |nodes| && nodes[i].parent == Some(p) ==> i in ChildrenOf(nodes, p)
    ensures forall k, l :: 0 <= k < l < |ChildrenOf(nodes, p)| ==> ChildrenOf(nodes, p)[k] < ChildrenOf(nodes, p)[l]
    decreases |nodes|
  {
    if nodes != [] {
      var init := nodes[..|nodes| - 1];
      ChildrenOfComplete(init, p);
      assert forall i :: 0 <= i < |init| ==> init[i] == nodes[i];
    }
  }

  /** Appending nodes none of which is a child of p leaves p's children as they were. */
  lemma {:induction false} ChildrenOfExtend(pre: seq<Node>, rest: seq<Node>, p: nat)
    requires forall j :: 0 <= j < |rest| ==> rest[j].parent != Some(p)
    ensures ChildrenOf(pre + rest, p) == ChildrenOf(pre, p)
    decreases |rest|
  {
    if rest != [] {
      var init := rest[..|rest| - 1];
      var all := pre + rest;
      assert all[..|all| - 1] == pre + init;
      assert all[|all| - 1] == rest[|rest| - 1];
      assert rest[|rest| - 1].parent != Some(p);
      ChildrenOfExtend(pre, init, p);
      var before := ChildrenOf(all[..|all| - 1], p);
      assert ChildrenOf(all, p) == before + [];
      assert before + [] == before;
      assert before == ChildrenOf(pre, p);
    } else {
      assert pre + rest == pre;
    }
  }

  /** `[x] * n`. */
  function Repeat<T>(x: T, n: nat): (s: seq<T>)
    ensures |s| == n && forall i :: 0 <= i < n ==> s[i] == x
  {
    seq(n, i => x)
  }

  /** `range(from, from + n)`. */
  function Range(from: nat, n: nat): (s: seq<nat>)
    ensures |s| == n && forall i :: 0 <= i < n ==> s[i] == from + i
  {
    seq(n, i requires 0 <= i => from + i)
  }

  function Level(depth: int): nat {
    if depth < 0 then 0 else depth + 1
  }

  /** The number of directories `build_recursive_tree(_, _, depth, width)` creates. */
  function TreeSize(depth: int, width: nat): nat
    decreases Level(depth)
  {
    if depth < 0 then 0 else width + width * TreeSize(depth - 1, width)
  }

  /** The parents of the nodes `build_recursive_tree(base, depth, width)` appends when the new nodes
      are numbered from `next`: `width` children of `base`, then the subtree of each child in turn. */
  function Layout(base: nat, next: nat, depth: int, width: nat): seq<Option<nat>>
    decreases Level(depth), 0
  {
    if depth < 0 then []
    else Repeat(Some(base), width) + Forest(next, width, next + width, depth - 1, width)
  }

  /** The subtrees of the `count` roots numbered from `first`, one after the other, their nodes
      numbered from `next`. */
  function Forest(first: nat, count: nat, next: nat, depth: int, width: nat): seq<Option<nat>>
    decreases Level(depth), 1, count
  {
    if count == 0 then []
    else
      var front := Forest(first, count - 1, next, depth, width);
      front + Layout(first + count - 1, next + |front|, depth, width)
  }

  /** The build appends exactly TreeSize(depth, width) nodes. */
  lemma {:induction false} LayoutSize(base: nat, next: nat, depth: int, width: nat)
    ensures |Layout(base, next, depth, width)| == TreeSize(depth, width)
    decreases Level(depth), 0
  {
    if depth >= 0 {
      ForestSize(next, width, next + width, depth - 1, width);
    }
  }

  lemma {:induction false} ForestSize(first: nat, count: nat, next: nat, depth: int, width: nat)
    ensures |Forest(first, count, next, depth, width)| == count * TreeSize(depth, width)
    decreases Level(depth), 1, count
  {
    if count > 0 {
      ForestSize(first, count - 1, next, depth, width);
      var front := Forest(first, count - 1, next, depth, width);
      LayoutSize(first + count - 1, next + |front|, depth, width);
      assert count * TreeSize(depth, width) == (count - 1) * TreeSize(depth, width) + TreeSize(depth, width);
    }
  }

  /** Each entry j of `ps` names `base` or one of the nodes numbered `next` .. `next + j - 1`. */
  ghost predicate HangsUnder(ps: seq<Option<nat>>, base: nat, next: nat) {
    forall j :: 0 <= j < |ps| ==> ps[j] == Some(base) || (ps[j].Some? && next <= ps[j].value < next + j)
  }

  /** Each entry j of `ps` names one of the roots `first` .. `first + count - 1` or one of the nodes
      numbered `next` .. `next + j - 1`. */
  ghost predicate HangsUnderRoots(ps: seq<Option<nat>>, first: nat, count: nat, next: nat) {
    forall j :: 0 <= j < |ps| ==>
      ps[j].Some? && ((first <= ps[j].value < first + count) || next <= ps[j].value < next + j)
  }

  /** Every appended node hangs under `base` or under a node appended before it. */
  lemma {:induction false} LayoutParents(base: nat, next: nat, depth: int, width: nat)
    ensures HangsUnder(Layout(base, next, depth, width), base, next)
    decreases Level(depth), 0
  {
    if depth >= 0 {
      ForestParents(next, width, next + width, depth - 1, width);
      var ps := Layout(base, next, depth, width);
      var f := Forest(next, width, next + width, depth - 1, width);
      assert ps == Repeat(Some(base), width) + f;
      forall j | 0 <= j < |ps|
        ensures ps[j] == Some(base) || (ps[j].Some? && next <= ps[j].value < next + j)
      {
        if j >= width {
          assert ps[j] == f[j - width];
        }
      }
    }
  }

  lemma {:induction false} ForestParents(first: nat, count: nat, next: nat, depth: int, width: nat)
    ensures HangsUnderRoots(Forest(first, count, next, depth, width), first, count, next)
    decreases Level(depth), 1, count
  {
    if count > 0 {
      ForestParents(first, count - 1, next, depth, width);
      var front := Forest(first, count - 1, next, depth, width);
      LayoutParents(first + count - 1, next + |front|, depth, width);
      var ps := Forest(first, count, next, depth, width);
      var tail := Layout(first + count - 1, next + |front|, depth, width);
      assert ps == front + tail;
      forall j | 0 <= j < |ps|
        ensures ps[j].Some? && ((first <= ps[j].value < first + count) || next <= ps[j].value < next + j)
      {
        if j < |front| {
          assert ps[j] == front[j];
        } else {
          assert ps[j] == tail[j - |front|];
        }
      }
    }
  }

  /** w to the power k. */
  function Pow(w: nat, k: nat): nat {
    if k == 0 then 1 else w * Pow(w, k - 1)
  }

  /** w^1 + w^2 + ... + w^(depth + 1). */
  function LevelSum(depth: int, w: nat): nat
    decreases Level(depth)
  {
    if depth < 0 then 0 else LevelSum(depth - 1, w) + Pow(w, depth + 1)
  }

  /** `width` children under every node on each of `depth + 1` levels: level k holds width^k
      directories. */
  lemma {:induction false} TreeSizeIsLevelSum(depth: int, w: nat)
    ensures TreeSize(depth, w) == LevelSum(depth, w)
    decreases Level(depth)
  {
    if depth >= 0 {
      TreeSizeIsLevelSum(depth - 1, w);
      ScaledLevelSum(depth - 1, w);
    }
  }

  /** w * (w^1 + ... + w^(d+1)) + w == w^1 + ... + w^(d+2). */
  lemma {:induction false} ScaledLevelSum(depth: int, w: nat)
    requires depth >= -1
    ensures w * LevelSum(depth, w) + w == LevelSum(depth + 1, w)
    decreases Level(depth)
  {
    if depth == -1 {
      assert LevelSum(0, w) == Pow(w, 1) == w * Pow(w, 0);
    } else {
      ScaledLevelSum(depth - 1, w);
      var a, p := LevelSum(depth - 1, w), Pow(w, depth + 1);
      assert LevelSum(depth, w) == a + p;
      assert w * (a + p) == w * a + w * p;
      assert Pow(w, depth + 2) == w * p;
    }
  }

  /** The controller's call `build_recursive_tree(tree, root, 1, 10)` creates 10 + 100 directories. */
  lemma StartupTreeSize()
    ensures TreeSize(1, 10) == 110
  {
    assert TreeSize(-1, 10) == 0;
    assert TreeSize(0, 10) == 10;
  }

  /** The nodes from `from` on have exactly the parents `ps`. */
  ghost predicate Appends(nodes: seq<Node>, from: nat, ps: seq<Option<nat>>) {
    |nodes| == from + |ps| && forall j :: 0 <= j < |ps| ==> nodes[from + j].parent == ps[j]
  }

  lemma AppendsConcat(nodes: seq<Node>, from: nat, a: seq<Option<nat>>, b: seq<Option<nat>>)
    requires from + |a| <= |nodes| && Appends(nodes[..from + |a|], from, a) && Appends(nodes, from + |a|, b)
    ensures Appends(nodes, from, a + b)
  {
    forall j | 0 <= j < |a + b|
      ensures nodes[from + j].parent == (a + b)[j]
    {
      if j < |a| {
        assert nodes[..from + |a|][from + j] == nodes[from + j];
      } else {
        assert nodes[from + |a| + (j - |a|)].parent == b[j - |a|];
      }
    }
  }

  lemma AppendsDrop(nodes: seq<Node>, from: nat, a: seq<Option<nat>>, b: seq<Option<nat>>)
    requires Appends(nodes, from, a + b)
    ensures Appends(nodes, from + |a|, b)
  {
    forall j | 0 <= j < |b|
      ensures nodes[from + |a| + j].parent == b[j]
    {
      assert nodes[from + (|a| + j)].parent == (a + b)[|a| + j];
    }
  }

  /** The nodes from `from` on hold fresh directories, named in creation order from `start`. */
  ghost predicate NamedFrom(nodes: seq<Node>, from: nat, start: nat) {
    forall i :: from <= i < |nodes| ==> nodes[i].dir == Some(NewDirectory(start + (i - from) * NAMES_PER_DIRECTORY))
  }

  /** No node hangs under any of the positions lo .. hi - 1. */
  ghost predicate Shielded(nodes: seq<Node>, lo: nat, hi: nat) {
    forall j :: 0 <= j < |nodes| && nodes[j].parent.Some? ==> nodes[j].parent.value < lo || hi <= nodes[j].parent.value
  }

  lemma ShieldedChildless(nodes: seq<Node>, lo: nat, hi: nat, c: nat)
    requires Shielded(nodes, lo, hi) && lo <= c < hi
    ensures ChildrenOf(nodes, c) == []
  {
  }

  /** One more child of `base` keeps the first loop's bookkeeping. */
  lemma AddChildStep(pre: seq<Node>, x: Node, n: nat, i: nat, base: nat)
    requires Appends(pre, n, Repeat(Some(base), i)) && ChildrenOf(pre, base) == Range(n, i)
    requires x.parent == Some(base)
    ensures Appends(pre + [x], n, Repeat(Some(base), i + 1))
    ensures ChildrenOf(pre + [x], base) == Range(n, i + 1)
  {
    var post := pre + [x];
    var grown := Repeat(Some(base), i + 1);
    assert post[..|post| - 1] == pre;
    assert Range(n, i + 1) == Range(n, i) + [n + i];
    forall j | 0 <= j < i + 1
      ensures post[n + j].parent == grown[j]
    {
      if j < i {
        assert post[n + j] == pre[n + j];
        assert pre[n + j].parent == Repeat(Some(base), i)[j];
      }
    }
  }

  /** After the first loop only the new children hang under base, and nothing hangs under them. */
  lemma FirstLevelShielded(nodes: seq<Node>, n: nat, width: nat, base: nat)
    requires base < n && Appends(nodes, n, Repeat(Some(base), width)) && ParentsFirst(nodes)
    ensures Shielded(nodes, n, n + width)
  {
    forall j | 0 <= j < |nodes| && nodes[j].parent.Some?
      ensures nodes[j].parent.value < n || n + width <= nodes[j].parent.value
    {
      if j >= n {
        assert nodes[n + (j - n)].parent == Repeat(Some(base), width)[j - n];
      }
    }
  }

  /** The subtrees built under base's children hang under those children or under each other,
      never under base, so base keeps exactly the children the first loop gave it. */
  lemma ForestKeepsChildren(pre: seq<Node>, post: seq<Node>, base: nat, n: nat, width: nat, d: int)
    requires base < n && |pre| == n + width
    requires |post| >= |pre| && post[..|pre|] == pre
    requires Appends(post, |pre|, Forest(n, width, n + width, d, width))
    ensures ChildrenOf(post, base) == ChildrenOf(pre, base)
  {
    var m := |pre|;
    var f := Forest(n, width, n + width, d, width);
    ForestParents(n, width, n + width, d, width);
    var rest := post[m..];
    assert post == pre + rest;
    forall j | 0 <= j < |rest|
      ensures rest[j].parent != Some(base)
    {
      assert rest[j] == post[m + j];
      assert post[m + j].parent == f[j];
    }
    ChildrenOfExtend(pre, rest, base);
  }

  /** A subtree built under c keeps the arena a forest, and leaves the positions after c up to hi
      childless. */
  lemma SubtreeKeepsForest(pre: seq<Node>, post: seq<Node>, c: nat, hi: nat, d: int, width: nat)
    requires ParentsFirst(pre) && Shielded(pre, c, hi) && c < hi <= |pre|
    requires |post| >= |pre| && post[..|pre|] == pre
    requires Appends(post, |pre|, Layout(c, |pre|, d, width))
    ensures ParentsFirst(post) && Shielded(post, c + 1, hi)
  {
    var m := |pre|;
    var tail := Layout(c, m, d, width);
    LayoutParents(c, m, d, width);
    forall j | 0 <= j < |post| && post[j].parent.Some?
      ensures post[j].parent.value < j
      ensures post[j].parent.value < c + 1 || hi <= post[j].parent.value
    {
      if j >= m {
        assert post[m + (j - m)].parent == tail[j - m];
      } else {
        assert post[..m][j] == pre[j];
      }
    }
  }

  /** The subtree of the k-th child extends the layout by that child's own layout. */
  lemma SubtreeExtends(pre: seq<Node>, post: seq<Node>, base: nat, n: nat, width: nat, k: nat, d: int)
    requires k >= 1
    requires Appends(pre, n, Repeat(Some(base), width) + Forest(n, k - 1, n + width, d, width))
    requires |post| >= |pre| && post[..|pre|] == pre
    requires Appends(post, |pre|, Layout(n + k - 1, |pre|, d, width))
    ensures Appends(post, n, Repeat(Some(base), width) + Forest(n, k, n + width, d, width))
  {
    var kids := Repeat(Some(base), width);
    var front := Forest(n, k - 1, n + width, d, width);
    var tail := Layout(n + k - 1, |pre|, d, width);
    assert |pre| == n + width + |front|;
    assert Forest(n, k, n + width, d, width) == front + tail;
    AppendsConcat(post, n, kids + front, tail);
    assert kids + front + tail == kids + (front + tail);
  }

  /** Every parent precedes its child, so the arena is a forest. */
  ghost predicate ParentsFirst(nodes: seq<Node>) {
    forall i :: 0 <= i < |nodes| && nodes[i].parent.Some? ==> nodes[i].parent.value < i
  }

  /** The arena and the name counter, as values. */
  datatype Grown = Grown(nodes: seq<Node>, nextName: nat)

  /** The state after `tree.create_node(..., parent=p, data=Directory())`. */
  function Created(t: Grown, p: nat): Grown {
    Grown(t.nodes + [Node(Some(p), Some(NewDirectory(t.nextName)))], t.nextName + NAMES_PER_DIRECTORY)
  }

  /** The state after the first loop of `build_recursive_tree`: `width` new directories under base. */
  function AddKids(t: Grown, base: nat, width: nat): (r: Grown)
    ensures |r.nodes| == |t.nodes| + width && r.nodes[..|t.nodes|] == t.nodes
  {
    if width == 0 then t
    else
      var t0 := AddKids(t, base, width - 1);
      assert Created(t0, base).nodes[..|t.nodes|] == t0.nodes[..|t.nodes|];
      Created(t0, base)
  }

  /** `build_recursive_tree(tree, base, depth, width)` on values: when depth >= 0, `width` new
      children of base, then, one after the other, the subtree of depth - 1 under every node that
      `tree.children(base)` lists. The build only ever appends. */
  function Build(t: Grown, base: nat, depth: int, width: nat): (r: Grown)
    ensures |t.nodes| <= |r.nodes| && r.nodes[..|t.nodes|] == t.nodes
    decreases Level(depth), 0
  {
    if depth < 0 then t
    else
      var t1 := AddKids(t, base, width);
      var r := BuildAll(t1, ChildrenOf(t1.nodes, base), depth - 1, width);
      assert r.nodes[..|t.nodes|] == r.nodes[..|t1.nodes|][..|t.nodes|];
      r
  }

  /** The second loop of `build_recursive_tree`: the subtrees under `roots`, in order. */
  function BuildAll(t: Grown, roots: seq<nat>, depth: int, width: nat): (r: Grown)
    ensures |t.nodes| <= |r.nodes| && r.nodes[..|t.nodes|] == t.nodes
    decreases Level(depth), 1, |roots|
  {
    if roots == [] then t
    else
      var t0 := BuildAll(t, roots[..|roots| - 1], depth, width);
      var r := Build(t0, roots[|roots| - 1], depth, width);
      assert r.nodes[..|t.nodes|] == r.nodes[..|t0.nodes|][..|t.nodes|];
      r
  }

  /** One more iteration of the second loop builds one more subtree. */
  lemma BuildAllStep(t: Grown, roots: seq<nat>, k: nat, depth: int, width: nat)
    requires k < |roots|
    ensures BuildAll(t, roots[..k + 1], depth, width) == Build(BuildAll(t, roots[..k], depth, width), roots[k], depth, width)
  {
    assert roots[..k + 1][..k] == roots[..k];
  }

  /** What the first loop leaves behind under a base without children. */
  ghost predicate KidsLaid(t: Grown, r: Grown, base: nat, width: nat) {
    && ParentsFirst(r.nodes)
    && Appends(r.nodes, |t.nodes|, Repeat(Some(base), width))
    && ChildrenOf(r.nodes, base) == Range(|t.nodes|, width)
  }

  /** What the whole build leaves behind under a base without children: the nodes it appends have
      the parents `Layout` gives, base's children are exactly the first `width` of them, and the
      arena is still a forest. */
  ghost predicate Laid(t: Grown, r: Grown, base: nat, depth: int, width: nat) {
    && ParentsFirst(r.nodes)
    && Appends(r.nodes, |t.nodes|, Layout(base, |t.nodes|, depth, width))
    && (depth >= 0 ==> ChildrenOf(r.nodes, base) == Range(|t.nodes|, width))
  }

  /** Where the second loop stands after the subtrees of the first k children of base. */
  ghost predicate ForestLaid(t1: Grown, r: Grown, base: nat, n: nat, width: nat, k: nat, d: int)
    requires k <= width
  {
    && ParentsFirst(r.nodes)
    && Appends(r.nodes, n, Repeat(Some(base), width) + Forest(n, k, n + width, d, width))
    && Shielded(r.nodes, n + k, n + width)
  }

  lemma {:induction false} AddKidsLaid(t: Grown, base: nat, width: nat)
    requires ParentsFirst(t.nodes) && base < |t.nodes| && ChildrenOf(t.nodes, base) == []
    ensures KidsLaid(t, AddKids(t, base, width), base, width)
  {
    if width > 0 {
      var t0 := AddKids(t, base, width - 1);
      AddKidsLaid(t, base, width - 1);
      var x := Node(Some(base), Some(NewDirectory(t0.nextName)));
      AddChildStep(t0.nodes, x, |t.nodes|, width - 1, base);
      assert AddKids(t, base, width).nodes == t0.nodes + [x];
      forall i | 0 <= i < |t0.nodes| + 1 && (t0.nodes + [x])[i].parent.Some?
        ensures (t0.nodes + [x])[i].parent.value < i
      {
        if i < |t0.nodes| {
          assert (t0.nodes + [x])[i] == t0.nodes[i];
        }
      }
    } else {
      assert Range(|t.nodes|, 0) == [];
    }
  }

  /** The build from a base without children lays out the tree `Layout` describes. */
  lemma {:induction false} BuildLaid(t: Grown, base: nat, depth: int, width: nat)
    requires ParentsFirst(t.nodes) && base < |t.nodes| && ChildrenOf(t.nodes, base) == []
    ensures Laid(t, Build(t, base, depth, width), base, depth, width)
    decreases Level(depth), 0
  {
    if depth >= 0 {
      var n := |t.nodes|;
      var t1 := AddKids(t, base, width);
      AddKidsLaid(t, base, width);
      BuildAllLaid(t1, base, n, width, width, depth - 1);
      var r := Build(t, base, depth, width);
      assert r == BuildAll(t1, Range(n, width), depth - 1, width);
      AppendsDrop(r.nodes, n, Repeat(Some(base), width), Forest(n, width, n + width, depth - 1, width));
      ForestKeepsChildren(t1.nodes, r.nodes, base, n, width, depth - 1);
    }
  }

  /** The second loop, child by child: each subtree is laid out after the previous ones. */
  lemma {:induction false} BuildAllLaid(t1: Grown, base: nat, n: nat, width: nat, k: nat, d: int)
    requires k <= width && base < n
    requires ParentsFirst(t1.nodes) && Appends(t1.nodes, n, Repeat(Some(base), width))
    ensures ForestLaid(t1, BuildAll(t1, Range(n, k), d, width), base, n, width, k, d)
    decreases Level(d), 1, k
  {
    if k == 0 {
      FirstLevelShielded(t1.nodes, n, width, base);
      assert Repeat(Some(base), width) + [] == Repeat(Some(base), width);
    } else {
      BuildAllLaid(t1, base, n, width, k - 1, d);
      var tp := BuildAll(t1, Range(n, k - 1), d, width);
      var c := n + k - 1;
      assert Range(n, k)[..k - 1] == Range(n, k - 1);
      ShieldedChildless(tp.nodes, c, n + width, c);
      BuildLaid(tp, c, d, width);
      var r := Build(tp, c, d, width);
      assert BuildAll(t1, Range(n, k), d, width) == r;
      ForestStep(t1, tp, r, base, n, width, k, d);
    }
  }

  /** One step of the second loop, on the states before and after the k-th child's subtree. */
  lemma ForestStep(t1: Grown, tp: Grown, r: Grown, base: nat, n: nat, width: nat, k: nat, d: int)
    requires 1 <= k <= width && base < n
    requires |t1.nodes| <= |tp.nodes| && ForestLaid(t1, tp, base, n, width, k - 1, d)
    requires |tp.nodes| <= |r.nodes| && r.nodes[..|tp.nodes|] == tp.nodes
    requires Laid(tp, r, n + k - 1, d, width)
    ensures ForestLaid(t1, r, base, n, width, k, d)
  {
    var c := n + k - 1;
    assert |tp.nodes| >= n + width;
    SubtreeKeepsForest(tp.nodes, r.nodes, c, n + width, d, width);
    SubtreeExtends(tp.nodes, r.nodes, base, n, width, k, d);
  }

  /** The nodes appended from `t` to `r` hold fresh directories, named in creation order from
      `t.nextName`, and the counter has moved past all their names. */
  ghost predicate NamesFollow(t: Grown, r: Grown) {
    && |t.nodes| <= |r.nodes|
    && NamedFrom(r.nodes, |t.nodes|, t.nextName)
    && r.nextName == t.nextName + (|r.nodes| - |t.nodes|) * NAMES_PER_DIRECTORY
  }

  lemma NamesFollowTrans(t: Grown, u: Grown, r: Grown)
    requires |u.nodes| <= |r.nodes| && r.nodes[..|u.nodes|] == u.nodes
    requires NamesFollow(t, u) && NamesFollow(u, r)
    ensures NamesFollow(t, r)
  {
    var n, m := |t.nodes|, |u.nodes|;
    forall i | n <= i < |r.nodes|
      ensures r.nodes[i].dir == Some(NewDirectory(t.nextName + (i - n) * NAMES_PER_DIRECTORY))
    {
      if i < m {
        assert r.nodes[..m][i] == r.nodes[i];
      }
    }
  }

  lemma {:induction false} AddKidsNames(t: Grown, base: nat, width: nat)
    ensures NamesFollow(t, AddKids(t, base, width))
  {
    if width > 0 {
      var t0 := AddKids(t, base, width - 1);
      AddKidsNames(t, base, width - 1);
      var r := AddKids(t, base, width);
      assert r.nodes[..|t0.nodes|] == t0.nodes;
      NamesFollowTrans(t, t0, r);
    }
  }

  /** Whatever base and depth, every node the build appends holds a fresh directory of
      `MAX_FILES_PER_DIR` files, and no name is drawn twice. */
  lemma {:induction false} BuildNames(t: Grown, base: nat, depth: int, width: nat)
    ensures NamesFollow(t, Build(t, base, depth, width))
    decreases Level(depth), 0
  {
    if depth >= 0 {
      var t1 := AddKids(t, base, width);
      AddKidsNames(t, base, width);
      BuildAllNames(t1, ChildrenOf(t1.nodes, base), depth - 1, width);
      NamesFollowTrans(t, t1, Build(t, base, depth, width));
    }
  }

  lemma {:induction false} BuildAllNames(t: Grown, roots: seq<nat>, depth: int, width: nat)
    ensures NamesFollow(t, BuildAll(t, roots, depth, width))
    decreases Level(depth), 1, |roots|
  {
    if roots != [] {
      var t0 := BuildAll(t, roots[..|roots| - 1], depth, width);
      BuildAllNames(t, roots[..|roots| - 1], depth, width);
      BuildNames(t0, roots[|roots| - 1], depth, width);
      NamesFollowTrans(t, t0, BuildAll(t, roots, depth, width));
    }
  }

  /** Built under a lone root, the tree holds TreeSize(depth, width) directories besides the root,
      the first `width` of them the root's children. */
  lemma BuildFromRoot(t: Grown, depth: int, width: nat)
    requires |t.nodes| == 1 && t.nodes[0].parent.None?
    ensures ParentsFirst(Build(t, 0, depth, width).nodes)
    ensures |Build(t, 0, depth, width).nodes| == 1 + TreeSize(depth, width)
    ensures depth >= 0 ==> ChildrenOf(Build(t, 0, depth, width).nodes, 0) == Range(1, width)
  {
    assert t.nodes[..0] == [];
    assert ChildrenOf(t.nodes, 0) == ChildrenOf([], 0) + [];
    BuildLaid(t, 0, depth, width);
    LayoutSize(0, 1, depth, width);
  }

  /** The directory tree: an arena of nodes, each addressed by its position. */
  class DirectoryTree {
    var nodes: seq<Node>
    /** The next unused random name. */
    var nextName: nat

    ghost predicate Valid()
      reads this
    {
      ParentsFirst(nodes)
    }

    function State(): Grown
      reads this
    {
      Grown(nodes, nextName)
    }

    /** A tree holding only `create_node('Root', 'root')`. */
    constructor ()
      ensures |nodes| == 1 && nodes[0] == Node(None, None) && nextName == 0 && Valid()
    {
      nodes := [Node(None, None)];
      nextName := 0;
    }

    function Children(p: nat): (cs: seq<nat>)
      reads this
    {
      ChildrenOf(nodes, p)
    }

    /** `tree.create_node(..., parent=p, data=Directory())`. */
    method CreateNode(p: nat)
      requires Valid() && p < |nodes|
      modifies this
      ensures State() == Created(old(State()), p)
      ensures Valid()
    {
      nodes := nodes + [Node(Some(p), Some(NewDirectory(nextName)))];
      nextName := nextName + NAMES_PER_DIRECTORY;
    }

    /** The first loop of `build_recursive_tree`: `width` new directories under base. */
    method AddChildren(base: nat, width: nat)
      requires Valid() && base < |nodes|
      modifies this
      ensures Valid() && State() == AddKids(old(State()), base, width)
    {
      var i := 0;
      while i < width
        invariant 0 <= i <= width
        invariant Valid() && base < |nodes| && State() == AddKids(old(State()), base, i)
      {
        CreateNode(base);
        i := i + 1;
      }
    }

    /** `build_recursive_tree(tree, base, depth, width)`. */
    method BuildRecursiveTree(base: nat, depth: int, width: nat)
      requires Valid() && base < |nodes|
      modifies this
      ensures Valid() && State() == Build(old(State()), base, depth, width)
      decreases Level(depth)
    {
      if depth >= 0 {
        var d := depth - 1;
        AddChildren(base, width);
        ghost var t1 := State();
        var dirsNodes := Children(base);
        var k := 0;
        while k < |dirsNodes|
          invariant 0 <= k <= |dirsNodes|
          invariant Valid() && State() == BuildAll(t1, dirsNodes[..k], d, width)
        {
          var c := dirsNodes[k];
          BuildAllStep(t1, dirsNodes, k, d, width);
          BuildRecursiveTree(c, d, width);
          k := k + 1;
        }
        assert dirsNodes[..k] == dirsNodes;
      }
    }
  }

  // ================================================================ jobs and the work iterator

  type WorkerId = string

  /** A job id (`uuid4().hex`), modelled as a serial number that is never handed out twice. */
  datatype JobId = Token(serial: nat)

  /** `{'number': n}`. */
  datatype Work = Work(number: nat)

  /** `Job(work)`: a fresh id and its work. */
  datatype Job = Job(id: JobId, work: Work)

  /** The job minted for number n. */
  function Minted(n: nat): (j: Job)
    ensures j.work.number == n && j.id.serial == n
  {
    Job(Token(n), Work(n))
  }

  function Reverse<T>(s: seq<T>): (r: seq<T>)
    ensures |r| == |s| && forall i :: 0 <= i < |s| ==> r[i] == s[|s| - 1 - i]
  {
    if s == [] then [] else [s[|s| - 1]] + Reverse(s[..|s| - 1])
  }

  lemma {:induction false} ReverseAppend<T>(a: seq<T>, b: seq<T>)
    ensures Reverse(a + b) == Reverse(b) + Reverse(a)
  {
    var l := Reverse(a + b);
    var r := Reverse(b) + Reverse(a);
    assert |l| == |r|;
    forall i | 0 <= i < |l|
      ensures l[i] == r[i]
    {
      if i < |b| {
        assert l[i] == (a + b)[|a| + |b| - 1 - i] == b[|b| - 1 - i];
      } else {
        assert l[i] == (a + b)[|a| + |b| - 1 - i] == a[|a| - 1 - (i - |b|)];
      }
    }
  }

  /** The jobs the iterator still mints, from number `next` up to 9999, in increasing order. */
  function MintedFrom(next: nat): (js: seq<Job>)
    ensures |js| == if next < JOB_NUMBERS then JOB_NUMBERS - next else 0
    ensures forall i :: 0 <= i < |js| ==> js[i] == Minted(next + i)
    decreases JOB_NUMBERS - next
  {
    if next >= JOB_NUMBERS then [] else [Minted(next)] + MintedFrom(next + 1)
  }

  /** Everything the work iterator will still yield if nothing more is requeued: the requeued jobs,
      most recently requeued first, then the jobs not yet minted. */
  function Upcoming(requeue: seq<Job>, next: nat): seq<Job> {
    Reverse(requeue) + MintedFrom(next)
  }

  /** Jobs requeued on top of a buffer are the very next ones to come out, last one first, ahead of
      everything that was upcoming before. */
  lemma UpcomingAfterRequeue(requeue: seq<Job>, js: seq<Job>, next: nat)
    ensures Upcoming(requeue + js, next) == Reverse(js) + Upcoming(requeue, next)
    ensures Upcoming(requeue + js, next)[..|js|] == Reverse(js)
  {
    ReverseOnTop(requeue, js, MintedFrom(next));
  }

  lemma ReverseOnTop<T>(requeue: seq<T>, js: seq<T>, rest: seq<T>)
    ensures Reverse(requeue + js) + rest == Reverse(js) + (Reverse(requeue) + rest)
    ensures (Reverse(js) + (Reverse(requeue) + rest))[..|js|] == Reverse(js)
  {
    ReverseAppend(requeue, js);
    var rj, rq := Reverse(js), Reverse(requeue);
    assert (rj + rq) + rest == rj + (rq + rest);
    assert (rj + (rq + rest))[..|rj|] == rj;
  }

  // ================================================================ worker messages

  /** `{'message': kind, 'job_id': ..., 'result': ...}`. */
  datatype Message = Message(kind: string, jobId: JobId, result: string)

  /** What makes message handling fail: the duplicate-connect assertion, a missing worker or job id,
      an unknown message kind. */
  datatype Fault = AssertionFailed | KeyError | UnknownMessage(kind: string)

  /** One outbound `send_multipart([worker, (job.id, job.work)])`. */
  datatype Send = Send(worker: WorkerId, job: Job)

  /** One inbound `recv_multipart()`. */
  datatype Inbound = Inbound(worker: WorkerId, message: Message)

  /** One round of the polling loop: the messages waiting in the socket, and whether another process
      has set the stop event by the time the round's job is sent. */
  datatype Tick = Tick(inbound: seq<Inbound>, stop: bool)

  /** Why `run` ended: the iterator ran dry, the stop event was seen, the modelled input ran out
      while still waiting for a worker, or message handling raised. */
  datatype End = Exhausted | Stopped | OutOfInput | Crashed(fault: Fault)

  /** `js` lists the jobs of `m`, each key once, in some order (the order of `dict.values()`). */
  ghost predicate Enumerates(js: seq<Job>, m: map<JobId, Job>) {
    exists ks: seq<JobId> ::
      && |ks| == |js| == |m|
      && (forall i :: 0 <= i < |ks| ==> ks[i] in m && js[i] == m[ks[i]])
      && (forall i, j :: 0 <= i < j < |ks| ==> ks[i] != ks[j])
  }

  type Registry = map<WorkerId, map<JobId, Job>>

  /** The scheduler's invariant: at most `MAX_JOBS_PER_WORKER` outstanding jobs per worker; every
      job filed under its own id; no job id outstanding at two workers, or both outstanding and
      requeued, or requeued twice; every id already handed out by the iterator. */
  ghost predicate Consistent(workers: Registry, requeue: seq<Job>, minted: nat) {
    && minted <= JOB_NUMBERS
    && (forall w :: w in workers ==> |workers[w]| <= MAX_JOBS_PER_WORKER)
    && (forall w, k :: w in workers && k in workers[w] ==> workers[w][k].id == k && k.serial < minted)
    && (forall w1, w2, k :: w1 in workers && w2 in workers && k in workers[w1] && k in workers[w2] ==> w1 == w2)
    && (forall i, w :: 0 <= i < |requeue| && w in workers ==> requeue[i].id !in workers[w])
    && (forall i :: 0 <= i < |requeue| ==> requeue[i].id.serial < minted)
    && (forall i, j :: 0 <= i < j < |requeue| ==> requeue[i].id != requeue[j].id)
  }

  /** A job taken from the iterator and not yet sent: its id is nowhere else. */
  ghost predicate Unused(j: Job, workers: Registry, requeue: seq<Job>, minted: nat) {
    && j.id.serial < minted
    && (forall w :: w in workers ==> j.id !in workers[w])
    && (forall i :: 0 <= i < |requeue| ==> requeue[i].id != j.id)
  }

  /** Every job unused in the first state is still unused in the second. */
  ghost predicate KeepsUnused(w0: Registry, r0: seq<Job>, m0: nat, w1: Registry, r1: seq<Job>, m1: nat) {
    forall j :: Unused(j, w0, r0, m0) ==> Unused(j, w1, r1, m1)
  }

  /** `w` is below the cap and no worker has fewer outstanding jobs: what `_get_next_worker_id`
      picks. */
  ghost predicate LeastLoadedBelowCap(workers: Registry, w: WorkerId) {
    && w in workers && |workers[w]| < MAX_JOBS_PER_WORKER
    && forall v :: v in workers ==> |workers[w]| <= |workers[v]|
  }

  /** The log of a run: the i-th job taken from the work iterator was the head of what the iterator
      had upcoming at that moment (`ups[i]`), and the i-th send carries that job to a worker that was
      least loaded and below the cap in the registry as it stood then (`loads[i]`), where no worker
      had the job's id outstanding. */
  ghost predicate SentAsLogged(sends: seq<Send>, taken: seq<Job>, loads: seq<Registry>, ups: seq<seq<Job>>) {
    && |sends| <= |taken| && |sends| == |loads| && |taken| == |ups|
    && (forall i :: 0 <= i < |taken| ==> |ups[i]| > 0 && ups[i][0] == taken[i])
    && (forall i :: 0 <= i < |sends| ==>
          && sends[i].job == taken[i]
          && LeastLoadedBelowCap(loads[i], sends[i].worker)
          && forall v :: v in loads[i] ==> taken[i].id !in loads[i][v])
  }

  /** The ghost record `run` leaves behind: every job taken from the work iterator, what the
      iterator had upcoming just before it was taken, and the registry as it stood at every
      dispatch. */
  datatype RunLog = RunLog(taken: seq<Job>, ups: seq<seq<Job>>, loads: seq<Registry>)

  /** Since the marks `s0` (into the sends) and `l0` (a past log), the log has only grown, and what
      was added to it is the log of the sends added since. */
  ghost predicate LoggedSince(sends: seq<Send>, log: RunLog, s0: nat, l0: RunLog) {
    && s0 <= |sends| && l0.taken <= log.taken && l0.ups <= log.ups && l0.loads <= log.loads
    && SentAsLogged(sends[s0..], log.taken[|l0.taken|..], log.loads[|l0.loads|..], log.ups[|l0.ups|..])
  }

  /** Taking the head of what the iterator has upcoming extends the log by one pending job. */
  lemma LogTake(sends: seq<Send>, log: RunLog, s0: nat, l0: RunLog, up: seq<Job>, job: Job)
    requires LoggedSince(sends, log, s0, l0) && |sends| - s0 == |log.taken| - |l0.taken|
    requires |up| > 0 && up[0] == job
    ensures LoggedSince(sends, log.(taken := log.taken + [job], ups := log.ups + [up]), s0, l0)
  {
    SliceOfAppend(log.taken, [job], |l0.taken|);
    SliceOfAppend(log.ups, [up], |l0.ups|);
  }

  /** Sending the pending job to a least-loaded worker below the cap, where no worker has its id
      outstanding, extends the log by one send. */
  lemma LogSend(sends: seq<Send>, log: RunLog, s0: nat, l0: RunLog, reg: Registry, w: WorkerId)
    requires LoggedSince(sends, log, s0, l0) && |log.taken| - |l0.taken| == |sends| - s0 + 1
    requires LeastLoadedBelowCap(reg, w)
    requires forall v :: v in reg ==> log.taken[|log.taken| - 1].id !in reg[v]
    ensures LoggedSince(sends + [Send(w, log.taken[|log.taken| - 1])], log.(loads := log.loads + [reg]), s0, l0)
  {
    var job := log.taken[|log.taken| - 1];
    var ss, tk, ld, up := sends[s0..], log.taken[|l0.taken|..], log.loads[|l0.loads|..], log.ups[|l0.ups|..];
    SliceOfAppend(sends, [Send(w, job)], s0);
    SliceOfAppend(log.loads, [reg], |l0.loads|);
    assert tk[|ss|] == job;
    var ss', ld' := ss + [Send(w, job)], ld + [reg];
    forall i | 0 <= i < |ss'|
      ensures ss'[i].job == tk[i] && LeastLoadedBelowCap(ld'[i], ss'[i].worker)
      ensures forall v :: v in ld'[i] ==> tk[i].id !in ld'[i][v]
    {
      if i < |ss| {
        assert ss'[i] == ss[i] && ld'[i] == ld[i];
      }
    }
  }

  /** The exception `_handle_worker_message` raises for a message from worker `from`: connecting
      twice fails the assertion, an unknown worker or job is a KeyError, and an unknown kind
      raises. */
  function MessageFault(workers: Registry, from: WorkerId, msg: Message): Option<Fault> {
    if msg.kind == "connect" then (if from in workers then Some(AssertionFailed) else None)
    else if msg.kind == "disconnect" then (if from in workers then None else Some(KeyError))
    else if msg.kind == "job_done" then (if from in workers && msg.jobId in workers[from] then None else Some(KeyError))
    else Some(UnknownMessage(msg.kind))
  }

  /** The registry after a message: unchanged when handling it raises. */
  function AfterMessage(workers: Registry, from: WorkerId, msg: Message): Registry {
    if MessageFault(workers, from, msg).Some? then workers
    else if msg.kind == "connect" then workers[from := map[]]
    else if msg.kind == "disconnect" then workers - {from}
    else workers[from := workers[from] - {msg.jobId}]
  }

  /** What `_handle_worker_message` does with one message from worker `from`: the registry and
      requeue buffer before (`w0`, `r0`) and after (`w1`, `r1`), and the exception it raises. Only a
      disconnect of a known worker changes the requeue buffer: it appends that worker's jobs. */
  ghost predicate Handled(w0: Registry, r0: seq<Job>, from: WorkerId, msg: Message, w1: Registry, r1: seq<Job>,
                          fault: Option<Fault>) {
    && fault == MessageFault(w0, from, msg) && w1 == AfterMessage(w0, from, msg)
    && if msg.kind == "disconnect" && fault.None? then
         && |r1| == |r0| + |w0[from]| && r1[..|r0|] == r0
         && Enumerates(r1[|r0|..], w0[from])
       else r1 == r0
  }

  /** The first `|regs| - 1` messages of a batch handled one after another, none raising:
      `regs[i]` and `qs[i]` are the registry and requeue buffer before message i, `regs[i + 1]` and
      `qs[i + 1]` after it. */
  ghost predicate Handles(batch: seq<Inbound>, regs: seq<Registry>, qs: seq<seq<Job>>) {
    && |regs| == |qs| && 1 <= |regs| <= |batch| + 1
    && forall i :: 0 <= i < |regs| - 1 ==>
         Handled(regs[i], qs[i], batch[i].worker, batch[i].message, regs[i + 1], qs[i + 1], None)
  }

  /** A batch handled as `while self._socket.poll(0)` does: without a fault, message by message to
      its end; with one, up to the message that raised it, which is the last step of the trace. */
  ghost predicate DrainTrace(batch: seq<Inbound>, regs: seq<Registry>, qs: seq<seq<Job>>, fault: Option<Fault>) {
    && |regs| == |qs| && 1 <= |regs|
    && if fault.None? then |regs| == |batch| + 1 && Handles(batch, regs, qs)
       else
         var n := |regs| - 1;
         && 1 <= n <= |batch| && Handles(batch, regs[..n], qs[..n])
         && Handled(regs[n - 1], qs[n - 1], batch[n - 1].worker, batch[n - 1].message, regs[n], qs[n], fault)
  }

  /** A batch trace extended by one more message handled without a fault. */
  lemma HandlesExtend(batch: seq<Inbound>, regs: seq<Registry>, qs: seq<seq<Job>>, w: Registry, q: seq<Job>)
    requires Handles(batch, regs, qs) && |regs| <= |batch|
    requires Handled(regs[|regs| - 1], qs[|qs| - 1], batch[|regs| - 1].worker, batch[|regs| - 1].message, w, q, None)
    ensures Handles(batch, regs + [w], qs + [q])
  {
    assert (regs + [w])[..|regs|] == regs && (qs + [q])[..|qs|] == qs;
  }

  /** A batch trace ended by a message that raised. */
  lemma HandlesFault(batch: seq<Inbound>, regs: seq<Registry>, qs: seq<seq<Job>>, w: Registry, q: seq<Job>, f: Fault)
    requires Handles(batch, regs, qs) && |regs| <= |batch|
    requires Handled(regs[|regs| - 1], qs[|qs| - 1], batch[|regs| - 1].worker, batch[|regs| - 1].message, w, q, Some(f))
    ensures DrainTrace(batch, regs + [w], qs + [q], Some(f))
  {
    assert (regs + [w])[..|regs|] == regs && (qs + [q])[..|qs|] == qs;
  }

  /** Every worker is at the cap, so `_get_next_worker_id` finds none. */
  ghost predicate AllAtCap(workers: Registry) {
    forall w :: w in workers ==> |workers[w]| >= MAX_JOBS_PER_WORKER
  }

  /** One polling round: the states a batch went through and how it ended. */
  datatype Round = Round(regs: seq<Registry>, qs: seq<seq<Job>>, fault: Option<Fault>)

  /** Round `r` handled `batch` from the registry and requeue buffer `w0`, `r0` to `w1`, `r1`. */
  ghost predicate RoundFrom(batch: seq<Inbound>, r: Round, w0: Registry, r0: seq<Job>, w1: Registry, r1: seq<Job>) {
    && DrainTrace(batch, r.regs, r.qs, r.fault)
    && r.regs[0] == w0 && r.qs[0] == r0 && r.regs[|r.regs| - 1] == w1 && r.qs[|r.qs| - 1] == r1
  }

  /** Polling rounds from tick `t0` on: round i handles the batch of tick `t0 + i` from the state
      `ws[i]`, `rs[i]` to the state `ws[i + 1]`, `rs[i + 1]`; every round before the last raised
      nothing and left every worker at the cap, so the wait went on. */
  ghost predicate PollTrace(ticks: seq<Tick>, t0: nat, rounds: seq<Round>, ws: seq<Registry>, rs: seq<seq<Job>>) {
    && t0 + |rounds| <= |ticks| && |ws| == |rs| == |rounds| + 1
    && (forall i :: 0 <= i < |rounds| ==> RoundFrom(ticks[t0 + i].inbound, rounds[i], ws[i], rs[i], ws[i + 1], rs[i + 1]))
    && (forall i :: 0 <= i < |rounds| - 1 ==> rounds[i].fault.None? && AllAtCap(ws[i + 1]))
  }

  /** A further round, after one that raised nothing and left every worker at the cap, extends the
      trace. */
  lemma PollExtend(ticks: seq<Tick>, t0: nat, t: nat, rounds: seq<Round>, ws: seq<Registry>, rs: seq<seq<Job>>,
                   r: Round, w0: Registry, r0: seq<Job>, w: Registry, q: seq<Job>)
    requires PollTrace(ticks, t0, rounds, ws, rs) && t == t0 + |rounds| < |ticks|
    requires w0 == ws[|ws| - 1] && r0 == rs[|rs| - 1]
    requires RoundFrom(ticks[t].inbound, r, w0, r0, w, q)
    requires |rounds| > 0 ==> rounds[|rounds| - 1].fault.None? && AllAtCap(w0)
    ensures PollTrace(ticks, t0, rounds + [r], ws + [w], rs + [q])
  {
    var rounds', ws', rs' := rounds + [r], ws + [w], rs + [q];
    forall i | 0 <= i < |rounds'|
      ensures RoundFrom(ticks[t0 + i].inbound, rounds'[i], ws'[i], rs'[i], ws'[i + 1], rs'[i + 1])
    {
      if i < |rounds| {
        assert rounds'[i] == rounds[i] && ws'[i] == ws[i] && ws'[i + 1] == ws[i + 1];
        assert rs'[i] == rs[i] && rs'[i + 1] == rs[i + 1];
      } else {
        assert rounds'[i] == r && ws'[i] == w0 && ws'[i + 1] == w && rs'[i] == r0 && rs'[i + 1] == q;
      }
    }
    forall i | 0 <= i < |rounds'| - 1
      ensures rounds'[i].fault.None? && AllAtCap(ws'[i + 1])
    {
      assert rounds'[i] == rounds[i] && ws'[i + 1] == ws[i + 1];
    }
  }

  lemma SliceOfAppend<T>(a: seq<T>, b: seq<T>, k: nat)
    requires k <= |a|
    ensures (a + b)[k..] == a[k..] + b
  {
  }

  /** A disconnect keeps the invariant: the worker's jobs move, each once, to the requeue buffer,
      where no other copy of their ids is; and a job that was unused stays unused. */
  lemma DisconnectKeepsConsistent(workers: Registry, requeue: seq<Job>, minted: nat, w: WorkerId,
                                  js: seq<Job>, ks: seq<JobId>)
    requires w in workers
    requires |ks| == |js| && forall i :: 0 <= i < |ks| ==> ks[i] in workers[w] && js[i] == workers[w][ks[i]]
    requires forall i, j :: 0 <= i < j < |ks| ==> ks[i] != ks[j]
    ensures Consistent(workers, requeue, minted) ==> Consistent(workers - {w}, requeue + js, minted)
    ensures Consistent(workers, requeue, minted) ==> KeepsUnused(workers, requeue, minted, workers - {w}, requeue + js, minted)
  {
    if !Consistent(workers, requeue, minted) {
      return;
    }
    var rest, q := workers - {w}, requeue + js;
    assert forall i :: 0 <= i < |js| ==> js[i].id == ks[i];
    forall i, v | 0 <= i < |q| && v in rest
      ensures q[i].id !in rest[v]
    {
      if i >= |requeue| {
        assert q[i] == js[i - |requeue|];
      }
    }
    forall i, j | 0 <= i < j < |q|
      ensures q[i].id != q[j].id
    {
      if j >= |requeue| {
        assert q[j] == js[j - |requeue|];
        if i >= |requeue| {
          assert q[i] == js[i - |requeue|];
        } else {
          assert q[i] == requeue[i];
        }
      }
    }
    forall i | 0 <= i < |q|
      ensures q[i].id.serial < minted
    {
      if i >= |requeue| {
        assert q[i] == js[i - |requeue|];
      }
    }
    forall j: Job | Unused(j, workers, requeue, minted)
      ensures Unused(j, rest, q, minted)
    {
      forall i | 0 <= i < |q|
        ensures q[i].id != j.id
      {
        if i >= |requeue| {
          assert q[i] == js[i - |requeue|];
        }
      }
    }
  }

  /** Sending an unused job to a worker below the cap keeps the invariant: the worker stays within
      the cap, and the job's id is now outstanding at exactly that worker. */
  lemma DispatchKeepsConsistent(workers: Registry, requeue: seq<Job>, minted: nat, w: WorkerId, job: Job)
    requires Consistent(workers, requeue, minted) && w in workers
    requires |workers[w]| < MAX_JOBS_PER_WORKER && Unused(job, workers, requeue, minted)
    ensures var after := workers[w := workers[w][job.id := job]];
      && Consistent(after, requeue, minted)
      && (forall v :: v in after && job.id in after[v] <==> v == w)
  {
    var after := workers[w := workers[w][job.id := job]];
    assert |after[w]| == |workers[w]| + 1;
  }

  /** `list(m.values())`, one value after another in some order. */
  method ListValues(m: map<JobId, Job>) returns (js: seq<Job>, ghost ks: seq<JobId>)
    ensures |ks| == |js| == |m|
    ensures forall i :: 0 <= i < |ks| ==> ks[i] in m && js[i] == m[ks[i]]
    ensures forall i, j :: 0 <= i < j < |ks| ==> ks[i] != ks[j]
    ensures Enumerates(js, m)
  {
    var keys := m.Keys;
    js, ks := [], [];
    while keys != {}
      invariant keys <= m.Keys
      invariant |ks| == |js| && |ks| + |keys| == |m|
      invariant forall i :: 0 <= i < |ks| ==> ks[i] in m && ks[i] !in keys && js[i] == m[ks[i]]
      invariant forall i, j :: 0 <= i < j < |ks| ==> ks[i] != ks[j]
      decreases |keys|
    {
      var k :| k in keys;
      js := js + [m[k]];
      ks := ks + [k];
      keys := keys - {k};
    }
  }

  class Controller {
    /** `workers`: worker id -> (job id -> job) of the jobs sent to it and not yet done. */
    var workers: map<WorkerId, map<JobId, Job>>
    /** `_work_to_requeue`: jobs orphaned by a disconnect, popped from the end. */
    var requeue: seq<Job>
    /** The state of the work iterator's `xrange(0, 10000)`: the next number it mints. */
    var minted: nat
    /** Every job sent so far, in order. */
    var sent: seq<Send>
    /** The cross-process `stop_event`, as seen by this process. */
    var stopEvent: bool
    /** What `run` has done so far: written by `NextJob` and `Dispatch` alone. */
    ghost var log: RunLog
    /** `dir_tree`, built at construction. */
    const dirTree: DirectoryTree

    ghost predicate Valid()
      reads this
    {
      Consistent(workers, requeue, minted)
    }

    ghost predicate Free(j: Job)
      reads this
    {
      Unused(j, workers, requeue, minted)
    }

    /** `Controller(logger, stop_event)`: no workers, nothing requeued, and the directory tree built
        with `build_recursive_tree(tree, root, 1, 10)`. */
    constructor (stopEvent: bool)
      ensures Valid() && workers == map[] && requeue == [] && minted == 0 && sent == []
      ensures this.stopEvent == stopEvent && log == RunLog([], [], [])
      ensures fresh(dirTree) && dirTree.Valid()
      ensures |dirTree.nodes| == 1 + 110 && dirTree.Children(0) == Range(1, 10)
    {
      workers := map[];
      requeue := [];
      minted := 0;
      sent := [];
      this.stopEvent := stopEvent;
      log := RunLog([], [], []);
      var tree := new DirectoryTree();
      ghost var root := tree.State();
      tree.BuildRecursiveTree(0, 1, 10);
      BuildFromRoot(root, 1, 10);
      StartupTreeSize();
      dirTree := tree;
    }

    /** One step of `work_iterator()`: pop the last requeued job, or else mint the next number;
        `None` once `xrange` is exhausted (the generator ends). */
    method NextJob() returns (job: Option<Job>)
      modifies this
      ensures workers == old(workers) && sent == old(sent) && stopEvent == old(stopEvent)
      ensures old(Upcoming(requeue, minted)) == if job.Some? then [job.value] + Upcoming(requeue, minted) else []
      ensures job.None? <==> old(requeue) == [] && old(minted) >= JOB_NUMBERS
      ensures job.None? ==> requeue == old(requeue) && minted == old(minted)
      ensures old(requeue) != [] ==>
        && job == Some(old(requeue)[|old(requeue)| - 1])
        && requeue == old(requeue)[..|old(requeue)| - 1] && minted == old(minted)
      ensures old(requeue) == [] && old(minted) < JOB_NUMBERS ==>
        job == Some(Minted(old(minted))) && requeue == [] && minted == old(minted) + 1
      ensures old(Valid()) ==> Valid() && (job.Some? ==> Free(job.value))
      ensures log == if job.None? then old(log)
                     else old(log).(taken := old(log).taken + [job.value], ups := old(log).ups + [old(Upcoming(requeue, minted))])
    {
      log := log.(ups := log.ups + [Upcoming(requeue, minted)]);
      if requeue != [] {
        job := Some(requeue[|requeue| - 1]);
        requeue := requeue[..|requeue| - 1];
      } else if minted < JOB_NUMBERS {
        job := Some(Minted(minted));
        minted := minted + 1;
      } else {
        job := None;
      }
      log := if job.None? then old(log) else log.(taken := log.taken + [job.value]);
    }

    /** `_get_next_worker_id()`: a worker with the fewest outstanding jobs, provided that number is
        below the cap; `None` when there are no workers or all of them are at the cap. */
    method NextWorkerId() returns (r: Option<WorkerId>)
      ensures r.Some? ==> r.value in workers && |workers[r.value]| < MAX_JOBS_PER_WORKER
      ensures r.Some? ==> forall w :: w in workers ==> |workers[r.value]| <= |workers[w]|
      ensures r.None? <==> forall w :: w in workers ==> |workers[w]| >= MAX_JOBS_PER_WORKER
    {
      if workers == map[] {
        return None;
      }
      // the head of the list sorted by load: a least-loaded worker
      var rest := workers.Keys;
      var best :| best in rest;
      rest := rest - {best};
      while rest != {}
        invariant rest <= workers.Keys && best in workers
        invariant forall w :: w in workers && w !in rest ==> |workers[best]| <= |workers[w]|
        decreases rest
      {
        var w :| w in rest;
        if |workers[w]| < |workers[best]| {
          best := w;
        }
        rest := rest - {w};
      }
      if |workers[best]| < MAX_JOBS_PER_WORKER {
        return Some(best);
      }
      return None;
    }

    /** `_handle_worker_message(worker_id, message)`. */
    method HandleWorkerMessage(w: WorkerId, msg: Message) returns (fault: Option<Fault>)
      modifies this
      ensures sent == old(sent) && minted == old(minted) && stopEvent == old(stopEvent) && log == old(log)
      ensures Handled(old(workers), old(requeue), w, msg, workers, requeue, fault)
      ensures old(Valid()) ==> Valid()
      ensures old(Valid()) ==> KeepsUnused(old(workers), old(requeue), old(minted), workers, requeue, minted)
    {
      if msg.kind == "connect" {
        fault := Connect(w);
      } else if msg.kind == "disconnect" {
        fault := Disconnect(w);
      } else if msg.kind == "job_done" {
        // `_process_results` only logs the job and its result
        fault := JobDone(w, msg.jobId);
      } else {
        fault := Some(UnknownMessage(msg.kind));
      }
    }

    /** `connect`: register a new worker with no jobs; a worker already registered fails the
        assertion. */
    method Connect(w: WorkerId) returns (fault: Option<Fault>)
      modifies this
      ensures sent == old(sent) && minted == old(minted) && stopEvent == old(stopEvent) && requeue == old(requeue)
      ensures log == old(log)
      ensures if w in old(workers) then fault == Some(AssertionFailed) && workers == old(workers)
              else fault == None && workers == old(workers)[w := map[]]
      ensures old(Valid()) ==> Valid()
      ensures old(Valid()) ==> KeepsUnused(old(workers), old(requeue), old(minted), workers, requeue, minted)
    {
      if w in workers {
        return Some(AssertionFailed);
      }
      workers := workers[w := map[]];
      fault := None;
    }

    /** `disconnect`: `workers.pop(w)` (KeyError for an unknown worker), then every job still
        outstanding at w goes onto the requeue buffer, in `dict.values()` order. */
    method Disconnect(w: WorkerId) returns (fault: Option<Fault>)
      modifies this
      ensures sent == old(sent) && minted == old(minted) && stopEvent == old(stopEvent) && log == old(log)
      ensures if w !in old(workers) then fault == Some(KeyError) && workers == old(workers) && requeue == old(requeue)
        else
          && fault == None && workers == old(workers) - {w}
          && |requeue| == |old(requeue)| + |old(workers)[w]|
          && requeue[..|old(requeue)|] == old(requeue)
          && Enumerates(requeue[|old(requeue)|..], old(workers)[w])
      ensures old(Valid()) ==> Valid()
      ensures old(Valid()) ==> KeepsUnused(old(workers), old(requeue), old(minted), workers, requeue, minted)
    {
      if w !in workers {
        return Some(KeyError);
      }
      var js: seq<Job>;
      ghost var ks: seq<JobId>;
      js, ks := ListValues(workers[w]);
      DisconnectKeepsConsistent(workers, requeue, minted, w, js, ks);
      assert (requeue + js)[|requeue|..] == js && (requeue + js)[..|requeue|] == requeue;
      workers, requeue := workers - {w}, requeue + js;
      fault := None;
    }

    /** `job_done`: `workers[w].pop(id)`, a KeyError for an unknown worker or job. */
    method JobDone(w: WorkerId, id: JobId) returns (fault: Option<Fault>)
      modifies this
      ensures sent == old(sent) && minted == old(minted) && stopEvent == old(stopEvent) && requeue == old(requeue)
      ensures log == old(log)
      ensures if w !in old(workers) || id !in old(workers)[w] then fault == Some(KeyError) && workers == old(workers)
              else fault == None && workers == old(workers)[w := old(workers)[w] - {id}]
      ensures old(Valid()) ==> Valid()
      ensures old(Valid()) ==> KeepsUnused(old(workers), old(requeue), old(minted), workers, requeue, minted)
    {
      if w !in workers || id !in workers[w] {
        return Some(KeyError);
      }
      workers := workers[w := workers[w] - {id}];
      fault := None;
    }

    /** The dispatch step of `run`: file the job under the selected worker and send it. */
    method Dispatch(w: WorkerId, job: Job)
      requires w in workers
      modifies this
      ensures workers == old(workers)[w := old(workers)[w][job.id := job]]
      ensures sent == old(sent) + [Send(w, job)]
      ensures requeue == old(requeue) && minted == old(minted) && stopEvent == old(stopEvent)
      ensures log == old(log).(loads := old(log).loads + [old(workers)])
      ensures old(Valid()) && old(|workers[w]|) < MAX_JOBS_PER_WORKER && old(Free(job)) ==> Valid()
    {
      if Valid() && |workers[w]| < MAX_JOBS_PER_WORKER && Free(job) {
        DispatchKeepsConsistent(workers, requeue, minted, w, job);
      }
      log := log.(loads := log.loads + [workers]);
      workers := workers[w := workers[w][job.id := job]];
      sent := sent + [Send(w, job)];
    }

    /** Handles message `m` of a batch whose first `m` messages the trace `regs`, `qs` records,
        and extends the trace by the state it leaves. */
    method HandleNext(batch: seq<Inbound>, m: nat, ghost regs: seq<Registry>, ghost qs: seq<seq<Job>>, ghost job: Job)
      returns (fault: Option<Fault>, ghost regs': seq<Registry>, ghost qs': seq<seq<Job>>)
      requires m < |batch| && |regs| == m + 1 && Handles(batch, regs, qs)
      requires regs[m] == workers && qs[m] == requeue
      requires Valid() && Free(job)
      modifies this
      ensures sent == old(sent) && minted == old(minted) && stopEvent == old(stopEvent) && log == old(log)
      ensures regs' == regs + [workers] && qs' == qs + [requeue]
      ensures fault.None? ==> Handles(batch, regs', qs')
      ensures fault.Some? ==> DrainTrace(batch, regs', qs', fault)
      ensures Valid() && Free(job)
    {
      fault := HandleWorkerMessage(batch[m].worker, batch[m].message);
      if fault.Some? {
        HandlesFault(batch, regs, qs, workers, requeue, fault.value);
      } else {
        HandlesExtend(batch, regs, qs, workers, requeue);
      }
      regs', qs' := regs + [workers], qs + [requeue];
    }

    /** One round of `while self._socket.poll(0)`: handle the waiting messages in order; a message
        whose handling raises ends the round with that fault. The ghost `round` records the states the
        registry and the requeue buffer pass through, message by message. */
    method Drain(batch: seq<Inbound>, ghost job: Job) returns (fault: Option<Fault>, ghost round: Round)
      requires Valid() && Free(job)
      modifies this
      ensures sent == old(sent) && minted == old(minted) && stopEvent == old(stopEvent) && log == old(log)
      ensures round.fault == fault && RoundFrom(batch, round, old(workers), old(requeue), workers, requeue)
      ensures Valid() && Free(job)
    {
      ghost var regs, qs := [workers], [requeue];
      var m := 0;
      while m < |batch|
        invariant 0 <= m <= |batch| && |regs| == |qs| == m + 1
        invariant regs[0] == old(workers) && qs[0] == old(requeue) && regs[m] == workers && qs[m] == requeue
        invariant Handles(batch, regs, qs)
        invariant Valid() && Free(job)
        invariant sent == old(sent) && minted == old(minted) && stopEvent == old(stopEvent) && log == old(log)
      {
        fault, regs, qs := HandleNext(batch, m, regs, qs, job);
        if fault.Some? {
          round := Round(regs, qs, fault);
          return;
        }
        m := m + 1;
      }
      fault, round := None, Round(regs, qs, None);
    }

    /** Polls the batch of tick `t` as the next round of a wait that began at tick `t0`, and extends
        the trace of rounds by it. */
    method PollRound(ticks: seq<Tick>, t0: nat, t: nat, ghost rounds: seq<Round>, ghost ws: seq<Registry>,
                     ghost rs: seq<seq<Job>>, ghost job: Job)
      returns (fault: Option<Fault>, ghost rounds': seq<Round>, ghost ws': seq<Registry>, ghost rs': seq<seq<Job>>)
      requires t0 <= t < |ticks| && |rounds| == t - t0 && PollTrace(ticks, t0, rounds, ws, rs)
      requires ws[|ws| - 1] == workers && rs[|rs| - 1] == requeue
      requires |rounds| > 0 ==> rounds[|rounds| - 1].fault.None? && AllAtCap(workers)
      requires Valid() && Free(job)
      modifies this
      ensures sent == old(sent) && minted == old(minted) && stopEvent == old(stopEvent) && log == old(log)
      ensures PollTrace(ticks, t0, rounds', ws', rs') && |rounds'| == |rounds| + 1
      ensures rounds'[|rounds|].fault == fault
      ensures ws'[0] == ws[0] && rs'[0] == rs[0] && ws'[|ws'| - 1] == workers && rs'[|rs'| - 1] == requeue
      ensures Valid() && Free(job)
    {
      ghost var w0, r0, round := workers, requeue, Round([], [], None);
      fault, round := Drain(ticks[t].inbound, job);
      PollExtend(ticks, t0, t, rounds, ws, rs, round, w0, r0, workers, requeue);
      rounds', ws', rs' := rounds + [round], ws + [workers], rs + [requeue];
    }

    /** `while next_worker_id is None`: poll rounds from tick `t0` on until some worker is below the
        cap; the worker found is a least-loaded one. The wait ends early when the rounds run out or
        message handling raises. The ghost results trace the rounds. */
    method AwaitWorker(ticks: seq<Tick>, t0: nat, ghost job: Job)
      returns (next: WorkerId, t: nat, stop: Option<End>, ghost rounds: seq<Round>, ghost ws: seq<Registry>,
               ghost rs: seq<seq<Job>>)
      requires t0 <= |ticks| && Valid() && Free(job)
      modifies this
      ensures sent == old(sent) && minted == old(minted) && stopEvent == old(stopEvent) && log == old(log)
      ensures Valid() && Free(job) && t0 <= t <= |ticks|
      ensures PollTrace(ticks, t0, rounds, ws, rs)
      ensures ws[0] == old(workers) && rs[0] == old(requeue) && ws[|ws| - 1] == workers && rs[|rs| - 1] == requeue
      ensures stop.None? ==>
        && |rounds| == t - t0 > 0 && rounds[|rounds| - 1].fault.None?
        && LeastLoadedBelowCap(workers, next)
      ensures stop == Some(OutOfInput) ==>
        && t == |ticks| && |rounds| == t - t0
        && (|rounds| > 0 ==> rounds[|rounds| - 1].fault.None? && AllAtCap(workers))
      ensures stop.Some? && stop.value.Crashed? ==>
        t < |ticks| && |rounds| == t - t0 + 1 && rounds[|rounds| - 1].fault == Some(stop.value.fault)
      ensures stop.Some? ==> stop.value.OutOfInput? || stop.value.Crashed?
    {
      t := t0;
      rounds, ws, rs := [], [workers], [requeue];
      var found: Option<WorkerId> := None;
      while found.None?
        invariant t0 <= t <= |ticks| && |rounds| == t - t0
        invariant Valid() && Free(job)
        invariant sent == old(sent) && minted == old(minted) && stopEvent == old(stopEvent) && log == old(log)
        invariant PollTrace(ticks, t0, rounds, ws, rs)
        invariant ws[0] == old(workers) && rs[0] == old(requeue) && ws[|ws| - 1] == workers && rs[|rs| - 1] == requeue
        invariant |rounds| > 0 ==> rounds[|rounds| - 1].fault.None?
        invariant found.None? && |rounds| > 0 ==> AllAtCap(workers)
        invariant found.Some? ==> LeastLoadedBelowCap(workers, found.value) && t > t0
        decreases |ticks| - t, if found.None? then 1 else 0
      {
        if t == |ticks| {
          return "", t, Some(OutOfInput), rounds, ws, rs;
        }
        var fault;
        fault, rounds, ws, rs := PollRound(ticks, t0, t, rounds, ws, rs, job);
        if fault.Some? {
          return "", t, Some(Crashed(fault.value)), rounds, ws, rs;
        }
        t := t + 1;
        found := NextWorkerId();
      }
      next, stop := found.value, None;
    }

    /** The `for job in self.work_iterator()` step of `run`: `NextJob`, with the run's log kept in
        step with the sends. The job taken is the head of what was upcoming, and the rest is what
        is upcoming now. */
    method TakeJob(ghost s0: nat, ghost l0: RunLog) returns (job: Option<Job>)
      requires Valid() && LoggedSince(sent, log, s0, l0) && |log.taken| - |l0.taken| == |sent| - s0
      modifies this
      ensures workers == old(workers) && sent == old(sent) && stopEvent == old(stopEvent)
      ensures old(Upcoming(requeue, minted)) == if job.Some? then [job.value] + Upcoming(requeue, minted) else []
      ensures job.None? <==> old(requeue) == [] && old(minted) >= JOB_NUMBERS
      ensures old(requeue) != [] ==> requeue == old(requeue)[..|old(requeue)| - 1] && minted == old(minted)
      ensures old(requeue) == [] ==> requeue == [] && minted == if job.Some? then old(minted) + 1 else old(minted)
      ensures log == if job.None? then old(log)
                     else old(log).(taken := old(log).taken + [job.value], ups := old(log).ups + [old(Upcoming(requeue, minted))])
      ensures Valid() && LoggedSince(sent, log, s0, l0)
      ensures job.None? ==> |log.taken| - |l0.taken| == |sent| - s0
      ensures job.Some? ==> Free(job.value) && |log.taken| - |l0.taken| == |sent| - s0 + 1
    {
      ghost var up, log0 := Upcoming(requeue, minted), log;
      job := NextJob();
      if job.Some? {
        LogTake(sent, log0, s0, l0, up, job.value);
      }
    }

    /** The send at the end of a `run` iteration: the pending job, the last one taken from the
        iterator, goes to the worker found, and the run's log records the send. */
    method SendPending(w: WorkerId, job: Job, ghost s0: nat, ghost l0: RunLog)
      requires Valid() && Free(job) && LeastLoadedBelowCap(workers, w)
      requires LoggedSince(sent, log, s0, l0) && |log.taken| - |l0.taken| == |sent| - s0 + 1
      requires job == log.taken[|log.taken| - 1]
      modifies this
      ensures workers == old(workers)[w := old(workers)[w][job.id := job]]
      ensures sent == old(sent) + [Send(w, job)]
      ensures requeue == old(requeue) && minted == old(minted) && stopEvent == old(stopEvent)
      ensures log == old(log).(loads := old(log).loads + [old(workers)])
      ensures Valid() && LoggedSince(sent, log, s0, l0) && |log.taken| - |l0.taken| == |sent| - s0
    {
      LogSend(sent, log, s0, l0, workers, w);
      Dispatch(w, job);
    }

    /** Records that the run loop has ended; only the stop flag changes. */
    method SetStop()
      modifies this
      ensures stopEvent
      ensures workers == old(workers) && requeue == old(requeue) && minted == old(minted) && sent == old(sent)
      ensures log == old(log)
      ensures old(Valid()) ==> Valid()
    {
      stopEvent := true;
    }

    /** `run()`: for each job of the iterator, poll the socket until some worker is below the cap,
        send it the job, and stop when the stop event is set. Each polling round consumes one tick;
        the half-second sleep between rounds is not modelled. What the run adds to the log (which
        `NextJob` and `Dispatch` alone write) matches the sends it adds: every job taken is sent
        exactly once, in order, except the last one when the run ends while still waiting for a
        worker or on a fault. */
    method Run(ticks: seq<Tick>) returns (end: End)
      requires Valid()
      modifies this
      ensures Valid()
      ensures old(sent) <= sent
      ensures LoggedSince(sent, log, |old(sent)|, old(log))
      ensures |log.taken| - |old(log.taken)| == |sent| - |old(sent)| + (if end.OutOfInput? || end.Crashed? then 1 else 0)
      ensures end == Exhausted ==> requeue == [] && minted == JOB_NUMBERS
      ensures stopEvent == (old(stopEvent) || end == Exhausted || end == Stopped)
    {
      var t := 0;
      while true
        invariant 0 <= t <= |ticks|
        invariant Valid() && old(sent) <= sent && stopEvent == old(stopEvent)
        invariant LoggedSince(sent, log, |old(sent)|, old(log))
        invariant |log.taken| - |old(log.taken)| == |sent| - |old(sent)|
        decreases |ticks| - t
      {
        var job := TakeJob(|old(sent)|, old(log));
        if job.None? {
          end := Exhausted;
          break;
        }
        var next, t1, stop, _, _, _ := AwaitWorker(ticks, t, job.value);
        if stop.Some? {
          return stop.value;
        }
        t := t1;
        SendPending(next, job.value, |old(sent)|, old(log));
        if stopEvent || ticks[t - 1].stop {
          end := Stopped;
          break;
        }
      }
      SetStop();
    }
  }
}
