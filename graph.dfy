/**
 * The projection of the directory tree and the file list onto the graph the
 * page draws (src/utils/graph.ts:3-84): one node per directory in pre-order,
 * an edge from each directory to each of its subdirectories, then one node
 * and one edge per retained file, each node sized and coloured by how much
 * of the largest single-file change count it carries. Sizes and colours are
 * exact rationals here, and a colour is its three channels.
 */
module Graph {
  import opened Types
  import opened Strings
  import opened Paths
  import opened Tree

  // ----- intensity, size and colour -----

  /** `Math.min(changes / maxChanges, 1)`: the share of the largest change count, capped at 1. */
  function Intensity(changes: int, maxChanges: int): (t: real)
    requires maxChanges > 0 && changes >= 0
    ensures 0.0 <= t <= 1.0
  {
    var q := changes as real / maxChanges as real;
    if q < 1.0 then q else 1.0
  }

  /** Up to the largest change count the intensity is the exact share of it; from there on it is 1. */
  lemma IntensityShare(changes: int, maxChanges: int)
    requires maxChanges > 0 && changes >= 0
    ensures changes <= maxChanges ==> Intensity(changes, maxChanges) * maxChanges as real == changes as real
    ensures changes >= maxChanges ==> Intensity(changes, maxChanges) == 1.0
  {
    var q := changes as real / maxChanges as real;
    var mc := maxChanges as real;
    assert q * mc == changes as real;
    if changes >= maxChanges {
      assert (q - 1.0) * mc >= 0.0;
    }
  }

  /** `Math.round`: to the nearest integer, halves upwards. */
  function Round(x: real): (n: int)
    ensures x - 0.5 < n as real <= x + 0.5
  {
    (x + 0.5).Floor
  }

  /** The five colours of the ramp, from low to high. */
  const Ramp: seq<Rgb> := [Rgb(59, 130, 246), Rgb(34, 197, 94), Rgb(234, 179, 8), Rgb(249, 115, 22), Rgb(239, 68, 68)]

  /** `Math.min(Math.floor(intensity * 4), 3)`: the segment of the ramp an intensity falls in. */
  function Segment(t: real): (k: nat)
    requires 0.0 <= t <= 1.0
    ensures k <= 3 && k as real <= 4.0 * t
    ensures k < 3 ==> 4.0 * t < k as real + 1.0
  {
    var f := (4.0 * t).Floor;
    if f < 3 then f else 3
  }

  /** The channel value `x` lies between `a` and `b`, whichever way round. */
  predicate Between(x: int, a: int, b: int)
  {
    (a <= x <= b) || (b <= x <= a)
  }

  /** `Math.round(a + (b - a) * l)`: one channel at position `l` of the way from `a` to `b`. */
  function Interpolate(a: int, b: int, l: real): int
  {
    Round(a as real + (b - a) as real * l)
  }

  /** The colour at position `l` of the way from `c1` to `c2`, channel by channel. */
  function Blend(c1: Rgb, c2: Rgb, l: real): Rgb
  {
    Rgb(Interpolate(c1.r, c2.r, l), Interpolate(c1.g, c2.g, l), Interpolate(c1.b, c2.b, l))
  }

  /** A rounded point of a segment lies between the segment's ends, and its ends are reached exactly. */
  lemma InterpolateBetween(a: int, b: int, l: real)
    requires 0.0 <= l <= 1.0
    ensures Between(Interpolate(a, b, l), a, b)
    ensures l == 0.0 ==> Interpolate(a, b, l) == a
    ensures l == 1.0 ==> Interpolate(a, b, l) == b
  {
    ScaleBounds((b - a) as real, l);
  }

  /** A fraction `l` of `d` lies between 0 and `d`. */
  lemma ScaleBounds(d: real, l: real)
    requires 0.0 <= l <= 1.0
    ensures 0.0 <= d ==> 0.0 <= d * l <= d
    ensures d <= 0.0 ==> d <= d * l <= 0.0
  {
    var e := 1.0 - l;
    assert d * l + d * e == d;
    if 0.0 <= d {
      assert 0.0 <= d * l && 0.0 <= d * e;
    } else {
      assert (-d) * l >= 0.0 && (-d) * e >= 0.0;
    }
  }

  /**
   * getHeatmapColor (src/utils/graph.ts:64-84), with the two ramp colours of
   * each segment written out as numbers (`HeatmapOnRamp` shows this is the
   * interpolation between `Ramp[k]` and `Ramp[k + 1]`).
   */
  function HeatmapColor(intensity: real): (c: Rgb)
    requires 0.0 <= intensity <= 1.0
  {
    var k := Segment(intensity);
    var l := 4.0 * intensity - k as real;
    if k == 0 then
      Rgb(Interpolate(59, 34, l), Interpolate(130, 197, l), Interpolate(246, 94, l))
    else if k == 1 then
      Rgb(Interpolate(34, 234, l), Interpolate(197, 179, l), Interpolate(94, 8, l))
    else if k == 2 then
      Rgb(Interpolate(234, 249, l), Interpolate(179, 115, l), Interpolate(8, 22, l))
    else
      Rgb(Interpolate(249, 239, l), Interpolate(115, 68, l), Interpolate(22, 68, l))
  }

  /**
   * The colour of an intensity is the ramp's two colours around it, blended
   * at the intensity's position within its segment: `index` is the segment
   * and `localIntensity` the position (src/utils/graph.ts:73-81).
   */
  lemma HeatmapOnRamp(intensity: real)
    requires 0.0 <= intensity <= 1.0
    ensures var k := Segment(intensity);
      0.0 <= 4.0 * intensity - k as real <= 1.0 &&
      HeatmapColor(intensity) == Blend(Ramp[k], Ramp[k + 1], 4.0 * intensity - k as real)
  {
  }

  /** Each channel lies between those of the segment's two ramp colours, hence in 0..255. */
  lemma HeatmapBetween(intensity: real)
    requires 0.0 <= intensity <= 1.0
    ensures var k := Segment(intensity); var c := HeatmapColor(intensity);
      Between(c.r, Ramp[k].r, Ramp[k + 1].r) && Between(c.g, Ramp[k].g, Ramp[k + 1].g) &&
      Between(c.b, Ramp[k].b, Ramp[k + 1].b)
    ensures var c := HeatmapColor(intensity);
      0 <= c.r <= 255 && 0 <= c.g <= 255 && 0 <= c.b <= 255
  {
    var k := Segment(intensity);
    var l := 4.0 * intensity - k as real;
    HeatmapOnRamp(intensity);
    InterpolateBetween(Ramp[k].r, Ramp[k + 1].r, l);
    InterpolateBetween(Ramp[k].g, Ramp[k + 1].g, l);
    InterpolateBetween(Ramp[k].b, Ramp[k + 1].b, l);
  }

  /** At the intensities 0, 1/4, 1/2, 3/4 and 1 the colour is exactly the ramp colour. */
  lemma HeatmapAtRamp(k: nat)
    requires k <= 4
    ensures HeatmapColor(k as real / 4.0) == Ramp[k]
  {
    var t := k as real / 4.0;
    var s := Segment(t);
    var l := 4.0 * t - s as real;
    if k < 4 {
      assert s == k && l == 0.0;
    } else {
      assert s == 3 && l == 1.0;
    }
    HeatmapOnRamp(t);
    InterpolateBetween(Ramp[s].r, Ramp[s + 1].r, l);
    InterpolateBetween(Ramp[s].g, Ramp[s + 1].g, l);
    InterpolateBetween(Ramp[s].b, Ramp[s + 1].b, l);
  }

  // ----- labels and edge sources -----

  /** `path.split('/').pop()`: the last segment of a path. */
  function LastSegment(p: string): (s: string)
    ensures '/' !in s
    ensures s == p[LastIndexOf(p, '/') + 1..]
  {
    Split(p, '/')[|Split(p, '/')| - 1]
  }

  /** `path.split('/').pop() || path`: the last segment, or the whole path when that is empty. */
  function FileLabel(p: string): string
  {
    var s := LastSegment(p);
    if s == "" then p else s
  }

  /** The label of a directory node: `root` for `.`, else as for a file. */
  function DirLabel(p: string): string
  {
    if p == "." then "root" else FileLabel(p)
  }

  /**
   * A label is never empty for a non-empty path; when it is not the whole
   * path it is the part after the last `/`, so that the directory part, a
   * `/` and the label give back the path.
   */
  lemma LabelParts(p: string)
    requires p != ""
    ensures FileLabel(p) != ""
    ensures '/' !in p ==> FileLabel(p) == p
    ensures FileLabel(p) != p ==> '/' in p && DirName(p) + "/" + FileLabel(p) == p && '/' !in FileLabel(p)
  {
    if '/' in p {
      var i := LastIndexOf(p, '/');
      assert p == p[..i] + "/" + p[i + 1..];
    }
  }

  /**
   * The source of a file's edge (src/utils/graph.ts:42-44, 56): the text
   * before the last `/`, or `.` when there is none or it is empty.
   */
  function FileEdgeSource(p: string): (s: string)
    ensures s != ""
  {
    var d := if '/' in p then p[..LastIndexOf(p, '/')] else ".";
    if d == "" then "." else d
  }

  /** For a well-formed path the edge source is exactly its directory part. */
  lemma FileEdgeSourceIsDirName(p: string)
    requires WellFormed(p)
    ensures FileEdgeSource(p) == DirName(p)
  {
    if '/' in p {
      var parts := Split(p, '/');
      PrefixDirLast(p);
      PrefixDirStep(p, |parts| - 2);
      if |parts| > 2 {
        assert DirName(p) != "";
      } else {
        assert DirName(p) == PrefixDir(p, 1) == Join(parts[..1], '/');
        assert parts[..1] == [parts[0]];
      }
    }
  }

  // ----- the nodes and edges -----

  /** Every directory of a tree has a non-negative total. */
  ghost predicate NonNegative(root: Node)
  {
    forall d :: d in Dirs(root) ==> d.totalChanges >= 0
  }

  /** Directory nodes with non-negative totals. */
  predicate Countable(ds: seq<Node>)
  {
    forall i :: 0 <= i < |ds| ==> ds[i].Dir? && ds[i].totalChanges >= 0
  }

  /** The graph node of one directory (src/utils/graph.ts:14-24). */
  function DirectoryNode(d: Node, maxChanges: int): (g: GraphNode)
    requires d.Dir? && d.totalChanges >= 0 && maxChanges > 0
    ensures 20.0 <= g.size <= 70.0
  {
    var t := Intensity(d.totalChanges, maxChanges);
    GraphNode(d.path, DirLabel(d.path), d.totalChanges, DirectoryKind, 20.0 + t * 50.0, HeatmapColor(t))
  }

  /** The graph node of one file (src/utils/graph.ts:40-53). */
  function FileNode(f: FileChange, maxChanges: int): (g: GraphNode)
    requires f.changes >= 0 && maxChanges > 0
    ensures 10.0 <= g.size <= 40.0
  {
    var t := Intensity(f.changes, maxChanges);
    GraphNode(f.path, FileLabel(f.path), f.changes, FileKind, 10.0 + t * 30.0, HeatmapColor(t))
  }

  /** The nodes of a list of directories, in order. */
  function DirNodes(ds: seq<Node>, maxChanges: int): (gs: seq<GraphNode>)
    requires Countable(ds) && maxChanges > 0
    ensures |gs| == |ds|
  {
    seq(|ds|, i requires 0 <= i < |ds| => DirectoryNode(ds[i], maxChanges))
  }

  /** The nodes of a list of files, in order. */
  function FileNodes(fs: seq<FileChange>, maxChanges: int): (gs: seq<GraphNode>)
    requires (forall k :: 0 <= k < |fs| ==> fs[k].changes >= 0) && maxChanges > 0
    ensures |gs| == |fs|
  {
    seq(|fs|, i requires 0 <= i < |fs| => FileNode(fs[i], maxChanges))
  }

  /** The edges of a list of files, in order. */
  function FileEdges(fs: seq<FileChange>): (es: seq<GraphEdge>)
    ensures |es| == |fs|
  {
    seq(|fs|, i requires 0 <= i < |fs| => GraphEdge(FileEdgeSource(fs[i].path), fs[i].path))
  }

  lemma DirNodesAt(ds: seq<Node>, maxChanges: int)
    requires Countable(ds) && maxChanges > 0
    ensures forall i :: 0 <= i < |ds| ==> DirNodes(ds, maxChanges)[i] == DirectoryNode(ds[i], maxChanges)
  {
  }

  lemma FileNodesAt(fs: seq<FileChange>, maxChanges: int)
    requires (forall k :: 0 <= k < |fs| ==> fs[k].changes >= 0) && maxChanges > 0
    ensures forall i :: 0 <= i < |fs| ==> FileNodes(fs, maxChanges)[i] == FileNode(fs[i], maxChanges)
  {
  }

  lemma FileEdgesAt(fs: seq<FileChange>)
    ensures forall i :: 0 <= i < |fs| ==> FileEdges(fs)[i] == GraphEdge(FileEdgeSource(fs[i].path), fs[i].path)
  {
  }

  /** The edges the directory walk emits under `n`: to each subdirectory, then those under it. */
  function EdgesOf(n: Node): seq<GraphEdge>
    decreases n, 1
  {
    if n.File? then [] else EdgesIn(n.path, n.children)
  }

  function EdgesIn(source: string, ns: seq<Node>): seq<GraphEdge>
    decreases ns, 0
  {
    if |ns| == 0 then []
    else (if ns[0].Dir? then [GraphEdge(source, ns[0].path)] + EdgesOf(ns[0]) else []) + EdgesIn(source, ns[1..])
  }

  /** `files.slice(0, maxFiles)`. */
  function Top(files: seq<FileChange>, maxFiles: nat): (top: seq<FileChange>)
    ensures |top| == if maxFiles < |files| then maxFiles else |files|
    ensures top == files[..|top|]
  {
    if maxFiles < |files| then files[..maxFiles] else files
  }

  /** The graph generateGraphData returns. */
  function GraphOf(root: Node, files: seq<FileChange>, maxChanges: int, maxFiles: nat): GraphData
    requires maxChanges > 0 && Countable(Dirs(root))
    requires forall k :: 0 <= k < |files| ==> files[k].changes >= 0
  {
    GraphData(DirNodes(Dirs(root), maxChanges) + FileNodes(Top(files, maxFiles), maxChanges),
              EdgesOf(root) + FileEdges(Top(files, maxFiles)))
  }

  // ----- facts about the walk -----

  lemma NonNegativeCountable(root: Node)
    requires NonNegative(root)
    ensures Countable(Dirs(root))
  {
  }

  lemma {:induction false} DirsInAppend(a: seq<Node>, b: seq<Node>)
    ensures DirsIn(a + b) == DirsIn(a) + DirsIn(b)
    decreases |a|
  {
    if |a| == 0 {
      assert a + b == b;
    } else {
      assert (a + b)[1..] == a[1..] + b;
      DirsInAppend(a[1..], b);
    }
  }

  lemma {:induction false} EdgesInAppend(source: string, a: seq<Node>, b: seq<Node>)
    ensures EdgesIn(source, a + b) == EdgesIn(source, a) + EdgesIn(source, b)
    decreases |a|
  {
    if |a| == 0 {
      assert a + b == b;
    } else {
      assert (a + b)[0] == a[0] && (a + b)[1..] == a[1..] + b;
      var x := if a[0].Dir? then [GraphEdge(source, a[0].path)] + EdgesOf(a[0]) else [];
      var r, s := EdgesIn(source, a[1..]), EdgesIn(source, b);
      EdgesInAppend(source, a[1..], b);
      assert EdgesIn(source, a + b) == x + (r + s);
      assert x + (r + s) == (x + r) + s;
    }
  }

  /** The walk emits one edge fewer than the directories it visits. */
  lemma {:induction false} EdgeCount(n: Node)
    requires n.Dir?
    ensures |EdgesOf(n)| + 1 == |Dirs(n)|
    decreases n, 1
  {
    EdgeCountIn(n.path, n.children);
  }

  lemma {:induction false} EdgeCountIn(source: string, ns: seq<Node>)
    ensures |EdgesIn(source, ns)| == |DirsIn(ns)|
    decreases ns, 0
  {
    if |ns| > 0 {
      if ns[0].Dir? {
        EdgeCount(ns[0]);
      }
      EdgeCountIn(source, ns[1..]);
    }
  }

  /** Every edge of the walk joins a directory of the tree to one of its subdirectories. */
  lemma {:induction false} EdgeOrigin(n: Node, e: GraphEdge) returns (d: Node, m: nat)
    requires e in EdgesOf(n)
    ensures d in Dirs(n) && m < |d.children| && d.children[m].Dir? && d.children[m] in Dirs(n)
    ensures e == GraphEdge(d.path, d.children[m].path)
    decreases n, 1
  {
    var direct;
    direct, d, m := EdgeOriginIn(n.path, n.children, e);
    if direct {
      d := n;
      DirsInContains(n.children, m);
    }
  }

  lemma {:induction false} EdgeOriginIn(source: string, ns: seq<Node>, e: GraphEdge) returns (direct: bool, d: Node, m: nat)
    requires e in EdgesIn(source, ns)
    ensures direct ==> m < |ns| && ns[m].Dir? && e == GraphEdge(source, ns[m].path)
    ensures !direct ==>
      d in DirsIn(ns) && m < |d.children| && d.children[m].Dir? && d.children[m] in DirsIn(ns) &&
      e == GraphEdge(d.path, d.children[m].path)
    decreases ns, 0
  {
    if ns[0].Dir? && e == GraphEdge(source, ns[0].path) {
      direct, d, m := true, ns[0], 0;
    } else if ns[0].Dir? && e in EdgesOf(ns[0]) {
      direct := false;
      d, m := EdgeOrigin(ns[0], e);
    } else {
      direct, d, m := EdgeOriginIn(source, ns[1..], e);
      if direct {
        m := m + 1;
      }
    }
  }

  /** The directories under a child of a directory are directories of the directory. */
  lemma ChildDirs(n: Node, m: nat)
    requires n.Dir? && m < |n.children|
    ensures forall x :: x in Dirs(n.children[m]) ==> x in Dirs(n)
  {
    DirsInContains(n.children, m);
  }

  /** The directories under the first `m` children are among all the children's. */
  lemma PrefixDirs(ns: seq<Node>, m: nat)
    requires m <= |ns|
    ensures forall x :: x in DirsIn(ns[..m]) ==> x in DirsIn(ns)
  {
    DirsInAppend(ns[..m], ns[m..]);
    assert ns[..m] + ns[m..] == ns;
  }

  lemma DirNodesAppend(a: seq<Node>, b: seq<Node>, maxChanges: int)
    requires Countable(a) && Countable(b) && maxChanges > 0
    ensures Countable(a + b) && DirNodes(a + b, maxChanges) == DirNodes(a, maxChanges) + DirNodes(b, maxChanges)
  {
    assert Countable(a + b) by {
      forall i | 0 <= i < |a + b|
        ensures (a + b)[i].Dir? && (a + b)[i].totalChanges >= 0
      {
        if i >= |a| {
          assert (a + b)[i] == b[i - |a|];
        }
      }
    }
    forall i | 0 <= i < |a + b|
      ensures DirNodes(a + b, maxChanges)[i] == (DirNodes(a, maxChanges) + DirNodes(b, maxChanges))[i]
    {
      DirNodesAppendAt(a, b, maxChanges, i);
    }
  }

  lemma DirNodesAppendAt(a: seq<Node>, b: seq<Node>, maxChanges: int, i: nat)
    requires Countable(a) && Countable(b) && Countable(a + b) && maxChanges > 0 && i < |a + b|
    ensures DirNodes(a + b, maxChanges)[i] == (DirNodes(a, maxChanges) + DirNodes(b, maxChanges))[i]
  {
    if i < |a| {
      assert (a + b)[i] == a[i];
    } else {
      assert (a + b)[i] == b[i - |a|];
    }
  }

  /** Before the loop over the children: only the directory's own node, behind the nodes already there. */
  lemma WalkStart(ns: seq<GraphNode>, es: seq<GraphEdge>, dir: Node, maxChanges: int)
    requires dir.Dir? && NonNegative(dir) && maxChanges > 0
    ensures Countable(DirsIn(dir.children[..0]))
    ensures ns + DirNodes([dir] + DirsIn(dir.children[..0]), maxChanges) == ns + [DirectoryNode(dir, maxChanges)]
    ensures es + EdgesIn(dir.path, dir.children[..0]) == es
  {
    assert dir.children[..0] == [];
    assert [dir] + [] == [dir];
  }

  /** Taking one more child adds its directories and the edges it brings. */
  lemma ChildStep(dir: Node, m: nat)
    requires dir.Dir? && m < |dir.children|
    ensures DirsIn(dir.children[..m + 1]) == DirsIn(dir.children[..m]) + Dirs(dir.children[m])
    ensures EdgesIn(dir.path, dir.children[..m + 1]) == EdgesIn(dir.path, dir.children[..m]) + EdgesIn(dir.path, [dir.children[m]])
  {
    var cs, child := dir.children, dir.children[m];
    DirsInAppend(cs[..m], [child]);
    EdgesInAppend(dir.path, cs[..m], [child]);
    assert cs[..m + 1] == cs[..m] + [child];
    assert [child][1..] == [];
    assert DirsIn([child]) == Dirs(child) + [];
  }

  /** The directories under the first `m + 1` children have non-negative totals. */
  lemma ChildStepCountable(dir: Node, m: nat)
    requires dir.Dir? && NonNegative(dir) && m < |dir.children|
    ensures NonNegative(dir.children[m]) && Countable(DirsIn(dir.children[..m + 1]))
  {
    var ds := DirsIn(dir.children[..m + 1]);
    PrefixDirs(dir.children, m + 1);
    ChildDirs(dir, m);
    assert Dirs(dir) == [dir] + DirsIn(dir.children);
    forall i | 0 <= i < |ds|
      ensures ds[i].Dir? && ds[i].totalChanges >= 0
    {
      assert ds[i] in Dirs(dir);
    }
  }

  /** A turn of the loop over the children at a subdirectory: its edge, then its own walk. */
  lemma WalkStepDir(ns: seq<GraphNode>, es: seq<GraphEdge>, dir: Node, m: nat, maxChanges: int)
    requires dir.Dir? && NonNegative(dir) && maxChanges > 0 && m < |dir.children| && dir.children[m].Dir?
    requires Countable(DirsIn(dir.children[..m]))
    ensures NonNegative(dir.children[m]) && Countable(DirsIn(dir.children[..m + 1]))
    ensures ns + DirNodes([dir] + DirsIn(dir.children[..m + 1]), maxChanges) ==
      ns + DirNodes([dir] + DirsIn(dir.children[..m]), maxChanges) + DirNodes(Dirs(dir.children[m]), maxChanges)
    ensures es + EdgesIn(dir.path, dir.children[..m + 1]) ==
      es + EdgesIn(dir.path, dir.children[..m]) + [GraphEdge(dir.path, dir.children[m].path)] + EdgesOf(dir.children[m])
  {
    var cs, child := dir.children, dir.children[m];
    ChildStep(dir, m);
    ChildStepCountable(dir, m);
    assert [child][1..] == [];
    assert EdgesIn(dir.path, [child]) == [GraphEdge(dir.path, child.path)] + EdgesOf(child);
    NonNegativeCountable(child);
    assert [dir] + DirsIn(cs[..m + 1]) == ([dir] + DirsIn(cs[..m])) + Dirs(child);
    DirNodesAppend([dir] + DirsIn(cs[..m]), Dirs(child), maxChanges);
  }

  /** A turn of the loop over the children at a file: nothing is added. */
  lemma WalkStepFile(dir: Node, m: nat)
    requires dir.Dir? && m < |dir.children| && dir.children[m].File?
    ensures DirsIn(dir.children[..m + 1]) == DirsIn(dir.children[..m])
    ensures EdgesIn(dir.path, dir.children[..m + 1]) == EdgesIn(dir.path, dir.children[..m])
  {
    ChildStep(dir, m);
    assert [dir.children[m]][1..] == [];
  }

  /** After the loop: the nodes of all the directories under `dir`, and its edges. */
  lemma WalkEnd(dir: Node, maxChanges: int)
    requires dir.Dir? && NonNegative(dir) && maxChanges > 0
    ensures Countable(Dirs(dir)) && [dir] + DirsIn(dir.children[..|dir.children|]) == Dirs(dir)
    ensures EdgesIn(dir.path, dir.children[..|dir.children|]) == EdgesOf(dir)
  {
    assert dir.children[..|dir.children|] == dir.children;
  }

  /**
   * The arrays generateGraphData fills (src/utils/graph.ts:9-10), with the
   * largest change count the nested `addDirectoryNode` reads.
   */
  class GraphBuilder {
    var nodes: seq<GraphNode>
    var edges: seq<GraphEdge>
    const maxChanges: int

    constructor(maxChanges: int)
      ensures this.maxChanges == maxChanges && nodes == [] && edges == []
    {
      this.maxChanges := maxChanges;
      nodes := [];
      edges := [];
    }

    /**
     * addDirectoryNode (src/utils/graph.ts:13-35): the node of `dir`, then
     * for each subdirectory in order an edge to it and everything under it.
     */
    method AddDirectoryNode(dir: Node)
      requires dir.Dir? && NonNegative(dir) && maxChanges > 0
      modifies this
      ensures Countable(Dirs(dir))
      ensures nodes == old(nodes) + DirNodes(Dirs(dir), maxChanges)
      ensures edges == old(edges) + EdgesOf(dir)
      decreases dir
    {
      var cs := dir.children;
      ghost var ns, es := nodes, edges;
      WalkStart(ns, es, dir, maxChanges);
      nodes := nodes + [DirectoryNode(dir, maxChanges)];
      for m := 0 to |cs|
        invariant Countable(DirsIn(cs[..m]))
        invariant nodes == ns + DirNodes([dir] + DirsIn(cs[..m]), maxChanges)
        invariant edges == es + EdgesIn(dir.path, cs[..m])
      {
        var child := cs[m];
        if child.Dir? {
          WalkStepDir(ns, es, dir, m, maxChanges);
          edges := edges + [GraphEdge(dir.path, child.path)];
          AddDirectoryNode(child);
        } else {
          WalkStepFile(dir, m);
        }
      }
      WalkEnd(dir, maxChanges);
    }
  }

  /**
   * generateGraphData (src/utils/graph.ts:3-62): the directory walk from the
   * root, then for each of the first `maxFiles` files its node and an edge
   * from its directory part.
   */
  method GenerateGraphData(directories: Node, files: seq<FileChange>, maxChanges: int, maxFiles: nat)
    returns (g: GraphData)
    requires directories.Dir? && NonNegative(directories) && maxChanges > 0
    requires forall k :: 0 <= k < |files| ==> files[k].changes >= 0
    ensures Countable(Dirs(directories)) && g == GraphOf(directories, files, maxChanges, maxFiles)
  {
    var builder := new GraphBuilder(maxChanges);
    var topFiles := Top(files, maxFiles);
    builder.AddDirectoryNode(directories);
    ghost var dirNodes, dirEdges := builder.nodes, builder.edges;
    assert dirNodes == DirNodes(Dirs(directories), maxChanges) && dirEdges == EdgesOf(directories);
    for k := 0 to |topFiles|
      invariant builder.maxChanges == maxChanges
      invariant builder.nodes == dirNodes + FileNodes(topFiles[..k], maxChanges)
      invariant builder.edges == dirEdges + FileEdges(topFiles[..k])
    {
      var file := topFiles[k];
      FilesStep(dirNodes, dirEdges, topFiles, k, maxChanges);
      builder.nodes := builder.nodes + [FileNode(file, maxChanges)];
      builder.edges := builder.edges + [GraphEdge(FileEdgeSource(file.path), file.path)];
    }
    assert topFiles[..|topFiles|] == topFiles;
    assert builder.nodes == DirNodes(Dirs(directories), maxChanges) + FileNodes(Top(files, maxFiles), maxChanges);
    assert builder.edges == EdgesOf(directories) + FileEdges(Top(files, maxFiles));
    g := GraphData(builder.nodes, builder.edges);
  }

  /** One turn of the loop over the retained files: one node and one edge more behind those already there. */
  lemma FilesStep(ns: seq<GraphNode>, es: seq<GraphEdge>, fs: seq<FileChange>, k: nat, maxChanges: int)
    requires k < |fs| && maxChanges > 0 && forall i :: 0 <= i < |fs| ==> fs[i].changes >= 0
    ensures ns + FileNodes(fs[..k + 1], maxChanges) == ns + FileNodes(fs[..k], maxChanges) + [FileNode(fs[k], maxChanges)]
    ensures es + FileEdges(fs[..k + 1]) == es + FileEdges(fs[..k]) + [GraphEdge(FileEdgeSource(fs[k].path), fs[k].path)]
  {
    FileNodesStep(fs, k, maxChanges);
    FileEdgesStep(fs, k);
  }

  lemma FileNodesStep(fs: seq<FileChange>, k: nat, maxChanges: int)
    requires k < |fs| && maxChanges > 0 && forall i :: 0 <= i < |fs| ==> fs[i].changes >= 0
    ensures FileNodes(fs[..k + 1], maxChanges) == FileNodes(fs[..k], maxChanges) + [FileNode(fs[k], maxChanges)]
  {
    var a, b := FileNodes(fs[..k + 1], maxChanges), FileNodes(fs[..k], maxChanges) + [FileNode(fs[k], maxChanges)];
    forall i | 0 <= i < |a|
      ensures a[i] == b[i]
    {
      FileNodesStepAt(fs, k, i, maxChanges);
    }
  }

  lemma FileNodesStepAt(fs: seq<FileChange>, k: nat, i: nat, maxChanges: int)
    requires i <= k < |fs| && maxChanges > 0 && forall j :: 0 <= j < |fs| ==> fs[j].changes >= 0
    ensures FileNodes(fs[..k + 1], maxChanges)[i] == (FileNodes(fs[..k], maxChanges) + [FileNode(fs[k], maxChanges)])[i]
  {
    assert fs[..k + 1][i] == fs[i];
    if i < k {
      assert fs[..k][i] == fs[i];
    }
  }

  lemma FileEdgesStep(fs: seq<FileChange>, k: nat)
    requires k < |fs|
    ensures FileEdges(fs[..k + 1]) == FileEdges(fs[..k]) + [GraphEdge(FileEdgeSource(fs[k].path), fs[k].path)]
  {
    var a, b := FileEdges(fs[..k + 1]), FileEdges(fs[..k]) + [GraphEdge(FileEdgeSource(fs[k].path), fs[k].path)];
    forall i | 0 <= i < |a|
      ensures a[i] == b[i]
    {
      assert fs[..k + 1][i] == fs[i];
    }
  }

  // ----- what the graph satisfies -----

  /** The ids of a list of graph nodes. */
  function Ids(gs: seq<GraphNode>): (ids: seq<string>)
    ensures |ids| == |gs|
  {
    seq(|gs|, i requires 0 <= i < |gs| => gs[i].id)
  }

  /** One node per directory and per retained file; one edge per subdirectory and per retained file. */
  lemma GraphCounts(root: Node, files: seq<FileChange>, maxChanges: int, maxFiles: nat)
    requires root.Dir? && maxChanges > 0 && Countable(Dirs(root))
    requires forall k :: 0 <= k < |files| ==> files[k].changes >= 0
    ensures |GraphOf(root, files, maxChanges, maxFiles).nodes| == |Dirs(root)| + |Top(files, maxFiles)|
    ensures |GraphOf(root, files, maxChanges, maxFiles).edges| == |Dirs(root)| - 1 + |Top(files, maxFiles)|
  {
    EdgeCount(root);
  }

  /** `g` is the node of directory `d`: its id and count are the directory's, its size between 20 and 70. */
  predicate DirectoryNodeOf(g: GraphNode, d: Node)
  {
    d.Dir? && g.kind == DirectoryKind && g.id == d.path && g.changes == d.totalChanges && 20.0 <= g.size <= 70.0
  }

  /** The directory nodes come first, one per directory of the tree in pre-order. */
  lemma DirectoryNodesFirst(root: Node, files: seq<FileChange>, maxChanges: int, maxFiles: nat)
    requires root.Dir? && maxChanges > 0 && Countable(Dirs(root))
    requires forall k :: 0 <= k < |files| ==> files[k].changes >= 0
    ensures |GraphOf(root, files, maxChanges, maxFiles).nodes| >= |Dirs(root)|
    ensures forall i :: 0 <= i < |Dirs(root)| ==> DirectoryNodeOf(GraphOf(root, files, maxChanges, maxFiles).nodes[i], Dirs(root)[i])
  {
    var g, ds := GraphOf(root, files, maxChanges, maxFiles), Dirs(root);
    DirNodesAt(ds, maxChanges);
    forall i | 0 <= i < |ds|
      ensures DirectoryNodeOf(g.nodes[i], ds[i])
    {
      assert g.nodes[i] == DirectoryNode(ds[i], maxChanges);
    }
  }

  /** `g` is a file node for `f`: its id and count are the file's, its size between 10 and 40. */
  predicate FileNodeOf(g: GraphNode, f: FileChange)
  {
    g.kind == FileKind && g.id == f.path && g.changes == f.changes && 10.0 <= g.size <= 40.0
  }

  /** Then one node per retained file, in the given order. */
  lemma FileNodesAfter(root: Node, files: seq<FileChange>, maxChanges: int, maxFiles: nat)
    requires root.Dir? && maxChanges > 0 && Countable(Dirs(root))
    requires forall k :: 0 <= k < |files| ==> files[k].changes >= 0
    ensures |GraphOf(root, files, maxChanges, maxFiles).nodes| == |Dirs(root)| + |Top(files, maxFiles)|
    ensures forall i :: |Dirs(root)| <= i < |GraphOf(root, files, maxChanges, maxFiles).nodes| ==>
      i - |Dirs(root)| < |files| && FileNodeOf(GraphOf(root, files, maxChanges, maxFiles).nodes[i], files[i - |Dirs(root)|])
  {
    var g := GraphOf(root, files, maxChanges, maxFiles);
    forall i | |Dirs(root)| <= i < |g.nodes|
      ensures i - |Dirs(root)| < |files| && FileNodeOf(g.nodes[i], files[i - |Dirs(root)|])
    {
      FileNodeAt(root, files, maxChanges, maxFiles, i);
    }
  }

  /** The node at position `i` past the directory nodes is that of the file at position `i - |Dirs(root)|`. */
  lemma FileNodeAt(root: Node, files: seq<FileChange>, maxChanges: int, maxFiles: nat, i: nat)
    requires root.Dir? && maxChanges > 0 && Countable(Dirs(root))
    requires forall k :: 0 <= k < |files| ==> files[k].changes >= 0
    requires |Dirs(root)| <= i < |GraphOf(root, files, maxChanges, maxFiles).nodes|
    ensures i - |Dirs(root)| < |files| && FileNodeOf(GraphOf(root, files, maxChanges, maxFiles).nodes[i], files[i - |Dirs(root)|])
  {
    var top, k := Top(files, maxFiles), i - |Dirs(root)|;
    assert top[k] == files[k];
    FileNodeFits(files[k], maxChanges);
  }

  /** A file's node carries the file's path and count, with a size between 10 and 40. */
  lemma FileNodeFits(f: FileChange, maxChanges: int)
    requires f.changes >= 0 && maxChanges > 0
    ensures FileNodeOf(FileNode(f, maxChanges), f)
  {
  }

  /** The edges of some files, placed behind other edges, are those files' edges in order. */
  lemma FileEdgesBehind(es: seq<GraphEdge>, a: seq<GraphEdge>, fs: seq<FileChange>)
    requires es == a + FileEdges(fs)
    ensures |es| == |a| + |fs|
    ensures forall k :: 0 <= k < |fs| ==> es[|a| + k] == GraphEdge(FileEdgeSource(fs[k].path), fs[k].path)
  {
    FileEdgesAt(fs);
  }

  /** The root is the first node, labelled `root`, when the tree's root path is `.`. */
  lemma RootFirst(root: Node, files: seq<FileChange>, maxChanges: int, maxFiles: nat)
    requires root.Dir? && root.path == "." && maxChanges > 0 && Countable(Dirs(root))
    requires forall k :: 0 <= k < |files| ==> files[k].changes >= 0
    ensures |GraphOf(root, files, maxChanges, maxFiles).nodes| > 0
    ensures GraphOf(root, files, maxChanges, maxFiles).nodes[0].id == "."
    ensures GraphOf(root, files, maxChanges, maxFiles).nodes[0].caption == "root"
  {
    DirNodesAt(Dirs(root), maxChanges);
  }

  /** Edge `e` joins two nodes of `ns`, from the node of the directory that holds its target. */
  predicate Linked(e: GraphEdge, ns: seq<GraphNode>)
  {
    e.source in Ids(ns) && e.target in Ids(ns) && DirName(e.target) == e.source
  }

  /** Every directory edge joins a directory node to the node of one of its subdirectories. */
  lemma DirectoryEdgesLinked(root: Node, files: seq<FileChange>, maxChanges: int, maxFiles: nat)
    requires root.Dir? && maxChanges > 0 && Countable(Dirs(root)) && ChildrenExtend(root)
    requires forall k :: 0 <= k < |files| ==> files[k].changes >= 0
    ensures |GraphOf(root, files, maxChanges, maxFiles).edges| >= |Dirs(root)| - 1
    ensures forall i :: 0 <= i < |Dirs(root)| - 1 ==>
      Linked(GraphOf(root, files, maxChanges, maxFiles).edges[i], GraphOf(root, files, maxChanges, maxFiles).nodes)
  {
    EdgeCount(root);
    forall i | 0 <= i < |Dirs(root)| - 1
      ensures Linked(GraphOf(root, files, maxChanges, maxFiles).edges[i], GraphOf(root, files, maxChanges, maxFiles).nodes)
    {
      DirectoryEdgeAt(root, files, maxChanges, maxFiles, i);
    }
  }

  /** Edge `i` of the walk links the node of a directory to the node of one of its subdirectories. */
  lemma DirectoryEdgeAt(root: Node, files: seq<FileChange>, maxChanges: int, maxFiles: nat, i: nat)
    requires root.Dir? && maxChanges > 0 && Countable(Dirs(root)) && ChildrenExtend(root)
    requires forall k :: 0 <= k < |files| ==> files[k].changes >= 0
    requires i < |Dirs(root)| - 1
    ensures i < |GraphOf(root, files, maxChanges, maxFiles).edges|
    ensures Linked(GraphOf(root, files, maxChanges, maxFiles).edges[i], GraphOf(root, files, maxChanges, maxFiles).nodes)
  {
    var g := GraphOf(root, files, maxChanges, maxFiles);
    EdgeCount(root);
    DirectoryNodesFirst(root, files, maxChanges, maxFiles);
    assert g.edges[i] == EdgesOf(root)[i];
    var d, m := EdgeOrigin(root, g.edges[i]);
    DirectoryEdgeLinked(root, g.nodes, d, m);
  }

  /** The edge from a directory to one of its subdirectories links their two nodes. */
  lemma DirectoryEdgeLinked(root: Node, ns: seq<GraphNode>, d: Node, m: nat)
    requires ChildrenExtend(root) && d in Dirs(root) && m < |d.children| && d.children[m].Dir? && d.children[m] in Dirs(root)
    requires |ns| >= |Dirs(root)| && forall i :: 0 <= i < |Dirs(root)| ==> DirectoryNodeOf(ns[i], Dirs(root)[i])
    ensures Linked(GraphEdge(d.path, d.children[m].path), ns)
  {
    var ds := Dirs(root);
    var a :| 0 <= a < |ds| && ds[a] == d;
    var b :| 0 <= b < |ds| && ds[b] == d.children[m];
    assert Ids(ns)[a] == d.path;
    assert Ids(ns)[b] == d.children[m].path;
  }


  /**
   * With the tree built from the same file list, every file edge starts at
   * the node of the file's directory and ends at the file's node.
   */
  lemma FileEdgesLinked(root: Node, files: seq<FileChange>, maxChanges: int, maxFiles: nat)
    requires root.Dir? && maxChanges > 0 && Countable(Dirs(root)) && DirectoriesPresent(root, files)
    requires forall k :: 0 <= k < |files| ==> files[k].changes >= 0 && WellFormed(files[k].path)
    ensures |GraphOf(root, files, maxChanges, maxFiles).edges| == |Dirs(root)| - 1 + |Top(files, maxFiles)|
    ensures forall i :: |Dirs(root)| - 1 <= i < |GraphOf(root, files, maxChanges, maxFiles).edges| ==>
      Linked(GraphOf(root, files, maxChanges, maxFiles).edges[i], GraphOf(root, files, maxChanges, maxFiles).nodes)
  {
    var g, n := GraphOf(root, files, maxChanges, maxFiles), |Dirs(root)|;
    EdgeCount(root);
    forall i | n - 1 <= i < |g.edges|
      ensures Linked(g.edges[i], g.nodes)
    {
      FileEdgeAt(root, files, maxChanges, maxFiles, i);
    }
  }

  /** The file edge at position `i` of the graph is linked. */
  lemma FileEdgeAt(root: Node, files: seq<FileChange>, maxChanges: int, maxFiles: nat, i: nat)
    requires root.Dir? && maxChanges > 0 && Countable(Dirs(root)) && DirectoriesPresent(root, files)
    requires forall k :: 0 <= k < |files| ==> files[k].changes >= 0 && WellFormed(files[k].path)
    requires |Dirs(root)| - 1 <= i < |GraphOf(root, files, maxChanges, maxFiles).edges|
    ensures Linked(GraphOf(root, files, maxChanges, maxFiles).edges[i], GraphOf(root, files, maxChanges, maxFiles).nodes)
  {
    var g, n, top := GraphOf(root, files, maxChanges, maxFiles), |Dirs(root)|, Top(files, maxFiles);
    EdgeCount(root);
    FileEdgesBehind(g.edges, EdgesOf(root), top);
    DirectoryNodesFirst(root, files, maxChanges, maxFiles);
    var k := i - (n - 1);
    var f := files[k];
    assert top[k] == f;
    assert g.edges[n - 1 + k] == GraphEdge(FileEdgeSource(f.path), f.path);
    FileNodeAt(root, files, maxChanges, maxFiles, n + k);
    FileEdgeLinked(root, g.nodes, f, n + k);
  }

  /** The edge of a file whose directory has a node and which has a node itself links the two. */
  lemma FileEdgeLinked(root: Node, ns: seq<GraphNode>, f: FileChange, j: nat)
    requires WellFormed(f.path) && DirName(f.path) in DirPaths(root)
    requires |ns| >= |Dirs(root)| && forall i :: 0 <= i < |Dirs(root)| ==> DirectoryNodeOf(ns[i], Dirs(root)[i])
    requires j < |ns| && ns[j].id == f.path
    ensures Linked(GraphEdge(FileEdgeSource(f.path), f.path), ns)
  {
    FileEdgeSourceIsDirName(f.path);
    var a :| 0 <= a < |Dirs(root)| && DirPaths(root)[a] == DirName(f.path);
    assert Ids(ns)[a] == DirName(f.path);
    assert Ids(ns)[j] == f.path;
  }

  /** Every channel of `c` is in 0..255. */
  predicate InRange(c: Rgb)
  {
    0 <= c.r <= 255 && 0 <= c.g <= 255 && 0 <= c.b <= 255
  }

  /** Every node's colour is a valid RGB colour. */
  lemma ColoursInRange(root: Node, files: seq<FileChange>, maxChanges: int, maxFiles: nat)
    requires root.Dir? && maxChanges > 0 && Countable(Dirs(root))
    requires forall k :: 0 <= k < |files| ==> files[k].changes >= 0
    ensures forall i :: 0 <= i < |GraphOf(root, files, maxChanges, maxFiles).nodes| ==>
      InRange(GraphOf(root, files, maxChanges, maxFiles).nodes[i].color)
  {
    var g, ds, top := GraphOf(root, files, maxChanges, maxFiles), Dirs(root), Top(files, maxFiles);
    DirNodesAt(ds, maxChanges);
    FileNodesAt(top, maxChanges);
    forall i | 0 <= i < |g.nodes|
      ensures InRange(g.nodes[i].color)
    {
      if i < |ds| {
        assert g.nodes[i] == DirectoryNode(ds[i], maxChanges);
        HeatmapBetween(Intensity(ds[i].totalChanges, maxChanges));
      } else {
        assert g.nodes[|ds| + (i - |ds|)] == FileNode(top[i - |ds|], maxChanges);
        HeatmapBetween(Intensity(top[i - |ds|].changes, maxChanges));
      }
    }
  }
}
