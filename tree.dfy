/**
 * buildDirectoryTree (src/utils/git.ts:157-207). The JavaScript builds a tree
 * of `DirectoryStats` objects and mutates them through references: `current`
 * and `parent` alias objects that are also reachable from `root`. The model
 * keeps those objects in an arena, a sequence of directory records whose
 * index is the object's identity, with index 0 for the root; a directory's
 * `children` array holds either another directory, by index, or a file.
 * The finished tree is read back as a `Node` value.
 */
module Tree {
  import opened Types
  import opened Strings
  import opened Paths

  /** An element of a `children` array: a directory object (by arena index) or a file. */
  datatype Child = SubDir(index: nat) | Leaf(file: FileChange)

  /** One `DirectoryStats` object. */
  datatype DirRecord = DirRecord(path: string, totalChanges: int, fileCount: int, children: seq<Child>)

  /** The files of `files` whose directory part is `dir`, in their order. */
  function FilesIn(files: seq<FileChange>, dir: string): seq<FileChange>
  {
    if |files| == 0 then []
    else FilesIn(files[..|files| - 1], dir) + if DirName(files[|files| - 1].path) == dir then [files[|files| - 1]] else []
  }

  /** The files of a `children` array, in order. */
  function Leaves(cs: seq<Child>): seq<FileChange>
  {
    if |cs| == 0 then []
    else Leaves(cs[..|cs| - 1]) + if cs[|cs| - 1].Leaf? then [cs[|cs| - 1].file] else []
  }

  /**
   * How many times the code adds one file with path `p` to the counters of
   * the (non-root) directory `dir`: twice to the file's own directory, once
   * more to a top-level directory when the file's directory lies directly
   * under it, and never otherwise.
   */
  function AsWrittenWeight(dir: string, p: string): nat
  {
    if '/' !in p then 0
    else
      var d := DirName(p);
      (if dir == d then 2 else 0) + (if '/' in d && '/' !in dir && DirName(d) == dir then 1 else 0)
  }

  /** The `totalChanges` the code leaves on the non-root directory `dir`. */
  function AsWrittenChanges(files: seq<FileChange>, dir: string): int
  {
    if |files| == 0 then 0
    else
      var f := files[|files| - 1];
      AsWrittenChanges(files[..|files| - 1], dir) + AsWrittenWeight(dir, f.path) * f.changes
  }

  /** The `fileCount` the code leaves on the non-root directory `dir`. */
  function AsWrittenCount(files: seq<FileChange>, dir: string): nat
  {
    if |files| == 0 then 0
    else AsWrittenCount(files[..|files| - 1], dir) + AsWrittenWeight(dir, files[|files| - 1].path)
  }

  /** The summed changes of the files that lie (at any depth) under `dir`. */
  function SubtreeChanges(files: seq<FileChange>, dir: string): int
  {
    if |files| == 0 then 0
    else
      var f := files[|files| - 1];
      SubtreeChanges(files[..|files| - 1], dir) + if IsAncestorDir(dir, f.path) then f.changes else 0
  }

  /** The number of files that lie (at any depth) under `dir`. */
  function SubtreeCount(files: seq<FileChange>, dir: string): nat
  {
    if |files| == 0 then 0
    else SubtreeCount(files[..|files| - 1], dir) + if IsAncestorDir(dir, files[|files| - 1].path) then 1 else 0
  }

  /**
   * `children.find(c => 'children' in c && c.path === path)`: a directory
   * child with that path, if there is one.
   */
  function FindDir(cs: seq<Child>, dirs: seq<DirRecord>, path: string): (r: Option<nat>)
    ensures r.Some? ==> SubDir(r.value) in cs && r.value < |dirs| && dirs[r.value].path == path
    ensures r.None? ==> forall m :: 0 <= m < |cs| && cs[m].SubDir? && cs[m].index < |dirs| ==> dirs[cs[m].index].path != path
  {
    if |cs| == 0 then None
    else if cs[0].SubDir? && cs[0].index < |dirs| && dirs[cs[0].index].path == path then Some(cs[0].index)
    else
      var r := FindDir(cs[1..], dirs, path);
      assert forall m :: 1 <= m < |cs| ==> cs[m] == cs[1..][m - 1];
      r
  }

  /** A non-root directory object with this path, searched among all of them. */
  function FindByPath(dirs: seq<DirRecord>, path: string, from: nat): (r: Option<nat>)
    ensures r.Some? ==> from <= r.value < |dirs| && dirs[r.value].path == path
    ensures r.None? ==> forall j :: from <= j < |dirs| ==> dirs[j].path != path
    decreases |dirs| - from
  {
    if from >= |dirs| then None
    else if dirs[from].path == path then Some(from)
    else FindByPath(dirs, path, from + 1)
  }

  lemma LeavesSnocDir(cs: seq<Child>, j: nat)
    ensures Leaves(cs + [SubDir(j)]) == Leaves(cs)
  {
    assert (cs + [SubDir(j)])[..|cs|] == cs;
  }

  lemma LeavesSnocLeaf(cs: seq<Child>, f: FileChange)
    ensures Leaves(cs + [Leaf(f)]) == Leaves(cs) + [f]
  {
    assert (cs + [Leaf(f)])[..|cs|] == cs;
  }

  lemma FilesInSnoc(files: seq<FileChange>, f: FileChange, dir: string)
    ensures FilesIn(files + [f], dir) == FilesIn(files, dir) + if DirName(f.path) == dir then [f] else []
  {
    assert (files + [f])[..|files|] == files;
  }

  /** No file of `files` lies directly in `dir`. */
  lemma {:induction false} FilesInNone(files: seq<FileChange>, dir: string)
    requires forall k :: 0 <= k < |files| ==> DirName(files[k].path) != dir
    ensures FilesIn(files, dir) == []
  {
    if |files| > 0 {
      FilesInNone(files[..|files| - 1], dir);
    }
  }

  /** A directory that holds no file and is the parent of no file's directory gets no as-written counts. */
  lemma {:induction false} AsWrittenNone(files: seq<FileChange>, dir: string)
    requires forall k :: 0 <= k < |files| ==> AsWrittenWeight(dir, files[k].path) == 0
    ensures AsWrittenChanges(files, dir) == 0 && AsWrittenCount(files, dir) == 0
  {
    if |files| > 0 {
      AsWrittenNone(files[..|files| - 1], dir);
    }
  }

  /** A directory that is no file's ancestor gets no subtree counts. */
  lemma {:induction false} SubtreeNone(files: seq<FileChange>, dir: string)
    requires forall k :: 0 <= k < |files| ==> !IsAncestorDir(dir, files[k].path)
    ensures SubtreeChanges(files, dir) == 0 && SubtreeCount(files, dir) == 0
  {
    if |files| > 0 {
      SubtreeNone(files[..|files| - 1], dir);
    }
  }

  // ----- the arena invariant, stated on values -----

  /**
   * Every directory but the root was created in an earlier one, is listed in
   * its `children`, and extends its path by one segment; top-level
   * directories are exactly those without `/`.
   */
  ghost predicate ParentsOk(dirs: seq<DirRecord>, parent: seq<nat>)
  {
    |dirs| >= 1 && |parent| == |dirs| && dirs[0].path == "." &&
    forall j {:trigger parent[j]} :: 1 <= j < |dirs| ==>
      parent[j] < j && SubDir(j) in dirs[parent[j]].children &&
      DirName(dirs[j].path) == dirs[parent[j]].path && dirs[j].path != "." &&
      (parent[j] == 0 <==> '/' !in dirs[j].path)
  }

  /** A directory child refers to an existing non-root directory created in its parent. */
  ghost predicate ChildrenOk(dirs: seq<DirRecord>, parent: seq<nat>)
    requires |parent| == |dirs|
  {
    forall i, m :: 0 <= i < |dirs| && 0 <= m < |dirs[i].children| && dirs[i].children[m].SubDir? ==>
      0 < dirs[i].children[m].index < |dirs| && parent[dirs[i].children[m].index] == i
  }

  /** No directory lists the same directory object twice. */
  ghost predicate DistinctChildren(dirs: seq<DirRecord>)
  {
    forall i, m1, m2 ::
      (0 <= i < |dirs| && 0 <= m1 < m2 < |dirs[i].children| &&
       dirs[i].children[m1].SubDir? && dirs[i].children[m2].SubDir?) ==>
      dirs[i].children[m1].index != dirs[i].children[m2].index
  }

  /** No two directory objects share a path. */
  ghost predicate UniquePaths(dirs: seq<DirRecord>)
  {
    forall j1, j2 :: 0 <= j1 < j2 < |dirs| ==> dirs[j1].path != dirs[j2].path
  }

  /** Each directory holds exactly the added files whose directory part is its path, in order. */
  ghost predicate LeavesOk(dirs: seq<DirRecord>, added: seq<FileChange>)
  {
    forall i {:trigger Leaves(dirs[i].children)} :: 0 <= i < |dirs| ==> Leaves(dirs[i].children) == FilesIn(added, dirs[i].path)
  }

  /** Every added file has a well-formed path and was pushed into the directory its path names. */
  ghost predicate HomesOk(dirs: seq<DirRecord>, added: seq<FileChange>, home: seq<nat>)
  {
    |home| == |added| &&
    forall k {:trigger home[k]} :: 0 <= k < |added| ==>
      home[k] < |dirs| && dirs[home[k]].path == DirName(added[k].path) && WellFormed(added[k].path)
  }

  ghost predicate ArenaOk(dirs: seq<DirRecord>, parent: seq<nat>, added: seq<FileChange>, home: seq<nat>)
  {
    ParentsOk(dirs, parent) && ChildrenOk(dirs, parent) && DistinctChildren(dirs) &&
    UniquePaths(dirs) && LeavesOk(dirs, added) && HomesOk(dirs, added, home)
  }

  /** The counters of every non-root directory, as lines 188-200 leave them. */
  ghost predicate CountersAsWritten(dirs: seq<DirRecord>, added: seq<FileChange>)
  {
    forall j {:trigger dirs[j].totalChanges} :: 1 <= j < |dirs| ==>
      dirs[j].totalChanges == AsWrittenChanges(added, dirs[j].path) &&
      dirs[j].fileCount == AsWrittenCount(added, dirs[j].path)
  }

  /** The counters of every non-root directory, as the corrected walk leaves them. */
  ghost predicate CountersCorrected(dirs: seq<DirRecord>, added: seq<FileChange>)
  {
    forall j {:trigger dirs[j].totalChanges} :: 1 <= j < |dirs| ==>
      dirs[j].totalChanges == SubtreeChanges(added, dirs[j].path) &&
      dirs[j].fileCount == SubtreeCount(added, dirs[j].path)
  }

  /** Some file of `files` lies (at any depth) under `dir`. */
  predicate HasFileUnder(dir: string, files: seq<FileChange>)
  {
    exists k :: 0 <= k < |files| && IsAncestorDir(dir, files[k].path)
  }

  /** Every non-root directory object lies above some added file: none is left empty. */
  ghost predicate Occupied(dirs: seq<DirRecord>, added: seq<FileChange>)
  {
    forall j :: 1 <= j < |dirs| ==> HasFileUnder(dirs[j].path, added)
  }

  /**
   * `after` keeps the directory objects of `before` at their paths, and
   * every directory object it adds lies above the path `p`.
   */
  ghost predicate GrownToward(before: seq<DirRecord>, after: seq<DirRecord>, p: string)
  {
    |before| <= |after| &&
    (forall j :: 0 <= j < |before| ==> after[j].path == before[j].path) &&
    (forall j :: |before| <= j < |after| ==> IsAncestorDir(after[j].path, p))
  }

  /** Adding at most one directory object, above `p`, is growing toward `p`. */
  lemma GrownByOne(before: seq<DirRecord>, after: seq<DirRecord>, p: string, target: string)
    requires IsAncestorDir(target, p) && |before| <= |after| <= |before| + 1
    requires forall j :: 0 <= j < |before| ==> after[j].path == before[j].path
    requires forall j :: |before| <= j < |after| ==> after[j].path == target
    ensures GrownToward(before, after, p)
  {
  }

  /** Growing toward `p` twice is growing toward `p`. */
  lemma GrownTwice(before: seq<DirRecord>, mid: seq<DirRecord>, after: seq<DirRecord>, p: string)
    requires GrownToward(before, mid, p) && GrownToward(mid, after, p)
    ensures GrownToward(before, after, p)
  {
  }

  /** Pushing a file leaf and then changing only counters keeps every path: the arena did not grow. */
  lemma GrownAfterPush(before: seq<DirRecord>, cur: nat, file: FileChange, pushed: seq<DirRecord>, after: seq<DirRecord>)
    requires cur < |before| && pushed == PushLeaf(before, cur, file) && SameShape(pushed, after)
    ensures GrownToward(before, after, file.path)
  {
  }

  /** Adding `file` keeps every directory occupied when the arena only grew toward the file. */
  lemma OccupiedAfterAdd(before: seq<DirRecord>, added: seq<FileChange>, after: seq<DirRecord>, file: FileChange)
    requires Occupied(before, added) && GrownToward(before, after, file.path)
    ensures Occupied(after, added + [file])
  {
    var added' := added + [file];
    forall j | 1 <= j < |after|
      ensures HasFileUnder(after[j].path, added')
    {
      if j < |before| {
        assert HasFileUnder(before[j].path, added);
        var k :| 0 <= k < |added| && IsAncestorDir(before[j].path, added[k].path);
        assert added'[k] == added[k];
      } else {
        assert added'[|added|] == file;
      }
    }
  }

  /** A directory path none of whose ancestors is missing from the arena. */
  lemma {:induction false} AncestorsPresent(dirs: seq<DirRecord>, parent: seq<nat>, j: nat, dir: string)
    requires ParentsOk(dirs, parent) && j < |dirs|
    requires forall i :: 0 <= i < |dirs| ==> dirs[i].path != dir
    ensures !IsAncestorDir(dir, dirs[j].path)
    decreases j
  {
    AncestorStep(dir, dirs[j].path);
    if j != 0 {
      AncestorsPresent(dirs, parent, parent[j], dir);
    }
  }

  /** A path that is no directory object's holds no file and gets no counter contributions. */
  lemma AbsentHasNoCounts(dirs: seq<DirRecord>, parent: seq<nat>, added: seq<FileChange>, home: seq<nat>, dir: string)
    requires ParentsOk(dirs, parent) && HomesOk(dirs, added, home)
    requires forall i :: 0 <= i < |dirs| ==> dirs[i].path != dir
    ensures FilesIn(added, dir) == []
    ensures AsWrittenChanges(added, dir) == 0 && AsWrittenCount(added, dir) == 0
    ensures SubtreeChanges(added, dir) == 0 && SubtreeCount(added, dir) == 0
  {
    forall k | 0 <= k < |added|
      ensures DirName(added[k].path) != dir
    {
      assert dirs[home[k]].path == DirName(added[k].path);
    }
    FilesInNone(added, dir);
    forall k | 0 <= k < |added|
      ensures AsWrittenWeight(dir, added[k].path) == 0 && !IsAncestorDir(dir, added[k].path)
    {
      var p := added[k].path;
      var h := home[k];
      if '/' in p {
        assert dirs[h].path == DirName(p);
        if h != 0 {
          assert dirs[parent[h]].path != dir;
        }
        AncestorStep(dir, p);
        AncestorsPresent(dirs, parent, h, dir);
      }
    }
    AsWrittenNone(added, dir);
    SubtreeNone(added, dir);
  }

  // ----- creating a directory object (lines 175-183) -----

  /** The arena after a directory `target` is created and pushed onto the children of `cur`. */
  function AddDir(dirs: seq<DirRecord>, cur: nat, target: string): (r: seq<DirRecord>)
    requires cur < |dirs|
    ensures |r| == |dirs| + 1 && r[|dirs|] == DirRecord(target, 0, 0, [])
    ensures forall i :: 0 <= i < |dirs| ==>
      (r[i].path == dirs[i].path && r[i].totalChanges == dirs[i].totalChanges && r[i].fileCount == dirs[i].fileCount)
    ensures forall i :: 0 <= i < |dirs| && i != cur ==> r[i] == dirs[i]
    ensures r[cur].children == dirs[cur].children + [SubDir(|dirs|)]
  {
    dirs[cur := dirs[cur].(children := dirs[cur].children + [SubDir(|dirs|)])] + [DirRecord(target, 0, 0, [])]
  }

  lemma AddDirParents(dirs: seq<DirRecord>, parent: seq<nat>, cur: nat, target: string)
    requires ParentsOk(dirs, parent) && cur < |dirs|
    requires DirName(target) == dirs[cur].path && target != "." && (cur == 0 <==> '/' !in target)
    ensures ParentsOk(AddDir(dirs, cur, target), parent + [cur])
  {
    var r := AddDir(dirs, cur, target);
    var p := parent + [cur];
    forall j | 1 <= j < |r|
      ensures p[j] < j && SubDir(j) in r[p[j]].children && DirName(r[j].path) == r[p[j]].path &&
        r[j].path != "." && (p[j] == 0 <==> '/' !in r[j].path)
    {
      if j < |dirs| {
        assert SubDir(j) in dirs[parent[j]].children;
        assert p[j] == parent[j];
      } else {
        assert r[|dirs|].children == [];
        assert SubDir(j) in r[cur].children;
      }
    }
  }

  lemma AddDirChildren(dirs: seq<DirRecord>, parent: seq<nat>, cur: nat, target: string)
    requires |parent| == |dirs| && ChildrenOk(dirs, parent) && cur < |dirs|
    ensures ChildrenOk(AddDir(dirs, cur, target), parent + [cur])
  {
    var r := AddDir(dirs, cur, target);
    var p := parent + [cur];
    forall i, m | 0 <= i < |r| && 0 <= m < |r[i].children| && r[i].children[m].SubDir?
      ensures 0 < r[i].children[m].index < |r| && p[r[i].children[m].index] == i
    {
      if i == cur && m == |dirs[cur].children| {
      } else if i < |dirs| {
        assert r[i].children[m] == dirs[i].children[m];
      }
    }
  }

  lemma AddDirDistinct(dirs: seq<DirRecord>, parent: seq<nat>, cur: nat, target: string)
    requires |parent| == |dirs| && ChildrenOk(dirs, parent) && DistinctChildren(dirs) && cur < |dirs|
    ensures DistinctChildren(AddDir(dirs, cur, target))
  {
    var r := AddDir(dirs, cur, target);
    forall i, m1, m2 |
      0 <= i < |r| && 0 <= m1 < m2 < |r[i].children| && r[i].children[m1].SubDir? && r[i].children[m2].SubDir?
      ensures r[i].children[m1].index != r[i].children[m2].index
    {
      if i < |dirs| {
        assert r[i].children[m1] == dirs[i].children[m1];
        if m2 < |dirs[i].children| {
          assert r[i].children[m2] == dirs[i].children[m2];
        }
      }
    }
  }

  lemma AddDirLeaves(dirs: seq<DirRecord>, added: seq<FileChange>, cur: nat, target: string)
    requires LeavesOk(dirs, added) && cur < |dirs| && FilesIn(added, target) == []
    ensures LeavesOk(AddDir(dirs, cur, target), added)
  {
    LeavesSnocDir(dirs[cur].children, |dirs|);
  }

  lemma AddDirUnique(dirs: seq<DirRecord>, cur: nat, target: string)
    requires UniquePaths(dirs) && cur < |dirs|
    requires forall i :: 0 <= i < |dirs| ==> dirs[i].path != target
    ensures UniquePaths(AddDir(dirs, cur, target))
  {
  }

  lemma AddDirHomes(dirs: seq<DirRecord>, added: seq<FileChange>, home: seq<nat>, cur: nat, target: string)
    requires HomesOk(dirs, added, home) && cur < |dirs|
    ensures HomesOk(AddDir(dirs, cur, target), added, home)
  {
  }

  lemma AddDirCounters(dirs: seq<DirRecord>, added: seq<FileChange>, cur: nat, target: string)
    requires cur < |dirs|
    ensures CountersAsWritten(dirs, added) && AsWrittenChanges(added, target) == 0 && AsWrittenCount(added, target) == 0
      ==> CountersAsWritten(AddDir(dirs, cur, target), added)
    ensures CountersCorrected(dirs, added) && SubtreeChanges(added, target) == 0 && SubtreeCount(added, target) == 0
      ==> CountersCorrected(AddDir(dirs, cur, target), added)
  {
  }

  /** When `find` among the children of the parent comes back empty, no directory has that path. */
  lemma FindDirNone(dirs: seq<DirRecord>, parent: seq<nat>, cur: nat, target: string)
    requires ParentsOk(dirs, parent) && UniquePaths(dirs) && cur < |dirs|
    requires DirName(target) == dirs[cur].path && target != "."
    requires FindDir(dirs[cur].children, dirs, target).None?
    ensures forall j :: 0 <= j < |dirs| ==> dirs[j].path != target
  {
    var cs := dirs[cur].children;
    forall j | 0 <= j < |dirs|
      ensures dirs[j].path != target
    {
      if j != 0 && parent[j] == cur {
        var m :| 0 <= m < |cs| && cs[m] == SubDir(j);
      }
    }
  }

  /** Creating a directory whose path is new, one segment below `cur`, keeps the arena invariant and the counters. */
  lemma AddDirOk(dirs: seq<DirRecord>, parent: seq<nat>, added: seq<FileChange>, home: seq<nat>, cur: nat, target: string)
    requires ArenaOk(dirs, parent, added, home)
    requires cur < |dirs| && DirName(target) == dirs[cur].path && target != "."
    requires cur == 0 <==> '/' !in target
    requires forall i :: 0 <= i < |dirs| ==> dirs[i].path != target
    ensures ArenaOk(AddDir(dirs, cur, target), parent + [cur], added, home)
    ensures CountersAsWritten(dirs, added) ==> CountersAsWritten(AddDir(dirs, cur, target), added)
    ensures CountersCorrected(dirs, added) ==> CountersCorrected(AddDir(dirs, cur, target), added)
  {
    AbsentHasNoCounts(dirs, parent, added, home, target);
    AddDirParents(dirs, parent, cur, target);
    AddDirChildren(dirs, parent, cur, target);
    AddDirDistinct(dirs, parent, cur, target);
    AddDirLeaves(dirs, added, cur, target);
    AddDirUnique(dirs, cur, target);
    AddDirHomes(dirs, added, home, cur, target);
    AddDirCounters(dirs, added, cur, target);
  }

  // ----- pushing a file (lines 188-190) -----

  /** The arena after `file` is pushed onto the children of `cur` and counted there. */
  function PushLeaf(dirs: seq<DirRecord>, cur: nat, file: FileChange): (r: seq<DirRecord>)
    requires cur < |dirs|
    ensures |r| == |dirs|
    ensures forall i :: 0 <= i < |dirs| && i != cur ==> r[i] == dirs[i]
    ensures r[cur] == DirRecord(dirs[cur].path, dirs[cur].totalChanges + file.changes,
                                dirs[cur].fileCount + 1, dirs[cur].children + [Leaf(file)])
  {
    dirs[cur := DirRecord(dirs[cur].path, dirs[cur].totalChanges + file.changes,
                          dirs[cur].fileCount + 1, dirs[cur].children + [Leaf(file)])]
  }

  /** Pushing a file leaf leaves the directory structure as it was. */
  lemma PushLeafStructure(dirs: seq<DirRecord>, parent: seq<nat>, cur: nat, file: FileChange)
    requires ParentsOk(dirs, parent) && ChildrenOk(dirs, parent) && DistinctChildren(dirs) && UniquePaths(dirs)
    requires cur < |dirs|
    ensures var r := PushLeaf(dirs, cur, file);
      ParentsOk(r, parent) && ChildrenOk(r, parent) && DistinctChildren(r) && UniquePaths(r)
  {
    var r := PushLeaf(dirs, cur, file);
    forall j | 1 <= j < |r|
      ensures SubDir(j) in r[parent[j]].children
    {
      assert SubDir(j) in dirs[parent[j]].children;
    }
    forall i, m | 0 <= i < |r| && 0 <= m < |r[i].children| && r[i].children[m].SubDir?
      ensures 0 < r[i].children[m].index < |r| && parent[r[i].children[m].index] == i
    {
      assert r[i].children[m] == dirs[i].children[m];
    }
    forall i, m1, m2 |
      0 <= i < |r| && 0 <= m1 < m2 < |r[i].children| && r[i].children[m1].SubDir? && r[i].children[m2].SubDir?
      ensures r[i].children[m1].index != r[i].children[m2].index
    {
      assert r[i].children[m1] == dirs[i].children[m1];
      assert r[i].children[m2] == dirs[i].children[m2];
    }
  }

  /** Pushing a file into the directory its path names keeps every directory's leaves and every file's home. */
  lemma PushLeafFiles(dirs: seq<DirRecord>, added: seq<FileChange>, home: seq<nat>, cur: nat, file: FileChange)
    requires UniquePaths(dirs) && LeavesOk(dirs, added) && HomesOk(dirs, added, home)
    requires cur < |dirs| && dirs[cur].path == DirName(file.path) && WellFormed(file.path)
    ensures var r := PushLeaf(dirs, cur, file);
      LeavesOk(r, added + [file]) && HomesOk(r, added + [file], home + [cur])
  {
    var r := PushLeaf(dirs, cur, file);
    forall i | 0 <= i < |r|
      ensures Leaves(r[i].children) == FilesIn(added + [file], r[i].path)
    {
      FilesInSnoc(added, file, dirs[i].path);
      assert Leaves(dirs[i].children) == FilesIn(added, dirs[i].path);
      if i == cur {
        LeavesSnocLeaf(dirs[cur].children, file);
      } else {
        assert r[i] == dirs[i] && dirs[i].path != DirName(file.path);
      }
    }
    forall k | 0 <= k < |added| + 1
      ensures (home + [cur])[k] < |r| && r[(home + [cur])[k]].path == DirName((added + [file])[k].path)
        && WellFormed((added + [file])[k].path)
    {
      if k < |added| {
        assert home[k] < |dirs| && dirs[home[k]].path == DirName(added[k].path) && WellFormed(added[k].path);
      }
    }
  }

  /** Pushing a file into the directory its path names keeps the arena invariant. */
  lemma PushLeafOk(dirs: seq<DirRecord>, parent: seq<nat>, added: seq<FileChange>, home: seq<nat>, cur: nat, file: FileChange)
    requires ArenaOk(dirs, parent, added, home)
    requires cur < |dirs| && dirs[cur].path == DirName(file.path) && WellFormed(file.path)
    ensures ArenaOk(PushLeaf(dirs, cur, file), parent, added + [file], home + [cur])
  {
    PushLeafStructure(dirs, parent, cur, file);
    PushLeafFiles(dirs, added, home, cur, file);
  }

  /** Files appended to a history add their own contributions to each sum. */
  lemma CountsSnoc(files: seq<FileChange>, file: FileChange, dir: string)
    ensures AsWrittenChanges(files + [file], dir) == AsWrittenChanges(files, dir) + AsWrittenWeight(dir, file.path) * file.changes
    ensures AsWrittenCount(files + [file], dir) == AsWrittenCount(files, dir) + AsWrittenWeight(dir, file.path)
    ensures SubtreeChanges(files + [file], dir) == SubtreeChanges(files, dir) + if IsAncestorDir(dir, file.path) then file.changes else 0
    ensures SubtreeCount(files + [file], dir) == SubtreeCount(files, dir) + if IsAncestorDir(dir, file.path) then 1 else 0
  {
    assert (files + [file])[..|files|] == files;
  }

  /** Two arenas with the same directories and children, whatever their counters. */
  ghost predicate SameShape(a: seq<DirRecord>, b: seq<DirRecord>)
  {
    |a| == |b| && forall j :: 0 <= j < |a| ==> a[j].path == b[j].path && a[j].children == b[j].children
  }

  lemma SameShapeOk(a: seq<DirRecord>, b: seq<DirRecord>, parent: seq<nat>, added: seq<FileChange>, home: seq<nat>)
    requires SameShape(a, b) && ArenaOk(a, parent, added, home)
    ensures ArenaOk(b, parent, added, home)
  {
    forall j | 1 <= j < |b|
      ensures SubDir(j) in b[parent[j]].children
    {
      assert SubDir(j) in a[parent[j]].children;
    }
    forall i | 0 <= i < |b|
      ensures Leaves(b[i].children) == FilesIn(added, b[i].path)
    {
      assert Leaves(a[i].children) == FilesIn(added, a[i].path);
    }
    forall k | 0 <= k < |added|
      ensures home[k] < |b| && b[home[k]].path == DirName(added[k].path)
    {
      assert a[home[k]].path == DirName(added[k].path);
    }
  }

  // ----- the ancestor walk as written (lines 192-200) -----

  /** A directory found among the root's children is a top-level one: its path has no `/`. */
  lemma FoundIsTopLevel(dirs: seq<DirRecord>, parent: seq<nat>, path: string)
    requires ParentsOk(dirs, parent) && ChildrenOk(dirs, parent)
    ensures FindDir(dirs[0].children, dirs, path).Some? ==>
      var t := FindDir(dirs[0].children, dirs, path).value;
      0 < t && '/' !in path && path != "."
  {
    var r := FindDir(dirs[0].children, dirs, path);
    if r.Some? {
      var m :| 0 <= m < |dirs[0].children| && dirs[0].children[m] == SubDir(r.value);
      assert parent[r.value] == 0;
    }
  }

  /** A top-level directory is found among the root's children by its path. */
  lemma TopLevelFound(dirs: seq<DirRecord>, parent: seq<nat>, q: nat)
    requires ParentsOk(dirs, parent) && ChildrenOk(dirs, parent) && UniquePaths(dirs)
    requires 1 <= q < |dirs| && parent[q] == 0
    ensures FindDir(dirs[0].children, dirs, dirs[q].path) == Some(q)
  {
    var cs := dirs[0].children;
    var m :| 0 <= m < |cs| && cs[m] == SubDir(q);
    assert dirs[cs[m].index].path == dirs[q].path;
    var t := FindDir(cs, dirs, dirs[q].path).value;
    assert dirs[t].path == dirs[q].path;
  }

  /** The next `parent` of the loop: the root child named by the directory part, or the root. */
  function UpAsWritten(dirs: seq<DirRecord>, par: nat): (r: nat)
    requires par < |dirs|
    ensures r < |dirs|
  {
    match FindDir(dirs[0].children, dirs, DirName(dirs[par].path))
    case Some(t) => t
    case None => 0
  }

  /** 2 for a directory with `/`, 1 for a top-level one, 0 for the root: the loop's measure. */
  function RankAsWritten(dirs: seq<DirRecord>, par: nat): nat
    requires par < |dirs|
  {
    if par == 0 then 0 else if '/' in dirs[par].path then 2 else 1
  }

  lemma UpAsWrittenDecreases(dirs: seq<DirRecord>, parent: seq<nat>, par: nat)
    requires ParentsOk(dirs, parent) && ChildrenOk(dirs, parent) && 0 < par < |dirs|
    ensures RankAsWritten(dirs, UpAsWritten(dirs, par)) < RankAsWritten(dirs, par)
  {
    FoundIsTopLevel(dirs, parent, DirName(dirs[par].path));
  }

  /** How many more times the loop, now at `par`, adds the file to directory `j`. */
  function WalkAsWritten(dirs: seq<DirRecord>, parent: seq<nat>, j: nat, par: nat, amount: int): int
    requires ParentsOk(dirs, parent) && ChildrenOk(dirs, parent) && par < |dirs|
    decreases RankAsWritten(dirs, par)
  {
    if par == 0 then 0
    else
      UpAsWrittenDecreases(dirs, parent, par);
      (if j == par then amount else 0) + WalkAsWritten(dirs, parent, j, UpAsWritten(dirs, par), amount)
  }

  /** A walk whose next step is the root adds to its starting directory only. */
  lemma WalkOnce(dirs: seq<DirRecord>, parent: seq<nat>, j: nat, cur: nat, amount: int)
    requires ParentsOk(dirs, parent) && ChildrenOk(dirs, parent) && 0 < cur < |dirs|
    requires UpAsWritten(dirs, cur) == 0
    ensures WalkAsWritten(dirs, parent, j, cur, amount) == if j == cur then amount else 0
  {
  }

  /** A walk that makes one step to `q` before the root adds to `cur` and to `q`. */
  lemma WalkTwice(dirs: seq<DirRecord>, parent: seq<nat>, j: nat, cur: nat, q: nat, amount: int)
    requires ParentsOk(dirs, parent) && ChildrenOk(dirs, parent) && 0 < cur < |dirs| && 0 < q < |dirs|
    requires UpAsWritten(dirs, cur) == q && UpAsWritten(dirs, q) == 0
    ensures WalkAsWritten(dirs, parent, j, cur, amount) == (if j == cur then amount else 0) + (if j == q then amount else 0)
  {
    UpAsWrittenDecreases(dirs, parent, cur);
    WalkOnce(dirs, parent, j, q, amount);
  }

  /** The push and the walk together add a file to each directory as often as `AsWrittenWeight` says. */
  lemma WalkAsWrittenWeight(dirs: seq<DirRecord>, parent: seq<nat>, added: seq<FileChange>, home: seq<nat>,
                            cur: nat, p: string, j: nat, amount: int)
    requires ArenaOk(dirs, parent, added, home)
    requires cur < |dirs| && dirs[cur].path == DirName(p) && WellFormed(p) && 1 <= j < |dirs|
    ensures (if j == cur then amount else 0) + WalkAsWritten(dirs, parent, j, cur, amount) == AsWrittenWeight(dirs[j].path, p) * amount
  {
    var d := DirName(p);
    WellFormedDirName(p);
    if cur != 0 {
      assert dirs[j].path == d <==> j == cur;
      var t := DirName(d);
      FoundIsTopLevel(dirs, parent, t);
      if '/' in d && '/' !in t {
        var q := parent[cur];
        assert q != 0 && dirs[q].path == t;
        TopLevelFound(dirs, parent, q);
        FoundIsTopLevel(dirs, parent, DirName(t));
        WalkTwice(dirs, parent, j, cur, q, amount);
        assert j == q <==> dirs[j].path == t;
        assert AsWrittenWeight(dirs[j].path, p) == (if j == cur then 2 else 0) + (if j == q then 1 else 0);
        WeightTimes(j == cur, j == q, amount);
      } else {
        WalkOnce(dirs, parent, j, cur, amount);
        assert AsWrittenWeight(dirs[j].path, p) == if j == cur then 2 else 0;
        WeightTimes(j == cur, false, amount);
      }
    }
  }

  lemma WeightTimes(twice: bool, once: bool, amount: int)
    ensures ((if twice then 2 else 0) + (if once then 1 else 0)) * amount ==
      (if twice then amount else 0) + (if twice then amount else 0) + (if once then amount else 0)
  {
  }


  /** `find` reads only the paths of the directories. */
  lemma {:induction false} FindDirSameShape(cs: seq<Child>, a: seq<DirRecord>, b: seq<DirRecord>, path: string)
    requires SameShape(a, b)
    ensures FindDir(cs, a, path) == FindDir(cs, b, path)
  {
    if |cs| > 0 {
      FindDirSameShape(cs[1..], a, b, path);
    }
  }

  // ----- the corrected ancestor walk -----

  /** The lookup reads only the paths of the directories. */
  lemma {:induction false} FindByPathSameShape(a: seq<DirRecord>, b: seq<DirRecord>, path: string, from: nat)
    requires SameShape(a, b)
    ensures FindByPath(a, path, from) == FindByPath(b, path, from)
    decreases |a| - from
  {
    if from < |a| {
      FindByPathSameShape(a, b, path, from + 1);
    }
  }

  /** The next directory up: the directory object whose path is the directory part, or the root. */
  function UpCorrected(dirs: seq<DirRecord>, par: nat): (r: nat)
    requires par < |dirs|
    ensures r < |dirs|
  {
    match FindByPath(dirs, DirName(dirs[par].path), 1)
    case Some(t) => t
    case None => 0
  }

  /** The corrected loop's measure: the length of the path, and 0 at the root. */
  function RankCorrected(dirs: seq<DirRecord>, par: nat): nat
    requires par < |dirs|
  {
    if par == 0 then 0 else |dirs[par].path| + 1
  }

  lemma UpCorrectedDecreases(dirs: seq<DirRecord>, parent: seq<nat>, par: nat)
    requires ParentsOk(dirs, parent) && 0 < par < |dirs|
    ensures RankCorrected(dirs, UpCorrected(dirs, par)) < RankCorrected(dirs, par)
  {
    forall j | 1 <= j < |dirs|
      ensures dirs[j].path != "."
    {
      assert parent[j] < j;
    }
  }

  /** How many more times the corrected loop, now at `par`, adds the file to directory `j`. */
  function WalkCorrected(dirs: seq<DirRecord>, parent: seq<nat>, j: nat, par: nat, amount: int): int
    requires ParentsOk(dirs, parent) && par < |dirs|
    decreases RankCorrected(dirs, par)
  {
    if par == 0 then 0
    else
      UpCorrectedDecreases(dirs, parent, par);
      (if j == par then amount else 0) + WalkCorrected(dirs, parent, j, UpCorrected(dirs, par), amount)
  }

  /** From a directory, the corrected walk visits exactly that directory and those above it. */
  lemma {:induction false} WalkCorrectedAncestors(dirs: seq<DirRecord>, parent: seq<nat>, j: nat, par: nat, amount: int)
    requires ParentsOk(dirs, parent) && UniquePaths(dirs)
    requires 1 <= j < |dirs| && 1 <= par < |dirs|
    ensures WalkCorrected(dirs, parent, j, par, amount) ==
      if dirs[j].path == dirs[par].path || IsAncestorDir(dirs[j].path, dirs[par].path) then amount else 0
    decreases par
  {
    var pj := dirs[j].path;
    var q := dirs[par].path;
    AncestorStep(pj, q);
    UpCorrectedDecreases(dirs, parent, par);
    if '/' in q {
      var pp := parent[par];
      assert pp != 0 && dirs[pp].path == DirName(q);
      var v := FindByPath(dirs, DirName(q), 1).value;
      assert dirs[v].path == dirs[pp].path;
      assert UpCorrected(dirs, par) == pp;
      WalkCorrectedAncestors(dirs, parent, j, pp, amount);
    } else {
      assert UpCorrected(dirs, par) == 0;
    }
  }

  /** The push and the corrected walk add a file to exactly the directories it lies under. */
  lemma WalkCorrectedWeight(dirs: seq<DirRecord>, parent: seq<nat>, added: seq<FileChange>, home: seq<nat>,
                            cur: nat, p: string, j: nat, amount: int)
    requires ArenaOk(dirs, parent, added, home)
    requires cur < |dirs| && dirs[cur].path == DirName(p) && WellFormed(p) && 1 <= j < |dirs|
    ensures (if j == cur then amount else 0) + WalkCorrected(dirs, parent, j, UpCorrected(dirs, cur), amount) ==
      if IsAncestorDir(dirs[j].path, p) then amount else 0
  {
    WellFormedDirName(p);
    AncestorStep(dirs[j].path, p);
    UpCorrectedDecreases(dirs, parent, j);
    if cur != 0 {
      WalkCorrectedAncestors(dirs, parent, j, cur, amount);
    } else {
      assert UpCorrected(dirs, cur) == 0;
    }
  }

  /** Pushing a file and walking up as written leaves the as-written counters for the longer history. */
  lemma AsWrittenAfterClimb(d0: seq<DirRecord>, parent: seq<nat>, before: seq<FileChange>, home: seq<nat>,
                            cur: nat, file: FileChange, shape: seq<DirRecord>, final: seq<DirRecord>)
    requires ArenaOk(d0, parent, before, home) && CountersAsWritten(d0, before)
    requires cur < |d0| && d0[cur].path == DirName(file.path) && WellFormed(file.path)
    requires shape == PushLeaf(d0, cur, file) && ArenaOk(shape, parent, before + [file], home + [cur])
    requires SameShape(shape, final)
    requires forall j :: 1 <= j < |final| ==>
      final[j].totalChanges == shape[j].totalChanges + WalkAsWritten(shape, parent, j, cur, file.changes) &&
      final[j].fileCount == shape[j].fileCount + WalkAsWritten(shape, parent, j, cur, 1)
    ensures CountersAsWritten(final, before + [file])
  {
    forall j | 1 <= j < |final|
      ensures final[j].totalChanges == AsWrittenChanges(before + [file], final[j].path)
      ensures final[j].fileCount == AsWrittenCount(before + [file], final[j].path)
    {
      AsWrittenAt(d0, parent, before, home, cur, file, shape, j, final[j].totalChanges, final[j].fileCount);
    }
  }

  /** Directory `j` after the push and the walk. */
  lemma AsWrittenAt(d0: seq<DirRecord>, parent: seq<nat>, before: seq<FileChange>, home: seq<nat>,
                   cur: nat, file: FileChange, shape: seq<DirRecord>, j: nat, total: int, count: int)
    requires ArenaOk(d0, parent, before, home) && CountersAsWritten(d0, before)
    requires cur < |d0| && d0[cur].path == DirName(file.path) && WellFormed(file.path)
    requires shape == PushLeaf(d0, cur, file) && ArenaOk(shape, parent, before + [file], home + [cur])
    requires 1 <= j < |shape|
    requires total == shape[j].totalChanges + WalkAsWritten(shape, parent, j, cur, file.changes)
    requires count == shape[j].fileCount + WalkAsWritten(shape, parent, j, cur, 1)
    ensures total == AsWrittenChanges(before + [file], shape[j].path) && count == AsWrittenCount(before + [file], shape[j].path)
  {
    WalkAsWrittenWeight(shape, parent, before + [file], home + [cur], cur, file.path, j, file.changes);
    WalkAsWrittenWeight(shape, parent, before + [file], home + [cur], cur, file.path, j, 1);
    CountsSnoc(before, file, d0[j].path);
    assert d0[j].totalChanges == AsWrittenChanges(before, d0[j].path) && d0[j].fileCount == AsWrittenCount(before, d0[j].path);
  }

  /** Pushing a file and walking up the corrected way leaves the subtree counters for the longer history. */
  lemma CorrectedAfterClimb(d0: seq<DirRecord>, parent: seq<nat>, before: seq<FileChange>, home: seq<nat>,
                            cur: nat, file: FileChange, shape: seq<DirRecord>, final: seq<DirRecord>)
    requires ArenaOk(d0, parent, before, home) && CountersCorrected(d0, before)
    requires cur < |d0| && d0[cur].path == DirName(file.path) && WellFormed(file.path)
    requires shape == PushLeaf(d0, cur, file) && ArenaOk(shape, parent, before + [file], home + [cur])
    requires SameShape(shape, final)
    requires forall j :: 1 <= j < |final| ==>
      final[j].totalChanges == shape[j].totalChanges + WalkCorrected(shape, parent, j, UpCorrected(shape, cur), file.changes) &&
      final[j].fileCount == shape[j].fileCount + WalkCorrected(shape, parent, j, UpCorrected(shape, cur), 1)
    ensures CountersCorrected(final, before + [file])
  {
    forall j | 1 <= j < |final|
      ensures final[j].totalChanges == SubtreeChanges(before + [file], final[j].path)
      ensures final[j].fileCount == SubtreeCount(before + [file], final[j].path)
    {
      CorrectedAt(d0, parent, before, home, cur, file, shape, j, final[j].totalChanges, final[j].fileCount);
    }
  }

  /** Directory `j` after the push and the walk. */
  lemma CorrectedAt(d0: seq<DirRecord>, parent: seq<nat>, before: seq<FileChange>, home: seq<nat>,
                   cur: nat, file: FileChange, shape: seq<DirRecord>, j: nat, total: int, count: int)
    requires CountersCorrected(d0, before)
    requires cur < |d0| && d0[cur].path == DirName(file.path) && WellFormed(file.path)
    requires shape == PushLeaf(d0, cur, file) && ArenaOk(shape, parent, before + [file], home + [cur])
    requires 1 <= j < |shape|
    requires total == shape[j].totalChanges + WalkCorrected(shape, parent, j, UpCorrected(shape, cur), file.changes)
    requires count == shape[j].fileCount + WalkCorrected(shape, parent, j, UpCorrected(shape, cur), 1)
    ensures total == SubtreeChanges(before + [file], shape[j].path) && count == SubtreeCount(before + [file], shape[j].path)
  {
    WalkCorrectedWeight(shape, parent, before + [file], home + [cur], cur, file.path, j, file.changes);
    WalkCorrectedWeight(shape, parent, before + [file], home + [cur], cur, file.path, j, 1);
    CountsSnoc(before, file, d0[j].path);
    assert d0[j].totalChanges == SubtreeChanges(before, d0[j].path) && d0[j].fileCount == SubtreeCount(before, d0[j].path);
  }

  // ----- reading the arena back as a tree -----

  /** Every directory child comes later in the arena than its directory. */
  ghost predicate Ordered(dirs: seq<DirRecord>)
  {
    forall i, m :: 0 <= i < |dirs| && 0 <= m < |dirs[i].children| && dirs[i].children[m].SubDir? ==>
      i < dirs[i].children[m].index < |dirs|
  }

  lemma OrderedOk(dirs: seq<DirRecord>, parent: seq<nat>)
    requires ParentsOk(dirs, parent) && ChildrenOk(dirs, parent)
    ensures Ordered(dirs)
  {
    forall i, m | 0 <= i < |dirs| && 0 <= m < |dirs[i].children| && dirs[i].children[m].SubDir?
      ensures i < dirs[i].children[m].index < |dirs|
    {
      var k := dirs[i].children[m].index;
      assert parent[k] == i;
    }
  }

  /** The directory object `i` as a `Node` value, with everything reachable from it. */
  function NodeOf(dirs: seq<DirRecord>, i: nat): Node
    requires Ordered(dirs) && i < |dirs|
    decreases |dirs| - i, 1
  {
    Dir(dirs[i].path, dirs[i].totalChanges, dirs[i].fileCount, ChildNodes(dirs, i))
  }

  /** The children of directory object `i` as `Node` values. */
  function ChildNodes(dirs: seq<DirRecord>, i: nat): (ns: seq<Node>)
    requires Ordered(dirs) && i < |dirs|
    ensures |ns| == |dirs[i].children|
    decreases |dirs| - i, 0
  {
    var cs := dirs[i].children;
    seq(|cs|, m requires 0 <= m < |cs| =>
      match cs[m]
      case SubDir(k) => NodeOf(dirs, k)
      case Leaf(f) => File(f))
  }

  /** The directory nodes of a tree, in pre-order. */
  function Dirs(n: Node): (r: seq<Node>)
    ensures forall x :: x in r ==> x.Dir?
    decreases n, 1
  {
    if n.File? then [] else [n] + DirsIn(n.children)
  }

  /** The directory nodes of a list of trees, in pre-order. */
  function DirsIn(ns: seq<Node>): (r: seq<Node>)
    ensures forall x :: x in r ==> x.Dir?
    decreases ns, 0
  {
    if |ns| == 0 then [] else Dirs(ns[0]) + DirsIn(ns[1..])
  }

  /** The file leaves among a directory's children, in order. */
  function FileLeaves(ns: seq<Node>): seq<FileChange>
  {
    if |ns| == 0 then []
    else FileLeaves(ns[..|ns| - 1]) + if ns[|ns| - 1].File? then [ns[|ns| - 1].file] else []
  }

  lemma {:induction false} DirsInMember(ns: seq<Node>, x: Node) returns (m: nat)
    requires x in DirsIn(ns)
    ensures m < |ns| && x in Dirs(ns[m])
  {
    if x in Dirs(ns[0]) {
      m := 0;
    } else {
      var m' := DirsInMember(ns[1..], x);
      m := m' + 1;
    }
  }

  lemma {:induction false} DirsInContains(ns: seq<Node>, m: nat)
    requires m < |ns|
    ensures forall x :: x in Dirs(ns[m]) ==> x in DirsIn(ns)
  {
    if m > 0 {
      DirsInContains(ns[1..], m - 1);
    }
  }

  /** A directory's own directories are among those of any tree it lies in. */
  lemma {:induction false} DirsTransitive(z: Node, y: Node)
    requires y in Dirs(z)
    ensures forall x :: x in Dirs(y) ==> x in Dirs(z)
    decreases z
  {
    if y != z {
      var m := DirsInMember(z.children, y);
      DirsTransitive(z.children[m], y);
      DirsInContains(z.children, m);
    }
  }

  /** Every directory node read back is the node of some directory object at or after `i`. */
  lemma {:induction false} DirsOfNodeOf(dirs: seq<DirRecord>, i: nat, x: Node) returns (j: nat)
    requires Ordered(dirs) && i < |dirs| && x in Dirs(NodeOf(dirs, i))
    ensures i <= j < |dirs| && x == NodeOf(dirs, j)
    decreases |dirs| - i
  {
    if x == NodeOf(dirs, i) {
      j := i;
    } else {
      var ns := ChildNodes(dirs, i);
      var m := DirsInMember(ns, x);
      assert dirs[i].children[m].SubDir?;
      j := DirsOfNodeOf(dirs, dirs[i].children[m].index, x);
    }
  }

  /** Every directory object's node is among the directory nodes of the root's. */
  lemma {:induction false} NodeOfInDirs(dirs: seq<DirRecord>, parent: seq<nat>, j: nat)
    requires ParentsOk(dirs, parent) && ChildrenOk(dirs, parent) && j < |dirs|
    ensures Ordered(dirs) && NodeOf(dirs, j) in Dirs(NodeOf(dirs, 0))
    decreases j
  {
    OrderedOk(dirs, parent);
    if j != 0 {
      var p := parent[j];
      NodeOfInDirs(dirs, parent, p);
      var cs := dirs[p].children;
      var m :| 0 <= m < |cs| && cs[m] == SubDir(j);
      var ns := ChildNodes(dirs, p);
      assert ns[m] == NodeOf(dirs, j);
      DirsInContains(ns, m);
      assert NodeOf(dirs, j) in Dirs(NodeOf(dirs, p));
      DirsTransitive(NodeOf(dirs, 0), NodeOf(dirs, p));
    }
  }

  /** The file leaves of the nodes are the files of the children they were read from. */
  lemma {:induction false} FileLeavesOf(dirs: seq<DirRecord>, cs: seq<Child>, ns: seq<Node>)
    requires |ns| == |cs|
    requires forall m :: 0 <= m < |cs| ==> (ns[m].File? <==> cs[m].Leaf?) && (cs[m].Leaf? ==> ns[m].file == cs[m].file)
    ensures FileLeaves(ns) == Leaves(cs)
  {
    if |cs| > 0 {
      FileLeavesOf(dirs, cs[..|cs| - 1], ns[..|ns| - 1]);
    }
  }

  // ----- what the finished tree satisfies -----

  /** Each directory's file leaves are the input files whose directory part is its path, in input order. */
  predicate LeavesMatch(root: Node, files: seq<FileChange>)
  {
    forall d :: d in Dirs(root) ==> FileLeaves(d.children) == FilesIn(files, d.path)
  }

  /** The paths of the directories of a tree, in pre-order. */
  function DirPaths(root: Node): (ps: seq<string>)
    ensures |ps| == |Dirs(root)|
  {
    var ds := Dirs(root);
    seq(|ds|, i requires 0 <= i < |ds| => ds[i].path)
  }

  /** The directory of every input file is a directory of the tree. */
  predicate DirectoriesPresent(root: Node, files: seq<FileChange>)
  {
    forall k :: 0 <= k < |files| ==> DirName(files[k].path) in DirPaths(root)
  }

  /** Every directory but the root lies above some file: no directory is empty. */
  predicate DirectoriesOccupied(root: Node, files: seq<FileChange>)
  {
    forall d :: d in Dirs(root) && d.path != "." ==> HasFileUnder(d.path, files)
  }

  /** No two different directories of the tree share a path. */
  predicate PathsIdentify(root: Node)
  {
    forall d1, d2 :: d1 in Dirs(root) && d2 in Dirs(root) && d1.path == d2.path ==> d1 == d2
  }

  /** A directory child extends its parent's path by one segment. */
  predicate ChildrenExtend(root: Node)
  {
    forall d, m :: d in Dirs(root) && 0 <= m < |d.children| && d.children[m].Dir? ==>
      DirName(d.children[m].path) == d.path && d.children[m].path != "."
  }

  /** No directory lists two directory children with the same path. */
  predicate SiblingsDistinct(root: Node)
  {
    forall d, m1, m2 ::
      (d in Dirs(root) && 0 <= m1 < m2 < |d.children| && d.children[m1].Dir? && d.children[m2].Dir?) ==>
      d.children[m1].path != d.children[m2].path
  }

  /** The counters of every non-root directory, as lines 188-200 leave them. */
  predicate AsWrittenCounts(root: Node, files: seq<FileChange>)
  {
    forall d :: d in Dirs(root) && d.path != "." ==>
      d.totalChanges == AsWrittenChanges(files, d.path) && d.fileCount == AsWrittenCount(files, d.path)
  }

  /** The counters of every non-root directory: the changes and the number of the files under it. */
  predicate SubtreeCounts(root: Node, files: seq<FileChange>)
  {
    forall d :: d in Dirs(root) && d.path != "." ==>
      d.totalChanges == SubtreeChanges(files, d.path) && d.fileCount == SubtreeCount(files, d.path)
  }

  /** Child `m` read back: the node of its directory object, or its file. */
  lemma ChildNodeAt(dirs: seq<DirRecord>, i: nat, m: nat)
    requires Ordered(dirs) && i < |dirs| && m < |dirs[i].children|
    ensures dirs[i].children[m].SubDir? ==> ChildNodes(dirs, i)[m] == NodeOf(dirs, dirs[i].children[m].index)
    ensures dirs[i].children[m].Leaf? ==> ChildNodes(dirs, i)[m] == File(dirs[i].children[m].file)
  {
  }

  /** The children read back keep each file leaf in place. */
  lemma ChildNodesLeaves(dirs: seq<DirRecord>, i: nat)
    requires Ordered(dirs) && i < |dirs|
    ensures FileLeaves(ChildNodes(dirs, i)) == Leaves(dirs[i].children)
  {
    var cs := dirs[i].children;
    var ns := ChildNodes(dirs, i);
    forall m | 0 <= m < |cs|
      ensures (ns[m].File? <==> cs[m].Leaf?) && (cs[m].Leaf? ==> ns[m].file == cs[m].file)
    {
      ChildNodeAt(dirs, i, m);
    }
    FileLeavesOf(dirs, cs, ns);
  }

  lemma LeavesMatchOk(dirs: seq<DirRecord>, parent: seq<nat>, files: seq<FileChange>, home: seq<nat>)
    requires ArenaOk(dirs, parent, files, home) && Ordered(dirs)
    ensures LeavesMatch(NodeOf(dirs, 0), files)
  {
    forall d | d in Dirs(NodeOf(dirs, 0))
      ensures FileLeaves(d.children) == FilesIn(files, d.path)
    {
      var j := DirsOfNodeOf(dirs, 0, d);
      ChildNodesLeaves(dirs, j);
    }
  }

  lemma DirectoriesPresentOk(dirs: seq<DirRecord>, parent: seq<nat>, files: seq<FileChange>, home: seq<nat>)
    requires ArenaOk(dirs, parent, files, home) && Ordered(dirs)
    ensures DirectoriesPresent(NodeOf(dirs, 0), files)
  {
    var root := NodeOf(dirs, 0);
    forall k | 0 <= k < |files|
      ensures DirName(files[k].path) in DirPaths(root)
    {
      NodeOfInDirs(dirs, parent, home[k]);
      var ds := Dirs(root);
      var i :| 0 <= i < |ds| && ds[i] == NodeOf(dirs, home[k]);
      assert DirPaths(root)[i] == DirName(files[k].path);
    }
  }

  lemma PathsIdentifyOk(dirs: seq<DirRecord>, parent: seq<nat>, files: seq<FileChange>, home: seq<nat>)
    requires ArenaOk(dirs, parent, files, home) && Ordered(dirs)
    ensures PathsIdentify(NodeOf(dirs, 0))
  {
    var root := NodeOf(dirs, 0);
    forall d1, d2 | d1 in Dirs(root) && d2 in Dirs(root) && d1.path == d2.path
      ensures d1 == d2
    {
      var j1 := DirsOfNodeOf(dirs, 0, d1);
      var j2 := DirsOfNodeOf(dirs, 0, d2);
    }
  }

  lemma ChildrenExtendOk(dirs: seq<DirRecord>, parent: seq<nat>, files: seq<FileChange>, home: seq<nat>)
    requires ArenaOk(dirs, parent, files, home) && Ordered(dirs)
    ensures ChildrenExtend(NodeOf(dirs, 0))
  {
    forall d, m | d in Dirs(NodeOf(dirs, 0)) && 0 <= m < |d.children| && d.children[m].Dir?
      ensures DirName(d.children[m].path) == d.path && d.children[m].path != "."
    {
      var j := DirsOfNodeOf(dirs, 0, d);
      var k := dirs[j].children[m].index;
      ChildNodeAt(dirs, j, m);
      assert parent[k] == j;
    }
  }

  lemma SiblingsDistinctOk(dirs: seq<DirRecord>, parent: seq<nat>, files: seq<FileChange>, home: seq<nat>)
    requires ArenaOk(dirs, parent, files, home) && Ordered(dirs)
    ensures SiblingsDistinct(NodeOf(dirs, 0))
  {
    forall d, m1, m2 |
      d in Dirs(NodeOf(dirs, 0)) && 0 <= m1 < m2 < |d.children| && d.children[m1].Dir? && d.children[m2].Dir?
      ensures d.children[m1].path != d.children[m2].path
    {
      var j := DirsOfNodeOf(dirs, 0, d);
      ChildNodeAt(dirs, j, m1);
      ChildNodeAt(dirs, j, m2);
      var k1, k2 := dirs[j].children[m1].index, dirs[j].children[m2].index;
      assert k1 != k2;
    }
  }

  /** The tree read back from a valid arena has the shape buildDirectoryTree promises. */
  lemma TreeFacts(dirs: seq<DirRecord>, parent: seq<nat>, files: seq<FileChange>, home: seq<nat>)
    requires ArenaOk(dirs, parent, files, home)
    ensures Ordered(dirs)
    ensures LeavesMatch(NodeOf(dirs, 0), files) && DirectoriesPresent(NodeOf(dirs, 0), files)
    ensures PathsIdentify(NodeOf(dirs, 0)) && ChildrenExtend(NodeOf(dirs, 0)) && SiblingsDistinct(NodeOf(dirs, 0))
    ensures Occupied(dirs, files) ==> DirectoriesOccupied(NodeOf(dirs, 0), files)
  {
    if Occupied(dirs, files) {
      OccupiedTree(dirs, parent, files, home);
    }
    OrderedOk(dirs, parent);
    LeavesMatchOk(dirs, parent, files, home);
    DirectoriesPresentOk(dirs, parent, files, home);
    PathsIdentifyOk(dirs, parent, files, home);
    ChildrenExtendOk(dirs, parent, files, home);
    SiblingsDistinctOk(dirs, parent, files, home);
  }

  lemma AsWrittenTreeCounts(dirs: seq<DirRecord>, parent: seq<nat>, files: seq<FileChange>, home: seq<nat>)
    requires ArenaOk(dirs, parent, files, home) && CountersAsWritten(dirs, files)
    ensures Ordered(dirs) && AsWrittenCounts(NodeOf(dirs, 0), files)
  {
    OrderedOk(dirs, parent);
    forall d | d in Dirs(NodeOf(dirs, 0)) && d.path != "."
      ensures d.totalChanges == AsWrittenChanges(files, d.path) && d.fileCount == AsWrittenCount(files, d.path)
    {
      var j := DirsOfNodeOf(dirs, 0, d);
    }
  }

  lemma SubtreeTreeCounts(dirs: seq<DirRecord>, parent: seq<nat>, files: seq<FileChange>, home: seq<nat>)
    requires ArenaOk(dirs, parent, files, home) && CountersCorrected(dirs, files)
    ensures Ordered(dirs) && SubtreeCounts(NodeOf(dirs, 0), files)
  {
    OrderedOk(dirs, parent);
    forall d | d in Dirs(NodeOf(dirs, 0)) && d.path != "."
      ensures d.totalChanges == SubtreeChanges(files, d.path) && d.fileCount == SubtreeCount(files, d.path)
    {
      var j := DirsOfNodeOf(dirs, 0, d);
    }
  }

  /** Read back as a tree, an occupied arena has no empty directory. */
  lemma OccupiedTree(dirs: seq<DirRecord>, parent: seq<nat>, files: seq<FileChange>, home: seq<nat>)
    requires ArenaOk(dirs, parent, files, home) && Occupied(dirs, files)
    ensures Ordered(dirs) && DirectoriesOccupied(NodeOf(dirs, 0), files)
  {
    OrderedOk(dirs, parent);
    forall d | d in Dirs(NodeOf(dirs, 0)) && d.path != "."
      ensures HasFileUnder(d.path, files)
    {
      var j := DirsOfNodeOf(dirs, 0, d);
    }
  }

  lemma SetRootOk(dirs: seq<DirRecord>, parent: seq<nat>, added: seq<FileChange>, home: seq<nat>, total: int, count: int)
    requires ArenaOk(dirs, parent, added, home)
    ensures SameShape(dirs, dirs[0 := dirs[0].(totalChanges := total, fileCount := count)])
    ensures ArenaOk(dirs[0 := dirs[0].(totalChanges := total, fileCount := count)], parent, added, home)
  {
    SameShapeOk(dirs, dirs[0 := dirs[0].(totalChanges := total, fileCount := count)], parent, added, home);
  }

  // ----- one step of the walk up -----

  /** Directory `up` after one more file with `changes` changes is counted in it. */
  function Bump(dirs: seq<DirRecord>, up: nat, changes: int): (r: seq<DirRecord>)
    requires up < |dirs|
    ensures SameShape(dirs, r)
    ensures r[up].totalChanges == dirs[up].totalChanges + changes && r[up].fileCount == dirs[up].fileCount + 1
    ensures forall j :: 0 <= j < |dirs| && j != up ==> r[j] == dirs[j]
  {
    dirs[up := dirs[up].(totalChanges := dirs[up].totalChanges + changes, fileCount := dirs[up].fileCount + 1)]
  }

  /** The as-written walk from `start`, now at `up`: what is left to add plus what was added is the whole walk. */
  ghost predicate AsWrittenProgress(shape: seq<DirRecord>, parent: seq<nat>, dirs: seq<DirRecord>, up: nat, start: nat, changes: int)
    requires ParentsOk(shape, parent) && ChildrenOk(shape, parent) && |dirs| == |shape| && up < |shape| && start < |shape|
  {
    forall j {:trigger dirs[j]} :: 1 <= j < |dirs| ==>
      dirs[j].totalChanges + WalkAsWritten(shape, parent, j, up, changes) ==
        shape[j].totalChanges + WalkAsWritten(shape, parent, j, start, changes) &&
      dirs[j].fileCount + WalkAsWritten(shape, parent, j, up, 1) ==
        shape[j].fileCount + WalkAsWritten(shape, parent, j, start, 1)
  }

  lemma AsWrittenStep(shape: seq<DirRecord>, parent: seq<nat>, dirs: seq<DirRecord>, up: nat, start: nat, changes: int)
    requires ParentsOk(shape, parent) && ChildrenOk(shape, parent) && SameShape(shape, dirs)
    requires 0 < up < |shape| && start < |shape|
    requires AsWrittenProgress(shape, parent, dirs, up, start, changes)
    ensures AsWrittenProgress(shape, parent, Bump(dirs, up, changes), UpAsWritten(shape, up), start, changes)
  {
    UpAsWrittenDecreases(shape, parent, up);
  }

  /** The corrected walk from `start`, now at `up`: what is left to add plus what was added is the whole walk. */
  ghost predicate CorrectedProgress(shape: seq<DirRecord>, parent: seq<nat>, dirs: seq<DirRecord>, up: nat, start: nat, changes: int)
    requires ParentsOk(shape, parent) && |dirs| == |shape| && up < |shape| && start < |shape|
  {
    forall j {:trigger dirs[j]} :: 1 <= j < |dirs| ==>
      dirs[j].totalChanges + WalkCorrected(shape, parent, j, up, changes) ==
        shape[j].totalChanges + WalkCorrected(shape, parent, j, start, changes) &&
      dirs[j].fileCount + WalkCorrected(shape, parent, j, up, 1) ==
        shape[j].fileCount + WalkCorrected(shape, parent, j, start, 1)
  }

  lemma CorrectedStep(shape: seq<DirRecord>, parent: seq<nat>, dirs: seq<DirRecord>, up: nat, start: nat, changes: int)
    requires ParentsOk(shape, parent) && SameShape(shape, dirs)
    requires 0 < up < |shape| && start < |shape|
    requires CorrectedProgress(shape, parent, dirs, up, start, changes)
    ensures CorrectedProgress(shape, parent, Bump(dirs, up, changes), UpCorrected(shape, up), start, changes)
  {
    UpCorrectedDecreases(shape, parent, up);
  }

  class DirectoryArena {
    /** The directory objects; `dirs[0]` is the root. */
    var dirs: seq<DirRecord>
    /** The directory each object was created in. */
    ghost var parent: seq<nat>
    /** The files added so far, and the directory each was pushed into. */
    ghost var added: seq<FileChange>
    ghost var home: seq<nat>

    ghost predicate Valid()
      reads this
    {
      ArenaOk(dirs, parent, added, home)
    }

    /** `const root = { path: '.', totalChanges: 0, fileCount: 0, children: [] }` */
    constructor ()
      ensures Valid() && CountersAsWritten(dirs, added) && CountersCorrected(dirs, added)
      ensures dirs == [DirRecord(".", 0, 0, [])] && added == []
    {
      dirs := [DirRecord(".", 0, 0, [])];
      parent := [0];
      added := [];
      home := [];
    }

    /** Creates a directory object with path `target` and pushes it onto the children of `cur`. */
    method NewDir(cur: nat, target: string) returns (j: nat)
      requires Valid()
      requires cur < |dirs| && DirName(target) == dirs[cur].path && target != "."
      requires cur == 0 <==> '/' !in target
      requires forall i :: 0 <= i < |dirs| ==> dirs[i].path != target
      modifies this
      ensures Valid()
      ensures old(CountersAsWritten(dirs, added)) ==> CountersAsWritten(dirs, added)
      ensures old(CountersCorrected(dirs, added)) ==> CountersCorrected(dirs, added)
      ensures j == old(|dirs|) && dirs == AddDir(old(dirs), cur, target)
      ensures added == old(added) && home == old(home) && parent == old(parent) + [cur]
    {
      ghost var d0, p0 := dirs, parent;
      j := |dirs|;
      dirs := AddDir(dirs, cur, target);
      parent := parent + [cur];
      AddDirOk(d0, p0, added, home, cur, target);
    }

    /** Lines 171-185: the child directory `target` of `cur`, created if missing. */
    method FindOrCreate(cur: nat, target: string) returns (next: nat)
      requires Valid()
      requires cur < |dirs| && DirName(target) == dirs[cur].path && target != "."
      requires cur == 0 <==> '/' !in target
      modifies this
      ensures Valid()
      ensures old(CountersAsWritten(dirs, added)) ==> CountersAsWritten(dirs, added)
      ensures old(CountersCorrected(dirs, added)) ==> CountersCorrected(dirs, added)
      ensures 0 < next < |dirs| && dirs[next].path == target
      ensures added == old(added) && home == old(home)
      ensures old(|dirs|) <= |dirs| && dirs[0] == old(dirs[0]).(children := dirs[0].children)
      ensures |dirs| <= old(|dirs|) + 1 && forall j :: 0 <= j < old(|dirs|) ==> dirs[j].path == old(dirs[j].path)
      ensures forall j :: old(|dirs|) <= j < |dirs| ==> dirs[j].path == target
      ensures old(FindDir(dirs[cur].children, dirs, target)).Some? ==>
        dirs == old(dirs) && next == old(FindDir(dirs[cur].children, dirs, target)).value
      ensures old(FindDir(dirs[cur].children, dirs, target)).None? ==>
        dirs == AddDir(old(dirs), cur, target) && next == old(|dirs|)
    {
      var found := FindDir(dirs[cur].children, dirs, target);
      if found.Some? {
        next := found.value;
      } else {
        FindDirNone(dirs, parent, cur, target);
        next := NewDir(cur, target);
      }
    }

    /**
     * One iteration of the `for` loop of lines 166-186: from the directory
     * of the first `i` parts of `file.path`, the one of the first `i + 1`.
     */
    method StepDown(file: FileChange, i: nat, cur: nat) returns (next: nat)
      requires Valid() && WellFormed(file.path) && i + 1 < |Split(file.path, '/')|
      requires cur < |dirs| && dirs[cur].path == PrefixDir(file.path, i) && (cur == 0 <==> i == 0)
      modifies this
      ensures Valid()
      ensures old(CountersAsWritten(dirs, added)) ==> CountersAsWritten(dirs, added)
      ensures old(CountersCorrected(dirs, added)) ==> CountersCorrected(dirs, added)
      ensures added == old(added) && home == old(home)
      ensures 0 < next < |dirs| && dirs[next].path == PrefixDir(file.path, i + 1)
      ensures GrownToward(old(dirs), dirs, file.path)
    {
      var target := PrefixDir(file.path, i + 1);
      PrefixDirStep(file.path, i);
      PrefixAncestor(file.path, i + 1);
      ghost var before := dirs;
      next := FindOrCreate(cur, target);
      GrownByOne(before, dirs, file.path, target);
    }

    /**
     * The `for` loop of lines 166-186: walks from the root down the
     * directories of `file.path`, creating those that are missing, and
     * returns the directory the file belongs in.
     */
    method Descend(file: FileChange) returns (cur: nat)
      requires Valid() && WellFormed(file.path)
      modifies this
      ensures Valid()
      ensures old(CountersAsWritten(dirs, added)) ==> CountersAsWritten(dirs, added)
      ensures old(CountersCorrected(dirs, added)) ==> CountersCorrected(dirs, added)
      ensures cur < |dirs| && dirs[cur].path == DirName(file.path)
      ensures added == old(added) && home == old(home)
      ensures GrownToward(old(dirs), dirs, file.path)
    {
      var n := |Split(file.path, '/')|;
      ghost var asWritten, corrected := CountersAsWritten(dirs, added), CountersCorrected(dirs, added);
      ghost var added0, home0, dirs0 := added, home, dirs;
      cur := 0;
      for i := 0 to n - 1
        invariant Valid()
        invariant asWritten ==> CountersAsWritten(dirs, added)
        invariant corrected ==> CountersCorrected(dirs, added)
        invariant added == added0 && home == home0
        invariant cur < |dirs| && dirs[cur].path == PrefixDir(file.path, i)
        invariant cur == 0 <==> i == 0
        invariant GrownToward(dirs0, dirs, file.path)
      {
        ghost var mid := dirs;
        cur := StepDown(file, i, cur);
        GrownTwice(dirs0, mid, dirs, file.path);
      }
      assert dirs[cur].path == PrefixDir(file.path, n - 1);
      PrefixDirLast(file.path);
    }

    /** Lines 188-190: pushes the file onto `cur` and counts it there. */
    method PushFile(cur: nat, file: FileChange)
      requires Valid() && cur < |dirs| && dirs[cur].path == DirName(file.path) && WellFormed(file.path)
      modifies this
      ensures Valid()
      ensures dirs == PushLeaf(old(dirs), cur, file)
      ensures added == old(added) + [file] && home == old(home) + [cur] && parent == old(parent)
    {
      PushLeafOk(dirs, parent, added, home, cur, file);
      dirs := PushLeaf(dirs, cur, file);
      added := added + [file];
      home := home + [cur];
    }

    /**
     * Lines 196-198: the next directory up is the root child whose path is
     * the directory part of `up`'s path, or else the root.
     */
    method NextUpAsWritten(ghost shape: seq<DirRecord>, up: nat) returns (next: nat)
      requires up < |dirs| && SameShape(shape, dirs)
      ensures next == UpAsWritten(shape, up)
    {
      var parentPath := DirName(dirs[up].path);
      var found := FindDir(dirs[0].children, dirs, parentPath);
      FindDirSameShape(dirs[0].children, shape, dirs, parentPath);
      next := if found.Some? then found.value else 0;
    }

    /** The corrected lookup: the directory, among all, whose path is the directory part of `up`'s path, or else the root. */
    method NextUpCorrected(ghost shape: seq<DirRecord>, up: nat) returns (next: nat)
      requires up < |dirs| && SameShape(shape, dirs)
      ensures next == UpCorrected(shape, up)
    {
      var parentPath := DirName(dirs[up].path);
      var found := FindByPath(dirs, parentPath, 1);
      FindByPathSameShape(shape, dirs, parentPath, 1);
      next := if found.Some? then found.value else 0;
    }

    /**
     * The `while (parent !== root)` loop of lines 192-200: from `start`, adds
     * the file's changes to each directory on the way, taking as the next one
     * the root child whose path is the directory part, or else the root.
     */
    method ClimbAsWritten(start: nat, changes: int)
      requires Valid() && start < |dirs|
      modifies this
      ensures Valid() && SameShape(old(dirs), dirs)
      ensures parent == old(parent) && added == old(added) && home == old(home)
      ensures forall j :: 1 <= j < |dirs| ==>
        dirs[j].totalChanges == old(dirs[j].totalChanges) + WalkAsWritten(old(dirs), parent, j, start, changes) &&
        dirs[j].fileCount == old(dirs[j].fileCount) + WalkAsWritten(old(dirs), parent, j, start, 1)
    {
      ghost var shape, parent0, added0, home0 := dirs, parent, added, home;
      var up: nat := start;
      while up != 0
        invariant ArenaOk(shape, parent0, added0, home0)
        invariant parent == parent0 && added == added0 && home == home0
        invariant up < |dirs| && SameShape(shape, dirs)
        invariant AsWrittenProgress(shape, parent, dirs, up, start, changes)
        decreases RankAsWritten(shape, up)
      {
        AsWrittenStep(shape, parent, dirs, up, start, changes);
        UpAsWrittenDecreases(shape, parent, up);
        dirs := Bump(dirs, up, changes);
        up := NextUpAsWritten(shape, up);
      }
      SameShapeOk(shape, dirs, parent, added, home);
    }

    /**
     * The same loop corrected: the next directory is the one, among all
     * directories, whose path is the directory part.
     */
    method ClimbCorrected(start: nat, changes: int)
      requires Valid() && start < |dirs|
      modifies this
      ensures Valid() && SameShape(old(dirs), dirs)
      ensures parent == old(parent) && added == old(added) && home == old(home)
      ensures forall j :: 1 <= j < |dirs| ==>
        dirs[j].totalChanges == old(dirs[j].totalChanges) + WalkCorrected(old(dirs), parent, j, start, changes) &&
        dirs[j].fileCount == old(dirs[j].fileCount) + WalkCorrected(old(dirs), parent, j, start, 1)
    {
      ghost var shape, parent0, added0, home0 := dirs, parent, added, home;
      var up: nat := start;
      while up != 0
        invariant ArenaOk(shape, parent0, added0, home0)
        invariant parent == parent0 && added == added0 && home == home0
        invariant up < |dirs| && SameShape(shape, dirs)
        invariant CorrectedProgress(shape, parent, dirs, up, start, changes)
        decreases RankCorrected(shape, up)
      {
        CorrectedStep(shape, parent, dirs, up, start, changes);
        UpCorrectedDecreases(shape, parent, up);
        dirs := Bump(dirs, up, changes);
        up := NextUpCorrected(shape, up);
      }
      SameShapeOk(shape, dirs, parent, added, home);
    }

    /**
     * One iteration of `for (const file of files)`, lines 165-201, as
     * written: the walk up starts at the file's own directory, which it
     * therefore counts a second time, and looks the next directory up among
     * the root's children only.
     */
    method AddFile(file: FileChange)
      requires Valid() && CountersAsWritten(dirs, added) && Occupied(dirs, added) && WellFormed(file.path)
      modifies this
      ensures Valid() && CountersAsWritten(dirs, added) && Occupied(dirs, added)
      ensures added == old(added) + [file] && GrownToward(old(dirs), dirs, file.path)
    {
      ghost var initial := dirs;
      var cur := Descend(file);
      ghost var d0, before, home0 := dirs, added, home;
      PushFile(cur, file);
      ghost var shape := dirs;
      ClimbAsWritten(cur, file.changes);
      AsWrittenAfterClimb(d0, parent, before, home0, cur, file, shape, dirs);
      GrownAfterPush(d0, cur, file, shape, dirs);
      GrownTwice(initial, d0, dirs, file.path);
      OccupiedAfterAdd(initial, before, dirs, file);
    }

    /** The same iteration with the corrected walk, starting above the file's own directory. */
    method AddFileCorrected(file: FileChange)
      requires Valid() && CountersCorrected(dirs, added) && Occupied(dirs, added) && WellFormed(file.path)
      modifies this
      ensures Valid() && CountersCorrected(dirs, added) && Occupied(dirs, added)
      ensures added == old(added) + [file] && GrownToward(old(dirs), dirs, file.path)
    {
      ghost var initial := dirs;
      var cur := Descend(file);
      ghost var d0, before, home0 := dirs, added, home;
      PushFile(cur, file);
      ghost var shape := dirs;
      var start := NextUpCorrected(shape, cur);
      ClimbCorrected(start, file.changes);
      CorrectedAfterClimb(d0, parent, before, home0, cur, file, shape, dirs);
      GrownAfterPush(d0, cur, file, shape, dirs);
      GrownTwice(initial, d0, dirs, file.path);
      OccupiedAfterAdd(initial, before, dirs, file);
    }

    /** Lines 203-204: the root's counters are set from the whole input. */
    method SetRootCounters(total: int, count: int)
      requires Valid()
      modifies this
      ensures Valid()
      ensures dirs == old(dirs)[0 := old(dirs[0]).(totalChanges := total, fileCount := count)]
      ensures parent == old(parent) && added == old(added) && home == old(home)
    {
      SetRootOk(dirs, parent, added, home, total, count);
      dirs := dirs[0 := dirs[0].(totalChanges := total, fileCount := count)];
    }

    /** The tree under the root, as the value `buildDirectoryTree` returns. */
    function Snapshot(): (n: Node)
      reads this
      requires Valid()
      ensures Ordered(dirs) && n == NodeOf(dirs, 0)
    {
      OrderedOk(dirs, parent);
      NodeOf(dirs, 0)
    }
  }

  /**
   * buildDirectoryTree as written (src/utils/git.ts:157-207). Every path must
   * be well formed; the root carries the totals of the whole input, and the
   * other directories the counts `AsWrittenChanges` and `AsWrittenCount`.
   */
  method BuildDirectoryTree(files: seq<FileChange>) returns (root: Node)
    requires forall k :: 0 <= k < |files| ==> WellFormed(files[k].path)
    ensures root.Dir? && root.path == "." && root.totalChanges == SumChanges(files) && root.fileCount == |files|
    ensures LeavesMatch(root, files) && DirectoriesPresent(root, files)
    ensures PathsIdentify(root) && ChildrenExtend(root) && SiblingsDistinct(root)
    ensures DirectoriesOccupied(root, files) && AsWrittenCounts(root, files)
  {
    var arena := new DirectoryArena();
    for k := 0 to |files|
      invariant arena.Valid() && CountersAsWritten(arena.dirs, arena.added) && arena.added == files[..k]
      invariant Occupied(arena.dirs, arena.added)
    {
      assert files[..k + 1] == files[..k] + [files[k]];
      arena.AddFile(files[k]);
    }
    assert files[..|files|] == files;
    arena.SetRootCounters(SumChanges(files), |files|);
    root := arena.Snapshot();
    TreeFacts(arena.dirs, arena.parent, files, arena.home);
    AsWrittenTreeCounts(arena.dirs, arena.parent, files, arena.home);
  }

  /**
   * buildDirectoryTree with the ancestor walk corrected: every directory
   * counts each file that lies under it once.
   */
  method BuildDirectoryTreeCorrected(files: seq<FileChange>) returns (root: Node)
    requires forall k :: 0 <= k < |files| ==> WellFormed(files[k].path)
    ensures root.Dir? && root.path == "." && root.totalChanges == SumChanges(files) && root.fileCount == |files|
    ensures LeavesMatch(root, files) && DirectoriesPresent(root, files)
    ensures PathsIdentify(root) && ChildrenExtend(root) && SiblingsDistinct(root)
    ensures DirectoriesOccupied(root, files) && SubtreeCounts(root, files)
  {
    var arena := new DirectoryArena();
    for k := 0 to |files|
      invariant arena.Valid() && CountersCorrected(arena.dirs, arena.added) && arena.added == files[..k]
      invariant Occupied(arena.dirs, arena.added)
    {
      assert files[..k + 1] == files[..k] + [files[k]];
      arena.AddFileCorrected(files[k]);
    }
    assert files[..|files|] == files;
    arena.SetRootCounters(SumChanges(files), |files|);
    root := arena.Snapshot();
    TreeFacts(arena.dirs, arena.parent, files, arena.home);
    SubtreeTreeCounts(arena.dirs, arena.parent, files, arena.home);
  }

  // ----- the double count -----

  /**
   * As written, a directory below the top level counts each file directly
   * in it twice and no file deeper down.
   */
  lemma {:induction false} AsWrittenNested(files: seq<FileChange>, dir: string)
    requires '/' in dir
    ensures AsWrittenChanges(files, dir) == 2 * SumChanges(FilesIn(files, dir))
    ensures AsWrittenCount(files, dir) == 2 * |FilesIn(files, dir)|
  {
    if |files| > 0 {
      var init := files[..|files| - 1];
      var f := files[|files| - 1];
      AsWrittenNested(init, dir);
      var r := FilesIn(init, dir);
      assert AsWrittenWeight(dir, f.path) == if DirName(f.path) == dir then 2 else 0 by {
        if '/' !in f.path {
          assert DirName(f.path) == "." && '/' !in ".";
        }
      }
      if DirName(f.path) == dir {
        assert FilesIn(files, dir) == r + [f];
        assert (r + [f])[..|r|] == r;
        assert AsWrittenChanges(files, dir) == AsWrittenChanges(init, dir) + 2 * f.changes;
      } else {
        assert FilesIn(files, dir) == r;
        assert AsWrittenChanges(files, dir) == AsWrittenChanges(init, dir) + 0 * f.changes;
      }
    }
  }

  /** A file directly inside a top-level directory lies under it, and as written weighs 2 there. */
  lemma DirectFileWeights(p: string, dir: string)
    requires '/' in p && DirName(p) == dir && '/' !in dir
    ensures AsWrittenWeight(dir, p) == 2 && IsAncestorDir(dir, p)
  {
    var i := LastIndexOf(p, '/');
    assert dir == p[..i] && p[i] == '/';
  }

  /**
   * Every file directly inside a top-level directory is counted twice
   * there as written: the directory's totals are double those of the files
   * under it.
   */
  lemma {:induction false} DirectFilesDoubleCounted(files: seq<FileChange>, dir: string)
    requires '/' !in dir
    requires forall k :: 0 <= k < |files| ==> '/' in files[k].path && DirName(files[k].path) == dir
    ensures SubtreeCount(files, dir) == |files| && SubtreeChanges(files, dir) == SumChanges(files)
    ensures AsWrittenChanges(files, dir) == 2 * SubtreeChanges(files, dir)
    ensures AsWrittenCount(files, dir) == 2 * SubtreeCount(files, dir)
  {
    if |files| > 0 {
      DirectFilesDoubleCounted(files[..|files| - 1], dir);
      DirectFileWeights(files[|files| - 1].path, dir);
    }
  }

  /** The two paths of the example below lie directly inside `a`. */
  lemma InsideA(p: string)
    requires p == "a/b.txt" || p == "a/c.txt"
    ensures '/' in p && DirName(p) == "a"
  {
    DirNameAt(p, 1);
    assert p[..1] == "a";
  }

  /** Two files in `a`: as written `a` counts 12 changes in 4 files, where 6 changes in 2 files lie under it. */
  lemma DoubleCountExample(f0: FileChange, f1: FileChange)
    requires f0.path == "a/b.txt" && f0.changes == 5 && f1.path == "a/c.txt" && f1.changes == 1
    ensures AsWrittenChanges([f0, f1], "a") == 12 && AsWrittenCount([f0, f1], "a") == 4
    ensures SubtreeChanges([f0, f1], "a") == 6 && SubtreeCount([f0, f1], "a") == 2
  {
    InsideA(f0.path);
    InsideA(f1.path);
    DirectFilesDoubleCounted([f0, f1], "a");
    assert [f0, f1][..1] == [f0];
    assert SumChanges([f0]) == 5;
  }

  /** One file three levels down: as written only its own directory counts it, twice. */
  lemma DeepFileAsWritten(files: seq<FileChange>)
    requires files == [FileChange("a/b/c/d.txt", 3, 3, 0, "", [])]
    ensures AsWrittenChanges(files, "a") == 0 && AsWrittenChanges(files, "a/b") == 0 && AsWrittenChanges(files, "a/b/c") == 6
  {
    var f := files[0];
    DeepDirNames(f.path);
    assert AsWrittenWeight("a", f.path) == 0;
    assert AsWrittenWeight("a/b", f.path) == 0;
    assert AsWrittenWeight("a/b/c", f.path) == 2;
    CountsSnoc([], f, "a");
    CountsSnoc([], f, "a/b");
    CountsSnoc([], f, "a/b/c");
    assert [] + [f] == files;
  }

  /** The directory parts of the deep example path. */
  lemma DeepDirNames(p: string)
    requires p == "a/b/c/d.txt"
    ensures DirName(p) == "a/b/c" && DirName(DirName(p)) == "a/b"
  {
    DirNameAt(p, 5);
    DirNameAt(p[..5], 3);
  }

  /** One file three levels down lies under each of its three directories. */
  lemma DeepFileSubtree(files: seq<FileChange>)
    requires files == [FileChange("a/b/c/d.txt", 3, 3, 0, "", [])]
    ensures SubtreeChanges(files, "a") == 3 && SubtreeChanges(files, "a/b") == 3 && SubtreeChanges(files, "a/b/c") == 3
  {
    var f := files[0];
    assert IsAncestorDir("a", f.path) && IsAncestorDir("a/b", f.path) && IsAncestorDir("a/b/c", f.path);
    CountsSnoc([], f, "a");
    CountsSnoc([], f, "a/b");
    CountsSnoc([], f, "a/b/c");
    assert [] + [f] == files;
  }
}
