/**
 * The pure tail of analyzeRepository (src/utils/git.ts:21-40): the git log
 * output is parsed, folded into one record per file, filtered, and laid out
 * as a directory tree; `maxChanges` is the largest `changes` shown (or 0) and
 * `totalCommits` the number of file-change records read.
 */
module Analyze {
  import opened Types
  import opened Strings
  import opened Paths
  import opened GitLog
  import Aggregate
  import Filter
  import opened Tree
  import opened Graph

  /** `Math.max(...files.map(f => f.changes), 0)`. */
  function MaxChanges(files: seq<FileChange>): (m: int)
    ensures m >= 0
    ensures forall k :: 0 <= k < |files| ==> files[k].changes <= m
    ensures m == 0 || exists k :: 0 <= k < |files| && files[k].changes == m
  {
    if |files| == 0 then 0
    else
      var init := files[..|files| - 1];
      var m := MaxChanges(init);
      var c := files[|files| - 1].changes;
      assert forall k :: 0 <= k < |init| ==> init[k] == files[k];
      if c > m then c else m
  }

  /** When every file was changed at least once, the maximum is 0 exactly when there is no file, and otherwise attained. */
  lemma MaxChangesShown(files: seq<FileChange>)
    requires forall k :: 0 <= k < |files| ==> files[k].changes >= 1
    ensures Largest(files, MaxChanges(files))
  {
    if files != [] {
      assert files[0].changes <= MaxChanges(files);
    }
  }

  /** The entries parseGitLog returns for `logOutput`: one per record line, in order. */
  function LogEntries(logOutput: string): (es: seq<LogEntry>)
    ensures var kinds := Kinds(Split(logOutput, '\n'));
      |es| == |RecordLines(kinds)| &&
      forall n :: 0 <= n < |es| ==> es[n] == EntryAt(kinds, RecordLines(kinds)[n])
  {
    var kinds := Kinds(Split(logOutput, '\n'));
    var lines := RecordLines(kinds);
    seq(|lines|, n requires 0 <= n < |lines| => EntryAt(kinds, lines[n]))
  }

  /** Every numstat line names a path that node's `dirname` walks as `DirName` does. */
  predicate RecordPathsWellFormed(kinds: seq<LineKind>)
  {
    forall k :: 0 <= k < |kinds| && kinds[k].Record? ==> WellFormed(kinds[k].stat.path)
  }

  /**
   * `root` is the directory tree of `files`: the root directory "." with the
   * totals of all files, every file a leaf under its own directory, no
   * directory without a file below it, and each directory counting the files
   * below it.
   */
  predicate DirectoryTree(root: Node, files: seq<FileChange>)
  {
    root.Dir? && root.path == "." && root.totalChanges == SumChanges(files) && root.fileCount == |files| &&
    LeavesMatch(root, files) && DirectoriesPresent(root, files) && DirectoriesOccupied(root, files) &&
    PathsIdentify(root) && ChildrenExtend(root) && SiblingsDistinct(root) && SubtreeCounts(root, files)
  }

  /**
   * What an analysis result guarantees: the directory tree holds every shown
   * file under its own directory with the counters of the files under each
   * directory, every shown file was changed at least once, and `maxChanges`
   * is the largest `changes` shown, or 0 when nothing is shown.
   */
  predicate Analyzed(data: HeatmapData)
  {
    DirectoryTree(data.directories, data.files) && Changed(data.files) && Largest(data.files, data.maxChanges)
  }

  /** Every file was changed at least once and has a path `DirName` walks as node's `dirname` does. */
  predicate Changed(files: seq<FileChange>)
  {
    forall k :: 0 <= k < |files| ==> files[k].changes >= 1 && WellFormed(files[k].path)
  }

  /** `m` is the largest `changes` of `files`, and 0 exactly when there is no file. */
  predicate Largest(files: seq<FileChange>, m: int)
  {
    (forall k :: 0 <= k < |files| ==> files[k].changes <= m) &&
    (|files| == 0 <==> m == 0) &&
    (|files| != 0 ==> exists k :: 0 <= k < |files| && files[k].changes == m)
  }

  /**
   * `files` are the aggregated statistics of `entries` whose paths the
   * filter keeps, each as often as aggregated, sorted by `changes`, files
   * with equal `changes` in the order their paths were first seen; with
   * neither filter active, their changes add up to the number of entries.
   */
  ghost predicate Selected(entries: seq<LogEntry>, key: Aggregate.DateKey, options: Filter.FilterOptions, files: seq<FileChange>)
  {
    (forall f :: multiset(files)[f] ==
       (if Filter.Kept(f.path, options) then multiset(Aggregate.FirstSeenStats(entries, key))[f] else 0)) &&
    Aggregate.SortedByChanges(files) &&
    (forall c :: Aggregate.WithChanges(files, c) ==
       Filter.KeepWhere(Aggregate.WithChanges(Aggregate.FirstSeenStats(entries, key), c), options)) &&
    (!Filter.Active(options.includePatterns) && !Filter.Active(options.excludePatterns) ==>
       SumChanges(files) == |entries|)
  }

  /** Every element of a subsequence is an element of the whole. */
  lemma {:induction false} SubsequenceMembers(s: seq<FileChange>, t: seq<FileChange>)
    requires Filter.IsSubsequence(s, t)
    ensures forall x :: x in s ==> x in t
  {
    if |s| > 0 && |t| > 0 {
      var t' := t[..|t| - 1];
      if s[|s| - 1] == t[|t| - 1] {
        SubsequenceMembers(s[..|s| - 1], t');
        assert s == s[..|s| - 1] + [s[|s| - 1]];
      } else {
        SubsequenceMembers(s, t');
      }
      assert t == t' + [t[|t| - 1]];
    }
  }

  /** Keeping some files of a list sorted by `changes` keeps it sorted: the filter does not reorder. */
  lemma {:induction false} SubsequenceSorted(s: seq<FileChange>, t: seq<FileChange>)
    requires Filter.IsSubsequence(s, t) && Aggregate.SortedByChanges(t)
    ensures Aggregate.SortedByChanges(s)
  {
    if |s| > 0 && |t| > 0 {
      var s', t' := s[..|s| - 1], t[..|t| - 1];
      assert Aggregate.SortedByChanges(t');
      if s[|s| - 1] == t[|t| - 1] {
        SubsequenceSorted(s', t');
        SubsequenceMembers(s', t');
        forall i | 0 <= i < |s'| ensures s'[i].changes >= s[|s| - 1].changes {
          assert s'[i] in t';
          var k :| 0 <= k < |t'| && t'[k] == s'[i];
          assert t[k] == s'[i];
        }
      } else {
        SubsequenceSorted(s, t');
      }
    }
  }

  /** The path of every aggregated file is the path of some entry. */
  lemma AggregatedPaths(entries: seq<LogEntry>, key: Aggregate.DateKey, f: FileChange)
    requires f in Aggregate.FirstSeenStats(entries, key)
    ensures f.changes >= 1 && exists n :: 0 <= n < |entries| && entries[n].path == f.path
  {
    var fs := Aggregate.FirstSeenStats(entries, key);
    var k :| 0 <= k < |fs| && fs[k] == f;
    assert Aggregate.Dedup(Aggregate.Paths(entries))[k] == f.path;
    assert f.path in Aggregate.Paths(entries);
  }

  /** Every entry of a log whose numstat paths are well formed has a well-formed path. */
  lemma EntryPathsWellFormed(logOutput: string, n: nat)
    requires RecordPathsWellFormed(Kinds(Split(logOutput, '\n'))) && n < |LogEntries(logOutput)|
    ensures WellFormed(LogEntries(logOutput)[n].path)
  {
    var kinds := Kinds(Split(logOutput, '\n'));
    assert LogEntries(logOutput)[n].path == kinds[RecordLines(kinds)[n]].stat.path;
  }

  /** Filtering and then taking the files with `changes` equal to `c` is taking them and then filtering. */
  lemma {:induction false} KeepWhereWithChanges(fs: seq<FileChange>, options: Filter.FilterOptions, c: int)
    ensures Aggregate.WithChanges(Filter.KeepWhere(fs, options), c) == Filter.KeepWhere(Aggregate.WithChanges(fs, c), options)
  {
    if |fs| > 0 {
      var init, x := fs[..|fs| - 1], fs[|fs| - 1];
      var kept := if Filter.Kept(x.path, options) then [x] else [];
      KeepWhereWithChanges(init, options, c);
      Aggregate.WithChangesConcat(Filter.KeepWhere(init, options), kept, c);
      var w := Aggregate.WithChanges(init, c);
      if x.changes == c {
        assert Aggregate.WithChanges(kept, c) == kept by {
          if kept != [] { assert kept[..0] == []; }
        }
        assert (w + [x])[..|w|] == w;
      } else {
        assert Aggregate.WithChanges(kept, c) == [] by {
          if kept != [] { assert kept[..0] == []; }
        }
        assert Aggregate.WithChanges(fs, c) == w;
      }
      assert Filter.KeepWhere(fs, options) == Filter.KeepWhere(init, options) + kept;
    }
  }

  /** Filtering keeps the order of files with equal `changes`. */
  lemma ShownTies(entries: seq<LogEntry>, key: Aggregate.DateKey, options: Filter.FilterOptions, files: seq<FileChange>, shown: seq<FileChange>)
    requires forall c :: Aggregate.WithChanges(files, c) == Aggregate.WithChanges(Aggregate.FirstSeenStats(entries, key), c)
    requires shown == Filter.FilterFiles(files, options)
    ensures forall c ::
      Aggregate.WithChanges(shown, c) == Filter.KeepWhere(Aggregate.WithChanges(Aggregate.FirstSeenStats(entries, key), c), options)
  {
    Filter.FilterFilesIsKeepWhere(files, options);
    forall c ensures Aggregate.WithChanges(shown, c) ==
      Filter.KeepWhere(Aggregate.WithChanges(Aggregate.FirstSeenStats(entries, key), c), options)
    {
      KeepWhereWithChanges(files, options, c);
    }
  }

  /** The filtered files are aggregated files: each was changed at least once and has a well-formed path. */
  lemma ShownFiles(logOutput: string, key: Aggregate.DateKey, options: Filter.FilterOptions, files: seq<FileChange>, shown: seq<FileChange>)
    requires RecordPathsWellFormed(Kinds(Split(logOutput, '\n')))
    requires multiset(files) == multiset(Aggregate.FirstSeenStats(LogEntries(logOutput), key))
    requires shown == Filter.FilterFiles(files, options)
    ensures forall k :: 0 <= k < |shown| ==> shown[k].changes >= 1 && WellFormed(shown[k].path)
  {
    var entries := LogEntries(logOutput);
    Filter.FilterFilesSpec(files, options);
    forall k | 0 <= k < |shown| ensures shown[k].changes >= 1 && WellFormed(shown[k].path) {
      var f := shown[k];
      assert multiset(shown)[f] > 0;
      assert f in multiset(Aggregate.FirstSeenStats(entries, key));
      AggregatedPaths(entries, key, f);
      var n :| 0 <= n < |entries| && entries[n].path == f.path;
      EntryPathsWellFormed(logOutput, n);
    }
  }

  /**
   * The files analyzeRepository shows for the log output it reads: parse,
   * aggregate and filter, for any log text. Each shown file is an
   * aggregated file whose path the filter keeps, and the list stays sorted
   * by `changes` with ties in first-seen order; with no filter every record
   * is shown. When the log's numstat paths are well formed, every shown file
   * was changed at least once and has a well-formed path.
   */
  method ShowFiles(logOutput: string, key: Aggregate.DateKey, options: Filter.FilterOptions)
    returns (entries: seq<LogEntry>, shown: seq<FileChange>)
    ensures entries == LogEntries(logOutput)
    ensures Selected(entries, key, options, shown)
    ensures RecordPathsWellFormed(Kinds(Split(logOutput, '\n'))) ==> Changed(shown)
  {
    entries := ParseGitLog(logOutput);
    assert entries == LogEntries(logOutput);
    var files := Aggregate.AggregateFileChanges(entries, key);
    shown := Filter.FilterFiles(files, options);
    Filter.FilterFilesSpec(files, options);
    SubsequenceSorted(shown, files);
    if RecordPathsWellFormed(Kinds(Split(logOutput, '\n'))) {
      ShownFiles(logOutput, key, options, files, shown);
    }
    ShownTies(entries, key, options, files, shown);
  }

  /**
   * analyzeRepository on the log output it reads: the shown files, their
   * directory tree (with the corrected ancestor walk), the largest `changes`
   * and the number of records read.
   */
  method AnalyzeRepository(logOutput: string, key: Aggregate.DateKey, options: Filter.FilterOptions)
    returns (data: HeatmapData)
    requires RecordPathsWellFormed(Kinds(Split(logOutput, '\n')))
    ensures Analyzed(data) && Selected(LogEntries(logOutput), key, options, data.files)
    ensures data.totalCommits == |LogEntries(logOutput)|
  {
    var entries, filteredFiles := ShowFiles(logOutput, key, options);
    var directories := BuildDirectoryTreeCorrected(filteredFiles);
    var maxChanges := MaxChanges(filteredFiles);
    MaxChangesShown(filteredFiles);
    data := HeatmapData(filteredFiles, directories, maxChanges, |entries|);
  }

  /** A sum of non-negative `changes` is non-negative. */
  lemma {:induction false} SumChangesNonNegative(files: seq<FileChange>)
    requires forall k :: 0 <= k < |files| ==> files[k].changes >= 0
    ensures SumChanges(files) >= 0
  {
    if |files| > 0 {
      SumChangesNonNegative(files[..|files| - 1]);
    }
  }

  /** The changes of the files under a directory, when none is negative, are not negative. */
  lemma {:induction false} SubtreeChangesNonNegative(files: seq<FileChange>, dir: string)
    requires forall k :: 0 <= k < |files| ==> files[k].changes >= 0
    ensures SubtreeChanges(files, dir) >= 0
  {
    if |files| > 0 {
      SubtreeChangesNonNegative(files[..|files| - 1], dir);
    }
  }

  /**
   * An analysis with something to show meets what generateGraphData needs:
   * no directory total is negative and `maxChanges` is positive. Its graph
   * then has one node per directory and per retained file, and every edge,
   * from a directory to a subdirectory or to a file, joins two emitted nodes.
   */
  lemma AnalyzedGraph(data: HeatmapData, maxFiles: nat)
    requires Analyzed(data) && data.files != []
    ensures data.maxChanges > 0 && NonNegative(data.directories) && Countable(Dirs(data.directories))
    ensures var g := GraphOf(data.directories, data.files, data.maxChanges, maxFiles);
      |g.nodes| == |Dirs(data.directories)| + |Top(data.files, maxFiles)| &&
      forall i :: 0 <= i < |g.edges| ==> Linked(g.edges[i], g.nodes)
  {
    var root, files := data.directories, data.files;
    assert files[0].changes <= data.maxChanges;
    forall d | d in Dirs(root) ensures d.totalChanges >= 0 {
      if d.path == "." {
        assert root in Dirs(root);
        SumChangesNonNegative(files);
      } else {
        SubtreeChangesNonNegative(files, d.path);
      }
    }
    NonNegativeCountable(root);
    GraphCounts(root, files, data.maxChanges, maxFiles);
    DirectoryEdgesLinked(root, files, data.maxChanges, maxFiles);
    FileEdgesLinked(root, files, data.maxChanges, maxFiles);
  }
}
