# repo-heatmap history pipeline, in Dafny

repo-heatmap reads the history of a git repository and draws it as a graph.
There is one node per directory and one per file. Each node is sized and
coloured by how often its files changed. This project models the part of the
program that turns the text printed by
`git log --format=%H|%an|%aI --numstat` into that graph:

- **`parseGitLog`** (`gitlog.dfy`). A line holding `|` is a commit header. A
  header with at least three `|`-fields sets the current author and date. A
  non-blank line matching `^(\d+)\s+(\d+)\s+(.+)$` is a file-change record,
  attributed to the latest header. The parser is a loop over the lines that
  updates the current author and date and appends records. It is proved
  against a reference definition: the record lines of the log, each
  attributed to the last header before it.
- **`aggregateFileChanges`** (`aggregate.dfy`). The loop folds the records
  into a map from path to `FileChange`, updating the stored records in
  place. The map keeps insertion order. Its values are then stable-sorted by
  `changes`, largest first. The result is proved equal, as a multiset and
  within every group of equal `changes`, to the reference statistics of each
  distinct path in first-seen order.
- **`filterFiles`** (`filter.dfy`). Include and exclude patterns are literal,
  case-sensitive substrings.
- **`buildDirectoryTree`** (`tree.dfy`). The JavaScript builds a tree of
  mutable `DirectoryStats` objects and updates them through aliases. The
  model keeps those objects in an arena held by the class `DirectoryArena`.
  The class has a `seq` of directory records whose index is the object's
  identity, with the root at index 0. The finished tree is read back as a
  `Node` value.
- **the pure tail of `analyzeRepository`** (`analyze.dfy`). `maxChanges` is
  the largest shown `changes`, or 0. `totalCommits` is the number of
  file-change records.
- **`generateGraphData` and `getHeatmapColor`** (`graph.dfy`). A class
  `GraphBuilder` holds the `nodes` and `edges` arrays that the recursive
  `addDirectoryNode` fills. Colours follow the five-anchor ramp, computed with
  exact rationals.

Shared pieces:

- `strings.dfy` holds the JavaScript string operations the code uses: `split`,
  `join`, `lastIndexOf`, `includes`, `trim`, and the regular-expression
  classes `\d`, `\s` and `.`.
- `paths.dfy` holds the directory part of a path (node's `path.dirname`).
- `types.dfy` holds the record shapes of `src/types.ts`.

The counters `buildDirectoryTree` leaves on the directories are not the
counts of the files beneath them (see Findings). The model therefore has the
builder twice:

- `Tree.BuildDirectoryTree` is the code as written. It is proved to leave
  exactly the counts `AsWrittenChanges`/`AsWrittenCount`.
- `Tree.BuildDirectoryTreeCorrected` is the evident intent. It is proved to
  leave the count of the files under each directory.

`Analyze.AnalyzeRepository` uses the corrected builder.

## Model

| member | source | states |
|---|---|---|
| Strings.Split | src/utils/git.ts:78 | `split` yields at least one part; exactly one when the separator does not occur; no part contains the separator |
| Strings.JoinSplit | src/utils/git.ts:166-172 | joining the parts of a split with the separator gives back the original string |
| Strings.LastIndexOf | src/utils/graph.ts:42-44 | -1 exactly when the character is absent; otherwise the index holds the character and no later index does |
| Strings.Contains | src/utils/git.ts:144 | `includes` is true exactly when the pattern occurs at some index |
| Strings.TrimStart | src/utils/git.ts:89 | the result is empty or starts with a non-whitespace character, and the characters removed from the front are whitespace |
| Strings.TrimEnd | src/utils/git.ts:95 | the result is empty or ends with a non-whitespace character, and the characters removed from the end are whitespace |
| Strings.TrimStartIsSuffix | src/utils/git.ts:89 | what `TrimStart` leaves is a suffix of the input: characters are only removed from the front |
| Strings.TrimEndIsPrefix | src/utils/git.ts:95 | what `TrimEnd` leaves is a prefix of the input: characters are only removed from the end |
| Paths.WellFormedDirName | src/utils/git.ts:196 | for a well-formed path, the directory part is `.` exactly when the path has no `/` |
| Paths.PrefixDirStep | src/utils/git.ts:169-177 | the directory part of each path prefix built by the descent is the previous prefix; no prefix is `.`; only the first is top-level |
| Paths.PrefixDirLast | src/utils/git.ts:169-186 | the last prefix the descent visits is the directory part of the file path |
| GitLog.MatchNumstatComplete | src/utils/git.ts:90-95 | every line of shape digits, whitespace, digits, whitespace, rest (no line terminator in rest) matches, with the two numbers and the trimmed rest |
| GitLog.MatchNumstatSound | src/utils/git.ts:90-95 | every match has that shape, and its numbers and path are those of the shape |
| GitLog.BinaryLineIsNoMatch | src/utils/git.ts:90 | a binary-file line `-\t-\tpath` never matches |
| GitLog.ClassifyRecord | src/utils/git.ts:83-99 | a line yields a record exactly when it contains no bar character and matches, and the record holds what the match captured |
| GitLog.LatestHeader | src/utils/git.ts:83-88 | the index found is a header with at least three fields and no such header follows it; -1 when there is none, so author and date stay `''` |
| GitLog.RecordLines | src/utils/git.ts:82-99 | the record lines are in document order, are all record lines, and number at most the lines |
| GitLog.ReadLine | src/utils/git.ts:83-99 | a full header replaces author and date; any other line keeps them; a record line yields its entry with the current author and date, and no other line yields an entry |
| GitLog.ParseLines | src/utils/git.ts:82-101 | one entry per record line, in order, each carrying the author and date of the last full header before it |
| GitLog.ParseGitLog | src/utils/git.ts:76-104 | the same for the lines of the log split at `\n` |
| Aggregate.Dedup | src/utils/git.ts:115-117 | the authors list has no duplicates and holds exactly the authors seen |
| Aggregate.DedupFirstSeenOrder | src/utils/git.ts:115-117 | the deduplicated list is in first-seen order |
| Aggregate.RecordsOf | src/utils/git.ts:110 | the records of a path all have that path, and there are some exactly when the path occurs |
| Aggregate.LatestDateIsLatest | src/utils/git.ts:118-120 | `lastModified` is one of the path's dates; an unparsable first date is never replaced; otherwise no parsable date is later |
| Aggregate.LatestDateFirstOfLatest | src/utils/git.ts:118-120 | when the first date parses, the date kept is that of the first entry with the latest time: every entry before it is unparsable or strictly earlier, so among dates with equal times the first one seen wins |
| Aggregate.FoldEntriesIsStats | src/utils/git.ts:109-131 | after the loop the map holds exactly the paths seen, in first-seen order, each mapped to its reference statistics |
| Aggregate.FirstSeenStats | src/utils/git.ts:107-133 | one record per distinct path in first-seen order, each equal to its reference statistics, with 1 <= changes <= number of entries |
| Aggregate.InsertByChanges | src/utils/git.ts:133 | inserting into a list sorted by `changes` keeps it sorted, adds exactly the element, and places it after the elements with equal `changes` |
| Aggregate.SortByChanges | src/utils/git.ts:133 | the result is sorted by `changes`, largest first, is a permutation of the input, and keeps the input order among equal `changes` (stable) |
| Aggregate.SumChangesIsEntryCount | src/utils/git.ts:112-124 | the per-path `changes` add up to the number of entries |
| Aggregate.SumChangesPermutation | src/utils/git.ts:133 | reordering files does not change the sum of their `changes` |
| Aggregate.AggregateFileChanges | src/utils/git.ts:106-134 | the loop over the mutable map followed by the sort: sorted, a permutation of the reference statistics, stable among equal `changes`, and `changes` summing to the number of entries |
| Filter.MatchesSomeIff | src/utils/git.ts:144 | `some` holds exactly when some pattern occurs in the path |
| Filter.KeepWhereCounts | src/utils/git.ts:140-154 | a file occurs in the result as often as in the input when its path passes both tests, and not at all otherwise |
| Filter.KeepWhereAll | src/utils/git.ts:142-148 | with no non-empty include or exclude list, every file is kept |
| Filter.FilterFilesIsKeepWhere | src/utils/git.ts:136-155 | the two successive `filter` calls equal a single filter by the combined test |
| Filter.KeepWhereIsSubsequence | src/utils/git.ts:140-154 | the kept files are an order-preserving subsequence of the input |
| Filter.KeepWhereIdempotent | src/utils/git.ts:140-154 | filtering twice equals filtering once |
| Filter.FilterFilesSpec | src/utils/git.ts:136-155 | filterFiles keeps exactly the passing files, as an order-preserving subsequence, and is idempotent |
| Tree.FindDir | src/utils/git.ts:171-173 | `find` returns a directory child with the path, or none exists |
| Tree.FindByPath | src/utils/git.ts:196-199 | the corrected lookup returns a directory with the path, or none exists |
| Tree.AddDirOk | src/utils/git.ts:175-183 | a new directory pushed onto its parent keeps the tree well formed and the counters of the files added so far |
| Tree.PushLeafOk | src/utils/git.ts:188 | pushing the file onto its own directory keeps the tree well formed, with the file recorded under that directory |
| Tree.CountsSnoc | src/utils/git.ts:188-200 | adding a file adds its per-file weight times its `changes` to each directory, as written and corrected |
| Tree.TopLevelFound | src/utils/git.ts:197-199 | looking up a top-level directory's path among the root's children finds that directory |
| Tree.FoundIsTopLevel | src/utils/git.ts:197-199 | whatever the lookup among the root's children finds is a top-level directory |
| Tree.UpAsWrittenDecreases | src/utils/git.ts:193-200 | each step of the walk as written moves to a directory of lower rank, so the `while` loop ends |
| Tree.UpCorrectedDecreases | src/utils/git.ts:193-200 | each step of the corrected walk moves to a shorter path, so the loop ends |
| Tree.WalkAsWrittenWeight | src/utils/git.ts:188-200 | the push plus the walk as written add to each directory exactly `AsWrittenWeight` times the amount: twice for the file's own directory, once for a top-level grandparent |
| Tree.WalkCorrectedAncestors | src/utils/git.ts:193-200 | the corrected walk from a directory reaches exactly that directory and its ancestors |
| Tree.WalkCorrectedWeight | src/utils/git.ts:188-200 | the push plus the corrected walk add the amount to each ancestor directory of the file, once, and to no other |
| Tree.TreeFacts | src/utils/git.ts:165-190 | the tree read back holds every file under its own directory, in input order; each file's directory is present; directory paths are unique; a child extends its parent by one segment; siblings differ; when the arena is occupied, no directory is without a file under it |
| Tree.OccupiedAfterAdd | src/utils/git.ts:165-201 | when one file is added and the arena only grew by directories above that file, every non-root directory still has some added file under it |
| Tree.OccupiedTree | src/utils/git.ts:157-207 | the tree read back from such an arena has no directory without a file under it, so the directories are exactly those the files need |
| Tree.AsWrittenTreeCounts | src/utils/git.ts:188-200 | the tree read back carries the as-written counters on every non-root directory |
| Tree.SubtreeTreeCounts | src/utils/git.ts:188-200 | the tree read back carries the subtree counters on every non-root directory |
| Tree.DirectoryArena.constructor | src/utils/git.ts:158-163 | the arena starts as the lone root `.` with zero counters and no children |
| Tree.DirectoryArena.NewDir | src/utils/git.ts:175-183 | creates the directory object and pushes it onto the children of the current directory |
| Tree.DirectoryArena.FindOrCreate | src/utils/git.ts:171-185 | the next directory on the descent has the target path; when a child of the current directory has that path the arena is unchanged and that child is next, otherwise exactly one directory with that path is created and pushed onto the current directory's children; the files and counters are unchanged |
| Tree.DirectoryArena.StepDown | src/utils/git.ts:170-185 | one step of the descent reaches the directory of the next path prefix and adds at most that directory, which lies above the file; existing directories keep their paths |
| Tree.DirectoryArena.Descend | src/utils/git.ts:166-186 | the descent ends at the directory whose path is the file's directory part, keeping the tree well formed; existing directories keep their paths and every directory it creates lies above the file |
| Tree.DirectoryArena.PushFile | src/utils/git.ts:188-190 | the file is appended to that directory's children and counted there once |
| Tree.DirectoryArena.NextUpAsWritten | src/utils/git.ts:196-199 | the next directory up is the root child with the directory part's path, else the root |
| Tree.DirectoryArena.NextUpCorrected | src/utils/git.ts:196-199 | the next directory up is the directory, among all, with the directory part's path, else the root |
| Tree.DirectoryArena.ClimbAsWritten | src/utils/git.ts:192-200 | the `while` loop adds the file's changes and one file to exactly the directories the walk as written visits |
| Tree.DirectoryArena.ClimbCorrected | src/utils/git.ts:192-200 | the corrected loop adds them to exactly the directories of the corrected walk |
| Tree.DirectoryArena.AddFile | src/utils/git.ts:165-201 | one iteration of the file loop as written keeps the tree well formed and the as-written counters of all files added; it creates only directories above the file, so no directory is without a file under it |
| Tree.DirectoryArena.AddFileCorrected | src/utils/git.ts:165-201 | one corrected iteration keeps the tree well formed and the subtree counters of all files added; it creates only directories above the file, so no directory is without a file under it |
| Tree.DirectoryArena.SetRootCounters | src/utils/git.ts:203-204 | overwrites only the root's counters |
| Tree.DirectoryArena.Snapshot | src/utils/git.ts:206 | reads the arena back as the tree rooted at the root object |
| Tree.BuildDirectoryTree | src/utils/git.ts:157-207 | the root is `.` with the sum of all `changes` and the number of files; the structure facts hold; every other directory has some file under it and carries `AsWrittenChanges`/`AsWrittenCount` |
| Tree.BuildDirectoryTreeCorrected | src/utils/git.ts:157-207 | the same tree, with every other directory having some file under it and carrying the changes and the number of the files under it |
| Tree.AsWrittenNested | src/utils/git.ts:188-199 | as written, a directory below the top level counts the files directly in it twice and no deeper file |
| Tree.DirectFilesDoubleCounted | src/utils/git.ts:188-195 | as written, a top-level directory holding only direct files carries twice their total and twice their number |
| Tree.DoubleCountExample | src/utils/git.ts:188-199 | `a/b.txt` (5) and `a/c.txt` (1) leave `a` with 12 changes and 4 files, where the files under it are 6 and 2 |
| Tree.DeepFileAsWritten | src/utils/git.ts:196-199 | as written, `a/b/c/d.txt` (3) adds 6 to `a/b/c` and nothing to `a/b` or `a` |
| Tree.DeepFileSubtree | src/utils/git.ts:196-199 | corrected, the same file adds 3 to each of `a`, `a/b` and `a/b/c` |
| Graph.Intensity | src/utils/graph.ts:14 | `Math.min(changes / maxChanges, 1)` lies in [0, 1] |
| Graph.IntensityShare | src/utils/graph.ts:14 | below the maximum the intensity is the share of the maximum; at or above it the intensity is 1 |
| Graph.Round | src/utils/graph.ts:79-81 | `Math.round` gives the integer within one half of its argument, halves rounded up |
| Graph.Segment | src/utils/graph.ts:73 | the anchor index lies in [0, 3] and is the segment of the ramp the intensity falls in |
| Graph.InterpolateBetween | src/utils/graph.ts:79-81 | a rounded interpolation lies between its two ends and equals them at 0 and 1 |
| Graph.HeatmapOnRamp | src/utils/graph.ts:73-81 | the local intensity lies in [0, 1], and the colour blends anchors `index` and `index + 1` by it |
| Graph.HeatmapBetween | src/utils/graph.ts:73-81 | each channel lies between the matching channels of the two anchors, hence in [0, 255] |
| Graph.HeatmapAtRamp | src/utils/graph.ts:65-81 | intensity k/4 gives anchor k exactly: blue at 0, red at 1 |
| Graph.LastSegment | src/utils/graph.ts:48 | `split('/').pop()` is the text after the last `/`, which holds no `/` |
| Graph.LabelParts | src/utils/graph.ts:19-48 | a label is never empty; a path without `/` is its own label; otherwise the directory part, `/` and the label give back the path |
| Graph.FileEdgeSource | src/utils/graph.ts:42-56 | the source of a file's edge is never empty |
| Graph.FileEdgeSourceIsDirName | src/utils/graph.ts:42-56 | for a well-formed path the edge source is the file's directory part |
| Graph.DirectoryNode | src/utils/graph.ts:14-24 | a directory node's size lies in [20, 70] |
| Graph.FileNode | src/utils/graph.ts:40-53 | a file node's size lies in [10, 40] |
| Graph.Top | src/utils/graph.ts:11 | `slice(0, maxFiles)` is the first `min(maxFiles, length)` files |
| Graph.EdgeCount | src/utils/graph.ts:26-34 | the directory walk emits one edge fewer than there are directories |
| Graph.GraphBuilder.constructor | src/utils/graph.ts:9-10 | both arrays start empty |
| Graph.GraphBuilder.AddDirectoryNode | src/utils/graph.ts:13-35 | appends one node per directory under `dir` in pre-order, and one edge per directory-subdirectory pair |
| Graph.GenerateGraphData | src/utils/graph.ts:3-62 | the pushes produce exactly the reference graph: directory nodes and edges, then one node and one edge per retained file |
| Graph.GraphCounts | src/utils/graph.ts:3-62 | nodes: directories + retained files; edges: directories - 1 + retained files |
| Graph.DirectoryNodesFirst | src/utils/graph.ts:13-37 | the first nodes are the directory nodes, one per directory in pre-order, with its path, total and size |
| Graph.FileNodesAfter | src/utils/graph.ts:39-53 | the remaining nodes are the retained files' nodes in the given order |
| Graph.RootFirst | src/utils/graph.ts:17-19 | the first node is the root, id `.`, label `root` |
| Graph.DirectoryEdgesLinked | src/utils/graph.ts:26-33 | every directory edge joins two emitted nodes, and its target's directory part is its source |
| Graph.FileEdgesLinked | src/utils/graph.ts:42-58 | for a tree built from the same files, every file edge joins two emitted nodes: none dangles |
| Graph.ColoursInRange | src/utils/graph.ts:23-52 | every node's colour has channels in [0, 255] |
| Analyze.MaxChanges | src/utils/git.ts:27 | the result is at least 0, at least every file's `changes`, and either 0 or some file's `changes` |
| Analyze.MaxChangesShown | src/utils/git.ts:27 | when every file changed at least once, the maximum is 0 exactly when there is no file, and it is attained otherwise |
| Analyze.SubsequenceSorted | src/utils/git.ts:133-155 | filtering a list sorted by `changes` leaves it sorted |
| Analyze.ShownFiles | src/utils/git.ts:24-26 | when the log's numstat paths are well formed, every shown file changed at least once and has a well-formed path |
| Analyze.KeepWhereWithChanges | src/utils/git.ts:133-155 | filtering and then taking the files with a given `changes` equals taking them and then filtering: the filter keeps the order of ties |
| Analyze.ShownTies | src/utils/git.ts:133-155 | among the filtered files, those with equal `changes` are the aggregated ones in first-seen order, filtered |
| Analyze.ShowFiles | src/utils/git.ts:22-25 | for any log text, the shown files are the aggregated statistics whose paths pass the filter, sorted by `changes`, files with equal `changes` in the order their paths were first seen; with no filter their `changes` add up to the record count; when the numstat paths are well formed, each shown file changed at least once and has a well-formed path |
| Analyze.AnalyzeRepository | src/utils/git.ts:21-40 | the shown files are the aggregated statistics whose paths pass the filter, sorted by `changes` with ties in first-seen order; the tree holds them, has no directory without a file under it, and carries the counts of the files under each directory; `maxChanges` is their largest `changes` (0 when none); `totalCommits` is the number of records, not of commits |
| Analyze.AnalyzedGraph | src/utils/graph.ts:3-62 | an analysis with some file meets generateGraphData's needs (`maxChanges` > 0, no negative total); its graph has a node per directory and per retained file, and no dangling edge |

## Left out

- Process I/O is not modelled. `getGitLog` and `validateRepository` (src/utils/git.ts:42-74, 209-214) spawn `git` and collect its output; the log text is a parameter of `GitLog.ParseGitLog` and `Analyze.AnalyzeRepository`. The `--since`/`--until` arguments are therefore not modelled either.
- Dates: `new Date(...)` parsing is a parameter `DateKey` (a time value, or none for an invalid date, which no comparison favours). The `dateRange` of `analyzeRepository` (src/utils/git.ts:28-38) is left out: it needs date formatting and the wall clock.
- `generateHTML` (src/utils/graph.ts:86-508), the HTTP server and the command line are user interface, outside this model.
- Graph.HeatmapColor: sizes, intensities and colours are exact rationals, not IEEE doubles. `Math.round` is `Floor(x + 1/2)`. The colour is an RGB triple, not the `rgb(r, g, b)` string.
- GitLog.MatchNumstat: `parseInt` is exact on any run of digits; the loss of precision of doubles for numbers beyond 2^53 is not modelled.
- Tree.BuildDirectoryTree: requires every path to be well formed. That means no empty segment, and no top-level directory named `.`, for which the walk up would never end. These are the paths git prints.
- Graph.GenerateGraphData: requires `maxChanges > 0`. With 0 the code divides 0 by 0 and yields NaN sizes and colours. It also requires `maxFiles >= 0` (a `nat`); a negative `maxFiles` makes `slice` count from the end.
- Tree.BuildDirectoryTree: the order of a directory's children (subdirectories and files interleaved in the order the walk first reached them) is kept in the arena but not stated in the contract; the contract states which files each directory holds, in input order, and which directories exist.
- Tree.BuildDirectoryTreeCorrected: requires every path to be well formed, for the same reason as `Tree.BuildDirectoryTree`.
- Tree.BuildDirectoryTreeCorrected: leaves the order of a directory's children unstated, as `Tree.BuildDirectoryTree` does; which files each directory holds, in input order, and which directories exist are stated.
- Analyze.AnalyzeRepository: uses `Tree.BuildDirectoryTreeCorrected` in place of the as-written builder (see Findings). It requires the numstat paths of the log to be well formed.
- Analyze.AnalyzeRepository: the order of the children of each directory in the returned tree is not stated (see `Tree.BuildDirectoryTreeCorrected`). The pre-order walk of `Graph.GenerateGraphData` visits the children in that order, so the order of the directory nodes of the graph is only known up to it.
- Graph.GenerateGraphData: the default `maxFiles = 100` of the parameter list (src/utils/graph.ts:7) is not modelled; `maxFiles` is always an explicit argument, as the command line passes it.

## Findings

| source | as written | input that shows it | evidently intended | confidence | as-written member | corrected member |
|---|---|---|---|---|---|---|
| src/utils/git.ts:188-199 | the file's own directory is counted at lines 189-190 and again on the first pass of the `while` loop; the next directory up is looked up only among the root's children, so ancestors deeper than the top level are skipped | files `a/b.txt` (5 changes) and `a/c.txt` (1): directory `a` ends with `totalChanges` 12 and `fileCount` 4; file `a/b/c/d.txt` (3) adds 6 to `a/b/c` and nothing to `a/b` or `a` | every directory carries the changes and the number of the files under it: 6 and 2 for `a`; 3 for each of `a`, `a/b` and `a/b/c` | not executed | Tree.BuildDirectoryTree, Tree.DoubleCountExample | Tree.BuildDirectoryTreeCorrected, Tree.DeepFileSubtree |
