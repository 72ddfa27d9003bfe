/**
 * The records the pipeline passes between its stages: the raw `git log`
 * entry, the per-file statistics, the directory tree and the graph handed to
 * the renderer (src/types.ts and the GitLogEntry interface of src/utils/git.ts).
 */
module Types {

  datatype Option<+T> = None | Some(value: T)

  /** One file touched by one commit, as read from `git log --numstat`. */
  datatype LogEntry = LogEntry(path: string, insertions: nat, deletions: nat, author: string, date: string)

  /**
   * The statistics of one file path: how many records touched it, the summed
   * line counts, the date of its latest change and its authors in the order
   * they were first seen.
   */
  datatype FileChange = FileChange(
    path: string,
    changes: int,
    insertions: int,
    deletions: int,
    lastModified: string,
    authors: seq<string>)

  /** The summed `changes` of `files`: `files.reduce((sum, f) => sum + f.changes, 0)`. */
  function SumChanges(files: seq<FileChange>): int
  {
    if |files| == 0 then 0 else SumChanges(files[..|files| - 1]) + files[|files| - 1].changes
  }

  /**
   * A node of the directory tree: a directory with its counters and its
   * children, or a file leaf. A directory is what `'children' in c` tests for.
   */
  datatype Node =
    | Dir(path: string, totalChanges: int, fileCount: int, children: seq<Node>)
    | File(file: FileChange)

  /** The colour of a graph node, one 0..255 value per channel. */
  datatype Rgb = Rgb(r: int, g: int, b: int)

  datatype NodeKind = DirectoryKind | FileKind

  /** A node of the rendered graph (`caption` is its label); `size` is an exact rational here. */
  datatype GraphNode = GraphNode(id: string, caption: string, changes: int, kind: NodeKind, size: real, color: Rgb)

  datatype GraphEdge = GraphEdge(source: string, target: string)

  datatype GraphData = GraphData(nodes: seq<GraphNode>, edges: seq<GraphEdge>)

  /** The result of one analysis run, without its date range. */
  datatype HeatmapData = HeatmapData(files: seq<FileChange>, directories: Node, maxChanges: int, totalCommits: nat)
}
