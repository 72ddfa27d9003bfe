/**
 * Slash-separated repository paths as buildDirectoryTree and
 * generateGraphData read them: the directory part of a path, and the
 * directories a path lies under.
 */
module Paths {
  import opened Strings

  /**
   * The path names git prints for the files of a commit: no empty segment
   * (no leading, trailing or doubled `/`) and no top-level directory named
   * `.`. For these, node's `path.dirname` of every directory path is
   * `DirName`, and the ancestor walk of buildDirectoryTree terminates.
   */
  predicate WellFormed(p: string)
  {
    var parts := Split(p, '/');
    (forall k :: 0 <= k < |parts| ==> parts[k] != "") && (|parts| > 1 ==> parts[0] != ".")
  }

  /** The part of `p` before its last `/`, or `.` when `p` has none. */
  function DirName(p: string): (d: string)
    ensures '/' in p ==> |d| < |p|
  {
    if '/' in p then p[..LastIndexOf(p, '/')] else "."
  }

  /** The directory part of a path whose last `/` is at `k`. */
  lemma DirNameAt(p: string, k: nat)
    requires k < |p| && p[k] == '/' && forall m :: k < m < |p| ==> p[m] != '/'
    ensures DirName(p) == p[..k]
  {
    assert '/' in p by { assert p[k] == '/'; }
    var i := LastIndexOf(p, '/');
    forall m | i < m < |p| ensures p[m] != '/' {
      assert p[m] == p[i + 1..][m - i - 1];
    }
  }

  /** The directory `dir` contains `p` at some depth: `p` is `dir/…`. */
  predicate IsAncestorDir(dir: string, p: string)
  {
    |dir| < |p| && p[..|dir|] == dir && p[|dir|] == '/'
  }

  /**
   * The directories above `p` are its own directory and the directories
   * above that; a path without `/` lies under no directory.
   */
  lemma AncestorStep(dir: string, p: string)
    ensures '/' !in p ==> !IsAncestorDir(dir, p)
    ensures '/' in p ==> (IsAncestorDir(dir, p) <==> dir == DirName(p) || IsAncestorDir(dir, DirName(p)))
  {
    if '/' in p {
      var i := LastIndexOf(p, '/');
      var d := p[..i];
      if IsAncestorDir(dir, p) && |dir| < i {
        assert d[..|dir|] == dir && d[|dir|] == '/';
      }
      if IsAncestorDir(dir, d) {
        assert p[..|dir|] == d[..|dir|];
      }
    }
  }

  /** Joining the first `k` parts, a `/`, and the rest gives the whole join. */
  lemma {:induction false} JoinAt(parts: seq<string>, k: nat)
    requires 1 <= k < |parts|
    ensures Join(parts, '/') == Join(parts[..k], '/') + "/" + Join(parts[k..], '/')
    decreases |parts|
  {
    var n := |parts|;
    var init := parts[..n - 1];
    assert parts[..n - 1][..k] == parts[..k];
    if k == n - 1 {
      assert parts[k..] == [parts[k]];
    } else {
      JoinAt(init, k);
      assert parts[k..][..|parts[k..]| - 1] == init[k..];
    }
  }

  /** The `k + 1`-part prefix is the `k`-part prefix, a `/`, and part `k`. */
  lemma JoinNext(parts: seq<string>, k: nat)
    requires 1 <= k < |parts|
    ensures Join(parts[..k + 1], '/') == Join(parts[..k], '/') + "/" + parts[k]
  {
    assert parts[..k + 1][..k] == parts[..k];
  }

  /** A path is its `k`-part prefix, a `/`, and the rest, for every `k` short of all parts. */
  lemma PrefixStart(p: string, k: nat)
    requires 1 <= k < |Split(p, '/')|
    ensures var q := Join(Split(p, '/')[..k], '/');
      |q| < |p| && p[..|q|] == q && p[|q|] == '/'
  {
    var parts := Split(p, '/');
    JoinSplit(p, '/');
    JoinAt(parts, k);
  }

  /** The directory part of the `k + 1`-part prefix is the `k`-part prefix (`.` for k = 0). */
  lemma DirNameOfPrefix(parts: seq<string>, k: nat)
    requires k < |parts| && forall m :: 0 <= m < |parts| ==> '/' !in parts[m]
    ensures DirName(Join(parts[..k + 1], '/')) == if k == 0 then "." else Join(parts[..k], '/')
  {
    if k == 0 {
      assert parts[..1] == [parts[0]];
    } else {
      JoinNext(parts, k);
      LastSeparator(Join(parts[..k], '/'), parts[k], '/');
    }
  }

  /** The directory part of a path is its prefix without the last part. */
  lemma DirNameOfPath(p: string)
    ensures var parts := Split(p, '/');
      DirName(p) == if |parts| == 1 then "." else Join(parts[..|parts| - 1], '/')
  {
    var parts := Split(p, '/');
    if |parts| > 1 {
      var i := LastIndexOf(p, '/');
      assert parts[..|parts| - 1] == Split(p[..i], '/');
      JoinSplit(p[..i], '/');
    }
  }

  /** The whole path is the join of all its parts. */
  lemma WholePrefix(p: string)
    ensures Join(Split(p, '/')[..|Split(p, '/')|], '/') == p
  {
    JoinSplit(p, '/');
    assert Split(p, '/')[..|Split(p, '/')|] == Split(p, '/');
  }

  /** The `k`-th directory on the way down to `p`: `.` for k = 0, else the first `k` parts joined. */
  function PrefixDir(p: string, k: nat): string
    requires k < |Split(p, '/')|
  {
    if k == 0 then "." else Join(Split(p, '/')[..k], '/')
  }

  /**
   * Going one directory further down a well-formed path extends the
   * directory by one segment: its directory part is the previous one, it is
   * never `.`, and only the first has no `/`.
   */
  lemma PrefixDirStep(p: string, k: nat)
    requires WellFormed(p) && k + 1 < |Split(p, '/')|
    ensures DirName(PrefixDir(p, k + 1)) == PrefixDir(p, k)
    ensures PrefixDir(p, k + 1) != "."
    ensures k == 0 <==> '/' !in PrefixDir(p, k + 1)
  {
    var parts := Split(p, '/');
    DirNameOfPrefix(parts, k);
    if k == 0 {
      assert parts[..1] == [parts[0]];
      assert parts[0] != "." && |parts[0]| > 0;
    } else {
      JoinNext(parts, k);
      assert PrefixDir(p, k + 1)[|Join(parts[..k], '/')|] == '/';
    }
  }

  /** Every directory on the way down to `p` below the root is an ancestor directory of `p`. */
  lemma PrefixAncestor(p: string, k: nat)
    requires 1 <= k < |Split(p, '/')|
    ensures IsAncestorDir(PrefixDir(p, k), p)
  {
    PrefixStart(p, k);
  }

  /** The last directory on the way down to `p` is its directory part. */
  lemma PrefixDirLast(p: string)
    ensures PrefixDir(p, |Split(p, '/')| - 1) == DirName(p)
  {
    var parts := Split(p, '/');
    DirNameOfPath(p);
    assert PrefixDir(p, |parts| - 1) == if |parts| == 1 then "." else Join(parts[..|parts| - 1], '/');
  }

  /** The directory part of a well-formed path is `.` exactly when the path has no `/`. */
  lemma WellFormedDirName(p: string)
    requires WellFormed(p)
    ensures DirName(p) == "." <==> '/' !in p
  {
    var n := |Split(p, '/')|;
    PrefixDirLast(p);
    if n > 1 {
      PrefixDirStep(p, n - 2);
    }
  }
}
