/**
 * filterFiles (src/utils/git.ts:136-155): keeps the files whose path contains
 * one of the include patterns, when that option is given and non-empty, and
 * then drops those whose path contains one of the exclude patterns, when that
 * option is given and non-empty. Patterns are literal, case-sensitive
 * substrings.
 */
module Filter {
  import opened Types
  import Strings

  /** The `exclude` and `include` options; None where an option is absent. */
  datatype FilterOptions = FilterOptions(excludePatterns: Option<seq<string>>, includePatterns: Option<seq<string>>)

  /** `patterns.some(pattern => path.includes(pattern))` */
  predicate MatchesSome(path: string, patterns: seq<string>)
  {
    |patterns| > 0 && (Strings.Contains(path, patterns[0]) || MatchesSome(path, patterns[1..]))
  }

  /** `some` holds exactly when one of the patterns occurs in the path. */
  lemma {:induction false} MatchesSomeIff(path: string, patterns: seq<string>)
    ensures MatchesSome(path, patterns) <==> exists k :: 0 <= k < |patterns| && Strings.Contains(path, patterns[k])
  {
    if |patterns| > 0 {
      MatchesSomeIff(path, patterns[1..]);
      if exists k :: 0 <= k < |patterns| && Strings.Contains(path, patterns[k]) {
        var k :| 0 <= k < |patterns| && Strings.Contains(path, patterns[k]);
        if k > 0 {
          assert patterns[1..][k - 1] == patterns[k];
        }
      }
    }
  }

  /** `options.x && options.x.length > 0` */
  predicate Active(option: Option<seq<string>>)
  {
    option.Some? && |option.value| > 0
  }

  /** Whether a file with this path survives both rules. */
  predicate Kept(path: string, options: FilterOptions)
  {
    (!Active(options.includePatterns) || MatchesSome(path, options.includePatterns.value)) &&
    (!Active(options.excludePatterns) || !MatchesSome(path, options.excludePatterns.value))
  }

  /** `s` can be obtained from `t` by deleting elements. */
  predicate IsSubsequence(s: seq<FileChange>, t: seq<FileChange>)
  {
    if |s| == 0 then true
    else if |t| == 0 then false
    else if s[|s| - 1] == t[|t| - 1] then IsSubsequence(s[..|s| - 1], t[..|t| - 1])
    else IsSubsequence(s, t[..|t| - 1])
  }

  /** One `filter` pass: the files whose path matches some pattern exactly when `wanted`. */
  function KeepMatching(files: seq<FileChange>, patterns: seq<string>, wanted: bool): seq<FileChange>
  {
    if |files| == 0 then []
    else
      var last := files[|files| - 1];
      KeepMatching(files[..|files| - 1], patterns, wanted) + if MatchesSome(last.path, patterns) == wanted then [last] else []
  }

  /** The files that `Kept` accepts, in their order. */
  function KeepWhere(files: seq<FileChange>, options: FilterOptions): seq<FileChange>
  {
    if |files| == 0 then []
    else
      var last := files[|files| - 1];
      KeepWhere(files[..|files| - 1], options) + if Kept(last.path, options) then [last] else []
  }

  /** Every copy of an accepted file is kept, and nothing else. */
  lemma {:induction false} KeepWhereCounts(files: seq<FileChange>, options: FilterOptions)
    ensures forall f :: multiset(KeepWhere(files, options))[f] == if Kept(f.path, options) then multiset(files)[f] else 0
  {
    if |files| > 0 {
      var last := files[|files| - 1];
      KeepWhereCounts(files[..|files| - 1], options);
      assert files == files[..|files| - 1] + [last];
    }
  }

  /** filterFiles: the include pass, then the exclude pass. */
  function FilterFiles(files: seq<FileChange>, options: FilterOptions): seq<FileChange>
  {
    var included := if Active(options.includePatterns) then KeepMatching(files, options.includePatterns.value, true) else files;
    if Active(options.excludePatterns) then KeepMatching(included, options.excludePatterns.value, false) else included
  }

  lemma {:induction false} KeepMatchingBoth(files: seq<FileChange>, options: FilterOptions)
    requires Active(options.includePatterns) && Active(options.excludePatterns)
    ensures KeepMatching(KeepMatching(files, options.includePatterns.value, true), options.excludePatterns.value, false) == KeepWhere(files, options)
  {
    if |files| > 0 {
      var init := files[..|files| - 1];
      var last := files[|files| - 1];
      var incs, excs := options.includePatterns.value, options.excludePatterns.value;
      KeepMatchingBoth(init, options);
      var inc := KeepMatching(init, incs, true);
      assert files[..|files| - 1] == init;
      if MatchesSome(last.path, incs) {
        assert KeepMatching(files, incs, true) == inc + [last];
        assert (inc + [last])[..|inc|] == inc;
        assert KeepMatching(inc + [last], excs, false) ==
          KeepMatching(inc, excs, false) + if MatchesSome(last.path, excs) then [] else [last];
      } else {
        assert KeepMatching(files, incs, true) == inc;
      }
    }
  }

  lemma {:induction false} KeepMatchingOne(files: seq<FileChange>, options: FilterOptions, patterns: seq<string>, wanted: bool)
    requires
      if wanted then Active(options.includePatterns) && !Active(options.excludePatterns) && patterns == options.includePatterns.value
      else !Active(options.includePatterns) && Active(options.excludePatterns) && patterns == options.excludePatterns.value
    ensures KeepMatching(files, patterns, wanted) == KeepWhere(files, options)
  {
    if |files| > 0 {
      KeepMatchingOne(files[..|files| - 1], options, patterns, wanted);
    }
  }

  lemma {:induction false} KeepWhereAll(files: seq<FileChange>, options: FilterOptions)
    requires !Active(options.includePatterns) && !Active(options.excludePatterns)
    ensures KeepWhere(files, options) == files
  {
    if |files| > 0 {
      KeepWhereAll(files[..|files| - 1], options);
      assert files == files[..|files| - 1] + [files[|files| - 1]];
    }
  }

  /**
   * The two chained passes keep exactly the files `Kept` accepts, in their
   * order: the include and exclude rules combine as a conjunction, and an
   * absent or empty option keeps everything.
   */
  lemma FilterFilesIsKeepWhere(files: seq<FileChange>, options: FilterOptions)
    ensures FilterFiles(files, options) == KeepWhere(files, options)
  {
    if Active(options.includePatterns) && Active(options.excludePatterns) {
      KeepMatchingBoth(files, options);
    } else if Active(options.includePatterns) {
      KeepMatchingOne(files, options, options.includePatterns.value, true);
    } else if Active(options.excludePatterns) {
      KeepMatchingOne(files, options, options.excludePatterns.value, false);
    } else {
      KeepWhereAll(files, options);
    }
  }

  /** The kept files are a subsequence of the input: the filter never reorders. */
  lemma {:induction false} KeepWhereIsSubsequence(files: seq<FileChange>, options: FilterOptions)
    ensures IsSubsequence(KeepWhere(files, options), files)
  {
    if |files| > 0 {
      var init := files[..|files| - 1];
      var last := files[|files| - 1];
      var r := KeepWhere(init, options);
      KeepWhereIsSubsequence(init, options);
      assert files[..|files| - 1] == init;
      if Kept(last.path, options) {
        assert KeepWhere(files, options) == r + [last];
        assert (r + [last])[..|r|] == r;
      } else {
        assert KeepWhere(files, options) == r;
        if |r| > 0 {
          KeepWhereCounts(init, options);
          assert multiset(r)[r[|r| - 1]] > 0;
          assert Kept(r[|r| - 1].path, options);
          assert r[|r| - 1] != last;
        }
      }
    }
  }

  lemma {:induction false} KeepWhereIdempotent(files: seq<FileChange>, options: FilterOptions)
    ensures KeepWhere(KeepWhere(files, options), options) == KeepWhere(files, options)
  {
    if |files| > 0 {
      var init := files[..|files| - 1];
      var last := files[|files| - 1];
      var r := KeepWhere(init, options);
      KeepWhereIdempotent(init, options);
      assert files[..|files| - 1] == init;
      if Kept(last.path, options) {
        assert KeepWhere(files, options) == r + [last];
        assert (r + [last])[..|r|] == r;
      } else {
        assert KeepWhere(files, options) == r;
      }
    }
  }

  /**
   * filterFiles keeps a file exactly when the include rule (absent, empty, or
   * some pattern occurs in the path) and the exclude rule (absent, empty, or
   * no pattern occurs in the path) both accept it, keeps every copy of such a
   * file, never reorders, and filtering twice is filtering once.
   */
  lemma FilterFilesSpec(files: seq<FileChange>, options: FilterOptions)
    ensures var r := FilterFiles(files, options);
      (forall f :: multiset(r)[f] == if Kept(f.path, options) then multiset(files)[f] else 0) &&
      IsSubsequence(r, files) &&
      FilterFiles(r, options) == r
  {
    FilterFilesIsKeepWhere(files, options);
    FilterFilesIsKeepWhere(FilterFiles(files, options), options);
    KeepWhereCounts(files, options);
    KeepWhereIsSubsequence(files, options);
    KeepWhereIdempotent(files, options);
  }
}
