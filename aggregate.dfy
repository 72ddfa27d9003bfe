/**
 * aggregateFileChanges (src/utils/git.ts:106-134): folds the log entries into
 * one FileChange per path, in a Map that keeps insertion order, and returns
 * its values sorted by `changes`, largest first, with a stable sort.
 */
module Aggregate {
  import opened Types

  /**
   * How `new Date(d)` reads a date string: its time value, or None where the
   * result is an invalid date (NaN).
   */
  type DateKey = string -> Option<int>

  /** `new Date(d) > new Date(cur)`; any comparison with NaN is false. */
  predicate Later(key: DateKey, d: string, cur: string)
  {
    key(d).Some? && key(cur).Some? && key(d).value > key(cur).value
  }

  predicate NoDuplicates<T(==)>(xs: seq<T>)
  {
    forall i, j :: 0 <= i < j < |xs| ==> xs[i] != xs[j]
  }

  /** Position of the first occurrence of `x` in `xs`. */
  function IndexOf<T(==)>(xs: seq<T>, x: T): (i: nat)
    requires x in xs
    ensures i < |xs| && xs[i] == x && x !in xs[..i]
  {
    if xs[0] == x then 0
    else
      var i := IndexOf(xs[1..], x);
      assert xs[..i + 1] == [xs[0]] + xs[1..][..i];
      1 + i
  }

  /** The first occurrence of `x` in a prefix is its first occurrence in the whole. */
  lemma IndexOfPrefix<T>(xs: seq<T>, n: nat, x: T)
    requires n <= |xs| && x in xs[..n]
    ensures x in xs && IndexOf(xs, x) == IndexOf(xs[..n], x)
  {
    var i := IndexOf(xs[..n], x);
    assert xs[..n][..i] == xs[..i];
  }

  /**
   * The distinct values of `xs`, each once: what `if (!list.includes(x))
   * list.push(x)` builds. DedupFirstSeenOrder states their order.
   */
  function Dedup<T(==,!new)>(xs: seq<T>): (r: seq<T>)
    ensures NoDuplicates(r)
    ensures forall x :: x in r <==> x in xs
  {
    if |xs| == 0 then []
    else
      var d := Dedup(xs[..|xs| - 1]);
      var x := xs[|xs| - 1];
      assert xs == xs[..|xs| - 1] + [x];
      if x in d then d else d + [x]
  }

  /** Dedup lists the values in the order of their first occurrence in `xs`. */
  lemma {:induction false} DedupFirstSeenOrder<T(!new)>(xs: seq<T>)
    ensures forall i, j :: 0 <= i < j < |Dedup(xs)| ==> IndexOf(xs, Dedup(xs)[i]) < IndexOf(xs, Dedup(xs)[j])
  {
    if |xs| > 0 {
      var init := xs[..|xs| - 1];
      var d := Dedup(init);
      var x := xs[|xs| - 1];
      DedupFirstSeenOrder(init);
      assert xs == init + [x];
      forall y | y in d ensures IndexOf(xs, y) == IndexOf(init, y) < |init| {
        IndexOfPrefix(xs, |init|, y);
      }
      if x !in d {
        assert xs[..|init|] == init;
        assert IndexOf(xs, x) == |init|;
      }
    }
  }

  lemma DedupSnoc<T(!new)>(xs: seq<T>, x: T)
    ensures Dedup(xs + [x]) == if x in Dedup(xs) then Dedup(xs) else Dedup(xs) + [x]
  {
    assert (xs + [x])[..|xs|] == xs;
  }

  function Paths(entries: seq<LogEntry>): (ps: seq<string>)
    ensures |ps| == |entries| && forall k :: 0 <= k < |entries| ==> ps[k] == entries[k].path
  {
    seq(|entries|, k requires 0 <= k < |entries| => entries[k].path)
  }

  function Authors(rs: seq<LogEntry>): (as_: seq<string>)
    ensures |as_| == |rs| && forall k :: 0 <= k < |rs| ==> as_[k] == rs[k].author
  {
    seq(|rs|, k requires 0 <= k < |rs| => rs[k].author)
  }

  /** The entries that touch `path`, in log order. */
  function RecordsOf(entries: seq<LogEntry>, path: string): (rs: seq<LogEntry>)
    ensures |rs| <= |entries|
    ensures forall k :: 0 <= k < |rs| ==> rs[k].path == path
    ensures path in Paths(entries) <==> |rs| > 0
  {
    if |entries| == 0 then []
    else
      var init := RecordsOf(entries[..|entries| - 1], path);
      assert Paths(entries) == Paths(entries[..|entries| - 1]) + [entries[|entries| - 1].path];
      if entries[|entries| - 1].path == path then init + [entries[|entries| - 1]] else init
  }

  /** Extending the log by one entry extends that entry's path's records by it and no other's. */
  lemma RecordsOfSnoc(prefix: seq<LogEntry>, e: LogEntry, p: string)
    ensures RecordsOf(prefix + [e], p) == if e.path == p then RecordsOf(prefix, p) + [e] else RecordsOf(prefix, p)
    ensures Paths(prefix + [e]) == Paths(prefix) + [e.path]
  {
    assert (prefix + [e])[..|prefix|] == prefix;
  }

  function SumInsertions(rs: seq<LogEntry>): nat
  {
    if |rs| == 0 then 0 else SumInsertions(rs[..|rs| - 1]) + rs[|rs| - 1].insertions
  }

  function SumDeletions(rs: seq<LogEntry>): nat
  {
    if |rs| == 0 then 0 else SumDeletions(rs[..|rs| - 1]) + rs[|rs| - 1].deletions
  }

  /**
   * The date `lastModified` ends with: the first date, replaced in turn by
   * every one that `Later` finds strictly later than the current.
   */
  function LatestDate(key: DateKey, rs: seq<LogEntry>): string
  {
    if |rs| == 0 then ""
    else if |rs| == 1 then rs[0].date
    else
      var cur := LatestDate(key, rs[..|rs| - 1]);
      if Later(key, rs[|rs| - 1].date, cur) then rs[|rs| - 1].date else cur
  }

  /**
   * `lastModified` is one of the path's dates. When the first date reads as
   * NaN nothing ever replaces it; otherwise it is a latest of the dates that
   * read as a number.
   */
  lemma {:induction false} LatestDateIsLatest(key: DateKey, rs: seq<LogEntry>)
    requires |rs| > 0
    ensures exists k :: 0 <= k < |rs| && rs[k].date == LatestDate(key, rs)
    ensures key(rs[0].date).None? ==> LatestDate(key, rs) == rs[0].date
    ensures key(rs[0].date).Some? ==>
      (key(LatestDate(key, rs)).Some? &&
       forall k :: 0 <= k < |rs| && key(rs[k].date).Some? ==> key(rs[k].date).value <= key(LatestDate(key, rs)).value)
  {
    if |rs| == 1 {
      assert rs[0].date == LatestDate(key, rs);
    } else {
      var init := rs[..|rs| - 1];
      var last := |rs| - 1;
      LatestDateIsLatest(key, init);
      assert init[0] == rs[0];
      var j :| 0 <= j < |init| && init[j].date == LatestDate(key, init);
      if Later(key, rs[last].date, LatestDate(key, init)) {
        assert rs[last].date == LatestDate(key, rs);
      } else {
        assert rs[j].date == LatestDate(key, rs);
      }
    }
  }

  /**
   * Among dates with the same latest time the first one seen is kept: only
   * a strictly later date replaces `lastModified`, so every entry before the
   * one whose date is kept reads as NaN or as an earlier time.
   */
  lemma {:induction false} LatestDateFirstOfLatest(key: DateKey, rs: seq<LogEntry>) returns (k: nat)
    requires |rs| > 0 && key(rs[0].date).Some?
    ensures k < |rs| && rs[k].date == LatestDate(key, rs) && key(rs[k].date).Some?
    ensures forall j :: 0 <= j < k ==> key(rs[j].date).None? || key(rs[j].date).value < key(rs[k].date).value
  {
    if |rs| == 1 {
      k := 0;
    } else {
      var init := rs[..|rs| - 1];
      var last := |rs| - 1;
      assert init[0] == rs[0];
      k := LatestDateFirstOfLatest(key, init);
      LatestDateIsLatest(key, init);
      if Later(key, rs[last].date, LatestDate(key, init)) {
        forall j | 0 <= j < last && key(rs[j].date).Some?
          ensures key(rs[j].date).value < key(rs[last].date).value
        {
          assert rs[j] == init[j];
        }
        k := last;
      } else {
        forall j | 0 <= j < k ensures key(rs[j].date).None? || key(rs[j].date).value < key(rs[k].date).value {
          assert rs[j] == init[j];
        }
        assert rs[k] == init[k];
      }
    }
  }

  /**
   * The reference statistics of one path: the number of its entries, their
   * summed insertions and deletions, their latest date and their distinct
   * authors in first-seen order.
   */
  function StatOf(entries: seq<LogEntry>, path: string, key: DateKey): FileChange
  {
    var rs := RecordsOf(entries, path);
    FileChange(path, |rs|, SumInsertions(rs), SumDeletions(rs), LatestDate(key, rs), Dedup(Authors(rs)))
  }

  /** The entry `fileMap.set` stores for a path seen for the first time. */
  function FirstStat(e: LogEntry): FileChange
  {
    FileChange(e.path, 1, e.insertions, e.deletions, e.date, [e.author])
  }

  /** What the loop body does to the entry for a path it has seen: `existing.changes++` and the rest. */
  function Accumulate(existing: FileChange, e: LogEntry, key: DateKey): FileChange
  {
    existing.(
      changes := existing.changes + 1,
      insertions := existing.insertions + e.insertions,
      deletions := existing.deletions + e.deletions,
      authors := if e.author in existing.authors then existing.authors else existing.authors + [e.author],
      lastModified := if Later(key, e.date, existing.lastModified) then e.date else existing.lastModified)
  }

  lemma StatOfOther(prefix: seq<LogEntry>, e: LogEntry, p: string, key: DateKey)
    requires p in Paths(prefix) && p != e.path
    ensures p in Paths(prefix + [e]) && StatOf(prefix + [e], p, key) == StatOf(prefix, p, key)
  {
    RecordsOfSnoc(prefix, e, p);
  }

  /** The sums and the latest date of a path's records, extended by one more record. */
  lemma RecordsSnoc(rs: seq<LogEntry>, e: LogEntry, key: DateKey)
    requires |rs| > 0
    ensures SumInsertions(rs + [e]) == SumInsertions(rs) + e.insertions
    ensures SumDeletions(rs + [e]) == SumDeletions(rs) + e.deletions
    ensures LatestDate(key, rs + [e]) == if Later(key, e.date, LatestDate(key, rs)) then e.date else LatestDate(key, rs)
  {
    assert (rs + [e])[..|rs|] == rs;
  }

  /** The distinct authors of a path's records, extended by one more record. */
  lemma AuthorsSnoc(rs: seq<LogEntry>, e: LogEntry)
    ensures Dedup(Authors(rs + [e])) == if e.author in Dedup(Authors(rs)) then Dedup(Authors(rs)) else Dedup(Authors(rs)) + [e.author]
  {
    assert Authors(rs + [e]) == Authors(rs) + [e.author];
    DedupSnoc(Authors(rs), e.author);
  }

  lemma StatOfSeen(prefix: seq<LogEntry>, e: LogEntry, key: DateKey)
    requires e.path in Paths(prefix)
    ensures StatOf(prefix + [e], e.path, key) == Accumulate(StatOf(prefix, e.path, key), e, key)
  {
    RecordsOfSnoc(prefix, e, e.path);
    RecordsSnoc(RecordsOf(prefix, e.path), e, key);
    AuthorsSnoc(RecordsOf(prefix, e.path), e);
  }

  /** The statistics of a single record. */
  lemma SingleRecord(e: LogEntry, key: DateKey)
    ensures SumInsertions([e]) == e.insertions && SumDeletions([e]) == e.deletions
    ensures LatestDate(key, [e]) == e.date
    ensures Dedup(Authors([e])) == [e.author]
  {
    assert [e][..0] == [];
    assert Authors([e]) == [e.author];
    assert [e.author][..0] == [];
  }

  lemma StatOfFirst(prefix: seq<LogEntry>, e: LogEntry, key: DateKey)
    requires e.path !in Paths(prefix)
    ensures e.path in Paths(prefix + [e])
    ensures StatOf(prefix + [e], e.path, key) == FirstStat(e)
  {
    RecordsOfSnoc(prefix, e, e.path);
    assert RecordsOf(prefix + [e], e.path) == [e];
    SingleRecord(e, key);
  }

  /** The Map of the loop: its keys in insertion order and its entries. */
  datatype Tally = Tally(order: seq<string>, stats: map<string, FileChange>)

  /** The loop of aggregateFileChanges as a fold over the log, one entry at a time. */
  function FoldEntries(entries: seq<LogEntry>, key: DateKey): Tally
  {
    if |entries| == 0 then Tally([], map[])
    else
      var t := FoldEntries(entries[..|entries| - 1], key);
      var e := entries[|entries| - 1];
      if e.path in t.stats then Tally(t.order, t.stats[e.path := Accumulate(t.stats[e.path], e, key)])
      else Tally(t.order + [e.path], t.stats[e.path := FirstStat(e)])
  }

  /**
   * Folding the log entry by entry lists the paths of the log once each, in
   * first-seen order, and holds for every one of them the statistics of that
   * path's own entries.
   */
  lemma {:induction false} FoldEntriesIsStats(entries: seq<LogEntry>, key: DateKey)
    ensures FoldEntries(entries, key).order == Dedup(Paths(entries))
    ensures forall p :: p in FoldEntries(entries, key).stats <==> p in Paths(entries)
    ensures forall p :: p in FoldEntries(entries, key).stats ==> FoldEntries(entries, key).stats[p] == StatOf(entries, p, key)
  {
    if |entries| > 0 {
      var prefix := entries[..|entries| - 1];
      var e := entries[|entries| - 1];
      assert entries == prefix + [e];
      FoldEntriesIsStats(prefix, key);
      RecordsOfSnoc(prefix, e, e.path);
      DedupSnoc(Paths(prefix), e.path);
      var t := FoldEntries(prefix, key);
      var t' := FoldEntries(entries, key);
      forall p | p in t'.stats ensures t'.stats[p] == StatOf(entries, p, key) {
        if p != e.path {
          StatOfOther(prefix, e, p, key);
        } else if e.path in t.stats {
          StatOfSeen(prefix, e, key);
        } else {
          StatOfFirst(prefix, e, key);
        }
      }
    }
  }

  /**
   * One FileChange per distinct path, in first-seen order (the Map's order):
   * the paths are those of the log, each once, and every file was changed at
   * least once and at most once per entry.
   */
  function FirstSeenStats(entries: seq<LogEntry>, key: DateKey): (fs: seq<FileChange>)
    ensures |fs| == |Dedup(Paths(entries))| && forall k :: 0 <= k < |fs| ==> fs[k].path == Dedup(Paths(entries))[k]
    ensures forall k :: 0 <= k < |fs| ==> fs[k] == StatOf(entries, fs[k].path, key)
    ensures forall k :: 0 <= k < |fs| ==> 1 <= fs[k].changes <= |entries|
  {
    var ps := Dedup(Paths(entries));
    seq(|ps|, k requires 0 <= k < |ps| => StatOf(entries, ps[k], key))
  }

  predicate SortedByChanges(fs: seq<FileChange>)
  {
    forall i, j :: 0 <= i < j < |fs| ==> fs[i].changes >= fs[j].changes
  }

  /** The files of `fs` whose `changes` is `c`, in their order in `fs`. */
  function WithChanges(fs: seq<FileChange>, c: int): seq<FileChange>
  {
    if |fs| == 0 then []
    else WithChanges(fs[..|fs| - 1], c) + (if fs[|fs| - 1].changes == c then [fs[|fs| - 1]] else [])
  }

  lemma {:induction false} WithChangesConcat(a: seq<FileChange>, b: seq<FileChange>, c: int)
    ensures WithChanges(a + b, c) == WithChanges(a, c) + WithChanges(b, c)
    decreases |b|
  {
    if |b| == 0 {
      assert a + b == a;
    } else {
      assert (a + b)[..|a + b| - 1] == a + b[..|b| - 1];
      WithChangesConcat(a, b[..|b| - 1], c);
    }
  }

  lemma {:induction false} WithChangesNone(fs: seq<FileChange>, c: int)
    requires forall k :: 0 <= k < |fs| ==> fs[k].changes != c
    ensures WithChanges(fs, c) == []
  {
    if |fs| > 0 {
      WithChangesNone(fs[..|fs| - 1], c);
    }
  }

  /** Where `x` goes: after the longest prefix whose `changes` are all at least `x.changes`. */
  function InsertPoint(r: seq<FileChange>, x: FileChange): (k: nat)
    ensures k <= |r|
    ensures forall m :: 0 <= m < k ==> r[m].changes >= x.changes
    ensures k < |r| ==> r[k].changes < x.changes
  {
    if |r| == 0 || r[0].changes < x.changes then 0 else 1 + InsertPoint(r[1..], x)
  }

  /** Inserting `x` at its insert point keeps each group of equal `changes` in order, `x` last in its own. */
  lemma InsertKeepsGroups(r: seq<FileChange>, k: nat, x: FileChange, c: int)
    requires k <= |r| && SortedByChanges(r)
    requires forall m :: 0 <= m < k ==> r[m].changes >= x.changes
    requires k < |r| ==> r[k].changes < x.changes
    ensures WithChanges(r[..k] + [x] + r[k..], c) == WithChanges(r, c) + (if x.changes == c then [x] else [])
  {
    assert r == r[..k] + r[k..];
    WithChangesConcat(r[..k], r[k..], c);
    WithChangesConcat(r[..k] + [x], r[k..], c);
    WithChangesConcat(r[..k], [x], c);
    assert WithChanges([x], c) == (if x.changes == c then [x] else []) by {
      assert [x][..0] == [];
    }
    if x.changes == c {
      WithChangesNone(r[k..], c);
    }
  }

  /** Inserting `x` at its insert point keeps the order and adds `x` to the multiset. */
  lemma InsertSorted(r: seq<FileChange>, k: nat, x: FileChange)
    requires k <= |r| && SortedByChanges(r)
    requires forall m :: 0 <= m < k ==> r[m].changes >= x.changes
    requires k < |r| ==> r[k].changes < x.changes
    ensures SortedByChanges(r[..k] + [x] + r[k..])
  {
    var r' := r[..k] + [x] + r[k..];
    forall i, j | 0 <= i < j < |r'| ensures r'[i].changes >= r'[j].changes {
      if j < k {
        assert r'[i] == r[i] && r'[j] == r[j];
      } else if j == k {
        assert r'[i] == r[i];
      } else if i == k {
        assert r'[j] == r[j - 1];
      } else if i < k {
        assert r'[i] == r[i] && r'[j] == r[j - 1];
      } else {
        assert r'[i] == r[i - 1] && r'[j] == r[j - 1];
      }
    }
  }

  /** One step of the insertion sort: `x` placed after every element with at least its `changes`. */
  function InsertByChanges(r: seq<FileChange>, x: FileChange): (r': seq<FileChange>)
    requires SortedByChanges(r)
    ensures SortedByChanges(r')
    ensures multiset(r') == multiset(r) + multiset{x}
    ensures forall c :: WithChanges(r', c) == WithChanges(r, c) + (if x.changes == c then [x] else [])
  {
    var k := InsertPoint(r, x);
    InsertSorted(r, k, x);
    assert r == r[..k] + r[k..];
    assert forall c :: WithChanges(r[..k] + [x] + r[k..], c) == WithChanges(r, c) + (if x.changes == c then [x] else []) by {
      forall c ensures WithChanges(r[..k] + [x] + r[k..], c) == WithChanges(r, c) + (if x.changes == c then [x] else []) {
        InsertKeepsGroups(r, k, x, c);
      }
    }
    r[..k] + [x] + r[k..]
  }

  /**
   * The stable sort `sort((a, b) => b.changes - a.changes)`: the result is
   * ordered by `changes`, largest first, is a permutation of the input, and
   * lists the files of each `changes` value in their input order.
   */
  function SortByChanges(s: seq<FileChange>): (r: seq<FileChange>)
    ensures SortedByChanges(r)
    ensures multiset(r) == multiset(s)
    ensures forall c :: WithChanges(r, c) == WithChanges(s, c)
  {
    if |s| == 0 then []
    else
      assert s == s[..|s| - 1] + [s[|s| - 1]];
      InsertByChanges(SortByChanges(s[..|s| - 1]), s[|s| - 1])
  }

  /** How many entries touch the paths of `ps`, counted path by path. */
  function RecordCount(entries: seq<LogEntry>, ps: seq<string>): nat
  {
    if |ps| == 0 then 0 else RecordCount(entries, ps[..|ps| - 1]) + |RecordsOf(entries, ps[|ps| - 1])|
  }

  lemma {:induction false} RecordCountSnoc(prefix: seq<LogEntry>, e: LogEntry, ps: seq<string>)
    requires NoDuplicates(ps)
    ensures RecordCount(prefix + [e], ps) == RecordCount(prefix, ps) + if e.path in ps then 1 else 0
  {
    if |ps| > 0 {
      var init := ps[..|ps| - 1];
      assert ps == init + [ps[|ps| - 1]];
      RecordCountSnoc(prefix, e, init);
      RecordsOfSnoc(prefix, e, ps[|ps| - 1]);
    }
  }

  /** Every entry is counted once under its own path. */
  lemma {:induction false} RecordCountAll(entries: seq<LogEntry>)
    ensures RecordCount(entries, Dedup(Paths(entries))) == |entries|
  {
    if |entries| > 0 {
      var prefix := entries[..|entries| - 1];
      var e := entries[|entries| - 1];
      assert entries == prefix + [e];
      RecordCountAll(prefix);
      RecordsOfSnoc(prefix, e, e.path);
      DedupSnoc(Paths(prefix), e.path);
      var ps := Dedup(Paths(prefix));
      RecordCountSnoc(prefix, e, ps);
      if e.path !in ps {
        assert (ps + [e.path])[..|ps|] == ps;
      }
    }
  }

  /** Files that are the reference statistics of `ps` have as many changes as `ps` has entries. */
  lemma {:induction false} SumChangesOfStats(entries: seq<LogEntry>, key: DateKey, fs: seq<FileChange>, ps: seq<string>)
    requires |fs| == |ps| && forall k :: 0 <= k < |fs| ==> fs[k] == StatOf(entries, ps[k], key)
    ensures SumChanges(fs) == RecordCount(entries, ps)
  {
    if |fs| > 0 {
      SumChangesOfStats(entries, key, fs[..|fs| - 1], ps[..|ps| - 1]);
    }
  }

  /**
   * Each entry adds one to the `changes` of exactly one file, so the files'
   * changes add up to the number of entries.
   */
  lemma SumChangesIsEntryCount(entries: seq<LogEntry>, key: DateKey)
    ensures SumChanges(FirstSeenStats(entries, key)) == |entries|
  {
    var fs := FirstSeenStats(entries, key);
    SumChangesOfStats(entries, key, fs, Dedup(Paths(entries)));
    RecordCountAll(entries);
  }

  lemma {:induction false} SumChangesRemove(b: seq<FileChange>, i: nat)
    requires i < |b|
    ensures SumChanges(b) == SumChanges(b[..i] + b[i + 1..]) + b[i].changes
    decreases |b|
  {
    var n := |b| - 1;
    if i < n {
      var b' := b[..i] + b[i + 1..];
      SumChangesRemove(b[..n], i);
      assert b[..n][..i] + b[..n][i + 1..] == b'[..|b'| - 1];
      assert b'[|b'| - 1] == b[n];
    } else {
      assert b[..i] + b[i + 1..] == b[..n];
    }
  }

  lemma MultisetRemove(b: seq<FileChange>, i: nat)
    requires i < |b|
    ensures multiset(b[..i] + b[i + 1..]) == multiset(b) - multiset{b[i]}
  {
    assert b == b[..i] + [b[i]] + b[i + 1..];
  }

  /** Reordering the files does not change their summed `changes`. */
  lemma {:induction false} SumChangesPermutation(a: seq<FileChange>, b: seq<FileChange>)
    requires multiset(a) == multiset(b)
    ensures SumChanges(a) == SumChanges(b)
    decreases |a|
  {
    if |a| == 0 {
      assert |b| == |multiset(b)| == 0;
    } else {
      var n := |a| - 1;
      var x := a[n];
      assert x in multiset(a);
      var i :| 0 <= i < |b| && b[i] == x;
      var a', b' := a[..n], b[..i] + b[i + 1..];
      MultisetRemove(b, i);
      MultisetRemove(a, n);
      assert a[..n] + a[n + 1..] == a';
      assert multiset(a') == multiset(b');
      SumChangesPermutation(a', b');
      SumChangesRemove(b, i);
      assert SumChanges(a) == SumChanges(a') + x.changes;
    }
  }

  /**
   * aggregateFileChanges: the map is updated in place per entry, then its
   * values, in insertion order, are sorted. Each file's statistics are those
   * of its path's entries; the result is ordered by `changes`, largest first,
   * and each group of equal `changes` keeps the first-seen order of the paths.
   */
  method AggregateFileChanges(entries: seq<LogEntry>, key: DateKey) returns (files: seq<FileChange>)
    ensures SortedByChanges(files)
    ensures multiset(files) == multiset(FirstSeenStats(entries, key))
    ensures forall c :: WithChanges(files, c) == WithChanges(FirstSeenStats(entries, key), c)
    ensures SumChanges(files) == |entries|
  {
    var order: seq<string> := [];
    var fileMap: map<string, FileChange> := map[];
    for i := 0 to |entries|
      invariant Tally(order, fileMap) == FoldEntries(entries[..i], key)
    {
      var entry := entries[i];
      assert entries[..i + 1][..i] == entries[..i];
      if entry.path in fileMap {
        var existing := fileMap[entry.path];
        var authors := existing.authors;
        if entry.author !in authors {
          authors := authors + [entry.author];
        }
        var lastModified := existing.lastModified;
        if Later(key, entry.date, existing.lastModified) {
          lastModified := entry.date;
        }
        fileMap := fileMap[entry.path := existing.(
          changes := existing.changes + 1,
          insertions := existing.insertions + entry.insertions,
          deletions := existing.deletions + entry.deletions,
          authors := authors,
          lastModified := lastModified)];
      } else {
        order := order + [entry.path];
        fileMap := fileMap[entry.path := FileChange(entry.path, 1, entry.insertions, entry.deletions, entry.date, [entry.author])];
      }
    }
    assert entries[..|entries|] == entries;
    FoldEntriesIsStats(entries, key);
    var values := seq(|order|, k requires 0 <= k < |order| => fileMap[order[k]]);
    assert values == FirstSeenStats(entries, key);
    files := SortByChanges(values);
    SumChangesIsEntryCount(entries, key);
    SumChangesPermutation(files, values);
  }
}
