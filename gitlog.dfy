/**
 * parseGitLog (src/utils/git.ts:76-104): reads the output of
 * `git log --format=%H|%an|%aI --numstat` line by line. A line holding `|`
 * is a commit header and, when it has at least three `|`-fields, sets the
 * current author and date; any other non-blank line that matches
 * `^(\d+)\s+(\d+)\s+(.+)$` is a file-change record of the current commit.
 */
module GitLog {
  import opened Strings
  import opened Types

  /** The three groups of a numstat line: inserted lines, deleted lines, trimmed path. */
  datatype Numstat = Numstat(insertions: nat, deletions: nat, path: string)

  predicate AllDigits(s: string)
  {
    forall k :: 0 <= k < |s| ==> IsDigit(s[k])
  }

  predicate AllWhitespace(s: string)
  {
    forall k :: 0 <= k < |s| ==> IsWhitespace(s[k])
  }

  predicate NoLineTerminator(s: string)
  {
    forall k :: 0 <= k < |s| ==> !IsLineTerminator(s[k])
  }

  /** End of the longest run of digits starting at `i`. */
  function DigitRunEnd(s: string, i: nat): (j: nat)
    requires i <= |s|
    ensures i <= j <= |s| && AllDigits(s[i..j])
    ensures j == |s| || !IsDigit(s[j])
    decreases |s| - i
  {
    if i < |s| && IsDigit(s[i]) then
      var j := DigitRunEnd(s, i + 1);
      assert s[i..j] == [s[i]] + s[i + 1..j];
      j
    else i
  }

  /** End of the longest run of `\s` characters starting at `i`. */
  function WhitespaceRunEnd(s: string, i: nat): (j: nat)
    requires i <= |s|
    ensures i <= j <= |s| && AllWhitespace(s[i..j])
    ensures j == |s| || !IsWhitespace(s[j])
    decreases |s| - i
  {
    if i < |s| && IsWhitespace(s[i]) then
      var j := WhitespaceRunEnd(s, i + 1);
      assert s[i..j] == [s[i]] + s[i + 1..j];
      j
    else i
  }

  /**
   * `line.match(/^(\d+)\s+(\d+)\s+(.+)$/)` followed by `parseInt` of the two
   * numbers and `trim()` of the path. The greedy second `\s+` leaves `.+` the
   * rest of the line, or gives its last character back when nothing else is
   * left; `.+` fails on a line terminator, so a line ending in `\r` is no match.
   */
  function MatchNumstat(line: string): Option<Numstat>
  {
    var i1 := DigitRunEnd(line, 0);
    var j1 := WhitespaceRunEnd(line, i1);
    var i2 := DigitRunEnd(line, j1);
    var j2 := WhitespaceRunEnd(line, i2);
    if 0 < i1 < j1 < i2 < j2 && NoLineTerminator(line[j2..])
       && (j2 < |line| || (j2 - i2 >= 2 && !IsLineTerminator(line[j2 - 1])))
    then Some(Numstat(DecimalValue(line[..i1]), DecimalValue(line[j1..i2]), Trim(line[j2..])))
    else None
  }

  /** Leading whitespace does not change what `trim()` gives. */
  lemma TrimSkipsWhitespace(w: string, x: string)
    requires AllWhitespace(w)
    ensures Trim(w + x) == Trim(x)
  {
    TrimStartSkipsWhitespace(w, x);
  }

  lemma {:induction false} TrimStartSkipsWhitespace(w: string, x: string)
    requires AllWhitespace(w)
    ensures TrimStart(w + x) == TrimStart(x)
  {
    if |w| > 0 {
      assert IsWhitespace(w[0]);
      assert (w + x)[0] == w[0] && (w + x)[1..] == w[1..] + x;
      assert TrimStart(w + x) == TrimStart(w[1..] + x);
      TrimStartSkipsWhitespace(w[1..], x);
    } else {
      assert w + x == x;
    }
  }

  /**
   * Completeness of the matcher: a line that cuts into the regular
   * expression's five parts (digits, whitespace, digits, whitespace, then at
   * least one character and no line terminator) is matched, with the two
   * numbers and the trimmed last part.
   */
  lemma MatchNumstatComplete(line: string, a: nat, b: nat, c: nat, e: nat)
    requires 0 < a < b < c < e < |line|
    requires AllDigits(line[..a]) && AllWhitespace(line[a..b])
    requires AllDigits(line[b..c]) && AllWhitespace(line[c..e])
    requires NoLineTerminator(line[e..])
    ensures MatchNumstat(line) == Some(Numstat(DecimalValue(line[..a]), DecimalValue(line[b..c]), Trim(line[e..])))
  {
    assert line[a] == line[a..b][0] && line[b] == line[b..c][0] && line[c] == line[c..e][0];
    DigitRunIsMaximal(line, 0, a);
    WhitespaceRunIsMaximal(line, a, b);
    DigitRunIsMaximal(line, b, c);
    WhitespaceRunCovers(line, c, e);
    var j2 := WhitespaceRunEnd(line, c);
    assert AllWhitespace(line[e..j2]) by {
      forall k | 0 <= k < j2 - e ensures IsWhitespace(line[e..j2][k]) {
        assert line[e..j2][k] == line[c..j2][k + e - c];
      }
    }
    RestAfterRun(line, e, j2);
    MatchNumstatFromRuns(line, a, b, c, j2);
  }

  /** MatchNumstat once the four runs are known. */
  lemma MatchNumstatFromRuns(line: string, a: nat, b: nat, c: nat, j2: nat)
    requires a <= |line| && DigitRunEnd(line, 0) == a && WhitespaceRunEnd(line, a) == b
    requires b <= |line| && DigitRunEnd(line, b) == c && c <= |line| && WhitespaceRunEnd(line, c) == j2
    requires 0 < a < b < c < j2 && NoLineTerminator(line[j2..])
    requires j2 < |line| || (j2 - c >= 2 && !IsLineTerminator(line[j2 - 1]))
    ensures MatchNumstat(line) == Some(Numstat(DecimalValue(line[..a]), DecimalValue(line[b..c]), Trim(line[j2..])))
  {
  }

  /** The whitespace run of the matcher may reach past `e`; what it leaves trims the same. */
  lemma RestAfterRun(line: string, e: nat, j2: nat)
    requires e < |line| && e <= j2 <= |line| && NoLineTerminator(line[e..])
    requires AllWhitespace(line[e..j2])
    ensures NoLineTerminator(line[j2..])
    ensures j2 < |line| || !IsLineTerminator(line[j2 - 1])
    ensures Trim(line[j2..]) == Trim(line[e..])
  {
    assert line[e..] == line[e..j2] + line[j2..];
    TrimSkipsWhitespace(line[e..j2], line[j2..]);
    forall k | j2 <= k < |line| ensures !IsLineTerminator(line[k]) {
      assert line[k] == line[e..][k - e];
    }
    if j2 == |line| {
      assert line[j2 - 1] == line[e..][j2 - 1 - e];
    }
  }

  lemma DigitRunIsMaximal(s: string, i: nat, j: nat)
    requires i <= j <= |s| && AllDigits(s[i..j]) && (j == |s| || !IsDigit(s[j]))
    ensures DigitRunEnd(s, i) == j
    decreases j - i
  {
    if i < j {
      assert s[i] == s[i..j][0];
      assert s[i + 1..j] == s[i..j][1..];
      DigitRunIsMaximal(s, i + 1, j);
    }
  }

  lemma WhitespaceRunIsMaximal(s: string, i: nat, j: nat)
    requires i <= j <= |s| && AllWhitespace(s[i..j]) && (j == |s| || !IsWhitespace(s[j]))
    ensures WhitespaceRunEnd(s, i) == j
    decreases j - i
  {
    if i < j {
      assert s[i] == s[i..j][0];
      assert s[i + 1..j] == s[i..j][1..];
      WhitespaceRunIsMaximal(s, i + 1, j);
    }
  }

  lemma WhitespaceRunCovers(s: string, i: nat, j: nat)
    requires i <= j <= |s| && AllWhitespace(s[i..j])
    ensures j <= WhitespaceRunEnd(s, i)
    decreases j - i
  {
    if i < j {
      assert s[i] == s[i..j][0];
      assert s[i + 1..j] == s[i..j][1..];
      WhitespaceRunCovers(s, i + 1, j);
    }
  }

  /**
   * Soundness of the matcher: a match cuts the line into the regular
   * expression's five parts, and reports their values.
   */
  lemma MatchNumstatSound(line: string) returns (a: nat, b: nat, c: nat, e: nat)
    requires MatchNumstat(line).Some?
    ensures 0 < a < b < c < e < |line|
    ensures AllDigits(line[..a]) && AllWhitespace(line[a..b])
    ensures AllDigits(line[b..c]) && AllWhitespace(line[c..e])
    ensures NoLineTerminator(line[e..])
    ensures MatchNumstat(line).value == Numstat(DecimalValue(line[..a]), DecimalValue(line[b..c]), Trim(line[e..]))
  {
    a := DigitRunEnd(line, 0);
    b := WhitespaceRunEnd(line, a);
    c := DigitRunEnd(line, b);
    var j2 := WhitespaceRunEnd(line, c);
    if j2 < |line| {
      e := j2;
    } else {
      e := j2 - 1;
      assert IsWhitespace(line[e]) by { assert line[e] == line[c..j2][e - c]; }
      assert AllWhitespace(line[c..e]) by {
        forall k | 0 <= k < e - c ensures IsWhitespace(line[c..e][k]) {
          assert line[c..e][k] == line[c..j2][k];
        }
      }
      assert line[e..] == [line[e]];
      TrimSkipsWhitespace(line[e..], []);
      assert line[e..] + [] == line[e..];
      assert line[j2..] == [];
    }
  }

  /** `git` marks a binary file's counts with `-`; such a line is never a record. */
  lemma BinaryLineIsNoMatch(path: string)
    ensures MatchNumstat("-\t-\t" + path).None?
  {
    assert DigitRunEnd("-\t-\t" + path, 0) == 0;
  }

  /** What parseGitLog makes of one line. */
  datatype LineKind =
    | Header(author: string, date: string)  // a `|`-line with at least three fields
    | ShortHeader                           // a `|`-line with fewer fields: changes nothing
    | Record(stat: Numstat)                 // a numstat line
    | Skip                                  // blank or unmatched

  function Classify(line: string): LineKind
  {
    if '|' in line then
      var parts := Split(line, '|');
      if |parts| >= 3 then Header(parts[1], parts[2]) else ShortHeader
    else if Trim(line) != "" then
      match MatchNumstat(line)
      case Some(n) => Record(n)
      case None => Skip
    else Skip
  }

  /**
   * A line is a numstat record exactly when it has no `|` and the numstat
   * pattern matches it, and the record is what the pattern captured: a match
   * starts with a digit, so the `trim()` test never rejects it.
   */
  lemma ClassifyRecord(line: string)
    ensures Classify(line).Record? <==> '|' !in line && MatchNumstat(line).Some?
    ensures Classify(line).Record? ==> Classify(line).stat == MatchNumstat(line).value
  {
    if '|' !in line && MatchNumstat(line).Some? {
      MatchStartsWithDigit(line);
      NonBlank(line);
    }
  }

  /** A numstat match starts with a digit. */
  lemma MatchStartsWithDigit(line: string)
    requires MatchNumstat(line).Some?
    ensures |line| > 0 && IsDigit(line[0])
  {
    var i1 := DigitRunEnd(line, 0);
    assert line[..i1][0] == line[0];
  }

  /** A line that starts with a non-whitespace character is not blank. */
  lemma NonBlank(line: string)
    requires |line| > 0 && !IsWhitespace(line[0])
    ensures Trim(line) != ""
  {
    assert TrimStart(line) == line;
  }

  /** How parseGitLog treats each of `lines`. */
  function Kinds(lines: seq<string>): (kinds: seq<LineKind>)
    ensures |kinds| == |lines|
    ensures forall k :: 0 <= k < |lines| ==> kinds[k] == Classify(lines[k])
  {
    seq(|lines|, k requires 0 <= k < |lines| => Classify(lines[k]))
  }

  /** Index of the most recent header line, or -1 when there is none. */
  function LatestHeader(kinds: seq<LineKind>): (k: int)
    ensures -1 <= k < |kinds|
    ensures k >= 0 ==> kinds[k].Header?
    ensures forall m :: k < m < |kinds| ==> !kinds[m].Header?
  {
    if |kinds| == 0 then -1
    else if kinds[|kinds| - 1].Header? then |kinds| - 1
    else LatestHeader(kinds[..|kinds| - 1])
  }

  /** The author and date in force after these lines: the latest header's, `''` before any. */
  function Attribution(kinds: seq<LineKind>): (string, string)
  {
    var k := LatestHeader(kinds);
    if k < 0 then ("", "") else (kinds[k].author, kinds[k].date)
  }

  /** The indices of the record lines, in document order. */
  function RecordLines(kinds: seq<LineKind>): (ks: seq<nat>)
    ensures |ks| <= |kinds|
    ensures forall n :: 0 <= n < |ks| ==> ks[n] < |kinds| && kinds[ks[n]].Record?
    ensures forall n, m :: 0 <= n < m < |ks| ==> ks[n] < ks[m]
    ensures forall k :: 0 <= k < |kinds| && kinds[k].Record? ==> k in ks
  {
    if |kinds| == 0 then []
    else
      var init := RecordLines(kinds[..|kinds| - 1]);
      if kinds[|kinds| - 1].Record? then init + [|kinds| - 1] else init
  }

  /** The entry produced by record line `k`, attributed to the header before it. */
  function EntryAt(kinds: seq<LineKind>, k: nat): LogEntry
    requires k < |kinds| && kinds[k].Record?
  {
    var stat := kinds[k].stat;
    var (author, date) := Attribution(kinds[..k]);
    LogEntry(stat.path, stat.insertions, stat.deletions, author, date)
  }

  /** What one more line does to the record lines and to the attribution in force. */
  lemma LineStep(kinds: seq<LineKind>, i: nat)
    requires i < |kinds|
    ensures kinds[i].Record? ==> RecordLines(kinds[..i + 1]) == RecordLines(kinds[..i]) + [i]
    ensures !kinds[i].Record? ==> RecordLines(kinds[..i + 1]) == RecordLines(kinds[..i])
    ensures Attribution(kinds[..i + 1]) == if kinds[i].Header? then (kinds[i].author, kinds[i].date) else Attribution(kinds[..i])
  {
    assert kinds[..i + 1][..i] == kinds[..i];
  }

  /** Appending the entry of record line `i` keeps the entries in step with the record lines. */
  lemma EntriesStep(entries: seq<LogEntry>, kinds: seq<LineKind>, records: seq<nat>, e: LogEntry, i: nat)
    requires i < |kinds| && kinds[i].Record? && e == EntryAt(kinds, i)
    requires |entries| == |records| && forall n :: 0 <= n < |records| ==> records[n] < |kinds| && kinds[records[n]].Record?
    requires forall n :: 0 <= n < |entries| ==> entries[n] == EntryAt(kinds, records[n])
    ensures |entries + [e]| == |records + [i]|
    ensures forall n :: 0 <= n < |entries + [e]| ==> (entries + [e])[n] == EntryAt(kinds, (records + [i])[n])
  {
  }

  /**
   * What reading a line of kind `kind` does to the loop's state: a header
   * replaces the author and date, a record yields an entry attributed to
   * the current ones, and nothing else changes.
   */
  predicate LineEffect(kind: LineKind, author: string, date: string, author': string, date': string, entry: Option<LogEntry>)
  {
    (kind.Header? ==> author' == kind.author && date' == kind.date) &&
    (!kind.Header? ==> author' == author && date' == date) &&
    (kind.Record? ==> entry == Some(LogEntry(kind.stat.path, kind.stat.insertions, kind.stat.deletions, author, date))) &&
    (!kind.Record? ==> entry.None?)
  }

  /**
   * The body of parseGitLog's loop for one line: a header line with at least
   * three fields replaces the current author and date, a numstat line yields
   * an entry attributed to them, any other line changes nothing.
   */
  method ReadLine(line: string, author: string, date: string) returns (author': string, date': string, entry: Option<LogEntry>)
    ensures LineEffect(Classify(line), author, date, author', date', entry)
  {
    author', date', entry := author, date, None;
    if '|' in line {
      var parts := Split(line, '|');
      if |parts| >= 3 {
        author' := parts[1];
        date' := parts[2];
      }
    } else if Trim(line) != "" {
      var m := MatchNumstat(line);
      if m.Some? {
        entry := Some(LogEntry(m.value.path, m.value.insertions, m.value.deletions, author, date));
      }
    }
  }

  /** The loop's state after the lines `kinds[..i]`: the attribution in force and one entry per record line so far. */
  predicate ParsedUpTo(kinds: seq<LineKind>, i: nat, author: string, date: string, entries: seq<LogEntry>)
    requires i <= |kinds|
  {
    (author, date) == Attribution(kinds[..i]) &&
    |entries| == |RecordLines(kinds[..i])| &&
    forall n :: 0 <= n < |entries| ==> entries[n] == EntryAt(kinds, RecordLines(kinds[..i])[n])
  }

  /** Reading line `i` as ReadLine does carries the loop's state over to `kinds[..i + 1]`. */
  lemma ParsedStep(kinds: seq<LineKind>, i: nat, author: string, date: string, entries: seq<LogEntry>,
                   author': string, date': string, entry: Option<LogEntry>)
    requires i < |kinds| && ParsedUpTo(kinds, i, author, date, entries)
    requires LineEffect(kinds[i], author, date, author', date', entry)
    ensures ParsedUpTo(kinds, i + 1, author', date', if entry.Some? then entries + [entry.value] else entries)
  {
    LineStep(kinds, i);
    if entry.Some? {
      EntriesStep(entries, kinds, RecordLines(kinds[..i]), entry.value, i);
    }
  }

  /**
   * parseGitLog: one entry per record line, in document order, each carrying
   * the author and date of the latest header above it.
   */
  method ParseGitLog(logOutput: string) returns (entries: seq<LogEntry>)
    ensures |entries| == |RecordLines(Kinds(Split(logOutput, '\n')))|
    ensures forall n :: 0 <= n < |entries| ==>
      entries[n] == EntryAt(Kinds(Split(logOutput, '\n')), RecordLines(Kinds(Split(logOutput, '\n')))[n])
  {
    entries := ParseLines(Split(logOutput, '\n'));
  }

  /** The loop of parseGitLog over the lines of the output. */
  method ParseLines(lines: seq<string>) returns (entries: seq<LogEntry>)
    ensures |entries| == |RecordLines(Kinds(lines))|
    ensures forall n :: 0 <= n < |entries| ==> entries[n] == EntryAt(Kinds(lines), RecordLines(Kinds(lines))[n])
  {
    ghost var kinds := Kinds(lines);
    entries := [];
    var currentAuthor, currentDate := "", "";
    for i := 0 to |lines|
      invariant ParsedUpTo(kinds, i, currentAuthor, currentDate, entries)
    {
      var author, date, entry := ReadLine(lines[i], currentAuthor, currentDate);
      ParsedStep(kinds, i, currentAuthor, currentDate, entries, author, date, entry);
      if entry.Some? {
        entries := entries + [entry.value];
      }
      currentAuthor, currentDate := author, date;
    }
    ParsedAll(kinds, currentAuthor, currentDate, entries);
  }

  /** After the last line, the entries are those of all the record lines. */
  lemma ParsedAll(kinds: seq<LineKind>, author: string, date: string, entries: seq<LogEntry>)
    requires ParsedUpTo(kinds, |kinds|, author, date, entries)
    ensures |entries| == |RecordLines(kinds)|
    ensures forall n :: 0 <= n < |entries| ==> entries[n] == EntryAt(kinds, RecordLines(kinds)[n])
  {
    assert kinds[..|kinds|] == kinds;
  }
}
