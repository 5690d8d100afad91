/**
 * Change statistics and parents of one commit (internal/git/stats.go): the
 * fold over `git show --numstat` output and the split of `git log --format=%P`.
 */
module GitStats {
  import opened Wrappers
  import Text
  import Seqs
  import Process

  datatype CommitStats = CommitStats(filesChanged: int, insertions: int, deletions: int)

  const Zero: CommitStats := CommitStats(0, 0, 0)

  /**
   * The counters' `+=`: Go's int fields, so the line counts wrap around at int64
   * (a 64-bit platform); the file count is kept exact (see StatsOfWrapsTotal).
   */
  function Add(a: CommitStats, b: CommitStats): CommitStats
  {
    CommitStats(a.filesChanged + b.filesChanged,
      Text.WrapInt64(a.insertions + b.insertions), Text.WrapInt64(a.deletions + b.deletions))
  }

  /** The line counts of a value Go's int fields can hold. */
  predicate IsCounters(s: CommitStats)
  {
    Text.MinInt64 <= s.insertions <= Text.MaxInt64 && Text.MinInt64 <= s.deletions <= Text.MaxInt64
  }

  /** What the counters show for true totals `t`: the line counts wrapped to int64. */
  function Wrapped(t: CommitStats): CommitStats
  {
    CommitStats(t.filesChanged, Text.WrapInt64(t.insertions), Text.WrapInt64(t.deletions))
  }

  /** A numstat line the fold counts: it has at least three white-space separated fields. */
  predicate IsCounted(line: string)
  {
    |Text.Fields(line)| >= 3
  }

  /**
   * What one output line adds: nothing for an empty line or one with fewer than
   * three fields; one file and no lines when either count is "-" (a binary file);
   * otherwise one file and the two counts read with Atoi, an unreadable count as 0.
   */
  function LineStats(line: string): (d: CommitStats)
    ensures d.filesChanged == (if IsCounted(line) then 1 else 0)
    ensures !IsCounted(line) ==> d == Zero
  {
    if line == "" then Zero
    else
      var parts := Text.Fields(line);
      if |parts| < 3 then Zero
      else if parts[0] == "-" || parts[1] == "-" then CommitStats(1, 0, 0)
      else CommitStats(1, Text.AtoiValue(parts[0]), Text.AtoiValue(parts[1]))
  }

  /** The statistics of a whole output: the sum of what each line adds. */
  function StatsOf(lines: seq<string>): (s: CommitStats)
    ensures IsCounters(s)
    decreases |lines|
  {
    if lines == [] then Zero else Add(StatsOf(lines[..|lines| - 1]), LineStats(lines[|lines| - 1]))
  }

  /** What each line adds, in order. */
  function PerLine(lines: seq<string>): (ds: seq<CommitStats>)
    ensures |ds| == |lines| && forall i :: 0 <= i < |lines| ==> ds[i] == LineStats(lines[i])
  {
    seq(|lines|, i requires 0 <= i < |lines| => LineStats(lines[i]))
  }

  /** The counters after adding `ds` one after the other, from zero. */
  function Accumulate(ds: seq<CommitStats>): CommitStats
    decreases |ds|
  {
    if ds == [] then Zero else Add(Accumulate(ds[..|ds| - 1]), ds[|ds| - 1])
  }

  /** The exact sum of `ds`, in unbounded integers. */
  function Total(ds: seq<CommitStats>): CommitStats
    decreases |ds|
  {
    if ds == [] then Zero
    else
      var t, d := Total(ds[..|ds| - 1]), ds[|ds| - 1];
      CommitStats(t.filesChanged + d.filesChanged, t.insertions + d.insertions, t.deletions + d.deletions)
  }

  /** The true totals of an output. */
  function TotalOf(lines: seq<string>): CommitStats
  {
    Total(PerLine(lines))
  }

  /** The fold of an output accumulates what its lines add. */
  lemma {:induction false} StatsOfPerLine(lines: seq<string>)
    ensures StatsOf(lines) == Accumulate(PerLine(lines))
    decreases |lines|
  {
    if lines != [] {
      var init := lines[..|lines| - 1];
      StatsOfPerLine(init);
      assert PerLine(lines)[..|lines| - 1] == PerLine(init);
    }
  }

  /** Adding one at a time with wrap-around ends at the exact sum, wrapped. */
  lemma {:induction false} AccumulateWrapsTotal(ds: seq<CommitStats>)
    ensures Accumulate(ds) == Wrapped(Total(ds))
    decreases |ds|
  {
    if ds == [] {
      WrappedZero();
    } else {
      var init := ds[..|ds| - 1];
      AccumulateWrapsTotal(init);
      WrappedStep(Accumulate(init), Total(init), ds[|ds| - 1], Accumulate(ds), Total(ds));
    }
  }

  /** The counters end as the true totals wrapped to int64. */
  lemma StatsOfWrapsTotal(lines: seq<string>)
    ensures StatsOf(lines) == Wrapped(TotalOf(lines))
  {
    StatsOfPerLine(lines);
    AccumulateWrapsTotal(PerLine(lines));
  }

  lemma WrappedZero()
    ensures Wrapped(Zero) == Zero
  {
    Text.WrapInt64InRange(0);
  }

  /** One more step: adding `d` to the wrapped totals wraps the new totals. */
  lemma WrappedStep(s0: CommitStats, t0: CommitStats, d: CommitStats, s1: CommitStats, t1: CommitStats)
    requires s0 == Wrapped(t0) && s1 == Add(s0, d)
    requires t1 == CommitStats(t0.filesChanged + d.filesChanged, t0.insertions + d.insertions, t0.deletions + d.deletions)
    ensures s1 == Wrapped(t1)
  {
    Text.WrapInt64Add(t0.insertions, d.insertions);
    Text.WrapInt64Add(t0.deletions, d.deletions);
  }

  /** While the true totals fit in an int64, the counters are exactly the true totals. */
  lemma StatsOfExact(lines: seq<string>)
    requires Text.MinInt64 <= TotalOf(lines).insertions <= Text.MaxInt64
    requires Text.MinInt64 <= TotalOf(lines).deletions <= Text.MaxInt64
    ensures StatsOf(lines) == TotalOf(lines)
  {
    StatsOfWrapsTotal(lines);
    Text.WrapInt64InRange(TotalOf(lines).insertions);
    Text.WrapInt64InRange(TotalOf(lines).deletions);
  }

  lemma StatsOfSnoc(lines: seq<string>, line: string)
    ensures StatsOf(lines + [line]) == Add(StatsOf(lines), LineStats(line))
  {
    assert (lines + [line])[..|lines|] == lines;
  }

  /** FilesChanged counts exactly the lines with at least three fields. */
  lemma {:induction false} FilesChangedCountsLines(lines: seq<string>)
    ensures StatsOf(lines).filesChanged == Seqs.Count(lines, IsCounted)
    decreases |lines|
  {
    if lines != [] {
      FilesChangedCountsLines(lines[..|lines| - 1]);
    }
  }

  // ---------------------------------------------------------------------
  // What git prints, and reading it back
  // ---------------------------------------------------------------------

  /** One entry of `git show --numstat`: a text file with its line counts, or a binary file. */
  datatype NumstatEntry =
    | TextChange(added: nat, deleted: nat, path: string)
    | BinaryChange(path: string)

  /**
   * A path as a numstat line shows it: it holds some character that is not
   * white space, and may hold spaces.
   */
  predicate IsPath(p: string)
  {
    exists i :: 0 <= i < |p| && !Text.IsSpace(p[i])
  }

  predicate IsPrintable(e: NumstatEntry)
  {
    IsPath(e.path) && (e.TextChange? ==> e.added <= Text.MaxInt64 && e.deleted <= Text.MaxInt64)
  }

  /**
   * The per-line rule for a line of two count columns and a path: one file; no
   * lines when either count is "-"; otherwise the Atoi values of the counts,
   * so a count that is not a number adds 0.
   */
  lemma LineStatsOfColumns(added: string, deleted: string, path: string)
    requires added != [] && Text.NoSpace(added) && deleted != [] && Text.NoSpace(deleted)
    requires IsPath(path)
    ensures var d := LineStats(Text.Join([added, deleted, path], "\t"));
      d == if added == "-" || deleted == "-" then CommitStats(1, 0, 0)
           else CommitStats(1, Text.AtoiValue(added), Text.AtoiValue(deleted))
    ensures Text.ParseInt(added).SyntaxError? && Text.ParseInt(deleted).SyntaxError? ==>
      LineStats(Text.Join([added, deleted, path], "\t")) == CommitStats(1, 0, 0)
  {
    var line := Text.Join([added, deleted, path], "\t");
    ColumnFields(added, deleted, path, line);
    RuleOfFields(line, added, deleted);
  }

  /** The fields of such a line start with the two counts, and the path adds at least one more. */
  lemma ColumnFields(added: string, deleted: string, path: string, line: string)
    requires added != [] && Text.NoSpace(added) && deleted != [] && Text.NoSpace(deleted)
    requires IsPath(path)
    requires line == Text.Join([added, deleted, path], "\t")
    ensures line != "" && |Text.Fields(line)| >= 3
    ensures Text.Fields(line)[0] == added && Text.Fields(line)[1] == deleted
  {
    var rest := deleted + "\t" + path;
    JoinThree(added, deleted, path);
    var i :| 0 <= i < |path| && !Text.IsSpace(path[i]);
    Text.FieldsOfNonBlank(path, i);
    Text.FieldsAfterSpace('\t', path);
    Text.FieldsCons(deleted, ['\t'] + path);
    Text.FieldsAfterSpace('\t', rest);
    Text.FieldsCons(added, ['\t'] + rest);
    assert Text.Fields(line) == [added] + ([deleted] + Text.Fields(path));
  }

  lemma JoinThree(a: string, b: string, c: string)
    ensures Text.Join([a, b, c], "\t") == a + (['\t'] + (b + "\t" + c))
    ensures b + "\t" + c == b + (['\t'] + c)
  {
    assert Text.Join([c], "\t") == c;
    assert [b, c][1..] == [c];
    assert [a, b, c][1..] == [b, c];
  }

  /** LineStats read off the first two fields of a line with at least three. */
  lemma RuleOfFields(line: string, added: string, deleted: string)
    requires line != "" && |Text.Fields(line)| >= 3
    requires Text.Fields(line)[0] == added && Text.Fields(line)[1] == deleted
    ensures LineStats(line) ==
      if added == "-" || deleted == "-" then CommitStats(1, 0, 0)
      else CommitStats(1, Text.AtoiValue(added), Text.AtoiValue(deleted))
  {
  }

  /** The line git prints for an entry: the two counts ("-" for a binary file) and the path, tab-separated. */
  function NumstatLine(e: NumstatEntry): string
  {
    match e
    case TextChange(a, d, p) => Text.Join([Text.IntToString(a), Text.IntToString(d), p], "\t")
    case BinaryChange(p) => Text.Join(["-", "-", p], "\t")
  }

  /** What one entry should add to the statistics. */
  function EntryStats(e: NumstatEntry): CommitStats
  {
    match e
    case TextChange(a, d, _) => CommitStats(1, a, d)
    case BinaryChange(_) => CommitStats(1, 0, 0)
  }

  /** Each printed entry is counted as one file with its own line counts. */
  lemma LineStatsOfEntry(e: NumstatEntry)
    requires IsPrintable(e)
    ensures LineStats(NumstatLine(e)) == EntryStats(e)
  {
    match e
    case TextChange(a, d, p) =>
      Text.ParseIntToString(a);
      Text.ParseIntToString(d);
      assert Text.IntToString(a) != "-" by {
        assert Text.IsDigit(Text.IntToString(a)[0]) || |Text.IntToString(a)| > 1;
      }
      LineStatsOfColumns(Text.IntToString(a), Text.IntToString(d), p);
    case BinaryChange(p) =>
      LineStatsOfColumns("-", "-", p);
  }

  function Lines(entries: seq<NumstatEntry>): (lines: seq<string>)
    ensures |lines| == |entries|
    ensures forall i :: 0 <= i < |entries| ==> lines[i] == NumstatLine(entries[i])
  {
    seq(|entries|, i requires 0 <= i < |entries| => NumstatLine(entries[i]))
  }

  lemma LinesSnoc(init: seq<NumstatEntry>, e: NumstatEntry)
    ensures Lines(init + [e]) == Lines(init) + [NumstatLine(e)]
  {
  }

  function SumStats(entries: seq<NumstatEntry>): CommitStats
    decreases |entries|
  {
    if entries == [] then Zero
    else Add(SumStats(entries[..|entries| - 1]), EntryStats(entries[|entries| - 1]))
  }

  /** Folding git's numstat output counts every file once and sums the text files' line counts. */
  lemma {:induction false} StatsOfNumstat(entries: seq<NumstatEntry>)
    requires forall i :: 0 <= i < |entries| ==> IsPrintable(entries[i])
    ensures StatsOf(Lines(entries)) == SumStats(entries)
    decreases |entries|
  {
    if entries != [] {
      var init, e := entries[..|entries| - 1], entries[|entries| - 1];
      assert entries == init + [e];
      assert forall i :: 0 <= i < |init| ==> init[i] == entries[i];
      StatsOfNumstat(init);
      LinesSnoc(init, e);
      StatsOfSnoc(Lines(init), NumstatLine(e));
      LineStatsOfEntry(e);
    }
  }

  /**
   * Two text files whose inserted lines add up past 2^63-1 (say 2^63-1 and 1):
   * the true total is their sum, and the insertions counter wraps around to
   * that sum less 2^64, a negative number.
   */
  lemma InsertionsWrapAround(a: nat, b: nat)
    requires a <= Text.MaxInt64 && b <= Text.MaxInt64 && a + b > Text.MaxInt64
    ensures var lines := Lines([TextChange(a, 0, "a"), TextChange(b, 0, "b")]);
      TotalOf(lines).insertions == a + b && StatsOf(lines).insertions == a + b - Text.TwoTo64 < 0
  {
    var entries := [TextChange(a, 0, "a"), TextChange(b, 0, "b")];
    var lines := Lines(entries);
    assert !Text.IsSpace("a"[0]) && !Text.IsSpace("b"[0]);
    LineStatsOfEntry(entries[0]);
    LineStatsOfEntry(entries[1]);
    var ds := [CommitStats(1, a, 0), CommitStats(1, b, 0)];
    assert PerLine(lines) == ds;
    StatsOfPerLine(lines);
    PairWrapsAround(ds);
  }

  /** Two steps whose insertions add up past 2^63-1 leave the counter at their sum less 2^64. */
  lemma PairWrapsAround(ds: seq<CommitStats>)
    requires |ds| == 2 && 0 <= ds[0].insertions <= Text.MaxInt64 && 0 <= ds[1].insertions <= Text.MaxInt64
    requires ds[0].insertions + ds[1].insertions > Text.MaxInt64
    ensures Total(ds).insertions == ds[0].insertions + ds[1].insertions
    ensures Accumulate(ds).insertions == ds[0].insertions + ds[1].insertions - Text.TwoTo64
  {
    assert ds[..1] == [ds[0]] && ds[..1][..0] == [];
    assert Total(ds[..1]) == ds[0];
    AccumulateWrapsTotal(ds);
    Text.WrapInt64Above(ds[0].insertions + ds[1].insertions);
  }

  /** The files-changed total of a numstat output is the number of its entries. */
  lemma {:induction false} SumStatsCountsFiles(entries: seq<NumstatEntry>)
    ensures SumStats(entries).filesChanged == |entries|
    decreases |entries|
  {
    if entries != [] {
      SumStatsCountsFiles(entries[..|entries| - 1]);
    }
  }

  // ---------------------------------------------------------------------
  // The two commands
  // ---------------------------------------------------------------------

  /** The scanner loop of GetCommitStats: update the three counters line by line. */
  method FoldLines(lines: seq<string>) returns (stats: CommitStats)
    ensures stats == StatsOf(lines)
  {
    stats := Zero;
    var i := 0;
    while i < |lines|
      invariant 0 <= i <= |lines|
      invariant stats == StatsOf(lines[..i])
    {
      assert lines[..i + 1][..i] == lines[..i];
      stats := CountLine(stats, lines[i]);
      i := i + 1;
    }
    assert lines[..i] == lines;
  }

  /** One pass of the scanner loop: skip the line, or count it into the counters. */
  method CountLine(stats: CommitStats, line: string) returns (next: CommitStats)
    requires IsCounters(stats)
    ensures next == Add(stats, LineStats(line))
  {
    next := stats;
    if line == "" {
      return;
    }
    var parts := Text.Fields(line);
    if |parts| < 3 {
      return;
    }
    if parts[0] == "-" || parts[1] == "-" {
      next := next.(filesChanged := next.filesChanged + 1);
      return;
    }
    var added := Text.AtoiValue(parts[0]);
    var deleted := Text.AtoiValue(parts[1]);
    next := next.(filesChanged := next.filesChanged + 1);
    next := next.(insertions := Text.WrapInt64(next.insertions + added));
    next := next.(deletions := Text.WrapInt64(next.deletions + deleted));
  }

  /**
   * GetCommitStats: run `git show --numstat --format= <hash>` and fold its lines,
   * updating the three counters in place.
   */
  method GetCommitStats(hash: string, git: Process.CmdResult)
    returns (args: seq<string>, r: Result<CommitStats, string>)
    ensures args == ["show", "--numstat", "--format=", hash]
    ensures !git.Succeeded? ==> r == Err("failed to get commit stats: " + Process.ErrorText(git))
    ensures git.Succeeded? ==> r == Ok(StatsOf(Text.ScanLines(git.stdout)))
  {
    args := ["show", "--numstat", "--format=", hash];
    if !git.Succeeded? {
      return args, Err("failed to get commit stats: " + Process.ErrorText(git));
    }

    var stats := FoldLines(Text.ScanLines(git.stdout));
    return args, Ok(stats);
  }

  /** A white-space-free, non-empty word, such as a commit hash. */
  predicate IsWord(w: string)
  {
    w != [] && Text.NoSpace(w)
  }

  /**
   * GetCommitParents: the parents `git log -1 --format=%P` prints; none for an
   * empty (trimmed) output, which is a root commit.
   */
  function GetCommitParents(hash: string, git: Process.CmdResult): (r: Result<seq<string>, string>)
    ensures r.Ok? <==> git.Succeeded?
    ensures r.Ok? ==> forall i :: 0 <= i < |r.value| ==> IsWord(r.value[i])
    ensures r.Ok? && Text.TrimSpace(git.stdout) == "" ==> r.value == []
  {
    match Process.RunGitCommand(["log", "-1", "--format=%P", hash], git)
    case Err(e) => Err(e)
    case Ok(parentStr) => if parentStr == "" then Ok([]) else Ok(Text.Fields(parentStr))
  }

  /** The parents git prints on one line are read back exactly, and a root commit has none. */
  lemma GetCommitParentsOfOutput(hash: string, parents: seq<string>)
    requires forall i :: 0 <= i < |parents| ==> IsWord(parents[i])
    ensures GetCommitParents(hash, Process.Succeeded(Text.Join(parents, " ") + "\n")) == Ok(parents)
  {
    var line := Text.Join(parents, " ");
    if parents == [] {
      assert Text.TrimSpace("\n") == "";
    } else {
      JoinedWordsTrim(parents);
      Text.FieldsOfJoin(parents, ' ');
    }
  }

  lemma JoinedWordsTrim(words: seq<string>)
    requires words != []
    requires forall i :: 0 <= i < |words| ==> IsWord(words[i])
    ensures Text.TrimSpace(Text.Join(words, " ") + "\n") == Text.Join(words, " ")
  {
    JoinedWordsEnds(words);
    Text.TrimSpaceOfLine(Text.Join(words, " "));
  }

  lemma JoinedWordsEnds(words: seq<string>)
    requires words != []
    requires forall i :: 0 <= i < |words| ==> IsWord(words[i])
    ensures var line := Text.Join(words, " ");
      line != [] && !Text.IsSpace(line[0]) && !Text.IsSpace(line[|line| - 1])
  {
    var line := Text.Join(words, " ");
    var first, last := words[0], words[|words| - 1];
    assert IsWord(first) && IsWord(last);
    assert line[0] == first[0];
    Text.JoinEndsWithLast(words, " ");
    assert line[|line| - 1] == last[|last| - 1];
  }
}
