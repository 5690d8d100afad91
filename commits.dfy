/**
 * Listing commits (internal/git/commits.go): the `git log` arguments, the
 * NUL-separated record parser, the line-skipping scan, and the commit count.
 */
module GitCommits {
  import opened Wrappers
  import Text
  import Seqs
  import Process
  import opened GitCommit

  datatype ListOptions = ListOptions(branch: string, limit: int, reverse: bool)

  /** The pretty format: eleven placeholders separated by %x00 (a NUL byte in the output). */
  const LogFormat: string :=
    "--format=%H%x00%h%x00%an%x00%ae%x00%at%x00%cn%x00%ce%x00%ct%x00%G?%x00%P%x00%s"

  const Nul: char := '\0'
  const FieldCount: nat := 11

  /** "-n<limit>", with the limit in decimal. */
  function LimitFlag(limit: int): (flag: string)
    ensures Text.HasPrefix(flag, "-n") && flag[2..] == Text.IntToString(limit)
  {
    "-n" + Text.IntToString(limit)
  }

  /** The limit is read back from its flag. */
  lemma LimitFlagReadsBack(limit: int)
    requires Text.MinInt64 <= limit <= Text.MaxInt64
    ensures Text.ParseInt(LimitFlag(limit)[2..]) == Text.Parsed(limit)
  {
    Text.ParseIntToString(limit);
  }

  /**
   * The `git log` argument list: "log" and the format, then "-n<Limit>" only for a
   * positive limit, then "--reverse" only when asked, then the branch, last, when given.
   */
  function LogArgs(opts: ListOptions): (args: seq<string>)
    ensures |args| == 2 + (if opts.limit > 0 then 1 else 0) + (if opts.reverse then 1 else 0)
                        + (if opts.branch != "" then 1 else 0)
    ensures args[..2] == ["log", LogFormat]
    ensures opts.limit > 0 ==> args[2] == LimitFlag(opts.limit)
    ensures var last := if opts.branch != "" then |args| - 1 else |args|;
      opts.reverse <==> "--reverse" in args[2..last]
    ensures opts.branch != "" ==> args[|args| - 1] == opts.branch
  {
    var limitArg := LimitFlag(opts.limit);
    assert limitArg != "--reverse" by {
      assert Text.IsDigit(limitArg[2]) || limitArg[2] == '-';
    }
    var a1 := ["log", LogFormat];
    var a2 := if opts.limit > 0 then a1 + [limitArg] else a1;
    var a3 := if opts.reverse then a2 + ["--reverse"] else a2;
    var a4 := if opts.branch != "" then a3 + [opts.branch] else a3;
    assert a4[..|a3|] == a3 && a3[..|a2|] == a2;
    assert a4[2..|a3|] == a3[2..];
    assert a3[2..] == (if opts.limit > 0 then [limitArg] else []) + (if opts.reverse then ["--reverse"] else []);
    a4
  }

  /** Why a line is not a commit record. */
  datatype ParseError = BadFormat | BadAuthorTimestamp | BadCommitTimestamp

  /**
   * parseCommitLine: split on NUL into at most eleven parts (the subject keeps
   * every later NUL), read both timestamps as base-10 int64 values, and split
   * the parents on white space. Counts and the full message stay zero.
   */
  function ParseCommitLine(line: string): (r: Result<Commit, ParseError>)
    ensures var parts := Text.SplitN(line, Nul, FieldCount);
      && (|parts| < FieldCount ==> r == Err(BadFormat))
      && (r.Ok? ==>
        && |parts| == FieldCount
        && r.value.hash == parts[0] && r.value.shortHash == parts[1]
        && r.value.author == parts[2] && r.value.authorEmail == parts[3]
        && Text.ParseInt(parts[4]) == Text.Parsed(r.value.authorDate)
        && r.value.committer == parts[5] && r.value.committerEmail == parts[6]
        && Text.ParseInt(parts[7]) == Text.Parsed(r.value.commitDate)
        && r.value.gpgSignature == parts[8]
        && r.value.parentHashes == Text.Fields(parts[9])
        && r.value.subject == parts[10]
        && r.value.fullMessage == "" && r.value.filesChanged == 0
        && r.value.insertions == 0 && r.value.deletions == 0)
    ensures |Text.SplitN(line, Nul, FieldCount)| == FieldCount ==>
      var parts := Text.SplitN(line, Nul, FieldCount);
      (r.Err? <==> !Text.ParseInt(parts[4]).Parsed? || !Text.ParseInt(parts[7]).Parsed?)
  {
    var parts := Text.SplitN(line, Nul, FieldCount);
    if |parts| < FieldCount then Err(BadFormat)
    else
      match Text.ParseInt(parts[4])
      case SyntaxError => Err(BadAuthorTimestamp)
      case RangeError(_) => Err(BadAuthorTimestamp)
      case Parsed(authorTimestamp) =>
        match Text.ParseInt(parts[7])
        case SyntaxError => Err(BadCommitTimestamp)
        case RangeError(_) => Err(BadCommitTimestamp)
        case Parsed(commitTimestamp) =>
          var parents := if parts[9] != "" then Text.Fields(parts[9]) else [];
          Ok(Commit(
            hash := parts[0], shortHash := parts[1], author := parts[2], authorEmail := parts[3],
            authorDate := authorTimestamp, committer := parts[5], committerEmail := parts[6],
            commitDate := commitTimestamp, subject := parts[10], parentHashes := parents,
            fullMessage := "", gpgSignature := parts[8],
            filesChanged := 0, insertions := 0, deletions := 0))
  }

  // ---------------------------------------------------------------------
  // What git prints for the format, and reading it back
  // ---------------------------------------------------------------------

  /** The eleven fields git writes for `c` under LogFormat, in order. */
  function LogFields(c: Commit): (fs: seq<string>)
    ensures |fs| == FieldCount
    ensures fs[0] == c.hash && fs[1] == c.shortHash && fs[2] == c.author && fs[3] == c.authorEmail
    ensures fs[4] == Text.IntToString(c.authorDate) && fs[7] == Text.IntToString(c.commitDate)
    ensures fs[5] == c.committer && fs[6] == c.committerEmail && fs[8] == c.gpgSignature
    ensures fs[9] == Text.Join(c.parentHashes, " ") && fs[10] == c.subject
  {
    [c.hash, c.shortHash, c.author, c.authorEmail, Text.IntToString(c.authorDate),
     c.committer, c.committerEmail, Text.IntToString(c.commitDate), c.gpgSignature,
     Text.Join(c.parentHashes, " "), c.subject]
  }

  /** The line git prints for `c`: its fields separated by NUL bytes. */
  function FormatLogLine(c: Commit): string
  {
    Text.Join(LogFields(c), [Nul])
  }

  predicate IsParentHash(h: string)
  {
    h != [] && Text.NoSpace(h) && Nul !in h
  }

  /**
   * A commit as `git log` can describe it with LogFormat: the fields before the
   * subject hold no NUL, the timestamps are int64, the parent hashes are words,
   * and nothing the format does not carry is set.
   */
  predicate IsLogRecord(c: Commit)
  {
    && Nul !in c.hash && Nul !in c.shortHash && Nul !in c.author && Nul !in c.authorEmail
    && Nul !in c.committer && Nul !in c.committerEmail && Nul !in c.gpgSignature
    && Text.MinInt64 <= c.authorDate <= Text.MaxInt64
    && Text.MinInt64 <= c.commitDate <= Text.MaxInt64
    && (forall i :: 0 <= i < |c.parentHashes| ==> IsParentHash(c.parentHashes[i]))
    && c.fullMessage == "" && c.filesChanged == 0 && c.insertions == 0 && c.deletions == 0
  }

  lemma IntToStringHasNoNul(x: int)
    ensures Nul !in Text.IntToString(x)
  {
    var s := Text.IntToString(x);
    forall i | 0 <= i < |s| ensures s[i] != Nul {
      assert Text.IsDigit(s[i]) || s[i] == '-';
    }
  }

  /** The fields of a log record are what splitting its line at the first ten NULs gives. */
  lemma LogFieldsSplit(c: Commit)
    requires IsLogRecord(c)
    ensures Text.SplitN(FormatLogLine(c), Nul, FieldCount) == LogFields(c)
  {
    var fs := LogFields(c);
    IntToStringHasNoNul(c.authorDate);
    IntToStringHasNoNul(c.commitDate);
    Text.JoinAvoids(c.parentHashes, " ", Nul);
    assert forall i :: 0 <= i < |fs| - 1 ==> Nul !in fs[i];
    Text.SplitNOfJoin(fs, Nul);
  }

  /** Splitting the joined parent hashes on white space gives them back, and none joins to "". */
  lemma ParentsSplit(ps: seq<string>)
    requires forall i :: 0 <= i < |ps| ==> IsParentHash(ps[i])
    ensures Text.Fields(Text.Join(ps, " ")) == ps
    ensures Text.Join(ps, " ") == "" <==> ps == []
  {
    Text.FieldsOfJoin(ps, ' ');
  }

  /** Parsing the line git prints for a commit gives back that commit, whatever its subject holds. */
  lemma ParseFormatLogLine(c: Commit)
    requires IsLogRecord(c)
    ensures ParseCommitLine(FormatLogLine(c)) == Ok(c)
  {
    LogFieldsSplit(c);
    Text.ParseIntToString(c.authorDate);
    Text.ParseIntToString(c.commitDate);
    ParentsSplit(c.parentHashes);
    ParseRecord(FormatLogLine(c), c);
  }

  /** A line that splits into the fields of `c`, whose timestamps and parents read back, parses to `c`. */
  lemma ParseRecord(line: string, c: Commit)
    requires Text.SplitN(line, Nul, FieldCount) == LogFields(c)
    requires Text.ParseInt(Text.IntToString(c.authorDate)) == Text.Parsed(c.authorDate)
    requires Text.ParseInt(Text.IntToString(c.commitDate)) == Text.Parsed(c.commitDate)
    requires Text.Fields(Text.Join(c.parentHashes, " ")) == c.parentHashes
    requires Text.Join(c.parentHashes, " ") == "" <==> c.parentHashes == []
    requires c.fullMessage == "" && c.filesChanged == 0 && c.insertions == 0 && c.deletions == 0
    ensures ParseCommitLine(line) == Ok(c)
  {
    var parts := Text.SplitN(line, Nul, FieldCount);
    var fs := LogFields(c);
    assert parts[4] == fs[4] && parts[7] == fs[7] && parts[9] == fs[9];
  }

  /** An empty line is never a record. */
  lemma ParseEmptyLine()
    ensures ParseCommitLine("") == Err(BadFormat)
  {
    assert |Text.SplitN("", Nul, FieldCount)| == 1;
  }

  // ---------------------------------------------------------------------
  // ListCommits
  // ---------------------------------------------------------------------

  /** What the scan keeps of one line: nothing for an empty or unparseable line, else its commit. */
  function Kept(line: string): (cs: seq<Commit>)
    ensures |cs| <= 1
    ensures cs != [] <==> line != "" && ParseCommitLine(line).Ok?
  {
    if line == "" then []
    else
      match ParseCommitLine(line)
      case Ok(c) => [c]
      case Err(_) => []
  }

  /** The commits the scan keeps from `lines`: empty and unparseable lines are skipped, order is kept. */
  function ParsedCommits(lines: seq<string>): (cs: seq<Commit>)
    ensures |cs| <= |lines|
    decreases |lines|
  {
    if lines == [] then []
    else ParsedCommits(lines[..|lines| - 1]) + Kept(lines[|lines| - 1])
  }

  /** Every kept commit comes from some line of the output. */
  lemma {:induction false} ParsedCommitsComeFromLines(lines: seq<string>, k: nat)
    requires k < |ParsedCommits(lines)|
    ensures exists i :: 0 <= i < |lines| && ParseCommitLine(lines[i]) == Ok(ParsedCommits(lines)[k])
    decreases |lines|
  {
    var init := lines[..|lines| - 1];
    var cs := ParsedCommits(init);
    if k < |cs| {
      ParsedCommitsComeFromLines(init, k);
      var i :| 0 <= i < |init| && ParseCommitLine(init[i]) == Ok(cs[k]);
      assert lines[i] == init[i];
    } else {
      var line := lines[|lines| - 1];
      assert ParsedCommits(lines)[k] == Kept(line)[0];
      assert ParseCommitLine(line) == Ok(Kept(line)[0]);
    }
  }

  /** The lines git prints for `cs`, one per commit. */
  function LogLines(cs: seq<Commit>): (lines: seq<string>)
    ensures |lines| == |cs|
    ensures forall i :: 0 <= i < |cs| ==> lines[i] == FormatLogLine(cs[i])
  {
    seq(|cs|, i requires 0 <= i < |cs| => FormatLogLine(cs[i]))
  }

  lemma KeptLogLine(c: Commit)
    requires IsLogRecord(c)
    ensures Kept(FormatLogLine(c)) == [c]
  {
    ParseFormatLogLine(c);
    ParseEmptyLine();
    assert FormatLogLine(c) != "";
  }

  lemma LogLinesSnoc(init: seq<Commit>, c: Commit)
    ensures LogLines(init + [c]) == LogLines(init) + [FormatLogLine(c)]
  {
  }

  /** Reading back what git prints for a list of commits gives that list. */
  lemma {:induction false} ParsedCommitsOfLog(cs: seq<Commit>)
    requires forall i :: 0 <= i < |cs| ==> IsLogRecord(cs[i])
    ensures ParsedCommits(LogLines(cs)) == cs
    decreases |cs|
  {
    if cs != [] {
      var init, c := cs[..|cs| - 1], cs[|cs| - 1];
      assert cs == init + [c];
      assert forall i :: 0 <= i < |init| ==> init[i] == cs[i];
      ParsedCommitsOfLog(init);
      LogLinesSnoc(init, c);
      var lines := LogLines(init) + [FormatLogLine(c)];
      assert lines[..|lines| - 1] == LogLines(init);
      KeptLogLine(c);
      assert ParsedCommits(lines) == ParsedCommits(LogLines(init)) + Kept(FormatLogLine(c));
    }
  }

  /**
   * ListCommits: the arguments it passes to `git log` (built by successive
   * appends) and, for the way that run ended, the error or the parsed listing.
   */
  method ListCommits(opts: ListOptions, git: Process.CmdResult)
    returns (args: seq<string>, r: Result<seq<Commit>, string>)
    ensures args == LogArgs(opts)
    ensures git.ExitFailed? ==> r == Err("git log failed: " + git.stderr)
    ensures git.NotRun? ==> r == Err("git log failed: " + git.reason)
    ensures git.Succeeded? ==> r == Ok(ParsedCommits(Text.ScanLines(git.stdout)))
  {
    args := ["log", LogFormat];
    if opts.limit > 0 {
      args := args + [LimitFlag(opts.limit)];
    }
    if opts.reverse {
      args := args + ["--reverse"];
    }
    if opts.branch != "" {
      args := args + [opts.branch];
    }

    match git
    case ExitFailed(_, stderr) => return args, Err("git log failed: " + stderr);
    case NotRun(reason) => return args, Err("git log failed: " + reason);
    case Succeeded(output) =>
      var commits := ScanCommits(Text.ScanLines(output));
      return args, Ok(commits);
  }

  /** ListCommits' scanning loop: empty and unparseable lines are skipped, the rest parsed in order. */
  method ScanCommits(lines: seq<string>) returns (commits: seq<Commit>)
    ensures commits == ParsedCommits(lines)
  {
    commits := [];
    var i := 0;
    while i < |lines|
      invariant 0 <= i <= |lines|
      invariant commits == ParsedCommits(lines[..i])
    {
      assert lines[..i + 1][..i] == lines[..i];
      commits := KeepLine(commits, lines[i]);
      i := i + 1;
    }
    assert lines[..i] == lines;
  }

  /** One pass of the scan: an empty or unparseable line is skipped, a record's commit appended. */
  method KeepLine(commits: seq<Commit>, line: string) returns (next: seq<Commit>)
    ensures next == commits + Kept(line)
  {
    next := commits;
    if line == "" {
      return;
    }
    var parsed := ParseCommitLine(line);
    if parsed.Err? {
      return;
    }
    next := commits + [parsed.value];
  }

  /** A listing of what git printed for `cs`, one record per line, is exactly `cs`. */
  lemma ListingRoundTrip(cs: seq<Commit>)
    requires forall i :: 0 <= i < |cs| ==> IsLogRecord(cs[i]) && Text.IsLine(FormatLogLine(cs[i]))
    ensures ParsedCommits(Text.ScanLines(Text.JoinLines(LogLines(cs)))) == cs
  {
    Text.ScanLinesOfJoinLines(LogLines(cs));
    ParsedCommitsOfLog(cs);
  }

  // ---------------------------------------------------------------------
  // CommitCount
  // ---------------------------------------------------------------------

  /** The ref CommitCount counts: the branch, or HEAD when none is given. */
  function CountRef(branch: string): (ref: string)
    ensures ref != ""
    ensures branch != "" ==> ref == branch
  {
    if branch == "" then "HEAD" else branch
  }

  function CountArgs(branch: string): (args: seq<string>)
    ensures |args| == 3 && args[2] == CountRef(branch)
  {
    ["rev-list", "--count", CountRef(branch)]
  }

  /** Why CommitCount failed: git failed (with runGitCommand's text), or its output is not an int. */
  datatype CountError = CountFailed(message: string) | CountUnparseable(output: string)

  /** CommitCount: run `git rev-list --count <ref>` and read the trimmed output with Atoi. */
  function CommitCount(branch: string, git: Process.CmdResult): (r: Result<int, CountError>)
    ensures r.Ok? <==> git.Succeeded? && Text.ParseInt(Text.TrimSpace(git.stdout)).Parsed?
    ensures r.Ok? ==> Text.ParseInt(Text.TrimSpace(git.stdout)) == Text.Parsed(r.value)
  {
    match Process.RunGitCommand(CountArgs(branch), git)
    case Err(e) => Err(CountFailed("failed to count commits: " + e))
    case Ok(output) =>
      match Text.ParseInt(output)
      case Parsed(n) => Ok(n)
      case SyntaxError => Err(CountUnparseable(output))
      case RangeError(_) => Err(CountUnparseable(output))
  }

  /** A count printed by git on its own line is read back exactly. */
  lemma CommitCountOfOutput(branch: string, n: int)
    requires 0 <= n <= Text.MaxInt64
    ensures CommitCount(branch, Process.Succeeded(Text.IntToString(n) + "\n")) == Ok(n)
  {
    var w := Text.IntToString(n);
    assert "" + w + "\n" == w + "\n";
    Text.TrimSpaceAround("", w, "\n");
    Text.ParseIntToString(n);
  }
}
