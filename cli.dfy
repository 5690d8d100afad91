/**
 * The command-line entry point (cmd/root.go): the order in which the flags
 * decide the exit code, the folder-format validator, the branch shown in the
 * header, the version banner, the checks `run` makes before extracting, and
 * its summary's counts. Flag parsing, the interrupt handler and terminal
 * output are left to the caller; the repository, the file system, the commit
 * listing and the extractor are inputs.
 */
module Cli {
  import opened Wrappers
  import Text
  import Seqs
  import GitCommits
  import Extractor
  import App

  type ExtractResult = Extractor.ExtractResult

  const AppName: string := "gitxplode"

  // ---------------------------------------------------------------------
  // Validators and display helpers
  // ---------------------------------------------------------------------

  /** isValidFormat: the folder format, in lower case, is one of the three known namings. */
  predicate IsValidFormat(format: string)
  {
    Text.ToLower(format) in {"hash", "date-hash", "index-hash"}
  }

  /** Case does not matter to the validator: upper-casing or lower-casing a format keeps its verdict. */
  lemma FormatIgnoresCase(format: string)
    ensures IsValidFormat(Text.ToLower(format)) == IsValidFormat(format)
    ensures IsValidFormat(Text.ToUpper(format)) == IsValidFormat(format)
  {
    var lower := Text.ToLower(format);
    assert Text.ToLower(lower) == lower by {
      forall i | 0 <= i < |lower|
        ensures Text.ToLower(lower)[i] == lower[i]
      {
        LowerIdempotent(format[i]);
      }
    }
    assert Text.ToLower(Text.ToUpper(format)) == lower by {
      forall i | 0 <= i < |format|
        ensures Text.ToLower(Text.ToUpper(format))[i] == lower[i]
      {
        LowerOfUpper(format[i]);
      }
    }
  }

  lemma LowerIdempotent(c: char)
    ensures Text.LowerChar(Text.LowerChar(c)) == Text.LowerChar(c)
  {
  }

  lemma LowerOfUpper(c: char)
    ensures Text.LowerChar(Text.UpperChar(c)) == Text.LowerChar(c)
  {
  }

  /** A valid format has the length of one of the three namings, so anything shorter or longer is refused. */
  lemma ValidFormatLength(format: string)
    ensures IsValidFormat(format) ==> |format| == 4 || |format| == 9 || |format| == 10
    ensures format == "" ==> !IsValidFormat(format)
  {
    assert |Text.ToLower(format)| == |format|;
    assert |"hash"| == 4 && |"date-hash"| == 9 && |"index-hash"| == 10;
  }

  const CurrentHead: string := "(current HEAD)"

  /** branchDisplay: the configured branch, or a placeholder naming the current HEAD. */
  function BranchDisplay(branch: string): (r: string)
    ensures r != ""
    ensures branch != "" ==> r == branch
    ensures r == CurrentHead <==> branch == "" || branch == CurrentHead
  {
    if branch != "" then branch else CurrentHead
  }

  /** printVersion's lines: the version always, the commit unless "none", the build date unless "unknown". */
  function VersionLines(version: string, commit: string, date: string): (lines: seq<string>)
    ensures 1 <= |lines| <= 3
    ensures lines[0] == AppName + " version " + version
    ensures ("  commit: " + commit in lines) <==> commit != "none"
    ensures |lines| == 1 + (if commit != "none" then 1 else 0) + (if date != "unknown" then 1 else 0)
    ensures commit != "none" ==> lines[1] == "  commit: " + commit
    ensures date != "unknown" ==> lines[|lines| - 1] == "  built:  " + date
    ensures ("  built:  " + date in lines) <==> date != "unknown"
  {
    var head := [AppName + " version " + version];
    var withCommit := if commit != "none" then head + ["  commit: " + commit] else head;
    var result := if date != "unknown" then withCommit + ["  built:  " + date] else withCommit;
    assert result[0] == head[0];
    assert "  built:  " + date != "  commit: " + commit by {
      assert ("  built:  " + date)[2] != ("  commit: " + commit)[2];
    }
    assert AppName + " version " + version != "  commit: " + commit by {
      assert (AppName + " version " + version)[0] != ("  commit: " + commit)[0];
    }
    result
  }

  // ---------------------------------------------------------------------
  // Execute
  // ---------------------------------------------------------------------

  /** The parsed command line: the help and version switches, the folder format and the positional arguments. */
  datatype Invocation = Invocation(showHelp: bool, showVersion: bool, folderFormat: string, args: seq<string>)

  /**
   * What Execute writes before it returns. A format error carries the rejected
   * format, which the message quotes with Go's %q.
   */
  datatype Shown = Usage | Version(lines: seq<string>) | FormatError(format: string) | MissingRepository
    | RunError(message: string) | Finished

  datatype Exit = Exit(code: int, shown: Shown)

  /**
   * Execute: help, then version, then the folder format, then the repository
   * path, then the run itself decide the exit code.
   */
  function Execute(inv: Invocation, version: string, commit: string, date: string, run: string -> Option<string>)
    : (e: Exit)
    ensures e.code == 0 || e.code == 1
    ensures e.code == 0 <==>
      inv.showHelp || inv.showVersion ||
      (IsValidFormat(inv.folderFormat) && inv.args != [] && run(inv.args[0]).None?)
    ensures inv.showHelp ==> e == Exit(0, Usage)
    ensures !inv.showHelp && inv.showVersion ==> e == Exit(0, Version(VersionLines(version, commit, date)))
    ensures !inv.showHelp && !inv.showVersion && !IsValidFormat(inv.folderFormat) ==>
      e == Exit(1, FormatError(inv.folderFormat))
    ensures !inv.showHelp && !inv.showVersion && IsValidFormat(inv.folderFormat) && inv.args == [] ==>
      e == Exit(1, MissingRepository)
    ensures e.shown.RunError? ==> inv.args != [] && run(inv.args[0]) == Some(e.shown.message)
  {
    if inv.showHelp then Exit(0, Usage)
    else if inv.showVersion then Exit(0, Version(VersionLines(version, commit, date)))
    else if !IsValidFormat(inv.folderFormat) then
      Exit(1, FormatError(inv.folderFormat))
    else if inv.args == [] then Exit(1, MissingRepository)
    else match run(inv.args[0])
      case Some(err) => Exit(1, RunError(err))
      case None => Exit(0, Finished)
  }

  // ---------------------------------------------------------------------
  // run
  // ---------------------------------------------------------------------

  /** The flag values `run` reads. */
  datatype Options = Options(outputDir: string, workers: int, limit: int, branch: string, folderFormat: string,
    quiet: bool, verbose: bool)

  /**
   * The checks `run` makes before listing commits. Unlike the application
   * layer, it refuses an output path that exists at all, directory or not.
   */
  function PrepareOutput(outputDir: string, open: Result<string, string>, abs: string -> Result<string, string>,
      stat: string -> App.StatResult): (r: Result<string, string>)
    ensures open.Err? ==> r == Err("failed to open repository: " + open.error)
    ensures r.Ok? <==>
      open.Ok? && abs(App.DefaultOutputDir(outputDir, open.value)).Ok? &&
      stat(abs(App.DefaultOutputDir(outputDir, open.value)).value) == App.StatFailed
    ensures r.Ok? ==> r.value == abs(App.DefaultOutputDir(outputDir, open.value)).value
  {
    match open
    case Err(e) => Err("failed to open repository: " + e)
    case Ok(repoPath) =>
      match abs(App.DefaultOutputDir(outputDir, repoPath))
      case Err(e) => Err("failed to resolve output path: " + e)
      case Ok(outDir) =>
        if stat(outDir) != App.StatFailed then Err("output directory already exists: " + outDir)
        else Ok(outDir)
  }

  /**
   * The entry point is the stricter of the two: whatever the application layer
   * refuses it refuses too, and it also refuses an existing file that is not a
   * directory, which the application layer accepts.
   */
  lemma StricterThanApp(outputDir: string, open: Result<string, string>, abs: string -> Result<string, string>,
      stat: string -> App.StatResult)
    ensures App.PrepareOutput(outputDir, open, abs, stat).Err? ==> PrepareOutput(outputDir, open, abs, stat).Err?
    ensures PrepareOutput(outputDir, open, abs, stat).Ok? ==>
      App.PrepareOutput(outputDir, open, abs, stat) == PrepareOutput(outputDir, open, abs, stat)
    ensures PrepareOutput(outputDir, open, abs, stat).Err? && App.PrepareOutput(outputDir, open, abs, stat).Ok? ==>
      stat(App.PrepareOutput(outputDir, open, abs, stat).value) == App.Found(false)
  {
  }

  /** run's outcome: the results and output directory of the closing summary, when one is shown, and the error. */
  datatype RunOutcome = RunOutcome(summary: Option<(seq<ExtractResult>, string)>, err: Option<string>)

  /**
   * run: prepare the output directory, list the commits oldest first, extract
   * them, and show the summary unless quiet.
   */
  function RunCommand(opts: Options, open: Result<string, string>, abs: string -> Result<string, string>,
      stat: string -> App.StatResult, list: App.Lister, extract: App.Runner, numCpu: int): (o: RunOutcome)
    ensures PrepareOutput(opts.outputDir, open, abs, stat).Err? ==>
      o == RunOutcome(None, Some(PrepareOutput(opts.outputDir, open, abs, stat).error))
    ensures PrepareOutput(opts.outputDir, open, abs, stat).Ok? ==>
      var listing := list(GitCommits.ListOptions(opts.branch, opts.limit, true));
      (listing.Err? ==> o == RunOutcome(None, Some("failed to list commits: " + listing.error))) &&
      (listing == Ok([]) ==> o == RunOutcome(None, Some("no commits found"))) &&
      (listing.Ok? && listing.value != [] ==>
        var outDir := PrepareOutput(opts.outputDir, open, abs, stat).value;
        var x := extract(
          Extractor.New(Extractor.Config(outDir, opts.workers, opts.folderFormat, opts.quiet, opts.verbose), numCpu),
          listing.value);
        o.err == x.err && (o.summary.Some? <==> !opts.quiet) && (o.summary.Some? ==> o.summary.value == (x.results, outDir)))
    ensures o.err.None? ==> PrepareOutput(opts.outputDir, open, abs, stat).Ok?
  {
    match PrepareOutput(opts.outputDir, open, abs, stat)
    case Err(e) => RunOutcome(None, Some(e))
    case Ok(outDir) =>
      match list(GitCommits.ListOptions(opts.branch, opts.limit, true))
      case Err(e) => RunOutcome(None, Some("failed to list commits: " + e))
      case Ok(commits) =>
        if commits == [] then RunOutcome(None, Some("no commits found"))
        else
          var cfg := Extractor.Config(outDir, opts.workers, opts.folderFormat, opts.quiet, opts.verbose);
          var x := extract(Extractor.New(cfg, numCpu), commits);
          RunOutcome(if opts.quiet then None else Some((x.results, outDir)), x.err)
  }

  // ---------------------------------------------------------------------
  // The summary
  // ---------------------------------------------------------------------

  /** printSummary's counting loop; the error line is shown only when something failed. */
  method CountOutcomes(results: seq<ExtractResult>) returns (successes: nat, failures: nat, errorLine: bool)
    ensures successes == Seqs.Count(results, App.Succeeded)
    ensures failures == Seqs.Count(results, Extractor.Failed)
    ensures successes + failures == |results|
    ensures errorLine <==> exists k :: 0 <= k < |results| && Extractor.Failed(results[k])
  {
    successes, failures := 0, 0;
    for k := 0 to |results|
      invariant successes == Seqs.Count(results[..k], App.Succeeded)
      invariant failures == Seqs.Count(results[..k], Extractor.Failed)
    {
      assert results[..k + 1][..k] == results[..k];
      if results[k].error.Some? {
        failures := failures + 1;
      } else {
        successes := successes + 1;
      }
    }
    assert results[..|results|] == results;
    App.CountsAddUp(results);
    Seqs.CountZero(results, Extractor.Failed);
    errorLine := failures > 0;
  }
}
