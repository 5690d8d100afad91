/**
 * The application layer (internal/app/app.go): choosing and checking the
 * output directory, extracting one branch or every branch into its own
 * sub-directory, and the closing summary. Opening the repository, resolving
 * paths, probing the file system, listing commits and running the extractor
 * are inputs; the summary and the returned error are the observable outcome.
 */
module App {
  import opened Wrappers
  import Paths
  import Seqs
  import GitCommit
  import GitCommits
  import Extractor

  type Commit = GitCommit.Commit
  type ExtractResult = Extractor.ExtractResult

  datatype Config = Config(repoPath: string, outputDir: string, workers: int, limit: int, branch: string,
    verbose: bool)

  // ---------------------------------------------------------------------
  // Names of directories
  // ---------------------------------------------------------------------

  /** sanitizeBranchName: every '/' becomes '_', and nothing else changes. */
  function SanitizeBranchName(branch: string): (r: string)
    ensures |r| == |branch|
    ensures forall i :: 0 <= i < |r| ==> r[i] == if branch[i] == Paths.Separator then '_' else branch[i]
  {
    if branch == [] then []
    else
      var c := if branch[0] == Paths.Separator then '_' else branch[0];
      [c] + SanitizeBranchName(branch[1..])
  }

  /**
   * A sanitised name is a single path element, a name that is one already is
   * left alone, and sanitising twice changes nothing more.
   */
  lemma SanitizeMakesPlainName(branch: string)
    ensures Paths.Separator !in SanitizeBranchName(branch)
    ensures Paths.Separator !in branch ==> SanitizeBranchName(branch) == branch
    ensures SanitizeBranchName(SanitizeBranchName(branch)) == SanitizeBranchName(branch)
  {
    var r := SanitizeBranchName(branch);
    assert forall i :: 0 <= i < |r| ==> r[i] != Paths.Separator;
    if Paths.Separator !in branch {
      assert forall i :: 0 <= i < |r| ==> r[i] == branch[i];
    }
  }

  const ExplodedSuffix: string := "-exploded"

  /** The output directory: the configured one, or the repository's base name with "-exploded" appended. */
  function DefaultOutputDir(outputDir: string, repoPath: string): (d: string)
    ensures outputDir != "" ==> d == outputDir
    ensures outputDir == "" ==>
      |d| > |ExplodedSuffix| && d[..|d| - |ExplodedSuffix|] == Paths.Base(repoPath) &&
      d[|d| - |ExplodedSuffix|..] == ExplodedSuffix
  {
    if outputDir == "" then Paths.Base(repoPath) + ExplodedSuffix else outputDir
  }

  /** What os.Stat reports for a path: an error (taken to mean it is missing), or an entry and its kind. */
  datatype StatResult = StatFailed | Found(isDir: bool)

  /**
   * The checks before anything is extracted: the repository must open, the
   * output path must resolve, and it must not be an existing directory.
   */
  function PrepareOutput(outputDir: string, open: Result<string, string>, abs: string -> Result<string, string>,
      stat: string -> StatResult): (r: Result<string, string>)
    ensures open.Err? ==> r == Err("failed to open repository: " + open.error)
    ensures r.Ok? <==>
      open.Ok? && abs(DefaultOutputDir(outputDir, open.value)).Ok? &&
      stat(abs(DefaultOutputDir(outputDir, open.value)).value) != Found(true)
    ensures r.Ok? ==> r.value == abs(DefaultOutputDir(outputDir, open.value)).value
  {
    match open
    case Err(e) => Err("failed to open repository: " + e)
    case Ok(repoPath) =>
      match abs(DefaultOutputDir(outputDir, repoPath))
      case Err(e) => Err("failed to resolve output path: " + e)
      case Ok(outDir) =>
        if stat(outDir) == Found(true) then Err("output directory already exists: " + outDir)
        else Ok(outDir)
  }

  // ---------------------------------------------------------------------
  // Extracting branches
  // ---------------------------------------------------------------------

  /** The commits of a listing, or its error (repo.ListCommits). */
  type Lister = GitCommits.ListOptions -> Result<seq<Commit>, string>

  /** What one extractor run delivers: its results and its aggregate error (Extractor.Run). */
  datatype Extraction = Extraction(results: seq<ExtractResult>, err: Option<string>)

  type Runner = (Extractor.Config, seq<Commit>) -> Extraction

  /** The extractor's configuration for one output directory: quiet off, folder format left to New. */
  function ExtractorConfig(dir: string, cfg: Config, numCpu: int): (c: Extractor.Config)
    ensures c.outputDir == dir && c.folderFormat == "hash" && !c.quiet && c.verbose == cfg.verbose
  {
    Extractor.New(Extractor.Config(dir, cfg.workers, "", false, cfg.verbose), numCpu)
  }

  /** The listing options: the branch, the limit, and oldest first. */
  function ListingFor(branch: string, cfg: Config): GitCommits.ListOptions
  {
    GitCommits.ListOptions(branch, cfg.limit, true)
  }

  /** A branch's own sub-directory of the output directory. */
  function BranchDir(outDir: string, branch: string): string
  {
    Paths.Join(outDir, SanitizeBranchName(branch))
  }

  /**
   * One pass of runAllBranches' loop: nothing when the branch's commits cannot
   * be listed or there are none, otherwise the extraction into its sub-directory.
   */
  function BranchStep(cfg: Config, outDir: string, branch: string, list: Lister, run: Runner, numCpu: int)
    : (step: Option<Extraction>)
    ensures step.None? <==> list(ListingFor(branch, cfg)).Err? || list(ListingFor(branch, cfg)).value == []
    ensures step.Some? ==>
      step.value == run(ExtractorConfig(BranchDir(outDir, branch), cfg, numCpu), list(ListingFor(branch, cfg)).value)
  {
    match list(ListingFor(branch, cfg))
    case Err(_) => None
    case Ok(commits) =>
      if commits == [] then None
      else Some(run(ExtractorConfig(BranchDir(outDir, branch), cfg, numCpu), commits))
  }

  /** The results of the branches in branch order, a skipped branch contributing none. */
  function Combined(steps: seq<Option<Extraction>>): seq<ExtractResult>
    decreases |steps|
  {
    if steps == [] then []
    else
      var last := steps[|steps| - 1];
      Combined(steps[..|steps| - 1]) + (if last.Some? then last.value.results else [])
  }

  /** The first error any branch's extraction reported. */
  function FirstError(steps: seq<Option<Extraction>>): Option<string>
    decreases |steps|
  {
    if steps == [] then None
    else
      var last := steps[|steps| - 1];
      var earlier := FirstError(steps[..|steps| - 1]);
      if earlier.Some? then earlier else if last.Some? then last.value.err else None
  }

  predicate Reported(step: Option<Extraction>)
  {
    step.Some? && step.value.err.Some?
  }

  /** Combining branch by branch: the results of consecutive runs of branches are concatenated. */
  lemma {:induction false} CombinedConcat(a: seq<Option<Extraction>>, b: seq<Option<Extraction>>)
    ensures Combined(a + b) == Combined(a) + Combined(b)
    decreases |b|
  {
    if b == [] {
      assert a + b == a;
    } else {
      var b' := b[..|b| - 1];
      assert (a + b)[..|a + b| - 1] == a + b';
      CombinedConcat(a, b');
    }
  }

  /** An error once reported is never replaced by a later branch's; until then the later ones decide. */
  lemma {:induction false} FirstErrorConcat(a: seq<Option<Extraction>>, b: seq<Option<Extraction>>)
    ensures FirstError(a).Some? ==> FirstError(a + b) == FirstError(a)
    ensures FirstError(a).None? ==> FirstError(a + b) == FirstError(b)
    decreases |b|
  {
    if b == [] {
      assert a + b == a;
    } else {
      var b' := b[..|b| - 1];
      assert (a + b)[..|a + b| - 1] == a + b';
      FirstErrorConcat(a, b');
    }
  }

  /** There is an error exactly when some branch's extraction reported one, and it is the earliest such. */
  lemma {:induction false} FirstErrorIsEarliest(steps: seq<Option<Extraction>>)
    ensures FirstError(steps).Some? <==> exists i :: 0 <= i < |steps| && Reported(steps[i])
    ensures forall i :: 0 <= i < |steps| && Reported(steps[i]) && (forall j :: 0 <= j < i ==> !Reported(steps[j])) ==>
        FirstError(steps) == steps[i].value.err
    decreases |steps|
  {
    if steps != [] {
      var init := steps[..|steps| - 1];
      FirstErrorIsEarliest(init);
      assert forall i :: 0 <= i < |init| ==> init[i] == steps[i];
    }
  }

  /** The steps of all branches, in order. */
  function Steps(cfg: Config, outDir: string, branches: seq<string>, list: Lister, run: Runner, numCpu: int)
    : (steps: seq<Option<Extraction>>)
    ensures |steps| == |branches|
    ensures forall i :: 0 <= i < |branches| ==> steps[i] == BranchStep(cfg, outDir, branches[i], list, run, numCpu)
  {
    seq(|branches|, i requires 0 <= i < |branches| => BranchStep(cfg, outDir, branches[i], list, run, numCpu))
  }

  /** What a run ends with: the results printed in the summary (none when it stopped early) and the error. */
  datatype Outcome = Outcome(summary: Option<seq<ExtractResult>>, err: Option<string>)

  /** The context is cancelled before the branch loop has started all `n` branches. */
  predicate Cancelled(cancelAt: Option<nat>, n: nat)
  {
    cancelAt.Some? && cancelAt.value < n
  }

  /**
   * runAllBranches, with the branch listing, the point at which the context is
   * cancelled (counted in branches started), the commit listing and the
   * extractor as inputs.
   */
  method RunAllBranches(cfg: Config, outDir: string, branches: Result<seq<string>, string>, cancelAt: Option<nat>,
      ctxErr: string, list: Lister, run: Runner, numCpu: int)
    returns (o: Outcome)
    ensures branches.Err? ==> o == Outcome(None, Some("failed to list branches: " + branches.error))
    ensures branches == Ok([]) ==> o == Outcome(None, Some("no branches found"))
    ensures branches.Ok? && branches.value != [] && Cancelled(cancelAt, |branches.value|) ==>
      o == Outcome(None, Some(ctxErr))
    ensures branches.Ok? && branches.value != [] && !Cancelled(cancelAt, |branches.value|) ==>
      var steps := Steps(cfg, outDir, branches.value, list, run, numCpu);
      o == Outcome(Some(Combined(steps)), FirstError(steps))
  {
    if branches.Err? {
      return Outcome(None, Some("failed to list branches: " + branches.error));
    }
    var bs := branches.value;
    if |bs| == 0 {
      return Outcome(None, Some("no branches found"));
    }
    ghost var steps := Steps(cfg, outDir, bs, list, run, numCpu);
    var allResults: seq<ExtractResult> := [];
    var extractionErr: Option<string> := None;
    var i := 0;
    while i < |bs|
      invariant 0 <= i <= |bs|
      invariant !Cancelled(cancelAt, i)
      invariant allResults == Combined(steps[..i])
      invariant extractionErr == FirstError(steps[..i])
    {
      if cancelAt.Some? && cancelAt.value <= i {
        return Outcome(None, Some(ctxErr));
      }
      assert steps[..i + 1][..i] == steps[..i];
      allResults, extractionErr := ExtractBranch(cfg, outDir, bs[i], list, run, numCpu, allResults, extractionErr);
      i := i + 1;
    }
    assert steps[..i] == steps;
    return Outcome(Some(allResults), extractionErr);
  }

  /** One pass of the branch loop: its results are appended, and its error kept unless one was already. */
  method ExtractBranch(cfg: Config, outDir: string, branch: string, list: Lister, run: Runner, numCpu: int,
      allResults: seq<ExtractResult>, extractionErr: Option<string>)
    returns (results: seq<ExtractResult>, err: Option<string>)
    ensures var step := BranchStep(cfg, outDir, branch, list, run, numCpu);
      results == allResults + (if step.Some? then step.value.results else []) &&
      err == if extractionErr.Some? then extractionErr else if step.Some? then step.value.err else None
  {
    results, err := allResults, extractionErr;
    var branchDir := Paths.Join(outDir, SanitizeBranchName(branch));
    var commits := list(GitCommits.ListOptions(branch, cfg.limit, true));
    if commits.Err? || |commits.value| == 0 {
      return;
    }
    var ext := Extractor.New(Extractor.Config(branchDir, cfg.workers, "", false, cfg.verbose), numCpu);
    var x := run(ext, commits.value);
    results := results + x.results;
    if x.err.Some? && err.None? {
      err := x.err;
    }
  }

  /** runSingleBranch: list the configured branch and extract it into the output directory itself. */
  function RunSingleBranch(cfg: Config, outDir: string, list: Lister, run: Runner, numCpu: int): (o: Outcome)
    ensures list(ListingFor(cfg.branch, cfg)).Err? ==>
      o == Outcome(None, Some("failed to list commits: " + list(ListingFor(cfg.branch, cfg)).error))
    ensures list(ListingFor(cfg.branch, cfg)) == Ok([]) ==> o == Outcome(None, Some("no commits found"))
    ensures o.summary.Some? <==> list(ListingFor(cfg.branch, cfg)).Ok? && list(ListingFor(cfg.branch, cfg)).value != []
    ensures o.summary.Some? ==>
      var x := run(ExtractorConfig(outDir, cfg, numCpu), list(ListingFor(cfg.branch, cfg)).value);
      o == Outcome(Some(x.results), x.err)
  {
    match list(ListingFor(cfg.branch, cfg))
    case Err(e) => Outcome(None, Some("failed to list commits: " + e))
    case Ok(commits) =>
      if commits == [] then Outcome(None, Some("no commits found"))
      else
        var x := run(ExtractorConfig(outDir, cfg, numCpu), commits);
        Outcome(Some(x.results), x.err)
  }

  /**
   * Run: prepare the output directory, then extract the configured branch, or
   * every branch when none is configured.
   */
  method Run(cfg: Config, open: Result<string, string>, abs: string -> Result<string, string>,
      stat: string -> StatResult, branches: Result<seq<string>, string>, cancelAt: Option<nat>, ctxErr: string,
      list: Lister, run: Runner, numCpu: int)
    returns (o: Outcome)
    ensures PrepareOutput(cfg.outputDir, open, abs, stat).Err? ==>
      o == Outcome(None, Some(PrepareOutput(cfg.outputDir, open, abs, stat).error))
    ensures PrepareOutput(cfg.outputDir, open, abs, stat).Ok? && cfg.branch != "" ==>
      o == RunSingleBranch(cfg, PrepareOutput(cfg.outputDir, open, abs, stat).value, list, run, numCpu)
    ensures PrepareOutput(cfg.outputDir, open, abs, stat).Ok? && cfg.branch == "" ==>
      (branches.Err? ==> o == Outcome(None, Some("failed to list branches: " + branches.error))) &&
      (branches == Ok([]) ==> o == Outcome(None, Some("no branches found"))) &&
      (branches.Ok? && branches.value != [] && Cancelled(cancelAt, |branches.value|) ==>
        o == Outcome(None, Some(ctxErr))) &&
      (branches.Ok? && branches.value != [] && !Cancelled(cancelAt, |branches.value|) ==>
        var steps := Steps(cfg, PrepareOutput(cfg.outputDir, open, abs, stat).value, branches.value, list, run, numCpu);
        o == Outcome(Some(Combined(steps)), FirstError(steps)))
    ensures o.summary.Some? ==> PrepareOutput(cfg.outputDir, open, abs, stat).Ok?
  {
    var prepared := PrepareOutput(cfg.outputDir, open, abs, stat);
    if prepared.Err? {
      return Outcome(None, Some(prepared.error));
    }
    var outDir := prepared.value;
    if cfg.branch != "" {
      return RunSingleBranch(cfg, outDir, list, run, numCpu);
    }
    o := RunAllBranches(cfg, outDir, branches, cancelAt, ctxErr, list, run, numCpu);
  }

  // ---------------------------------------------------------------------
  // The summary
  // ---------------------------------------------------------------------

  predicate Succeeded(r: ExtractResult)
  {
    r.error.None?
  }

  /** The line listing a failed commit: its short hash and its error. */
  function FailedLine(r: ExtractResult): string
    requires r.error.Some?
  {
    "  - " + r.commit.shortHash + ": " + r.error.value
  }

  /** The failed commits' lines, in result order. */
  function FailedLines(results: seq<ExtractResult>): seq<string>
    decreases |results|
  {
    if results == [] then []
    else
      var last := results[|results| - 1];
      FailedLines(results[..|results| - 1]) + (if last.error.Some? then [FailedLine(last)] else [])
  }

  /** What printSummary shows: the counts, the failed commits' lines, and which blocks appear. */
  datatype Summary = Summary(successes: nat, failures: nat, failedLines: seq<string>, errorBlock: bool,
    failedList: bool)

  function SummaryOf(results: seq<ExtractResult>, verbose: bool): Summary
  {
    var failures := Seqs.Count(results, Extractor.Failed);
    var lines := FailedLines(results);
    Summary(Seqs.Count(results, Succeeded), failures, lines, failures > 0, failures > 0 && verbose && |lines| > 0)
  }

  /** printSummary's counting loop. */
  method Summarize(results: seq<ExtractResult>, verbose: bool) returns (s: Summary)
    ensures s == SummaryOf(results, verbose)
  {
    var successes, failures := 0, 0;
    var failedCommits: seq<string> := [];
    for k := 0 to |results|
      invariant successes == Seqs.Count(results[..k], Succeeded)
      invariant failures == Seqs.Count(results[..k], Extractor.Failed)
      invariant failedCommits == FailedLines(results[..k])
    {
      var r := results[k];
      assert results[..k + 1][..k] == results[..k];
      if r.error.Some? {
        failures := failures + 1;
        failedCommits := failedCommits + ["  - " + r.commit.shortHash + ": " + r.error.value];
      } else {
        successes := successes + 1;
      }
    }
    assert results[..|results|] == results;
    s := Summary(successes, failures, failedCommits, failures > 0, failures > 0 && verbose && |failedCommits| > 0);
  }

  /** Every result is counted once, as a success or as a failure. */
  lemma {:induction false} CountsAddUp(results: seq<ExtractResult>)
    ensures Seqs.Count(results, Succeeded) + Seqs.Count(results, Extractor.Failed) == |results|
    decreases |results|
  {
    if results != [] {
      CountsAddUp(results[..|results| - 1]);
    }
  }

  /** There is one failed-commit line per failure. */
  lemma {:induction false} OneLinePerFailure(results: seq<ExtractResult>)
    ensures |FailedLines(results)| == Seqs.Count(results, Extractor.Failed)
    decreases |results|
  {
    if results != [] {
      OneLinePerFailure(results[..|results| - 1]);
    }
  }

  /**
   * The summary accounts for every result; the error block appears only when
   * something failed, and the list of failed commits only when also verbose.
   */
  lemma SummaryShape(results: seq<ExtractResult>, verbose: bool)
    ensures var s := SummaryOf(results, verbose);
      s.successes + s.failures == |results| &&
      |s.failedLines| == s.failures &&
      (s.errorBlock <==> exists k :: 0 <= k < |results| && Extractor.Failed(results[k])) &&
      (s.failedList <==> s.errorBlock && verbose)
  {
    CountsAddUp(results);
    OneLinePerFailure(results);
    Seqs.CountZero(results, Extractor.Failed);
  }
}
