/**
 * The extraction pool (internal/extractor/extractor.go). The worker goroutines
 * and channels are modelled as one sequential drain of the job queue: jobs are
 * taken in queue order until the queue is empty or cancellation is noticed, and
 * their results are received in a completion order that the scheduler chooses
 * (an input). What each extraction would report is an input as well.
 */
module Extractor {
  import opened Wrappers
  import Text
  import Paths
  import Seqs
  import GitCommit
  import GitExtract
  import Progress

  type Commit = GitCommit.Commit

  /** The name of a commit's output folder for a format and a 1-based position (Commit.FolderName). */
  type FolderNamer = (Commit, string, int) -> string

  datatype Config = Config(outputDir: string, workers: int, folderFormat: string, quiet: bool, verbose: bool)

  /** New: the worker count defaults to the number of CPUs and the folder format to "hash". */
  function New(cfg: Config, numCpu: int): (c: Config)
    ensures c.workers == if cfg.workers <= 0 then numCpu else cfg.workers
    ensures c.folderFormat == if cfg.folderFormat == "" then "hash" else cfg.folderFormat
    ensures c.outputDir == cfg.outputDir && c.quiet == cfg.quiet && c.verbose == cfg.verbose
  {
    var workers := if cfg.workers <= 0 then numCpu else cfg.workers;
    var format := if cfg.folderFormat == "" then "hash" else cfg.folderFormat;
    cfg.(workers := workers, folderFormat := format)
  }

  /** With at least one CPU the defaults leave a usable configuration, which New then keeps as it is. */
  lemma NewIsIdempotent(cfg: Config, numCpu: int, otherCpu: int)
    requires numCpu > 0
    ensures New(cfg, numCpu).workers > 0 && New(cfg, numCpu).folderFormat != ""
    ensures New(New(cfg, numCpu), otherCpu) == New(cfg, numCpu)
  {
  }

  /** A unit of work: a commit and its position in the input. */
  datatype Job = Job(commit: Commit, index: nat)

  /** The outcome of one extraction. */
  datatype ExtractResult = ExtractResult(commit: Commit, index: nat, outputPath: string, error: Option<string>)

  predicate Failed(r: ExtractResult)
  {
    r.error.Some?
  }

  /** What creating the folder and running the pipeline would report for one job. */
  datatype JobEnv = JobEnv(mkdir: Option<string>, pipeline: GitExtract.Pipeline)

  /** The output folder of a commit: the output directory joined with its 1-based folder name. */
  function OutputPath(cfg: Config, folderName: FolderNamer, commit: Commit, index: nat): string
  {
    Paths.Join(cfg.outputDir, folderName(commit, cfg.folderFormat, index + 1))
  }

  /**
   * extractOne: the result carries the job's own commit and index, the folder
   * the commit went to, and the error of extracting it there.
   */
  function ExtractOne(cfg: Config, folderName: FolderNamer, commit: Commit, index: nat, env: JobEnv)
    : (r: ExtractResult)
    ensures r.commit == commit && r.index == index
    ensures r.outputPath == OutputPath(cfg, folderName, commit, index)
    ensures r.error.None? <==> env.mkdir.None? && GitExtract.RunArchiveToTar(env.pipeline).err.None?
  {
    var outputPath := OutputPath(cfg, folderName, commit, index);
    var x := GitExtract.ExtractCommit(commit.hash, env.mkdir, env.pipeline);
    ExtractResult(commit, index, outputPath, x.err)
  }

  /** The folder's base name is the commit's folder name, when that is a plain name. */
  lemma OutputFolderIsNamed(cfg: Config, folderName: FolderNamer, commit: Commit, index: nat)
    requires var name := folderName(commit, cfg.folderFormat, index + 1);
      name != [] && Paths.Separator !in name
    ensures Paths.Base(OutputPath(cfg, folderName, commit, index)) ==
      folderName(commit, cfg.folderFormat, index + 1)
  {
    Paths.BaseOfJoin(cfg.outputDir, folderName(commit, cfg.folderFormat, index + 1));
  }

  /** The message of a progress increment: a cross and the error, or a tick and the folder's base name. */
  function ProgressMessage(r: ExtractResult): (msg: string)
    ensures msg != [] && (msg[0] == '✗' <==> Failed(r))
    ensures !Failed(r) ==> Text.HasPrefix(msg, "✓ " + r.commit.shortHash + " → ")
  {
    match r.error
    case Some(e) => "✗ " + r.commit.shortHash + ": " + e
    case None => "✓ " + r.commit.shortHash + " → " + Paths.Base(r.outputPath)
  }

  /** The aggregate error's text. */
  function FailureText(failed: int, total: int): string
  {
    Text.IntToString(failed) + " of " + Text.IntToString(total) + " extractions failed"
  }

  /** Both counts can be read back from the aggregate error's text. */
  lemma FailureTextReadsBack(failed: int, total: int)
    requires Text.MinInt64 <= failed <= Text.MaxInt64 && Text.MinInt64 <= total <= Text.MaxInt64
    ensures var fs := Text.Fields(FailureText(failed, total));
      |fs| == 5 && Text.ParseInt(fs[0]) == Text.Parsed(failed) && Text.ParseInt(fs[2]) == Text.Parsed(total)
  {
    var parts := FailureWords(failed, total);
    FailureTextIsJoin(failed, total);
    FailureWordsArePlain(failed, total);
    Text.FieldsOfJoin(parts, ' ');
    Text.ParseIntToString(failed);
    Text.ParseIntToString(total);
  }

  function FailureWords(failed: int, total: int): seq<string>
  {
    [Text.IntToString(failed), "of", Text.IntToString(total), "extractions", "failed"]
  }

  lemma FailureWordsArePlain(failed: int, total: int)
    ensures forall i :: 0 <= i < 5 ==> FailureWords(failed, total)[i] != [] && Text.NoSpace(FailureWords(failed, total)[i])
  {
    assert Text.NoSpace("of") && Text.NoSpace("extractions") && Text.NoSpace("failed");
  }

  lemma FailureTextIsJoin(failed: int, total: int)
    ensures Text.Join(FailureWords(failed, total), " ") == FailureText(failed, total)
  {
    var w0, w2 := Text.IntToString(failed), Text.IntToString(total);
    var r4 := ["failed"];
    var r3 := ["extractions"] + r4;
    Text.JoinStep("extractions", r4, "failed", " ");
    var t3 := "extractions" + " " + "failed";
    var r2 := [w2] + r3;
    Text.JoinStep(w2, r3, t3, " ");
    var t2 := w2 + " " + t3;
    var r1 := ["of"] + r2;
    Text.JoinStep("of", r2, t2, " ");
    var t1 := "of" + " " + t2;
    Text.JoinStep(w0, r1, t1, " ");
    assert [w0] + r1 == FailureWords(failed, total);
    SpacedWords(w0, w2);
  }

  lemma SpacedWords(a: string, c: string)
    ensures a + " " + ("of" + " " + (c + " " + ("extractions" + " " + "failed"))) == a + " of " + c + " extractions failed"
  {
    assert "of" + " " + (c + " " + ("extractions" + " " + "failed")) == "of " + c + " extractions failed";
  }

  /** The aggregate error: present exactly when some result failed, counting the failures against the commits. */
  function Verdict(results: seq<ExtractResult>, n: int): (err: Option<string>)
    ensures err.Some? <==> exists k :: 0 <= k < |results| && Failed(results[k])
    ensures err.Some? ==> err.value == FailureText(Seqs.Count(results, Failed), n)
  {
    Seqs.CountZero(results, Failed);
    if Seqs.Count(results, Failed) > 0 then Some(FailureText(Seqs.Count(results, Failed), n)) else None
  }

  // ---------------------------------------------------------------------
  // The run
  // ---------------------------------------------------------------------

  /** The queue Run fills: job i holds commit i and index i. */
  function Jobs(commits: seq<Commit>): (jobs: seq<Job>)
    ensures |jobs| == |commits|
    ensures forall i :: 0 <= i < |jobs| ==> jobs[i] == Job(commits[i], i)
  {
    seq(|commits|, i requires 0 <= i < |commits| => Job(commits[i], i))
  }

  /** What every job would produce if it were taken. */
  function Outcomes(cfg: Config, folderName: FolderNamer, commits: seq<Commit>, envs: seq<JobEnv>)
    : (rs: seq<ExtractResult>)
    requires |envs| == |commits|
    ensures |rs| == |commits|
    ensures forall i :: 0 <= i < |rs| ==> rs[i] == ExtractOne(cfg, folderName, commits[i], i, envs[i])
  {
    seq(|commits|, i requires 0 <= i < |commits| => ExtractOne(cfg, folderName, commits[i], i, envs[i]))
  }

  /** How many jobs the pool takes: all of them, unless cancellation is noticed after `cancelAt` pickups. */
  function Taken(n: nat, cancelAt: Option<nat>): (k: nat)
    ensures k <= n
    ensures cancelAt.None? ==> k == n
  {
    if cancelAt.Some? && cancelAt.value < n then cancelAt.value else n
  }

  /**
   * The results a run delivers: the outcomes of the jobs taken, in the order
   * they complete.
   */
  function Delivered(cfg: Config, folderName: FolderNamer, commits: seq<Commit>, envs: seq<JobEnv>,
      cancelAt: Option<nat>, completion: seq<nat>): (rs: seq<ExtractResult>)
    requires |envs| == |commits|
    requires Seqs.IsOrdering(completion, Taken(|commits|, cancelAt))
    ensures |rs| == |completion| == Taken(|commits|, cancelAt)
  {
    var taken := Taken(|commits|, cancelAt);
    Seqs.OrderingInRange(completion, taken);
    Seqs.Pick(Outcomes(cfg, folderName, commits, envs)[..taken], completion)
  }

  /**
   * Run: enqueue the jobs, let the pool take them, receive every result in
   * completion order with one progress increment each, and report how many
   * failed. `clock(k)` is the time of the k-th reporter event.
   */
  method Run(cfg: Config, commits: seq<Commit>, folderName: FolderNamer, envs: seq<JobEnv>,
      cancelAt: Option<nat>, completion: seq<nat>, clock: nat -> int)
    returns (results: seq<ExtractResult>, err: Option<string>, reporter: Progress.Reporter?)
    requires |envs| == |commits|
    requires Seqs.IsOrdering(completion, Taken(|commits|, cancelAt))
    ensures commits == [] ==> results == [] && err == None && reporter == null
    ensures results == Delivered(cfg, folderName, commits, envs, cancelAt, completion)
    ensures err == Verdict(results, |commits|)
    ensures commits != [] ==>
      reporter != null && fresh(reporter) &&
      reporter.total == |commits| && reporter.current == |results|
    ensures commits != [] && cfg.quiet ==> reporter != null && reporter.output == []
    ensures commits != [] && !cfg.quiet ==>
      reporter != null && reporter.output != [] &&
      reporter.output[|reporter.output| - 1] ==
        Progress.CompletedLine(|commits|, clock(|results| + 1) - clock(0))
  {
    if |commits| == 0 {
      NothingDelivered(cfg, folderName, commits, envs, cancelAt, completion);
      return [], None, null;
    }
    var r;
    results, err, r := RunWithReporter(cfg, commits, folderName, envs, cancelAt, completion, clock);
    reporter := r;
  }

  lemma NothingDelivered(cfg: Config, folderName: FolderNamer, commits: seq<Commit>, envs: seq<JobEnv>,
      cancelAt: Option<nat>, completion: seq<nat>)
    requires commits == [] && |envs| == 0
    requires Seqs.IsOrdering(completion, Taken(|commits|, cancelAt))
    ensures Delivered(cfg, folderName, commits, envs, cancelAt, completion) == []
    ensures Verdict([], |commits|) == None
  {
    Seqs.OrderingInRange(completion, 0);
  }

  /** Run on a non-empty list: the reporter's whole life around the pool. */
  method RunWithReporter(cfg: Config, commits: seq<Commit>, folderName: FolderNamer, envs: seq<JobEnv>,
      cancelAt: Option<nat>, completion: seq<nat>, clock: nat -> int)
    returns (results: seq<ExtractResult>, err: Option<string>, reporter: Progress.Reporter)
    requires |envs| == |commits| && commits != []
    requires Seqs.IsOrdering(completion, Taken(|commits|, cancelAt))
    ensures results == Delivered(cfg, folderName, commits, envs, cancelAt, completion)
    ensures err == Verdict(results, |commits|)
    ensures fresh(reporter) && reporter.total == |commits| && reporter.current == |results|
    ensures cfg.quiet ==> reporter.output == []
    ensures !cfg.quiet ==>
      reporter.output != [] &&
      reporter.output[|reporter.output| - 1] ==
        Progress.CompletedLine(|commits|, clock(|results| + 1) - clock(0))
  {
    reporter := StartReporter(|commits|, cfg.quiet, cfg.verbose, clock(0));
    results, err := Dispatch(cfg, commits, folderName, envs, cancelAt, completion, clock, reporter);
    reporter.Finish(clock(|results| + 1));
  }

  /** A new reporter for `total` items, started at `now`. */
  method StartReporter(total: nat, quiet: bool, verbose: bool, now: int) returns (reporter: Progress.Reporter)
    requires total > 0
    ensures fresh(reporter)
    ensures reporter.total == total && reporter.quiet == quiet && reporter.verbose == verbose
    ensures reporter.current == 0 && reporter.startTime == now
    ensures quiet ==> reporter.output == []
    ensures !quiet ==> |reporter.output| == 1
  {
    reporter := new Progress.Reporter(total, quiet, verbose, now);
    reporter.Start(now);
  }

  /** The part of Run between starting and finishing the reporter: the pool, the collection and the verdict. */
  method Dispatch(cfg: Config, commits: seq<Commit>, folderName: FolderNamer, envs: seq<JobEnv>,
      cancelAt: Option<nat>, completion: seq<nat>, clock: nat -> int, reporter: Progress.Reporter)
    returns (results: seq<ExtractResult>, err: Option<string>)
    requires |envs| == |commits| && commits != []
    requires Seqs.IsOrdering(completion, Taken(|commits|, cancelAt))
    requires reporter.total == |commits| && reporter.quiet == cfg.quiet
    requires reporter.current == 0 && reporter.startTime == clock(0)
    requires cfg.quiet ==> reporter.output == []
    modifies reporter
    ensures results == Delivered(cfg, folderName, commits, envs, cancelAt, completion)
    ensures err == Verdict(results, |commits|)
    ensures reporter.current == |results| && reporter.startTime == clock(0)
    ensures cfg.quiet ==> reporter.output == []
  {
    var n := |commits|;
    var taken := Taken(n, cancelAt);
    Seqs.OrderingInRange(completion, taken);
    var jobs := Enqueue(commits);
    var done := Drain(cfg, folderName, commits, jobs, envs, cancelAt);
    var allResults, errors := Collect(reporter, done, completion, clock);
    assert allResults == Delivered(cfg, folderName, commits, envs, cancelAt, completion);

    if |errors| > 0 {
      return allResults, Some(FailureText(|errors|, n));
    }
    return allResults, None;
  }

  /** Send the jobs: job i holds commit i and index i. */
  method Enqueue(commits: seq<Commit>) returns (jobs: seq<Job>)
    ensures jobs == Jobs(commits)
  {
    jobs := [];
    for i := 0 to |commits|
      invariant jobs == Jobs(commits[..i])
    {
      jobs := jobs + [Job(commits[i], i)];
    }
    assert commits[..|commits|] == commits;
  }

  /**
   * The worker loop: take jobs in queue order, each yielding exactly one result,
   * until the queue is empty or cancellation is noticed.
   */
  method Drain(cfg: Config, folderName: FolderNamer, commits: seq<Commit>, jobs: seq<Job>, envs: seq<JobEnv>,
      cancelAt: Option<nat>)
    returns (done: seq<ExtractResult>)
    requires jobs == Jobs(commits) && |envs| == |commits|
    ensures done == Outcomes(cfg, folderName, commits, envs)[..Taken(|commits|, cancelAt)]
  {
    ghost var all := Outcomes(cfg, folderName, commits, envs);
    done := [];
    var k := 0;
    while k < |jobs| && !(cancelAt.Some? && k >= cancelAt.value)
      invariant 0 <= k <= Taken(|jobs|, cancelAt)
      invariant done == all[..k]
    {
      var j := jobs[k];
      var result := ExtractOne(cfg, folderName, j.commit, j.index, envs[j.index]);
      assert all[..k + 1] == all[..k] + [result];
      done := done + [result];
      k := k + 1;
    }
  }

  /** The errors of the failed results, in order. */
  function ErrorsOf(results: seq<ExtractResult>): (errs: seq<string>)
    ensures |errs| == Seqs.Count(results, Failed)
    decreases |results|
  {
    if results == [] then []
    else
      var last := results[|results| - 1];
      ErrorsOf(results[..|results| - 1]) + (if last.error.Some? then [last.error.value] else [])
  }

  /** The progress message of each result, in order. */
  function Messages(results: seq<ExtractResult>): (msgs: seq<string>)
    ensures |msgs| == |results|
  {
    seq(|results|, m requires 0 <= m < |results| => ProgressMessage(results[m]))
  }

  lemma MessagesSnoc(results: seq<ExtractResult>, r: ExtractResult)
    ensures Messages(results + [r]) == Messages(results) + [ProgressMessage(r)]
  {
    var rs := results + [r];
    forall m | 0 <= m < |results|
      ensures Messages(rs)[m] == Messages(results)[m]
    {
      assert rs[m] == results[m];
    }
  }

  /** The item lines verbose increments write for `messages`, counting on from `start`. */
  function ItemsFor(start: nat, total: int, messages: seq<string>): (items: seq<Progress.Line>)
    ensures |items| == |messages|
    decreases |messages|
  {
    if messages == [] then []
    else
      var n := |messages| - 1;
      ItemsFor(start, total, messages[..n]) + [Progress.ItemLine(start + n + 1, total, messages[n])]
  }

  lemma ItemsForSnoc(start: nat, total: int, messages: seq<string>, msg: string)
    ensures ItemsFor(start, total, messages + [msg]) ==
      ItemsFor(start, total, messages) + [Progress.ItemLine(start + |messages| + 1, total, msg)]
  {
    assert (messages + [msg])[..|messages|] == messages;
  }

  /**
   * The m-th item line carries the count after the m-th result and that
   * result's message, so it starts with ✗ exactly when the result failed.
   */
  lemma ItemsForResults(start: nat, total: int, results: seq<ExtractResult>, m: nat)
    requires m < |results|
    ensures ItemsFor(start, total, Messages(results))[m] ==
      Progress.ItemLine(start + m + 1, total, ProgressMessage(results[m]))
    ensures ItemsFor(start, total, Messages(results))[m].message[0] == '✗' <==> Failed(results[m])
  {
    ItemsForAt(start, total, Messages(results), m);
  }

  lemma {:induction false} ItemsForAt(start: nat, total: int, messages: seq<string>, m: nat)
    requires m < |messages|
    ensures ItemsFor(start, total, messages)[m] == Progress.ItemLine(start + m + 1, total, messages[m])
    decreases |messages|
  {
    var n := |messages| - 1;
    if m < n {
      ItemsForAt(start, total, messages[..n], m);
    }
  }

  /** The item lines written so far: the verbose ones for `messages`, or none. */
  function ItemsSoFar(verbose: bool, start: nat, total: int, messages: seq<string>): seq<Progress.Line>
  {
    if verbose then ItemsFor(start, total, messages) else []
  }

  /** One increment of the collection loop extends the item lines by its message's line, in verbose mode. */
  lemma ItemsStep(oldOut: seq<Progress.Line>, before: seq<Progress.Line>, after: seq<Progress.Line>,
      start: nat, total: int, messages: seq<string>, msg: string, bar: Progress.Line, written: bool)
    requires bar.BarLine?
    requires Progress.ItemLines(before) == Progress.ItemLines(oldOut) + ItemsSoFar(written, start, total, messages)
    requires written ==> after == before + [Progress.ItemLine(start + |messages| + 1, total, msg), bar]
    requires !written ==> after == before || after == before + [bar]
    ensures Progress.ItemLines(after) == Progress.ItemLines(oldOut) + ItemsSoFar(written, start, total, messages + [msg])
  {
    Progress.ItemLinesOfStep(before, after, Progress.ItemLine(start + |messages| + 1, total, msg), bar, written);
    ItemsForSnoc(start, total, messages, msg);
  }

  /**
   * The collection loop: append every received result, keep the error of each
   * failed one, and advance the reporter once per result with that result's
   * message; in verbose mode each message becomes an item line.
   */
  method Collect(reporter: Progress.Reporter, done: seq<ExtractResult>, completion: seq<nat>, clock: nat -> int)
    returns (allResults: seq<ExtractResult>, errors: seq<string>)
    requires Seqs.InRange(completion, |done|)
    requires !reporter.quiet ==> reporter.total > 0
    modifies reporter
    ensures allResults == Seqs.Pick(done, completion)
    ensures errors == ErrorsOf(allResults)
    ensures |errors| == Seqs.Count(allResults, Failed)
    ensures reporter.current == old(reporter.current) + |completion|
    ensures reporter.startTime == old(reporter.startTime)
    ensures reporter.quiet ==> reporter.output == old(reporter.output)
    ensures Progress.ItemLines(reporter.output) == Progress.ItemLines(old(reporter.output)) +
      ItemsSoFar(!reporter.quiet && reporter.verbose, old(reporter.current), reporter.total, Messages(allResults))
  {
    allResults := [];
    errors := [];
    ghost var start := reporter.current;
    ghost var written := !reporter.quiet && reporter.verbose;
    for m := 0 to |completion|
      invariant allResults == Seqs.Pick(done, completion[..m])
      invariant errors == ErrorsOf(allResults)
      invariant reporter.current == start + m
      invariant reporter.startTime == old(reporter.startTime)
      invariant reporter.quiet ==> reporter.output == old(reporter.output)
      invariant Progress.ItemLines(reporter.output) ==
        Progress.ItemLines(old(reporter.output)) + ItemsSoFar(written, start, reporter.total, Messages(allResults))
    {
      var result := done[completion[m]];
      ghost var previous := allResults;
      allResults, errors := Receive(done, completion, m, allResults, errors);
      Report(reporter, ProgressMessage(result), clock(m + 1), old(reporter.output), start, Messages(previous));
      MessagesSnoc(previous, result);
    }
    assert completion[..|completion|] == completion;
  }

  /**
   * One report of the collection loop: advance the reporter with a result's
   * message, which in verbose mode adds the message's item line.
   */
  method Report(reporter: Progress.Reporter, message: string, now: int,
      ghost origin: seq<Progress.Line>, ghost start: nat, ghost messages: seq<string>)
    requires message != ""
    requires !reporter.quiet ==> reporter.total > 0
    requires reporter.current == start + |messages|
    requires Progress.ItemLines(reporter.output) == Progress.ItemLines(origin) +
      ItemsSoFar(!reporter.quiet && reporter.verbose, start, reporter.total, messages)
    modifies reporter
    ensures reporter.current == old(reporter.current) + 1 && reporter.startTime == old(reporter.startTime)
    ensures reporter.quiet ==> reporter.output == old(reporter.output)
    ensures Progress.ItemLines(reporter.output) == Progress.ItemLines(origin) +
      ItemsSoFar(!reporter.quiet && reporter.verbose, start, reporter.total, messages + [message])
  {
    ghost var before := reporter.output;
    ghost var written := !reporter.quiet && reporter.verbose;
    reporter.Increment(message, now);
    ItemsStep(origin, before, reporter.output, start, reporter.total, messages, message,
      Progress.BarLine(reporter.current, reporter.total, now - reporter.startTime), written);
  }

  /** One step of the collection loop: append the m-th received result and keep its error, if any. */
  method Receive(done: seq<ExtractResult>, completion: seq<nat>, m: nat, allResults: seq<ExtractResult>,
      errors: seq<string>)
    returns (allResults': seq<ExtractResult>, errors': seq<string>)
    requires Seqs.InRange(completion, |done|) && m < |completion|
    requires allResults == Seqs.Pick(done, completion[..m])
    requires errors == ErrorsOf(allResults)
    ensures allResults' == allResults + [done[completion[m]]]
    ensures allResults' == Seqs.Pick(done, completion[..m + 1])
    ensures errors' == ErrorsOf(allResults')
  {
    var result := done[completion[m]];
    Seqs.TakeSnoc(completion, m);
    Seqs.PickSnoc(done, completion[..m], completion[m]);
    allResults' := allResults + [result];
    assert allResults'[..|allResults|] == allResults;
    errors' := if result.error.Some? then errors + [result.error.value] else errors;
  }

  // ---------------------------------------------------------------------
  // What a run delivers
  // ---------------------------------------------------------------------

  /** Every taken job's result is received exactly once: the results are a rearrangement of the outcomes. */
  lemma ResultsArePermutation(cfg: Config, folderName: FolderNamer, commits: seq<Commit>, envs: seq<JobEnv>,
      cancelAt: Option<nat>, completion: seq<nat>)
    requires |envs| == |commits| && Seqs.IsOrdering(completion, Taken(|commits|, cancelAt))
    ensures multiset(Delivered(cfg, folderName, commits, envs, cancelAt, completion)) ==
      multiset(Outcomes(cfg, folderName, commits, envs)[..Taken(|commits|, cancelAt)])
  {
    Seqs.PickOrderingIsPermutation(Outcomes(cfg, folderName, commits, envs)[..Taken(|commits|, cancelAt)], completion);
  }

  /** Each commit has exactly one result: one with its index and commit, and no index is repeated. */
  predicate EachCommitOnce(results: seq<ExtractResult>, commits: seq<Commit>)
  {
    |results| == |commits| &&
    (forall i :: 0 <= i < |commits| ==> HasResultFor(results, i, commits[i])) &&
    (forall j, k :: 0 <= j < k < |results| ==> results[j].index != results[k].index)
  }

  /** Some result carries index `i` and commit `c`. */
  predicate HasResultFor(results: seq<ExtractResult>, i: nat, c: Commit)
  {
    exists k :: 0 <= k < |results| && results[k].index == i && results[k].commit == c
  }

  /** Without cancellation a run delivers one result per commit, whatever the completion order. */
  lemma OneResultPerCommit(cfg: Config, folderName: FolderNamer, commits: seq<Commit>, envs: seq<JobEnv>,
      completion: seq<nat>)
    requires |envs| == |commits| && Seqs.IsOrdering(completion, Taken(|commits|, None))
    ensures EachCommitOnce(Delivered(cfg, folderName, commits, envs, None, completion), commits)
  {
    var all := Outcomes(cfg, folderName, commits, envs);
    var n := |commits|;
    assert Taken(n, None) == n;
    assert all[..n] == all;
    PickedOnce(all, commits, completion);
    assert Delivered(cfg, folderName, commits, envs, None, completion) == Seqs.Pick(all, completion);
  }

  /** Reading per-commit outcomes back in any order of all positions gives each commit once. */
  lemma PickedOnce(all: seq<ExtractResult>, commits: seq<Commit>, completion: seq<nat>)
    requires |all| == |commits| && Seqs.IsOrdering(completion, |commits|)
    requires forall i :: 0 <= i < |all| ==> all[i].index == i && all[i].commit == commits[i]
    ensures Seqs.InRange(completion, |all|)
    ensures EachCommitOnce(Seqs.Pick(all, completion), commits)
  {
    var n := |commits|;
    Seqs.OrderingInRange(completion, n);
    Seqs.OrderingDistinct(completion, n);
    var results := Seqs.Pick(all, completion);
    forall i | 0 <= i < n
      ensures HasResultFor(results, i, commits[i])
    {
      Seqs.RangeCountsOnce(n, i);
      assert i in multiset(completion);
      var k := Seqs.FindIn(completion, i);
      assert results[k] == all[i];
    }
    forall j, k | 0 <= j < k < |results| ensures results[j].index != results[k].index {
      assert results[j] == all[completion[j]] && results[k] == all[completion[k]];
    }
    assert |results| == |commits|;
  }

  /**
   * The aggregate error does not depend on the order in which results arrive:
   * it is the verdict on the taken jobs' outcomes in queue order, so it exists
   * exactly when one of them failed.
   */
  lemma VerdictIgnoresOrder(cfg: Config, folderName: FolderNamer, commits: seq<Commit>, envs: seq<JobEnv>,
      cancelAt: Option<nat>, completion: seq<nat>)
    requires |envs| == |commits| && Seqs.IsOrdering(completion, Taken(|commits|, cancelAt))
    ensures var taken := Taken(|commits|, cancelAt);
      Verdict(Delivered(cfg, folderName, commits, envs, cancelAt, completion), |commits|) ==
      Verdict(Outcomes(cfg, folderName, commits, envs)[..taken], |commits|)
  {
    var taken := Taken(|commits|, cancelAt);
    var all := Outcomes(cfg, folderName, commits, envs)[..taken];
    var results := Delivered(cfg, folderName, commits, envs, cancelAt, completion);
    ResultsArePermutation(cfg, folderName, commits, envs, cancelAt, completion);
    Seqs.CountRespectsMultiset(results, all, Failed);
    Seqs.CountZero(results, Failed);
    Seqs.CountZero(all, Failed);
  }

  /**
   * A run cancelled before the queue is drained returns fewer results than
   * commits, and no error at all when none of the taken jobs failed.
   */
  lemma CancelledRunIsSilent(cfg: Config, folderName: FolderNamer, commits: seq<Commit>, envs: seq<JobEnv>,
      cancelAt: nat, completion: seq<nat>)
    requires |envs| == |commits| && cancelAt < |commits|
    requires Seqs.IsOrdering(completion, Taken(|commits|, Some(cancelAt)))
    requires forall i :: 0 <= i < cancelAt ==> !Failed(ExtractOne(cfg, folderName, commits[i], i, envs[i]))
    ensures var results := Delivered(cfg, folderName, commits, envs, Some(cancelAt), completion);
      |results| < |commits| && Verdict(results, |commits|) == None
  {
    var all := Outcomes(cfg, folderName, commits, envs)[..cancelAt];
    VerdictIgnoresOrder(cfg, folderName, commits, envs, Some(cancelAt), completion);
    assert forall i :: 0 <= i < |all| ==> !Failed(all[i]);
  }
}
