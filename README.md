# repopsy (gitxplode) — a Dafny model of its sequential core

repopsy "explodes" a git repository. It writes every commit's tree into its own
folder, using `git archive | tar -x`, and runs a pool of workers with a
terminal progress bar. This project models the deterministic logic around
that pool and proves properties of it:

- **The extraction pool** (`Extractor`, internal/extractor/extractor.go):
  - the worker goroutines become one sequential drain of the job queue;
  - results arrive in a completion order chosen by the scheduler, which is an input;
  - cancellation is the number of jobs taken before the context is noticed as done.
- **The progress reporter** (`Progress.Reporter`, internal/progress/progress.go):
  - a class whose counter, start time and time of last redraw are updated in place;
  - the redraw throttle, the percentage, the 30-cell bar, the ETA and `formatDuration`;
  - times are integer nanoseconds passed in by the caller;
  - the lines written to the terminal are collected in the `output` field.
- **Extracting one commit** (`GitExtract`, internal/git/extract.go):
  - the `git archive` argument lists and the pipeline's error precedence;
  - the `ls-tree` and `diff-tree --numstat` scans;
  - the plan for leaving binary files out.
- **Parsing git's output**:
  - `git log` records and arguments, and the commit count (`GitCommits`, internal/git/commits.go);
  - the `--numstat` statistics fold and the parent list (`GitStats`, internal/git/stats.go);
  - the GPG status table, `String` and the metadata path (`GitCommit`, internal/git/commit.go);
  - the trimmed-output rule of `runGitCommand` (`Process`, internal/git/repository.go).
- **The application layer** (`App`, internal/app/app.go): the output directory, the
  per-branch loop that concatenates results and keeps the first error, and the
  summary counts.
- **The command line** (`Cli`, cmd/root.go): the exit-code precedence of
  `Execute`, the folder-format validator, the branch display, the version
  banner, the checks `run` makes, and the summary counts.

Go library behaviour the core relies on is written out in support modules:

- `Text`: `strings.Fields`, `strings.Join`, `strings.SplitN`, `bufio.Scanner`
  line splitting, `strings.TrimSpace`, ASCII case mapping, `%d`,
  `strconv.ParseInt`/`Atoi` with int64 range errors, and int64 wrap-around.
- `Paths`: `filepath.Join` and `filepath.Base`.
- `Seqs`: filtering, counting and picking by an ordering.

Processes, the file system, the clock and the scheduler are never run. What
they would report is a parameter: a `CmdResult`, a `Pipeline` of process
outcomes, an `Option<string>` error, a `clock: nat -> int`, or a completion
ordering.

## Model

| member | source | states |
|---|---|---|
| GitCommit.CommitString | internal/git/commit.go:82-84 | `String` is the short hash, one space, then the subject, so its length is theirs plus one |
| GitCommit.CommitStringSplits | internal/git/commit.go:82-84 | splitting `String` at its first space gives back the short hash and the subject |
| GitCommit.MetadataPath | internal/git/commit.go:88 | the metadata file's base name is always COMMIT_INFO.txt |
| GitCommit.WriteMetadataError | internal/git/commit.go:87-107 | no error iff create, execute and close all succeed; a create error is reported first, then an execute error; a close error is reported only when nothing failed before |
| GitCommit.FormatGpgStatus | internal/git/commit.go:109-130 | "Not signed" exactly for "N" and ""; any other unknown code s gives "Unknown (" + s + ")"; a known code never reads as unknown |
| GitCommit.GpgStatusInjective | internal/git/commit.go:110-128 | two codes with the same description are equal, or both mean unsigned, so the seven known descriptions are pairwise distinct |
| Process.RunGitCommand | internal/git/repository.go:63-74 | success iff git succeeded; the output is the trimmed stdout; a failure reads "git <subcommand> failed: …" |
| Process.ErrorText | internal/git/repository.go:69-72 | a failed exit prints as "exit status N"; a process that never ran prints its own error |
| GitCommits.LogArgs | internal/git/commits.go:24-39 | "log" and the format first; "-n<limit>" only for a positive limit; "--reverse" present iff asked; the branch last iff non-empty |
| GitCommits.LimitFlagReadsBack | internal/git/commits.go:29-31 | the limit is read back from its "-n" flag |
| GitCommits.ParseCommitLine | internal/git/commits.go:75-108 | fewer than 11 NUL-separated parts is an error; an error otherwise iff a timestamp is not an int64; the field mapping p0…p10, and parents are the white-space fields of p9 |
| GitCommits.ParseFormatLogLine | internal/git/commits.go:75-108 | the line git prints for any log record parses back to that record, whatever NULs or '\|' its subject holds (internal/git/git_test.go:66-69) |
| GitCommits.ParseEmptyLine | internal/git/commits.go:76-79 | the empty line is a format error |
| GitCommits.LogFieldsSplit | internal/git/commits.go:76 | splitting a record's line at its first ten NULs gives the eleven fields, the subject last and whole |
| GitCommits.ParentsSplit | internal/git/commits.go:92-94 | the parent hashes, joined by spaces as git prints them, split back into the same list, and no parents print as "" |
| GitCommits.Kept | internal/git/commits.go:55-64 | a line keeps at most one commit, and keeps one iff it is non-empty and parses |
| GitCommits.ParsedCommitsComeFromLines | internal/git/commits.go:53-65 | every listed commit is the parse of some output line |
| GitCommits.ParsedCommitsOfLog | internal/git/commits.go:53-65 | reading back the lines git prints for a list of log records gives that list, in order |
| GitCommits.ListingRoundTrip | internal/git/commits.go:52-71 | scanning git's newline-separated output for a list of records gives exactly that list |
| GitCommits.ListCommits | internal/git/commits.go:23-72 | the arguments are LogArgs; a failed git gives "git log failed: " with stderr or the start error; otherwise the scan's commits |
| GitCommits.ScanCommits | internal/git/commits.go:52-65 | the scanner loop skips empty and unparseable lines and keeps the rest in order (ParsedCommits) |
| GitCommits.KeepLine | internal/git/commits.go:55-64 | one pass appends exactly what the line keeps |
| GitCommits.CountRef | internal/git/commits.go:112-115 | the ref is the branch, or "HEAD" when the branch is empty |
| GitCommits.CommitCount | internal/git/commits.go:111-127 | a count iff git succeeded and the trimmed output parses as an int64, and the count is that value |
| GitCommits.CommitCountOfOutput | internal/git/commits.go:117-126 | a count git prints on its own line is read back exactly |
| GitStats.LineStats | internal/git/stats.go:35-56 | an empty line or one with fewer than 3 fields adds nothing; every other line adds exactly one file |
| GitStats.LineStatsOfColumns | internal/git/stats.go:40-56 | a line of two count columns and a path (spaces allowed) adds one file; no lines when either count is "-"; otherwise the Atoi values of the two counts, so counts that are not numbers add 0 |
| GitStats.FilesChangedCountsLines | internal/git/stats.go:41-54 | FilesChanged is the number of lines with at least three fields |
| GitStats.LineStatsOfEntry | internal/git/stats.go:45-56 | a printed binary entry adds one file and no lines; a text entry adds one file and its two counts, for any path with a non-blank character, spaces included |
| GitStats.StatsOfNumstat | internal/git/stats.go:31-59 | folding git's numstat output for a list of entries gives the entries' sum: every file once, text files' insertions and deletions, whatever spaces the paths hold |
| GitStats.SumStatsCountsFiles | internal/git/stats.go:47-54 | the files-changed total of a numstat listing is its number of entries |
| GitStats.StatsOfWrapsTotal | internal/git/stats.go:54-56 | the counters end as the exact totals of the lines wrapped to int64 |
| GitStats.AccumulateWrapsTotal | internal/git/stats.go:54-56 | adding one line at a time with wrap-around ends at the exact sum wrapped once |
| GitStats.StatsOfExact | internal/git/stats.go:54-56 | while the exact totals fit in an int64 the counters equal them |
| GitStats.InsertionsWrapAround | internal/git/stats.go:55 | two files whose insertions add up past 2^63-1 leave a negative counter, their sum less 2^64 |
| GitStats.PairWrapsAround | internal/git/stats.go:55 | two steps whose insertions add up past 2^63-1 leave the counter at their sum less 2^64 |
| GitStats.FoldLines | internal/git/stats.go:31-57 | the scanner loop's counters end as the fold of all lines (StatsOf), line counts wrapping at int64 as Go's int fields do |
| GitStats.CountLine | internal/git/stats.go:35-56 | one pass adds exactly what its line adds, with `+=` on the insertions and deletions wrapping around at int64 |
| GitStats.GetCommitStats | internal/git/stats.go:22-60 | runs `show --numstat --format= <hash>`; a failed git gives "failed to get commit stats: …"; otherwise the fold of the output lines, with int64 wrap-around |
| GitStats.GetCommitParents | internal/git/stats.go:68-77 | success iff git succeeded; no parents for an empty trimmed output; every parent is a white-space-free word |
| GitStats.GetCommitParentsOfOutput | internal/git/stats.go:68-77 | the parents git prints on one line are read back exactly, and a root commit has none |
| GitExtract.FilteredArchiveArgs | internal/git/extract.go:64-65 | exactly "archive", "--format=tar", the hash, "--", then the text files |
| GitExtract.RunArchiveToTar | internal/git/extract.go:71-108 | no error iff both processes started and ended cleanly; the archiver is killed iff only tar failed to start; an archiver failure is reported before a tar failure |
| GitExtract.ExtractCommit | internal/git/extract.go:14-21 | a mkdir failure is reported and nothing is archived; otherwise the whole commit is archived with the pipeline's error |
| GitExtract.ListFiles | internal/git/extract.go:111-128 | a failed git gives "failed to list files: …"; otherwise the non-empty output lines in order |
| GitExtract.BinaryMapKeys | internal/git/extract.go:142-148 | a path is in the map iff some line is "-\t-\t" followed by it, and every entry is true |
| GitExtract.ListBinaryFiles | internal/git/extract.go:131-152 | a failed git gives "failed to list binary files: …"; otherwise the map of the marked lines |
| GitExtract.BinaryMapOfNumstat | internal/git/extract.go:142-148 | reading back numstat lines finds exactly the binary entries' paths |
| GitExtract.FilterTextFiles | internal/git/extract.go:47-52 | the filter loop keeps exactly the files not marked binary, in order (TextFiles) |
| GitExtract.TextFilesSpec | internal/git/extract.go:47-52 | the text files are a subsequence of all files, contain no binary file, and keep every non-binary file |
| GitExtract.PlanOf | internal/git/extract.go:25-57 | the whole commit iff exclusion is off, a listing failed or there are no binaries; nothing to extract exactly when every listed file is binary; otherwise only the text files of the listing, at least one |
| GitExtract.Perform | internal/git/extract.go:42-67 | the whole plan is ExtractCommit; nothing to extract only creates the directory; a filtered plan reports a mkdir failure, else archives exactly its files; no error iff mkdir succeeds and, when something is archived, the pipeline does |
| GitExtract.ExtractCommitExcludingBinaries | internal/git/extract.go:24-68 | the extraction is the plan's outcome (Perform of PlanOf), and plain ExtractCommit when exclusion is off or a listing fails |
| GitExtract.FilteredArchiveHasNoBinary | internal/git/extract.go:46-67 | a filtered archive names exactly the listed files that are not binary, in the listing's order, each one a non-empty line of the listing |
| Progress.FormatDuration | internal/progress/progress.go:164-183 | "< 1s" exactly under one second; every longer duration starts with a digit |
| Progress.Bucket | internal/progress/progress.go:164-183 | whole seconds below a minute, minutes and seconds below an hour, otherwise hours and minutes, seconds dropped |
| Progress.BucketsOrdered | internal/progress/progress.go:164-183 | a longer duration never falls into a shorter bucket |
| Progress.QuotTruncates | internal/progress/progress.go:141 | the average time per item is the quotient truncated toward zero, as Go divides |
| Progress.PercentIsQuotient | internal/progress/progress.go:133-136 | the percentage is 100·current/total rounded down, and 0 without a total |
| Progress.PercentBounds | internal/progress/progress.go:133-136 | within the total it lies in 0..100, and is 100 iff the count reached the total |
| Progress.Filled | internal/progress/progress.go:151-155 | the full cells lie in 0..30, and fill the bar iff the count reached the total |
| Progress.FilledIsQuotient | internal/progress/progress.go:151-152 | short of the full width, the cells are 30·current/total rounded down |
| Progress.Bar | internal/progress/progress.go:156 | the bar always has 30 cells, the first `filled` of them full |
| Progress.Eta | internal/progress/progress.go:139-148 | "calculating..." iff nothing is counted; otherwise the remaining time while positive, else "almost done" |
| Progress.EtaAlmostDone | internal/progress/progress.go:139-148 | once the count reaches the total, the ETA is "almost done" |
| Progress.RemainingEstimate | internal/progress/progress.go:141-142 | the estimate is at most elapsed·left/done and short of it by less than one nanosecond per item left |
| Progress.EtaText | internal/progress/progress.go:139-148 | the ETA computed step by step equals Eta |
| Progress.BarText | internal/progress/progress.go:151-156 | the bar computed with the clamp equals Bar of Filled |
| Progress.Reporter.constructor | internal/progress/progress.go:46-59 | a new reporter has counted and drawn nothing, and its clock starts now |
| Progress.Reporter.Draw | internal/progress/progress.go:125-161 | a redraw records its time, writes the progress line for the current count and elapsed time, and returns the frame FrameAt shows |
| Progress.Reporter.Start | internal/progress/progress.go:62-72 | quiet: nothing changes; otherwise the clock restarts and the line is drawn once |
| Progress.Reporter.Increment | internal/progress/progress.go:76-100 | the count rises by one in every mode; quiet writes nothing; verbose with a message writes the item line and redraws; otherwise it redraws iff over 100 ms passed or the total is reached |
| Progress.ItemLinesOfStep | internal/progress/progress.go:82-99 | an increment adds its item line to the printed item lines iff it writes one (verbose with a message), and no other item line |
| Progress.Reporter.Finish | internal/progress/progress.go:103-114 | unless quiet, one completion line with the total (not the count) and the time since the start |
| Progress.Reporter.Error | internal/progress/progress.go:117-122 | unless quiet, one error line with the message |
| Extractor.New | internal/extractor/extractor.go:58-71 | workers ≤ 0 becomes the CPU count, an empty format "hash", and every other field is kept |
| Extractor.NewIsIdempotent | internal/extractor/extractor.go:60-65 | with at least one CPU the defaults are usable, and applying them again changes nothing |
| Extractor.ExtractOne | internal/extractor/extractor.go:166-180 | the result keeps the job's commit and index; its folder is the output directory joined with the 1-based folder name; error-free iff mkdir and the pipeline succeed |
| Extractor.OutputFolderIsNamed | internal/extractor/extractor.go:168-169 | the folder's base name is the commit's folder name |
| Extractor.ProgressMessage | internal/extractor/extractor.go:156-160 | the message starts with ✗ iff the result failed; a success shows ✓, the short hash and the folder |
| Extractor.FailureTextReadsBack | internal/extractor/extractor.go:135 | "K of N extractions failed" has five words, and K and N read back from it |
| Extractor.Verdict | internal/extractor/extractor.go:133-138 | an aggregate error iff some result failed, with the failure count against the commit count |
| Extractor.Jobs | internal/extractor/extractor.go:109-111 | job i holds commit i and index i |
| Extractor.Taken | internal/extractor/extractor.go:142-147 | the pool takes every job unless cancelled, and never more than there are |
| Extractor.Enqueue | internal/extractor/extractor.go:109-112 | the send loop queues exactly Jobs(commits) |
| Extractor.Drain | internal/extractor/extractor.go:142-163 | the workers take jobs in queue order, each yielding its one outcome, until the queue is empty or cancellation is noticed |
| Extractor.Collect | internal/extractor/extractor.go:120-129 | every received result is appended in completion order; the errors kept are the failed results' errors, in order; the reporter advances once per result; in verbose mode its item lines gain one line per result with that result's message (the worker's call at lines 155-160) |
| Extractor.Receive | internal/extractor/extractor.go:124-129 | one pass appends the received result, and appends its error iff it has one |
| Extractor.Report | internal/extractor/extractor.go:155-160 | one increment with a result's message: the count rises by one, and in verbose mode the item lines gain the message's line and nothing else |
| Extractor.ErrorsOf | internal/extractor/extractor.go:126-128 | the errors kept are as many as the failed results |
| Extractor.ItemsForResults | internal/extractor/extractor.go:155-160 | the m-th item line carries the count after the m-th result and its message, which starts with ✗ exactly when that result failed |
| Extractor.Dispatch | internal/extractor/extractor.go:94-138 | the results are Delivered and the error is their Verdict |
| Extractor.Run | internal/extractor/extractor.go:81-139 | an empty list gives no results, no error and no reporter; otherwise the delivered results, their verdict, a reporter counted once per result, and a final completion line unless quiet |
| Extractor.NothingDelivered | internal/extractor/extractor.go:82-84 | an empty commit list delivers nothing and has no error |
| Extractor.RunWithReporter | internal/extractor/extractor.go:86-139 | the reporter is started, the pool runs, and the reporter finishes last |
| Extractor.StartReporter | internal/extractor/extractor.go:87-92 | a new reporter for the total, started at the first clock reading |
| Extractor.ResultsArePermutation | internal/extractor/extractor.go:124-125 | the results are a rearrangement of the taken jobs' outcomes |
| Extractor.OneResultPerCommit | internal/extractor/extractor.go:109-129 | without cancellation, each commit has exactly one result, in any completion order |
| Extractor.PickedOnce | internal/extractor/extractor.go:109-129 | receiving every job's outcome once, in any order of all positions, gives each commit exactly one result under its own index |
| Extractor.VerdictIgnoresOrder | internal/extractor/extractor.go:133-138 | the aggregate error does not depend on the completion order |
| Extractor.CancelledRunIsSilent | internal/extractor/extractor.go:145-146 | a run cancelled early returns fewer results than commits, and no error when none of the taken jobs failed |
| App.SanitizeBranchName | internal/app/app.go:163-165 | same length, every '/' becomes '_', every other character is kept |
| App.SanitizeMakesPlainName | internal/app/app.go:163-165 | the result has no '/', a name without '/' is unchanged, and sanitising twice changes nothing more |
| App.DefaultOutputDir | internal/app/app.go:34-38 | the configured directory, or the repository's base name with "-exploded" appended |
| App.PrepareOutput | internal/app/app.go:27-49 | open, resolve and stat errors in that order; only an existing directory is refused |
| App.ExtractorConfig | internal/app/app.go:110-114 | the extractor gets the directory, the workers and verbosity, is not quiet, and its format defaults to "hash" |
| App.BranchStep | internal/app/app.go:91-117 | a branch is skipped iff its listing fails or is empty; otherwise it is extracted into its sanitised sub-directory |
| App.CombinedConcat | internal/app/app.go:116-117 | the combined results of consecutive branches are concatenated |
| App.FirstErrorConcat | internal/app/app.go:118-120 | an error once kept is never replaced by a later branch's |
| App.FirstErrorIsEarliest | internal/app/app.go:118-126 | there is an error iff some branch reported one, and it is the earliest such |
| App.RunAllBranches | internal/app/app.go:62-127 | "failed to list branches: …"; "no branches found"; the context error when cancelled; otherwise the concatenated results and the first error |
| App.ExtractBranch | internal/app/app.go:86-120 | one pass appends the branch's results and keeps the earlier error if there is one |
| App.RunSingleBranch | internal/app/app.go:130-160 | "failed to list commits: …"; "no commits found"; otherwise the extraction into the output directory |
| App.Run | internal/app/app.go:26-59 | the preparation error, else one branch when configured, else every branch |
| App.Summarize | internal/app/app.go:198-217 | the counting loop computes SummaryOf |
| App.CountsAddUp | internal/app/app.go:198-207 | successes + failures = number of results |
| App.OneLinePerFailure | internal/app/app.go:200-204 | one failed-commit line per failure |
| App.SummaryShape | internal/app/app.go:198-217 | the counts add up; the error block appears iff something failed, and the list only when also verbose |
| Cli.FormatIgnoresCase | cmd/root.go:281-288 | the validator's verdict does not change when the format is lower-cased or upper-cased |
| Cli.ValidFormatLength | cmd/root.go:281-288 | a valid format has 4, 9 or 10 characters, and the empty format is refused |
| Cli.BranchDisplay | cmd/root.go:273-278 | the branch when non-empty, otherwise "(current HEAD)" |
| Cli.VersionLines | cmd/root.go:262-270 | the version line first; the commit line second iff the commit is not "none"; the built line last iff the date is not "unknown" |
| Cli.Execute | cmd/root.go:96-138 | help, then version (both exit 0), then the format, reported with the rejected format itself, then the repository path (both exit 1), then the run; exit 0 iff help, version, or a valid run without error |
| Cli.PrepareOutput | cmd/root.go:155-177 | open, resolve and stat errors in that order; any existing path is refused |
| Cli.StricterThanApp | cmd/root.go:175-177 | whatever the application layer refuses is refused here too, and additionally an existing non-directory |
| Paths.BaseOfJoin | internal/extractor/extractor.go:159-169 | the base name of a directory joined with a plain name is that name, so the message shows the folder name |
| Cli.RunCommand | cmd/root.go:141-219 | the preparation error, then "failed to list commits: …", then "no commits found"; otherwise the extractor's error, with a summary iff not quiet |
| Cli.CountOutcomes | cmd/root.go:244-256 | the counts of successes and failures add up to the number of results, and the error line appears iff something failed |
| Text.SplitNOfJoin | internal/git/commits.go:76 | splitting a NUL-join of parts free of NUL (except the last) at most n ways gives the parts back |
| Text.FieldsOfJoin | internal/git/commits.go:92 | the white-space fields of words joined by a space are those words |
| Text.ParseIntToString | internal/git/commits.go:81-88 | every int64 printed in decimal parses back to itself |
| Text.WrapInt64 | internal/git/stats.go:55-56 | Go's int `+=` result: always within int64 |
| Text.WrapInt64Congruent | internal/git/stats.go:55-56 | the wrapped value differs from the exact one by a multiple of 2^64 |
| Text.WrapInt64InRange | internal/git/stats.go:55-56 | a value already within int64 is unchanged |
| Text.WrapInt64Add | internal/git/stats.go:55-56 | wrapping after every addition equals wrapping the whole sum once |
| Text.ScanLinesOfJoinLines | internal/git/commits.go:53-55 | scanning newline-terminated lines gives those lines back |
| Seqs.PickOrderingIsPermutation | internal/extractor/extractor.go:124-125 | reading every position once, in any order, is a permutation |

## Left out

- Goroutines, channels, the wait group and the reporter's mutex: the pool is one sequential drain. Cancellation is the number of jobs taken before it is noticed, and the completion order is an input. Each worker's `reporter.Increment` after sending a result is made by the collector as it receives that result, so the progress messages follow the completion order.
- Subprocesses (`git log`, `git archive`, `tar`, `ls-tree`, `diff-tree`, `show`, `rev-list`): their output or failure is an input. A start failure and an exit failure are separate cases.
- The file system (`os.MkdirAll`, `os.Stat`, `filepath.Abs`, `os.Create`) and `git.Open`: each is an input success or error.
- The `text/template` rendering of COMMIT_INFO.txt (internal/git/commit.go:13-60, 102): `WriteMetadataError` models only which error is reported.
- `Commit.FolderName`: its definition is not part of this model, so it is the parameter `folderName`.
- The terminal: ANSI escapes, colours, `printHeader` in both internal/app/app.go and cmd/root.go, the "Found n commits" messages, and the usage text.
- `Progress.Line`: the progress line is kept as its count, total and elapsed time, and the completion line as its total and elapsed time. The text they show is FrameAt and FormatDuration of those numbers.
- Progress: wall-clock time is integer nanoseconds from the caller. Go's zero `lastPrint` is `None`, which always redraws.
- Progress.Bucket: whole seconds are the duration divided by 10^9, truncated. Go converts the float64 `d.Seconds()` to an int instead. The two agree below 2^24 seconds (about 194 days). From 2^24 seconds on, float rounding can carry the fraction up to the next second: 16777259999999999 ns shows as "4660h 21m" in Go and as "4660h 20m" here.
- The `tar -xf - -C <dir>` command line of the pipeline is fixed in internal/git/extract.go:78. The model keeps only how tar ends.
- GitStats.Add: Go's `int` is taken to be 64 bits wide, as on the platforms the tool is built for. The files-changed counter is kept exact and not wrapped, because wrapping it would take 2^63 output lines.
- Cli.Execute: the format error carries the rejected format. Its text, quoted by Go's `%q` with escapes, is not modelled.
- Progress.Reporter.Increment: `time.Duration` overflow when multiplying the items left by the average is not modelled (integers are unbounded).
- `Paths.Join` does not perform `filepath.Clean`'s lexical clean-up (removing `..` and duplicate separators).
- Cli.IsValidFormat lower-cases only ASCII letters. Go's `strings.ToLower` also maps a few non-ASCII letters, such as U+0130, to ASCII ones.
- internal/git/repository.go: `Open`, `GetCurrentBranch`, `GetRemoteURL` and `ListBranches` are left out. The branch listing is an input of `App.RunAllBranches`, and only `runGitCommand` is modelled.
- `GetCommitFullMessage` and `GetFileDiff` (internal/git/stats.go:63-86) are single calls of `runGitCommand`, which `Process.RunGitCommand` covers.
- main.go and the flag registration in cmd/root.go:62-93: the parsed flags are the `Invocation` and `Options` inputs.
- The `bufio.Scanner` token-size limit (64 KiB) and the scanner error after `ListCommits`' loop: output lines of any length are read.
- The signal handler in cmd/root.go:146-153: the interrupt is the cancellation input.
- cmd/root.go:185 calls `ListCommits` without a context, unlike the current signature in internal/git/commits.go:23. `Cli.RunCommand` models the call as if the context were passed.
