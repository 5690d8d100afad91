/**
 * Extracting one commit into a directory (internal/git/extract.go): the
 * `git archive | tar -x` pipeline's argument lists and error precedence, the
 * two listings that find the binary files, and the plan that decides whether
 * and how binary files are left out. Processes and the file system are not
 * run: what they would report is an input.
 */
module GitExtract {
  import opened Wrappers
  import Text
  import Seqs
  import Process
  import GitStats

  // ---------------------------------------------------------------------
  // The archive pipeline
  // ---------------------------------------------------------------------

  /** The arguments of `git archive` for a whole commit. */
  function ArchiveArgs(hash: string): seq<string>
  {
    ["archive", "--format=tar", hash]
  }

  /** The arguments of `git archive` restricted to explicit pathspecs. */
  function FilteredArchiveArgs(hash: string, files: seq<string>): (args: seq<string>)
    ensures |args| == 4 + |files|
    ensures args[..3] == ArchiveArgs(hash) && args[3] == "--"
    ensures args[4..] == files
  {
    ["archive", "--format=tar", hash, "--"] + files
  }

  /** How a started process ended: cleanly, or with a failure and what it wrote to stderr. */
  datatype ProcessEnd = Clean | Failed(stderr: string)

  /**
   * What the operating system would report at each step of the pipeline: the
   * pipe, the two starts (an error text, or `None`), and how each process ends.
   */
  datatype Pipeline = Pipeline(
    pipe: Option<string>,
    archiveStart: Option<string>,
    tarStart: Option<string>,
    archiveEnd: ProcessEnd,
    tarEnd: ProcessEnd)

  /** What runArchiveToTar did: whether it had to kill the archiver, and the error it returns. */
  datatype PipeRun = PipeRun(archiveKilled: bool, err: Option<string>)

  /** Both processes started and were waited for. */
  predicate BothStarted(p: Pipeline)
  {
    p.pipe.None? && p.archiveStart.None? && p.tarStart.None?
  }

  /**
   * runArchiveToTar: a step that fails to set up ends the run with its own error,
   * and a tar that fails to start kills the started archiver; once both ran, a
   * failed archiver is reported before a failed tar.
   */
  function RunArchiveToTar(p: Pipeline): (run: PipeRun)
    ensures run.err.None? <==> BothStarted(p) && p.archiveEnd.Clean? && p.tarEnd.Clean?
    ensures run.archiveKilled <==> p.pipe.None? && p.archiveStart.None? && p.tarStart.Some?
    ensures BothStarted(p) && p.archiveEnd.Failed? ==>
      run.err == Some("git archive failed: " + p.archiveEnd.stderr)
    ensures BothStarted(p) && p.archiveEnd.Clean? && p.tarEnd.Failed? ==>
      run.err == Some("tar extraction failed: " + p.tarEnd.stderr)
  {
    match (p.pipe, p.archiveStart, p.tarStart)
    case (Some(e), _, _) => PipeRun(false, Some("failed to create pipe: " + e))
    case (None, Some(e), _) => PipeRun(false, Some("failed to start git archive: " + e))
    case (None, None, Some(e)) => PipeRun(true, Some("failed to start tar: " + e))
    case (None, None, None) =>
      match (p.archiveEnd, p.tarEnd)
      case (Failed(a), _) => PipeRun(false, Some("git archive failed: " + a))
      case (Clean, Failed(t)) => PipeRun(false, Some("tar extraction failed: " + t))
      case (Clean, Clean) => PipeRun(false, None)
  }

  /** The result of one extraction: the `git archive` arguments if the pipeline ran, and the error. */
  datatype Extraction = Extraction(archived: Option<seq<string>>, err: Option<string>)

  /**
   * ExtractCommit: create the destination (whose failure is reported and stops
   * everything), then archive the whole commit into it.
   */
  function ExtractCommit(hash: string, mkdir: Option<string>, p: Pipeline): (x: Extraction)
    ensures mkdir.Some? ==>
      x == Extraction(None, Some("failed to create output directory: " + mkdir.value))
    ensures mkdir.None? ==> x.archived == Some(ArchiveArgs(hash)) && x.err == RunArchiveToTar(p).err
    ensures x.err.None? <==> mkdir.None? && RunArchiveToTar(p).err.None?
  {
    match mkdir
    case Some(e) => Extraction(None, Some("failed to create output directory: " + e))
    case None => Extraction(Some(ArchiveArgs(hash)), RunArchiveToTar(p).err)
  }

  // ---------------------------------------------------------------------
  // Listing the files and the binary files of a commit
  // ---------------------------------------------------------------------

  predicate NonEmpty(line: string)
  {
    line != ""
  }

  /** listFiles: the non-empty lines of `git ls-tree -r --name-only`, in order. */
  method ListFiles(git: Process.CmdResult) returns (r: Result<seq<string>, string>)
    ensures !git.Succeeded? ==> r == Err("failed to list files: " + Process.ErrorText(git))
    ensures git.Succeeded? ==> r == Ok(Seqs.Filter(Text.ScanLines(git.stdout), NonEmpty))
  {
    if !git.Succeeded? {
      return Err("failed to list files: " + Process.ErrorText(git));
    }
    var lines := Text.ScanLines(git.stdout);
    var files: seq<string> := [];
    var i := 0;
    while i < |lines|
      invariant 0 <= i <= |lines|
      invariant files == Seqs.Filter(lines[..i], NonEmpty)
    {
      var line := lines[i];
      assert lines[..i + 1][..i] == lines[..i];
      if line != "" {
        files := files + [line];
      }
      i := i + 1;
    }
    assert lines[..i] == lines;
    return Ok(files);
  }

  /** The prefix `git diff-tree --numstat` gives a binary file: two "-" counts. */
  const BinaryMarker: string := "-\t-\t"

  /** The set of binary files named by numstat lines, each recorded as `true`. */
  function BinaryMap(lines: seq<string>): (m: map<string, bool>)
    ensures forall f :: f in m ==> m[f]
    decreases |lines|
  {
    if lines == [] then map[]
    else
      var m := BinaryMap(lines[..|lines| - 1]);
      var line := lines[|lines| - 1];
      if Text.HasPrefix(line, BinaryMarker) then m[line[|BinaryMarker|..] := true] else m
  }

  /** A file is in the map exactly when some line is the marker followed by its name. */
  lemma {:induction false} BinaryMapKeys(lines: seq<string>, f: string)
    ensures f in BinaryMap(lines) <==> exists i :: 0 <= i < |lines| && lines[i] == BinaryMarker + f
    decreases |lines|
  {
    if lines != [] {
      var init, line := lines[..|lines| - 1], lines[|lines| - 1];
      BinaryMapKeys(init, f);
      if f in BinaryMap(init) {
        var i :| 0 <= i < |init| && init[i] == BinaryMarker + f;
        assert lines[i] == init[i];
      }
      if line == BinaryMarker + f {
        assert line[|BinaryMarker|..] == f;
      } else if Text.HasPrefix(line, BinaryMarker) {
        assert line == BinaryMarker + line[|BinaryMarker|..];
      }
      if exists i :: 0 <= i < |lines| && lines[i] == BinaryMarker + f {
        var i :| 0 <= i < |lines| && lines[i] == BinaryMarker + f;
        if i < |init| {
          assert init[i] == lines[i];
        }
      }
    }
  }

  /** listBinaryFiles: scan `git diff-tree --numstat` output and record each binary file. */
  method ListBinaryFiles(git: Process.CmdResult) returns (r: Result<map<string, bool>, string>)
    ensures !git.Succeeded? ==> r == Err("failed to list binary files: " + Process.ErrorText(git))
    ensures git.Succeeded? ==> r == Ok(BinaryMap(Text.ScanLines(git.stdout)))
  {
    if !git.Succeeded? {
      return Err("failed to list binary files: " + Process.ErrorText(git));
    }
    var lines := Text.ScanLines(git.stdout);
    var binaryFiles: map<string, bool> := map[];
    var i := 0;
    while i < |lines|
      invariant 0 <= i <= |lines|
      invariant binaryFiles == BinaryMap(lines[..i])
    {
      var line := lines[i];
      assert lines[..i + 1][..i] == lines[..i];
      if Text.HasPrefix(line, BinaryMarker) {
        var filename := line[|BinaryMarker|..];
        binaryFiles := binaryFiles[filename := true];
      }
      i := i + 1;
    }
    assert lines[..i] == lines;
    return Ok(binaryFiles);
  }

  /** The binary entries' paths of a numstat listing. */
  function BinaryPaths(entries: seq<GitStats.NumstatEntry>): set<string>
  {
    set i | 0 <= i < |entries| && entries[i].BinaryChange? :: entries[i].path
  }

  /** The marker of a binary entry's line, and no text entry's line, starts with the marker. */
  lemma NumstatLineMarker(e: GitStats.NumstatEntry)
    ensures e.BinaryChange? ==> GitStats.NumstatLine(e) == BinaryMarker + e.path
    ensures e.TextChange? ==> !Text.HasPrefix(GitStats.NumstatLine(e), BinaryMarker)
  {
    match e
    case BinaryChange(p) =>
      Text.JoinCons("-", ["-", p], "\t");
      Text.JoinCons("-", [p], "\t");
      assert ["-", "-", p] == ["-"] + ["-", p] && ["-", p] == ["-"] + [p];
    case TextChange(a, d, p) =>
      var s := Text.IntToString(a);
      var line := GitStats.NumstatLine(e);
      assert Text.IsDigit(s[0]);
      assert line[0] == s[0];
  }

  /**
   * Reading back the numstat lines of a commit finds exactly its binary files:
   * the map's keys are the paths of the binary entries.
   */
  lemma BinaryMapOfNumstat(entries: seq<GitStats.NumstatEntry>, f: string)
    ensures f in BinaryMap(GitStats.Lines(entries)) <==> f in BinaryPaths(entries)
  {
    var lines := GitStats.Lines(entries);
    BinaryMapKeys(lines, f);
    if f in BinaryPaths(entries) {
      var i :| 0 <= i < |entries| && entries[i].BinaryChange? && entries[i].path == f;
      NumstatLineMarker(entries[i]);
      assert lines[i] == BinaryMarker + f;
    }
    if f in BinaryMap(lines) {
      var i :| 0 <= i < |lines| && lines[i] == BinaryMarker + f;
      NumstatLineMarker(entries[i]);
      assert Text.HasPrefix(lines[i], BinaryMarker);
      assert entries[i].path == lines[i][|BinaryMarker|..] == f;
    }
  }

  // ---------------------------------------------------------------------
  // Leaving out the binary files
  // ---------------------------------------------------------------------

  /** A file the binary map marks: present with the value `true` (a missing key reads as false). */
  predicate IsBinary(binary: map<string, bool>, f: string)
  {
    f in binary && binary[f]
  }

  /** The text files: all files without the binary ones, in their original order. */
  function TextFiles(all: seq<string>, binary: map<string, bool>): seq<string>
  {
    Seqs.Filter(all, f => !IsBinary(binary, f))
  }

  /** The filter loop of ExtractCommitExcludingBinaries. */
  method FilterTextFiles(all: seq<string>, binary: map<string, bool>) returns (text: seq<string>)
    ensures text == TextFiles(all, binary)
  {
    text := [];
    var i := 0;
    while i < |all|
      invariant 0 <= i <= |all|
      invariant text == TextFiles(all[..i], binary)
    {
      assert all[..i + 1][..i] == all[..i];
      if !(all[i] in binary && binary[all[i]]) {
        text := text + [all[i]];
      }
      i := i + 1;
    }
    assert all[..i] == all;
  }

  /**
   * The text files keep their order, contain no binary file, and lose no file
   * that is not binary.
   */
  lemma TextFilesSpec(all: seq<string>, binary: map<string, bool>)
    ensures Seqs.IsSubsequence(TextFiles(all, binary), all)
    ensures forall f :: f in TextFiles(all, binary) <==> f in all && !IsBinary(binary, f)
  {
    Seqs.FilterIsSubsequence(all, f => !IsBinary(binary, f));
    forall f
      ensures f in TextFiles(all, binary) <==> f in all && !IsBinary(binary, f)
    {
      Seqs.FilterMembership(all, f => !IsBinary(binary, f), f);
    }
  }

  /** What ExtractCommitExcludingBinaries decides to do. */
  datatype Plan =
    | Whole                          // plain ExtractCommit
    | NothingToExtract               // every file is binary: only create the directory
    | Only(files: seq<string>)       // archive just these text files

  /** The files `git ls-tree -r --name-only` lists: the non-empty lines of its output. */
  function ListedFiles(lsTree: Process.CmdResult): seq<string>
    requires lsTree.Succeeded?
  {
    Seqs.Filter(Text.ScanLines(lsTree.stdout), NonEmpty)
  }

  /** The binary map read from `git diff-tree --numstat` output. */
  function BinaryOf(diffTree: Process.CmdResult): map<string, bool>
    requires diffTree.Succeeded?
  {
    BinaryMap(Text.ScanLines(diffTree.stdout))
  }

  /**
   * The decision tree: every failure to list, and a commit without binaries,
   * falls back to extracting the whole commit; otherwise only the text files
   * are archived, and nothing at all when every file is binary.
   */
  function PlanOf(excludeBinaries: bool, lsTree: Process.CmdResult, diffTree: Process.CmdResult): (plan: Plan)
    ensures plan.Whole? <==>
      !excludeBinaries || !lsTree.Succeeded? || !diffTree.Succeeded? || |BinaryOf(diffTree)| == 0
    ensures plan.Only? ==> plan.files != [] && plan.files == TextFiles(ListedFiles(lsTree), BinaryOf(diffTree))
    ensures plan.NothingToExtract? ==> forall f :: f in ListedFiles(lsTree) ==> IsBinary(BinaryOf(diffTree), f)
    ensures !plan.Whole? && (forall f :: f in ListedFiles(lsTree) ==> IsBinary(BinaryOf(diffTree), f)) ==>
      plan.NothingToExtract?
  {
    if !excludeBinaries || !lsTree.Succeeded? || !diffTree.Succeeded? then Whole
    else
      var binary := BinaryOf(diffTree);
      if |binary| == 0 then Whole
      else
        var text := TextFiles(ListedFiles(lsTree), binary);
        TextFilesSpec(ListedFiles(lsTree), binary);
        if |text| == 0 then NothingToExtract
        else
          assert text[0] in text;
          Only(text)
  }

  /** Carrying out a plan, with what creating the directory and the pipeline would report. */
  function Perform(hash: string, plan: Plan, mkdir: Option<string>, p: Pipeline): (x: Extraction)
    ensures plan.Whole? ==> x == ExtractCommit(hash, mkdir, p)
    ensures plan.NothingToExtract? ==> x == Extraction(None, mkdir)
    ensures plan.Only? && mkdir.Some? ==>
      x == Extraction(None, Some("failed to create output directory: " + mkdir.value))
    ensures plan.Only? && mkdir.None? ==>
      x == Extraction(Some(FilteredArchiveArgs(hash, plan.files)), RunArchiveToTar(p).err)
    ensures x.err.None? <==> mkdir.None? && (plan.NothingToExtract? || RunArchiveToTar(p).err.None?)
  {
    match plan
    case Whole => ExtractCommit(hash, mkdir, p)
    case NothingToExtract => Extraction(None, mkdir)
    case Only(files) =>
      match mkdir
      case Some(e) => Extraction(None, Some("failed to create output directory: " + e))
      case None => Extraction(Some(FilteredArchiveArgs(hash, files)), RunArchiveToTar(p).err)
  }

  /**
   * ExtractCommitExcludingBinaries, with the listings' outputs, the directory
   * creation and the pipeline as inputs.
   */
  method ExtractCommitExcludingBinaries(hash: string, excludeBinaries: bool,
      lsTree: Process.CmdResult, diffTree: Process.CmdResult, mkdir: Option<string>, p: Pipeline)
    returns (x: Extraction)
    ensures x == Perform(hash, PlanOf(excludeBinaries, lsTree, diffTree), mkdir, p)
    ensures !excludeBinaries || !lsTree.Succeeded? || !diffTree.Succeeded? ==> x == ExtractCommit(hash, mkdir, p)
  {
    if !excludeBinaries {
      return ExtractCommit(hash, mkdir, p);
    }
    var allFiles := ListFiles(lsTree);
    if allFiles.Err? {
      return ExtractCommit(hash, mkdir, p);
    }
    var binaryFiles := ListBinaryFiles(diffTree);
    if binaryFiles.Err? {
      return ExtractCommit(hash, mkdir, p);
    }
    if |binaryFiles.value| == 0 {
      return ExtractCommit(hash, mkdir, p);
    }
    var textFiles := FilterTextFiles(allFiles.value, binaryFiles.value);
    if |textFiles| == 0 {
      return Extraction(None, mkdir);
    }
    if mkdir.Some? {
      return Extraction(None, Some("failed to create output directory: " + mkdir.value));
    }
    var archiveArgs := ["archive", "--format=tar", hash, "--"];
    archiveArgs := archiveArgs + textFiles;
    return Extraction(Some(archiveArgs), RunArchiveToTar(p).err);
  }

  /**
   * When the commit has binary files and some text files, the archive names
   * exactly the listed files that are not binary: each of them a non-empty line
   * of the listing, in the listing's order, and none of them binary.
   */
  lemma FilteredArchiveHasNoBinary(hash: string, lsTree: Process.CmdResult, diffTree: Process.CmdResult,
      p: Pipeline)
    requires PlanOf(true, lsTree, diffTree).Only?
    ensures var x := Perform(hash, PlanOf(true, lsTree, diffTree), None, p);
      x.archived.Some? && x.archived.value[..4] == ArchiveArgs(hash) + ["--"] &&
      Seqs.IsSubsequence(x.archived.value[4..], ListedFiles(lsTree)) &&
      (forall f :: f in x.archived.value[4..] ==> f != "" && f in Text.ScanLines(lsTree.stdout)) &&
      (forall f :: f in x.archived.value[4..] <==> f in ListedFiles(lsTree) && !IsBinary(BinaryOf(diffTree), f))
  {
    var binary := BinaryOf(diffTree);
    var all := ListedFiles(lsTree);
    TextFilesSpec(all, binary);
    forall f | f in all
      ensures f != "" && f in Text.ScanLines(lsTree.stdout)
    {
      Seqs.FilterMembership(Text.ScanLines(lsTree.stdout), NonEmpty, f);
    }
  }
}
