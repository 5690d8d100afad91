/**
 * The commit record of internal/git/commit.go, its one-line rendering, the
 * GPG status table of COMMIT_INFO.txt, and where and how that file is written.
 */
module GitCommit {
  import opened Wrappers
  import Text
  import Paths

  /** One commit; dates are Unix seconds, as time.Unix(ts, 0) stores them. */
  datatype Commit = Commit(
    hash: string,
    shortHash: string,
    author: string,
    authorEmail: string,
    authorDate: int,
    committer: string,
    committerEmail: string,
    commitDate: int,
    subject: string,
    parentHashes: seq<string>,
    fullMessage: string,
    gpgSignature: string,
    filesChanged: int,
    insertions: int,
    deletions: int)

  /** Commit.String: the short hash and the subject separated by one space. */
  function CommitString(c: Commit): (s: string)
    ensures |s| == |c.shortHash| + 1 + |c.subject|
  {
    c.shortHash + " " + c.subject
  }

  /** The short hash and the subject can be read back by splitting at the first space. */
  lemma CommitStringSplits(c: Commit)
    requires ' ' !in c.shortHash
    ensures Text.SplitN(CommitString(c), ' ', 2) == [c.shortHash, c.subject]
  {
    Text.SplitNOfJoin([c.shortHash, c.subject], ' ');
    Text.JoinCons(c.shortHash, [c.subject], " ");
  }

  const MetadataFileName: string := "COMMIT_INFO.txt"

  /** WriteMetadataFile writes into `destPath` joined with COMMIT_INFO.txt. */
  function MetadataPath(destPath: string): (p: string)
    ensures Paths.Base(p) == MetadataFileName
  {
    Paths.BaseOfJoin(destPath, MetadataFileName);
    Paths.Join(destPath, MetadataFileName)
  }

  /** How each step of WriteMetadataFile went: `None` on success, the cause otherwise. */
  datatype WriteSteps = WriteSteps(create: Option<string>, execute: Option<string>, close: Option<string>)

  /**
   * The error WriteMetadataFile returns: a creation failure ends it before the
   * deferred close is registered; a template failure wins over a close failure,
   * which is reported only when nothing else failed.
   */
  function WriteMetadataError(steps: WriteSteps): (err: Option<string>)
    ensures err.None? <==> steps.create.None? && steps.execute.None? && steps.close.None?
    ensures steps.create.Some? ==> err == Some("failed to create metadata file: " + steps.create.value)
    ensures steps.create.None? && steps.execute.Some? ==>
      err == Some("failed to execute metadata template: " + steps.execute.value)
  {
    match steps.create
    case Some(e) => Some("failed to create metadata file: " + e)
    case None =>
      match steps.execute
      case Some(e) => Some("failed to execute metadata template: " + e)
      case None =>
        match steps.close
        case Some(e) => Some("failed to close metadata file: " + e)
        case None => None
  }

  // ---------------------------------------------------------------------
  // GPG status codes (git log's %G?)
  // ---------------------------------------------------------------------

  const NotSigned: string := "Not signed"
  const UnknownPrefix: string := "Unknown ("

  /** The codes with a description of their own. */
  predicate IsKnownCode(status: string)
  {
    status in {"G", "B", "U", "X", "Y", "R", "E"}
  }

  predicate IsUnsignedCode(status: string)
  {
    status == "N" || status == ""
  }

  /** formatGPGStatus: the human-readable text for a %G? code. */
  function FormatGpgStatus(status: string): (d: string)
    ensures d == NotSigned <==> IsUnsignedCode(status)
    ensures !IsKnownCode(status) && !IsUnsignedCode(status) ==>
      Text.HasPrefix(d, UnknownPrefix) && |d| == |UnknownPrefix| + |status| + 1 &&
      d[|UnknownPrefix|..|d| - 1] == status
    ensures IsKnownCode(status) || IsUnsignedCode(status) ==> d != [] && d[0] != UnknownPrefix[0]
  {
    match status
    case "G" => "Valid signature (good)"
    case "B" => "Bad signature"
    case "U" => "Valid signature, unknown key"
    case "X" => "Valid signature, expired"
    case "Y" => "Valid signature, expired key"
    case "R" => "Valid signature, revoked key"
    case "E" => "Cannot verify (missing key)"
    case "N" => NotSigned
    case "" => NotSigned
    case _ =>
      var d := UnknownPrefix + status + ")";
      assert d[0] == 'U' && d[..|UnknownPrefix|] == UnknownPrefix;
      d
  }

  /**
   * Two codes get the same description only when they are the same code or
   * both mean "not signed": the table loses nothing else.
   */
  lemma GpgStatusInjective(a: string, b: string)
    requires FormatGpgStatus(a) == FormatGpgStatus(b)
    ensures a == b || (IsUnsignedCode(a) && IsUnsignedCode(b))
  {
    var d := FormatGpgStatus(a);
    if (!IsKnownCode(a) && !IsUnsignedCode(a)) || (!IsKnownCode(b) && !IsUnsignedCode(b)) {
      assert d[0] == d[..|UnknownPrefix|][0] == UnknownPrefix[0];
    }
    if !IsKnownCode(a) && !IsUnsignedCode(a) && !IsKnownCode(b) && !IsUnsignedCode(b) {
      assert a == d[|UnknownPrefix|..|d| - 1] == b;
    }
  }
}
