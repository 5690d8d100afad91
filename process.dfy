/**
 * What running a git subprocess with exec.Cmd.Output yields, and the
 * repository's runGitCommand wrapper (internal/git/repository.go). The
 * processes themselves are not modelled: their outcome is an input.
 */
module Process {
  import opened Wrappers
  import Text

  /** The outcome of cmd.Output(): the captured stdout, a non-zero exit with its stderr, or a failure to run. */
  datatype CmdResult =
    | Succeeded(stdout: string)
    | ExitFailed(status: int, stderr: string)
    | NotRun(reason: string)

  /** The text of the error cmd.Output() returns, as %v or %w prints it. */
  function ErrorText(r: CmdResult): (t: string)
    requires !r.Succeeded?
    ensures r.ExitFailed? ==> Text.HasPrefix(t, "exit status ")
  {
    match r
    case ExitFailed(status, _) => "exit status " + Text.IntToString(status)
    case NotRun(reason) => reason
  }

  /**
   * runGitCommand: the trimmed stdout on success; otherwise "git <subcommand> failed: "
   * followed by the stderr of a failed exit or by the error text.
   */
  function RunGitCommand(args: seq<string>, r: CmdResult): (out: Result<string, string>)
    requires args != []
    ensures out.Ok? <==> r.Succeeded?
    ensures out.Ok? ==> out.value == Text.TrimSpace(r.stdout)
    ensures out.Err? ==> Text.HasPrefix(out.error, "git " + args[0] + " failed: ")
  {
    var prefix := "git " + args[0] + " failed: ";
    match r
    case Succeeded(stdout) => Ok(Text.TrimSpace(stdout))
    case ExitFailed(_, stderr) => Err(prefix + stderr)
    case NotRun(reason) => Err(prefix + reason)
  }
}
