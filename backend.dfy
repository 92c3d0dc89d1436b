/** The external `git` executable, seen from the automation script: the
    argument vectors it is invoked with, and a record of what it answers. */
module GitBackend {

  datatype Option<T> = None | Some(value: T)

  /** One invocation of `subprocess.run`: the argument vector. */
  type Command = seq<string>

  /** How a step of the script ends: it returns, or a `check=True` invocation
      of `failed` exited non-zero and the resulting `CalledProcessError`
      propagated out of the step. */
  datatype Outcome = Returned | Raised(failed: Command)

  /** What the repository and the `git` executable answer during one run of
      the script. Query outputs are the captured standard output; the `...Ok`
      flags say whether the corresponding `check=True` invocation exits with
      status zero. */
  datatype Backend = Backend(
    remoteListing: string,         // stdout of `git remote`
    showCurrent: string,           // stdout of `git branch --show-current`
    pathExists: string -> bool,    // `os.path.exists`
    initOk: bool,                  // `git init`
    remoteAddOk: bool,             // `git remote add origin <url>`
    checkoutOk: bool,              // `git checkout -b <branch>`
    addOk: bool,                   // `git add <pattern>`
    commitOk: bool,                // `git commit -m <message>`
    pushOk: bool,                  // `git push -u|-f origin <branch>`
    lastSubject: string,           // stdout of `git log -1 --pretty=format:%s`
    lastDate: string,              // stdout of `git log -1 --pretty=format:%ci`
    headRef: string,               // stdout of `git rev-parse --abbrev-ref HEAD`
    status: string,                // stdout of `git status --porcelain`
    diffOf: string -> string)      // stdout of `git diff --unified=0 <file>`

  const InitCmd: Command := ["git", "init"]
  const RemoteListCmd: Command := ["git", "remote"]
  const ShowCurrentCmd: Command := ["git", "branch", "--show-current"]
  const LogSubjectCmd: Command := ["git", "log", "-1", "--pretty=format:%s"]
  const LogDateCmd: Command := ["git", "log", "-1", "--pretty=format:%ci"]
  const RevParseCmd: Command := ["git", "rev-parse", "--abbrev-ref", "HEAD"]
  const StatusCmd: Command := ["git", "status", "--porcelain"]

  function RemoteAddCmd(url: string): Command { ["git", "remote", "add", "origin", url] }
  function CheckoutCmd(branch: string): Command { ["git", "checkout", "-b", branch] }
  function AddCmd(pattern: string): Command { ["git", "add", pattern] }
  function CommitCmd(message: string): Command { ["git", "commit", "-m", message] }
  function DiffCmd(file: string): Command { ["git", "diff", "--unified=0", file] }

  /** `push -f` (force) or `push -u` (set upstream) to `origin`. */
  function PushCmd(force: bool, branch: string): Command
  {
    ["git", "push", if force then "-f" else "-u", "origin", branch]
  }
}
