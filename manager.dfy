/** `GitManager`: each method checks its guard against what git reports and
    returns the git argument vectors it runs, with how it ends. */
module Manager {
  import opened Collections
  import opened Strings
  import opened GitBackend
  import opened Report

  const DefaultPattern: string := "."
  const DefaultMessage: string := "Updated project"

  /** The pattern, message and push mode the script's entry point uses. */
  const ScriptPattern: string := "src/git_manager.py"
  const ScriptMessage: string := "Updated project"
  const ScriptForce: bool := true

  class GitManager {
    const config: Config
    /** Whether a repository is known to exist (`.git` at start, or a
        successful `git init` since). */
    var init: bool

    /** `GitManager(config_path)` with the configuration already loaded and
        the result of `os.path.exists(".git")`. */
    constructor (config: Config, gitDirExists: bool)
      ensures this.config == config && init == gitDirExists
    {
      this.config := config;
      init := gitDirExists;
    }

    /** `initialize_git`: `git init` only when no repository is known; the
        flag is set only if that succeeds, since a failure raises first. */
    method InitializeGit(b: Backend) returns (cmds: seq<Command>, outcome: Outcome)
      modifies this
      ensures cmds == if old(init) then [] else [InitCmd]
      ensures outcome == if !old(init) && !b.initOk then Raised(InitCmd) else Returned
      ensures init <==> old(init) || b.initOk
    {
      cmds, outcome := [], Returned;
      if !init {
        cmds := cmds + [InitCmd];
        if !b.initOk {
          outcome := Raised(InitCmd);
          return;
        }
        init := true;
      }
    }

    /** `add_remote_url`: lists the remotes and adds `origin` only when the
        listing is blank and a URL is configured. An existing remote is never
        compared with the configured URL. */
    method AddRemoteUrl(b: Backend) returns (cmds: seq<Command>, outcome: Outcome)
      ensures 1 <= |cmds| <= 2 && cmds[0] == RemoteListCmd
      ensures |cmds| == 2 <==> Strip(b.remoteListing) == "" && RemoteUrlKey in config
      ensures |cmds| == 2 ==> cmds[1] == RemoteAddCmd(config[RemoteUrlKey])
      ensures outcome.Raised? <==> |cmds| == 2 && !b.remoteAddOk
      ensures outcome.Raised? ==> outcome.failed == cmds[1]
    {
      cmds, outcome := [RemoteListCmd], Returned;
      var existingRemotes := Strip(b.remoteListing);
      if existingRemotes == "" {
        if RemoteUrlKey in config {
          var add := ["git", "remote", "add", "origin", config[RemoteUrlKey]];
          cmds := cmds + [add];
          if !b.remoteAddOk {
            outcome := Raised(add);
          }
        }
      }
    }

    /** `create_branch`: asks for the current branch and runs `checkout -b`
        only when it differs from the configured one (default `main`). */
    method CreateBranch(b: Backend) returns (cmds: seq<Command>, outcome: Outcome)
      ensures 1 <= |cmds| <= 2 && cmds[0] == ShowCurrentCmd
      ensures |cmds| == 2 <==> Strip(b.showCurrent) != ConfigBranch(config)
      ensures |cmds| == 2 ==> cmds[1] == CheckoutCmd(ConfigBranch(config))
      ensures outcome.Raised? <==> |cmds| == 2 && !b.checkoutOk
      ensures outcome.Raised? ==> outcome.failed == cmds[1]
    {
      var branchName := if BranchNameKey in config then config[BranchNameKey] else "main";
      cmds, outcome := [ShowCurrentCmd], Returned;
      var currentBranch := Strip(b.showCurrent);
      if currentBranch != branchName {
        var checkout := ["git", "checkout", "-b", branchName];
        cmds := cmds + [checkout];
        if !b.checkoutOk {
          outcome := Raised(checkout);
        }
      }
    }

    /** `add_to_staging`: `git add` for `"."` or for a path that exists;
        for any other pattern it returns having run nothing. */
    method AddToStaging(b: Backend, pattern: string := DefaultPattern) returns (cmds: seq<Command>, outcome: Outcome)
      ensures cmds == [] <==> pattern != "." && !b.pathExists(pattern)
      ensures cmds != [] ==> cmds == [AddCmd(pattern)]
      ensures outcome.Raised? <==> cmds != [] && !b.addOk
      ensures outcome.Raised? ==> outcome.failed == AddCmd(pattern)
    {
      cmds, outcome := [], Returned;
      if pattern != "." && !b.pathExists(pattern) {
        return;
      }
      cmds := [["git", "add", pattern]];
      if !b.addOk {
        outcome := Raised(cmds[0]);
      }
    }

    /** `commit_and_push`: commits, and pushes (`-f` with `force`, `-u`
        otherwise) only after a successful commit. A failure of either is
        caught, so the method always returns; `caught` is the invocation whose
        error it logs. */
    method CommitAndPush(b: Backend, message: string := DefaultMessage, force: bool := false)
      returns (cmds: seq<Command>, caught: Option<Command>)
      ensures 1 <= |cmds| <= 2 && cmds[0] == CommitCmd(message)
      ensures |cmds| == 2 <==> b.commitOk
      ensures |cmds| == 2 ==> cmds[1] == PushCmd(force, ConfigBranch(config))
      ensures caught == if !b.commitOk then Some(CommitCmd(message))
                        else if !b.pushOk then Some(cmds[1])
                        else None
    {
      var commit := ["git", "commit", "-m", message];
      cmds, caught := [commit], None;
      if !b.commitOk {
        caught := Some(commit);
        return;
      }
      var branchName := if BranchNameKey in config then config[BranchNameKey] else "main";
      var push;
      if !force {
        push := ["git", "push", "-u", "origin", branchName];
      } else {
        push := ["git", "push", "-f", "origin", branchName];
      }
      cmds := cmds + [push];
      if !b.pushOk {
        caught := Some(push);
      }
    }

    /** `generate_report`: the report's writes, built step by step as the
        method writes them, and the git queries it runs. The branch from
        `rev-parse` is read but the report shows the configured one. */
    method GenerateReport(b: Backend, generatedOn: string) returns (cmds: seq<Command>, report: seq<string>)
      ensures report == ReportText(config, b, generatedOn)
      ensures cmds == ReportCommands(b)
    {
      report := WriteHeader(generatedOn);
      var summary := WriteSummary(b);
      report := report + summary;
      var files, diffCmds := WriteFiles(b);
      report := report + files;
      cmds := [LogSubjectCmd, LogDateCmd, RevParseCmd, StatusCmd] + diffCmds;
    }

    /** The six summary writes of `generate_report`, after its queries. The
        branch from `rev-parse` is read but the report shows the configured
        one. */
    method WriteSummary(b: Backend) returns (chunks: seq<string>)
      ensures chunks == Summary(config, b)
    {
      var lastCommit, lastCommitDate := b.lastSubject, b.lastDate;
      var branchName := Strip(b.headRef);
      var status := b.status;
      var changesDetected := if status != "" then Uncommitted else UpToDate;
      var repoName := RepoName(config);
      chunks := ["Repository: " + repoName + "\n"];
      chunks := chunks + ["Branch: " + ConfigBranch(config) + "\n"];
      chunks := chunks + ["Last Commit: " + (if lastCommit != "" then lastCommit else "(No commits yet)") + "\n"];
      chunks := chunks + ["Last Commit Date: " + (if lastCommitDate != "" then lastCommitDate else "N/A") + "\n"];
      chunks := chunks + ["Changes Pushed: " + (if status != "" then "No" else "Yes") + "\n"];
      chunks := chunks + ["Status: " + changesDetected + "\n"];
    }
  }

  /** The four header writes of `generate_report`. */
  method WriteHeader(generatedOn: string) returns (chunks: seq<string>)
    ensures chunks == Header(generatedOn)
  {
    chunks := [Repeat('=', 40) + "\n", "              Git Report      \n"];
    chunks := chunks + ["      Generated on :" + generatedOn + "     \n", Repeat('=', 40) + "\n\n"];
  }

  /** The writes after the summary: the banner and one section per changed
      file, or the no-files marker, with the `git diff` per file. */
  method WriteFiles(b: Backend) returns (chunks: seq<string>, diffCmds: seq<Command>)
    ensures chunks == FilesPart(b)
    ensures diffCmds == MapSeq(DiffCmd, ChangedFiles(b.status))
  {
    var changedFiles := ChangedFiles(b.status);
    if changedFiles != [] {
      chunks := [Repeat('=', 50) + "\n", "Modified Files and Changes\n", Repeat('=', 50) + "\n"];
      var sections;
      sections, diffCmds := WriteFileSections(b, changedFiles);
      chunks := chunks + sections;
    } else {
      chunks, diffCmds := [NoFilesMarker], [];
    }
  }

  /** The loop over the changed files. */
  method WriteFileSections(b: Backend, files: seq<string>) returns (chunks: seq<string>, diffCmds: seq<Command>)
    ensures chunks == FileSections(files, b.diffOf)
    ensures diffCmds == MapSeq(DiffCmd, files)
  {
    chunks, diffCmds := [], [];
    for i := 0 to |files|
      invariant chunks == FileSections(files[..i], b.diffOf)
      invariant diffCmds == MapSeq(DiffCmd, files[..i])
    {
      var section, diffCmd := WriteFileSection(b, files[i]);
      chunks := chunks + section;
      diffCmds := diffCmds + [diffCmd];
      NextFileSection(files, b.diffOf, i);
    }
    assert files[..|files|] == files;
  }

  /** The sections and diff invocations for the first `i + 1` files extend
      those for the first `i` by the one for file `i`. */
  lemma NextFileSection(files: seq<string>, diffOf: string -> string, i: nat)
    requires i < |files|
    ensures FileSections(files[..i + 1], diffOf)
         == FileSections(files[..i], diffOf) + FileSection(files[i], diffOf(files[i]))
    ensures MapSeq(DiffCmd, files[..i + 1]) == MapSeq(DiffCmd, files[..i]) + [DiffCmd(files[i])]
  {
    assert files[..i + 1][..i] == files[..i];
    assert files[..i + 1] == files[..i] + [files[i]];
    MapSeqAppend(DiffCmd, files[..i], [files[i]]);
  }

  /** One iteration of the loop over changed files in `generate_report`: the
      writes for `file` and the `git diff` it runs. */
  method WriteFileSection(b: Backend, file: string) returns (chunks: seq<string>, diffCmd: Command)
    ensures chunks == FileSection(file, b.diffOf(file))
    ensures diffCmd == DiffCmd(file)
  {
    chunks := ["File Checked: " + file + "\n", Repeat('-', 70) + "\n"];
    diffCmd := ["git", "diff", "--unified=0", file];
    var diffOutput := b.diffOf(file);
    if diffOutput != "" {
      chunks := chunks + ["File: " + file + "\n", Repeat('=', 50) + "\n"];
      var kept := WriteDiffLines(Split(diffOutput, '\n'));
      chunks := chunks + kept + ["\n" + Repeat('=', 70) + "\n\n"];
    } else {
      chunks := chunks + [NoContentMarker];
    }
  }

  /** The loop over the lines of one diff: a line is written, with its line
      feed, when it adds or removes text (but is not a `+++`/`---` file
      header) or is an `@@` hunk header. */
  method WriteDiffLines(lines: seq<string>) returns (chunks: seq<string>)
    ensures chunks == DiffChunks(Filter(KeepDiffLine, lines))
  {
    chunks := [];
    for j := 0 to |lines|
      invariant chunks == DiffChunks(Filter(KeepDiffLine, lines[..j]))
    {
      var line := lines[j];
      AppendOneDiffLine(lines, j);
      if StartsWith(line, "+") && !StartsWith(line, "+++") {
        chunks := chunks + [line + "\n"];
      } else if StartsWith(line, "-") && !StartsWith(line, "---") {
        chunks := chunks + [line + "\n"];
      } else if StartsWith(line, "@@") {
        chunks := chunks + [line + "\n"];
      }
    }
    assert lines[..|lines|] == lines;
  }

  /** The diff lines written so far grow by the next line exactly when the
      filter keeps it. */
  lemma AppendOneDiffLine(lines: seq<string>, j: nat)
    requires j < |lines|
    ensures DiffChunks(Filter(KeepDiffLine, lines[..j + 1]))
         == DiffChunks(Filter(KeepDiffLine, lines[..j]))
            + (if KeepDiffLine(lines[j]) then [lines[j] + "\n"] else [])
  {
    assert lines[..j + 1] == lines[..j] + [lines[j]];
    FilterSnoc(KeepDiffLine, lines[..j], lines[j]);
    var kept := Filter(KeepDiffLine, lines[..j]);
    if KeepDiffLine(lines[j]) {
      MapSeqAppend(LineWithFeed, kept, [lines[j]]);
      assert MapSeq(LineWithFeed, [lines[j]]) == [lines[j] + "\n"];
    } else {
      assert kept + [] == kept;
    }
  }

  /** The script runs to its report exactly when none of the steps before
      `commit_and_push` raises; the commit and push results play no part. */
  predicate ReachesReport(config: Config, gitDirExists: bool, b: Backend)
  {
    && InitSucceeds(gitDirExists, b)
    && RemoteSucceeds(config, b)
    && BranchSucceeds(config, b)
    && StagingSucceeds(b, ScriptPattern)
  }

  /** `initialize_git` does not raise. */
  predicate InitSucceeds(gitDirExists: bool, b: Backend)
  {
    gitDirExists || b.initOk
  }

  /** `add_remote_url` does not raise. */
  predicate RemoteSucceeds(config: Config, b: Backend)
  {
    !(Strip(b.remoteListing) == "" && RemoteUrlKey in config && !b.remoteAddOk)
  }

  /** `create_branch` does not raise. */
  predicate BranchSucceeds(config: Config, b: Backend)
  {
    !(Strip(b.showCurrent) != ConfigBranch(config) && !b.checkoutOk)
  }

  /** `add_to_staging(pattern)` does not raise. */
  predicate StagingSucceeds(b: Backend, pattern: string)
  {
    !((pattern == "." || b.pathExists(pattern)) && !b.addOk)
  }

  /** The `__main__` block: the fixed sequence of steps. An exception from
      any step before `commit_and_push` ends the run without a report. */
  method RunScript(config: Config, gitDirExists: bool, b: Backend, generatedOn: string)
    returns (cmds: seq<Command>, outcome: Outcome, report: Option<seq<string>>)
    ensures outcome == Returned <==> ReachesReport(config, gitDirExists, b)
    ensures report.Some? <==> outcome == Returned
    ensures report.Some? ==> report.value == ReportText(config, b, generatedOn)
    ensures outcome.Raised? ==> cmds != [] && cmds[|cmds| - 1] == outcome.failed
    ensures report.Some? ==> |ReportCommands(b)| <= |cmds|
    ensures report.Some? ==> cmds[|cmds| - |ReportCommands(b)|..] == ReportCommands(b)
    ensures report.Some? ==>
      cmds == PreparationCommands(config, gitDirExists, b) + CommitCommands(config, b) + ReportCommands(b)
  {
    var m := new GitManager(config, gitDirExists);
    report := None;
    cmds, outcome := PrepareRepository(m, b);
    if outcome.Raised? { return; }
    var step, caught := m.CommitAndPush(b, ScriptMessage, force := ScriptForce);
    assert step == CommitCommands(config, b);
    cmds := cmds + step;
    var text;
    step, text := m.GenerateReport(b, generatedOn);
    assert (cmds + step)[|cmds|..] == step;
    cmds := cmds + step;
    report := Some(text);
  }

  /** The four steps of the script before `commit_and_push`, stopping at the
      first that raises. */
  method PrepareRepository(m: GitManager, b: Backend) returns (cmds: seq<Command>, outcome: Outcome)
    modifies m
    ensures outcome == Returned <==> ReachesReport(m.config, old(m.init), b)
    ensures outcome.Raised? ==> cmds != [] && cmds[|cmds| - 1] == outcome.failed
    ensures m.init <==> old(m.init) || b.initOk
    ensures outcome == Returned ==> cmds == PreparationCommands(m.config, old(m.init), b)
  {
    ghost var gitDirExists := m.init;
    cmds, outcome := m.InitializeGit(b);
    assert outcome.Raised? <==> !InitSucceeds(gitDirExists, b);
    if outcome.Raised? { return; }
    var rest;
    rest, outcome := ConfigureRepository(m, b);
    if outcome.Raised? {
      EndsWithLast(cmds, rest);
    }
    cmds := cmds + rest;
  }

  /** The three steps after `initialize_git`: remote, branch and staging,
      stopping at the first that raises. */
  method ConfigureRepository(m: GitManager, b: Backend) returns (cmds: seq<Command>, outcome: Outcome)
    ensures outcome == Returned <==>
      RemoteSucceeds(m.config, b) && BranchSucceeds(m.config, b) && StagingSucceeds(b, ScriptPattern)
    ensures outcome.Raised? ==> cmds != [] && cmds[|cmds| - 1] == outcome.failed
    ensures outcome == Returned ==>
      cmds == RemoteCommands(m.config, b) + BranchCommands(m.config, b) + StagingCommands(b, ScriptPattern)
  {
    var config := m.config;
    var step;
    cmds, outcome := m.AddRemoteUrl(b);
    assert outcome.Raised? <==> !RemoteSucceeds(config, b);
    assert cmds == RemoteCommands(config, b);
    if outcome.Raised? { return; }
    step, outcome := m.CreateBranch(b);
    assert outcome.Raised? <==> !BranchSucceeds(config, b);
    assert step == BranchCommands(config, b);
    if outcome.Raised? {
      EndsWithLast(cmds, step);
      return cmds + step, outcome;
    }
    cmds := cmds + step;
    step, outcome := m.AddToStaging(b, pattern := ScriptPattern);
    assert outcome.Raised? <==> !StagingSucceeds(b, ScriptPattern);
    assert step == StagingCommands(b, ScriptPattern);
    if outcome.Raised? {
      EndsWithLast(cmds, step);
    }
    cmds := cmds + step;
  }

  /** The invocations of the four steps before `commit_and_push` when none
      of them raises, in order. */
  function PreparationCommands(config: Config, gitDirExists: bool, b: Backend): seq<Command>
  {
    InitCommands(gitDirExists) + (RemoteCommands(config, b) + BranchCommands(config, b) + StagingCommands(b, ScriptPattern))
  }

  /** The script's `commit_and_push("Updated project", force = True)`: the
      commit, then the forced push when the commit succeeds. */
  function CommitCommands(config: Config, b: Backend): seq<Command>
  {
    [CommitCmd(ScriptMessage)] + if b.commitOk then [PushCmd(ScriptForce, ConfigBranch(config))] else []
  }

  /** `initialize_git`: `git init` unless a repository exists. */
  function InitCommands(gitDirExists: bool): seq<Command>
  {
    if gitDirExists then [] else [InitCmd]
  }

  /** `add_remote_url`: the listing, then the add when the listing is blank
      and a URL is configured. */
  function RemoteCommands(config: Config, b: Backend): seq<Command>
  {
    [RemoteListCmd]
    + if Strip(b.remoteListing) == "" && RemoteUrlKey in config then [RemoteAddCmd(config[RemoteUrlKey])] else []
  }

  /** `create_branch`: the query, then the checkout when the branch differs. */
  function BranchCommands(config: Config, b: Backend): seq<Command>
  {
    [ShowCurrentCmd]
    + if Strip(b.showCurrent) != ConfigBranch(config) then [CheckoutCmd(ConfigBranch(config))] else []
  }

  /** `add_to_staging(pattern)`: the add when the pattern is `.` or exists. */
  function StagingCommands(b: Backend, pattern: string): seq<Command>
  {
    if pattern == "." || b.pathExists(pattern) then [AddCmd(pattern)] else []
  }

  /** The last invocation of two runs in a row is the second run's last. */
  lemma EndsWithLast(first: seq<Command>, second: seq<Command>)
    requires second != []
    ensures (first + second)[|first + second| - 1] == second[|second| - 1]
  {
  }

  /** A second `initialize_git` runs nothing, whatever the first did, once
      the first has succeeded. */
  method InitializeTwice(m: GitManager, b: Backend) returns (first: seq<Command>, second: seq<Command>)
    requires b.initOk
    modifies m
    ensures first == (if old(m.init) then [] else [InitCmd])
    ensures second == [] && m.init
  {
    var o;
    first, o := m.InitializeGit(b);
    second, o := m.InitializeGit(b);
  }
}
