# Smart Git auto-commit-push: a Dafny model of `GitManager`

The repository automates a fixed git workflow for a project directory. It
initialises a repository if there is none, registers the `origin` remote from
a JSON configuration, switches to the configured branch, stages a file,
commits and pushes, and then writes a plain-text report. The report holds the
last commit, the branch, a status summary, and a zero-context diff of every
changed file.

This project models the class `GitManager` of `src/git_manager.py` and its
`__main__` entry sequence.

- **The git executable.** It becomes a record of what git answers during one
  run (`GitBackend.Backend`): the captured output of each query, whether each
  `check=True` invocation succeeds, `os.path.exists`, and the diff output per
  file.
- **Each method** is modelled as a guard. It returns the argument vectors it
  passes to `subprocess.run`, in order, and how it ends (`Outcome`): it either
  returns or lets a `CalledProcessError` escape, naming the failed
  invocation.
- **`commit_and_push`** catches errors itself. It returns the invocation
  whose error it logged.
- **The report** is the sequence of strings passed to `report.write`.
  `Report.ReportText` defines it as a function of the configuration, the
  backend and the header's timestamp. `GitManager.GenerateReport` builds it
  with the same loops as the source and is proved equal to it.
- **Report properties proved:**
  - the report's layout;
  - the two status fields agree with the status;
  - one `File Checked:` line per changed path;
  - the diff filter keeps exactly the `+`, `-` and `@@` lines;
  - a round trip from porcelain status entries to the paths the report lists;
  - the repository name derived from the remote URL.
- **Python string semantics** are modelled on `seq<char>` in `Strings`:
  - `split` with a separator (including the empty and trailing pieces);
  - `strip()` with the full `str.isspace` set;
  - `replace(pat, "")`, scanning left to right;
  - `startswith`.

Modules: `Collections` (filter, map, flatten), `Strings`, `GitBackend`,
`Report` (the report as a value), `Manager` (the class and the script).

Three behaviours of the code are easy to miss; the model follows the code:

- The repository name is computed with `replace(".git", "")` on the last URL
  segment (`src/git_manager.py:116`). So every non-overlapping `.git` is
  removed, not only a suffix. `Report.RepoNameRemovesInnerGit` states this: a
  segment `a.gitb.git` yields `ab`.
- The report's `Branch:` line shows the configured branch (defaulting to
  `main`), not the one `git rev-parse` returns. That value is read and not
  used (`src/git_manager.py:108`, `:119`).
- A status consisting of a lone line feed lists no file, yet reports
  "Uncommitted Changes Detected" and "Changes Pushed: No"
  (`Report.ReportOfBlankStatus`). The fields test whether the raw output is
  empty, while the file list skips empty lines.

## Model

| member | source | states |
|---|---|---|
| Manager.GitManager.constructor | src/git_manager.py:19-24 | the manager holds the loaded configuration, and `init` is whether `.git` exists |
| Manager.GitManager.InitializeGit | src/git_manager.py:31-38 | runs `git init` exactly when no repository is known; a failure raises with `init` still false; afterwards `init` holds iff it held before or `git init` succeeded |
| Manager.InitializeTwice | src/git_manager.py:33-36 | once `git init` has succeeded, a second `initialize_git` runs nothing and `init` stays true |
| Manager.GitManager.AddRemoteUrl | src/git_manager.py:40-51 | always lists the remotes first; adds `origin` with the configured URL iff the stripped listing is empty and `remote_url` is configured; raises iff that add was issued and failed; a missing URL is not an error |
| Manager.GitManager.CreateBranch | src/git_manager.py:53-62 | always reads the current branch; runs `checkout -b` with the configured branch (default `main`) iff the stripped current branch differs; raises iff that checkout was issued and failed |
| Manager.GitManager.AddToStaging | src/git_manager.py:64-71 | runs `git add <pattern>` iff the pattern is `.` or an existing path, otherwise nothing and no error; raises iff the add was issued and failed |
| Manager.GitManager.CommitAndPush | src/git_manager.py:73-87 | always commits; pushes to `origin` on the configured branch iff the commit succeeded, with `-f` when forced and `-u` otherwise; never raises; the caught error is the commit's, else the push's, else none |
| Manager.GitManager.GenerateReport | src/git_manager.py:96-148 | the writes are exactly `ReportText` of the configuration, backend and timestamp; the git invocations are the four queries followed by one `diff --unified=0` per changed file, in order |
| Manager.WriteHeader | src/git_manager.py:98-101 | the four header writes, with the timestamp in the third |
| Manager.GitManager.WriteSummary | src/git_manager.py:104-123 | the six summary writes, from the backend's query results and the configuration |
| Manager.WriteFiles | src/git_manager.py:126-148 | the banner and one section per changed file, or the no-files marker alone, plus one diff invocation per changed file |
| Manager.WriteFileSections | src/git_manager.py:130-146 | the loop over changed files writes their sections in order and runs their diffs in order |
| Manager.WriteFileSection | src/git_manager.py:131-146 | one file's writes are `FileSection` of its diff output, and the diff invocation is for that file |
| Manager.WriteDiffLines | src/git_manager.py:137-143 | the loop writes, each with a line feed, exactly the lines the diff filter keeps, in order |
| Manager.RunScript | src/git_manager.py:152-159 | the run reaches the report iff initialising, adding the remote, creating the branch and staging `src/git_manager.py` all return, whatever commit and push do; the report is then `ReportText`, and the run's invocations are exactly `PreparationCommands`, then `CommitCommands`, then `ReportCommands`; a run that raises ends with the invocation that failed |
| Manager.PrepareRepository | src/git_manager.py:153-157 | the four steps before `commit_and_push` return iff none of their guarded invocations fails; on failure the last invocation issued is the failed one; `init` afterwards holds iff it held before or `git init` succeeded; on success the invocations are exactly `PreparationCommands` |
| Manager.ConfigureRepository | src/git_manager.py:155-157 | adding the remote, creating the branch and staging `src/git_manager.py` return iff none of their guarded invocations fails; on failure the last invocation is the failed one; on success the invocations are the three steps' commands in order |
| Manager.ReachesReport | src/git_manager.py:153-157 | the conjunction of the four step predicates below: the condition under which the script reaches `commit_and_push` and the report |
| Manager.InitSucceeds | src/git_manager.py:33-34 | `initialize_git` returns: `.git` existed or `git init` succeeds |
| Manager.RemoteSucceeds | src/git_manager.py:42-46 | `add_remote_url` returns: unless the stripped listing is blank, a URL is configured, and the add fails |
| Manager.BranchSucceeds | src/git_manager.py:55-59 | `create_branch` returns: unless the stripped current branch differs from the configured one and the checkout fails |
| Manager.StagingSucceeds | src/git_manager.py:66-70 | `add_to_staging` returns: unless the add is issued (pattern `.` or an existing path) and fails |
| Manager.PreparationCommands | src/git_manager.py:153-157 | the invocations of the four preparation steps when none raises: `InitCommands`, `RemoteCommands`, `BranchCommands` and `StagingCommands` in order |
| Manager.InitCommands | src/git_manager.py:33-34 | `git init` unless `.git` exists |
| Manager.RemoteCommands | src/git_manager.py:42-46 | `git remote`, then `git remote add origin <url>` when the stripped listing is blank and `remote_url` is configured |
| Manager.BranchCommands | src/git_manager.py:55-59 | `git branch --show-current`, then `git checkout -b <branch>` when the stripped output differs from the configured branch |
| Manager.StagingCommands | src/git_manager.py:66-70 | `git add <pattern>` when the pattern is `.` or an existing path, else nothing |
| Manager.CommitCommands | src/git_manager.py:158 | the script's commit with message `Updated project`, then `git push -f origin <branch>` when the commit succeeds |
| Report.ConfigBranch | src/git_manager.py:55 | `config.get("branch_name", "main")`, the same lookup as lines 79 and 119 |
| Report.PathField | src/git_manager.py:113 | `line[3:]`, which is empty for a line of at most three characters |
| Report.ChangedFiles | src/git_manager.py:113 | `[line[3:] for line in status.split("\n") if line]` |
| Report.ChangesDetected | src/git_manager.py:115 | "Uncommitted Changes Detected" when the raw status is non-empty, otherwise "Up to date" |
| Report.ChangesPushed | src/git_manager.py:122 | "No" when the raw status is non-empty, otherwise "Yes" |
| Report.KeepDiffLine | src/git_manager.py:138-142 | a diff line is written iff it starts with `+` but not `+++`, with `-` but not `---`, or with `@@` |
| Report.FilterDiff | src/git_manager.py:137-143 | the lines of `diff_output.split("\n")` that `KeepDiffLine` accepts, in order |
| Report.Header | src/git_manager.py:98-101 | the four header writes, with the timestamp in the third |
| Report.Summary | src/git_manager.py:118-123 | the six summary writes: repository, configured branch, last commit or `(No commits yet)`, its date or `N/A`, and the two status fields |
| Report.FileSection | src/git_manager.py:131-146 | a file's `File Checked:` line and rule, then either the `File:` block with the kept diff lines and closing rule, or the no-content marker |
| Report.FileSections | src/git_manager.py:130-146 | the sections of the files, in order |
| Report.FilesPart | src/git_manager.py:126-148 | the banner and the sections when some file changed, otherwise the no-files marker |
| Report.ReportText | src/git_manager.py:96-148 | header, summary, then the files part |
| Report.ReportCommands | src/git_manager.py:104-133 | the two `git log` queries, `rev-parse`, `status --porcelain`, then one `diff --unified=0` per changed file |
| Report.ChangedFilesPerLine | src/git_manager.py:111-113 | one changed path per non-empty line of the status output, in line order; each path is that line without its first three characters |
| Report.ChangedFilesOfPorcelain | src/git_manager.py:111-113 | for porcelain output built from entries `XY path` (each followed by a line feed), the parsed changed files are exactly the entries' paths |
| Report.BlankStatusHasNoFiles | src/git_manager.py:113-115 | an empty status lists no files; a lone line feed lists none but counts as uncommitted changes |
| Report.RepoName | src/git_manager.py:116 | the repository name never contains `/` |
| Report.RepoNameOfGitUrl | src/git_manager.py:116 | a URL `prefix/name.git` whose last segment has no other `.git` yields `name` |
| Report.RepoNameWithoutUrl | src/git_manager.py:116 | with no `remote_url` configured, the name is `Unknown` |
| Report.RepoNameRemovesInnerGit | src/git_manager.py:116 | every `.git` in the last segment is removed, not only the suffix: the last segment `a.gitb.git` yields `ab` |
| Report.FilterDiffPerLine | src/git_manager.py:137-143 | the kept diff lines are the lines of the output at the kept positions, in order; a line is kept iff it starts with `+` but not `+++`, with `-` but not `---`, or with `@@` |
| Report.FilterDiffShape | src/git_manager.py:137-143 | every kept line is non-empty, starts with `+`, `-` or `@`, is not a `+++`/`---` file header, and has no line feed |
| Report.FilterDiffIdempotent | src/git_manager.py:137-143 | filtering the line-feed-terminated kept lines again gives the same lines |
| Report.ReportLayout | src/git_manager.py:96-148 | the report is four header writes, six summary writes, then the files part; the eleventh write is the no-files marker iff no file changed, and the report then ends there |
| Report.SummaryFields | src/git_manager.py:115-123 | the summary names the repository and the configured branch; `Changes Pushed: Yes` and `Status: Up to date` appear iff the status output is empty, otherwise `No` and `Uncommitted Changes Detected` |
| Report.ReportOfBlankStatus | src/git_manager.py:111-148 | with an empty status, or one that is a lone line feed, the report has eleven writes ending in the no-files marker, with the status fields as the raw output decides |
| Report.ReportChecksEachChangedFile | src/git_manager.py:126-132 | the report's `File Checked:` lines are exactly one per changed path, in order |
| Report.FileSectionsCheckEachOnce | src/git_manager.py:130-132 | the file sections hold one `File Checked:` line per file, in order |
| Report.FileSectionChecksOnce | src/git_manager.py:131 | a file's section holds its `File Checked:` line and no other |
| Report.FileSectionDiffLines | src/git_manager.py:134-144 | for non-empty diff output, the section is five fixed writes around exactly the kept diff lines, each with a line feed |
| Report.FileSectionMarker | src/git_manager.py:134-146 | a section says "No content changes detected." iff the diff output is empty |
| Report.DiffChunksText | src/git_manager.py:137-143 | the diff lines written, concatenated, are the kept lines each followed by one line feed |
| Strings.Split | src/git_manager.py:113 | `str.split(sep)`, also used at lines 116 and 137: there is always at least one piece, including empty and trailing ones |
| Strings.StartsWith | src/git_manager.py:138-142 | `str.startswith` |
| Strings.Strip | src/git_manager.py:42 | `str.strip()` (also at lines 56 and 108), which cuts the leading and trailing characters in `Whitespace`, the 29 characters of Python's `str.isspace` |
| Strings.RemoveAll | src/git_manager.py:116 | `str.replace(pat, "")`, one left-to-right pass that removes non-overlapping occurrences without rescanning; the result is no longer than the input, and every character in it comes from the input |
| Strings.JoinSplit | src/git_manager.py:113 | `split` on a separator loses nothing: joining the pieces gives back the text |
| Strings.SplitJoin | src/git_manager.py:113 | splitting pieces joined by a separator, none of which contains it, gives back the pieces |
| Strings.SplitTerminated | src/git_manager.py:113 | text made of lines each ending in the separator splits into those lines plus a final empty piece |
| Strings.SplitPiecesLackSep | src/git_manager.py:113 | no piece of a split contains the separator |
| Strings.StripEmptyIffBlank | src/git_manager.py:42-44 | `strip()` gives the empty string iff every character is whitespace |
| Strings.StripCharsShape | src/git_manager.py:42 | `strip` removes a leading and a trailing run of cut characters and keeps the slice between, which starts and ends with a kept character |
| Strings.StripLineFeed | src/git_manager.py:56-58 | a branch name that `strip()` leaves alone, printed with a line feed, strips back to itself, so the branch guard then sees it as current |
| Strings.RemoveGitAfterClean | src/git_manager.py:116 | removing `.git` from `a + ".git" + b`, where `a` has no `.git`, gives `a` followed by the removal applied to `b` |
| Strings.RemoveAllAbsent | src/git_manager.py:116 | `replace(pat, "")` leaves text without an occurrence of `pat` as it is |
| Collections.FilterByIndices | src/git_manager.py:113 | a filtering comprehension keeps exactly the elements at the positions that pass the test, in order |
| Collections.FilterIdempotent | src/git_manager.py:137-143 | filtering twice with the same test is filtering once |

## Left out

- Logging (`src/git_manager.py:8-16` and every `logging` call) has no effect on the state that is modelled.
- `load_config` (`src/git_manager.py:26-29`) is not modelled. The configuration is given as a map from strings to strings. JSON values that are not strings, and a missing or malformed file, are outside the model.
- `base_dir` (`src/git_manager.py:22`) is stored but never used, so the model has no such field.
- Processes, files and the clock are not modelled. `subprocess.run` becomes the argument vectors plus the recorded answers of `Backend`. `os.path.exists` becomes `Backend.pathExists`. The report file's path, `os.makedirs("reports")` and the file itself are replaced by the sequence of writes. The `datetime.now()` timestamps become the `generatedOn` parameter, and the file name is not modelled.
- Backend: the answers are fixed for the whole run. A command does not change what later queries return: in real git a remote added by one step would be listed by a later `git remote`; here it is not. Real git behaviour is not modelled.
- Exceptions other than `CalledProcessError` from a `check=True` invocation are not modelled. Examples are a missing `git` executable or a failing write.
- Manager.GitManager.CommitAndPush: the function records which invocation's error is logged, not the error text.
- Manager.RunScript: for a run that raises, only the last invocation (the failed one) is stated. The full list is stated for a run that reaches the report.
- Manager.PrepareRepository: the same holds for a preparation that raises.
- Manager.ConfigureRepository: the same holds for a configuration that raises.
