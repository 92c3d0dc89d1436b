/** The pure part of `GitManager.generate_report`: parsing the porcelain
    status into changed paths, deriving the repository name from the remote
    URL, filtering zero-context diffs, and the layout of the report, given as
    the sequence of strings the method passes to `report.write`. */
module Report {
  import opened Collections
  import opened Strings
  import opened GitBackend

  /** The JSON configuration, a flat object of strings. */
  type Config = map<string, string>

  const RemoteUrlKey: string := "remote_url"
  const BranchNameKey: string := "branch_name"
  const DefaultBranch: string := "main"

  /** `config.get("branch_name", "main")`. */
  function ConfigBranch(config: Config): string
  {
    if BranchNameKey in config then config[BranchNameKey] else DefaultBranch
  }

  // ---------------------------------------------------------------------------
  // changed files: [line[3:] for line in status.split("\n") if line]

  predicate NonEmpty(line: string)
  {
    line != ""
  }

  /** `line[3:]`: the path after the two status letters and the space; Python
      slicing gives `""` for a shorter line. */
  function PathField(line: string): string
  {
    if |line| <= 3 then "" else line[3..]
  }

  function ChangedFiles(status: string): seq<string>
  {
    MapSeq(PathField, Filter(NonEmpty, Split(status, '\n')))
  }

  /** One changed path per non-empty line of the status, in the order of the
      lines, each the line without its first three characters. */
  lemma ChangedFilesPerLine(status: string)
    ensures var lines, idx := Split(status, '\n'), KeptIndices(NonEmpty, Split(status, '\n'));
      && |ChangedFiles(status)| == |idx|
      && (forall k :: 0 <= k < |idx| ==>
            idx[k] < |lines| && ChangedFiles(status)[k] == PathField(lines[idx[k]]))
      && (forall k, l :: 0 <= k < l < |idx| ==> idx[k] < idx[l])
      && (forall i :: 0 <= i < |lines| ==> (lines[i] != "" <==> i in idx))
  {
    FilterByIndices(NonEmpty, Split(status, '\n'));
  }

  /** An empty status lists no files, and so does a status that is a single
      line feed; the latter still counts as "Uncommitted Changes Detected". */
  lemma BlankStatusHasNoFiles()
    ensures ChangedFiles("") == []
    ensures ChangedFiles("\n") == [] && ChangesDetected("\n") == Uncommitted
  {
    assert Split("\n", '\n') == ["", ""] by {
      assert "\n"[1..] == "";
    }
    FilterNone(NonEmpty, ["", ""]);
  }

  /** One entry of `git status --porcelain` (format v1): two status letters,
      a space and the path. */
  datatype StatusEntry = StatusEntry(index: char, worktree: char, path: string)

  function PorcelainLine(e: StatusEntry): string
  {
    [e.index, e.worktree, ' '] + e.path
  }

  function EntryPath(e: StatusEntry): string
  {
    e.path
  }

  /** Parsing recovers the paths of any porcelain listing whose lines are each
      terminated by a line feed, as git prints them. */
  lemma ChangedFilesOfPorcelain(entries: seq<StatusEntry>)
    requires forall k :: 0 <= k < |entries| ==> '\n' !in PorcelainLine(entries[k])
    ensures ChangedFiles(Terminated(MapSeq(PorcelainLine, entries), '\n')) == MapSeq(EntryPath, entries)
  {
    var lines := MapSeq(PorcelainLine, entries);
    SplitTerminated(lines, '\n');
    FilterSnoc(NonEmpty, lines, "");
    assert forall k :: 0 <= k < |lines| ==> |lines[k]| >= 3;
    FilterAll(NonEmpty, lines);
    assert Filter(NonEmpty, Split(Terminated(lines, '\n'), '\n')) == lines;
    forall k | 0 <= k < |entries|
      ensures MapSeq(PathField, lines)[k] == MapSeq(EntryPath, entries)[k]
    {
      assert lines[k] == PorcelainLine(entries[k]);
      assert lines[k][3..] == entries[k].path;
      assert PathField(lines[k]) == entries[k].path;
      assert MapSeq(PathField, lines)[k] == PathField(lines[k]);
      assert MapSeq(EntryPath, entries)[k] == EntryPath(entries[k]);
    }
  }

  // ---------------------------------------------------------------------------
  // summary fields

  const Uncommitted: string := "Uncommitted Changes Detected"
  const UpToDate: string := "Up to date"

  function ChangesDetected(status: string): string
  {
    if status != "" then Uncommitted else UpToDate
  }

  function ChangesPushed(status: string): string
  {
    if status != "" then "No" else "Yes"
  }

  /** `config.get('remote_url', 'Unknown').split("/")[-1].replace(".git", "")`.
      Every `".git"` of the last segment goes, not only a trailing one. */
  function RepoName(config: Config): (name: string)
    ensures '/' !in name
  {
    var url := if RemoteUrlKey in config then config[RemoteUrlKey] else "Unknown";
    var segments := Split(url, '/');
    SplitPiecesLackSep(url, '/');
    RemoveAll(segments[|segments| - 1], GitSuffix)
  }

  /** Text whose `'.'`s all sit too close to the end for a `".git"` to start. */
  lemma NoGitIn(s: string)
    requires forall i :: 0 <= i && i + 4 <= |s| ==> s[i] != '.'
    ensures !Contains(s, GitSuffix)
  {
    forall i: nat | i <= |s| ensures !OccursAt(s, GitSuffix, i) {
      if i + 4 <= |s| {
        assert s[i..i + 4][0] == s[i] != '.';
      }
    }
  }

  /** A URL ending in `/<name>.git`, for a `name` with no `/` and no `".git"`,
      gives `name`. */
  lemma RepoNameOfGitUrl(prefix: string, name: string)
    requires '/' !in name && !Contains(name, GitSuffix)
    ensures RepoName(map[RemoteUrlKey := prefix + "/" + name + GitSuffix]) == name
  {
    var url := prefix + "/" + name + GitSuffix;
    assert url == prefix + ['/'] + (name + GitSuffix);
    LastPieceAfterSep(prefix, '/', name + GitSuffix);
    RemoveGitAfterClean(name, "");
    assert name + GitSuffix + "" == name + GitSuffix;
  }

  /** Without a configured URL the name is `"Unknown"`. */
  lemma RepoNameWithoutUrl(config: Config)
    requires RemoteUrlKey !in config
    ensures RepoName(config) == "Unknown"
  {
    SplitNoSep("Unknown", '/');
    NoGitIn("Unknown");
    RemoveAllAbsent("Unknown", GitSuffix);
  }

  /** The removal is a `replace`, not a suffix strip: every `".git"` of the
      last segment goes, so `.../user.github.io.git` (`a` = `user`, `b` =
      `hub.io`) gives `userhub.io`. */
  lemma RepoNameRemovesInnerGit(prefix: string, a: string, b: string)
    requires '/' !in a && '/' !in b
    requires !Contains(a, GitSuffix) && !Contains(b, GitSuffix)
    ensures RepoName(map[RemoteUrlKey := prefix + "/" + a + GitSuffix + b + GitSuffix]) == a + b
  {
    var last := a + GitSuffix + (b + GitSuffix + "");
    assert prefix + "/" + a + GitSuffix + b + GitSuffix == prefix + ['/'] + last;
    LastPieceAfterSep(prefix, '/', last);
    RemoveGitAfterClean(a, b + GitSuffix + "");
    RemoveGitAfterClean(b, "");
  }

  // ---------------------------------------------------------------------------
  // diff filter

  /** Added and removed lines and hunk headers, but not the `+++`/`---` file
      headers (and so not context lines either). */
  predicate KeepDiffLine(line: string)
  {
    || (StartsWith(line, "+") && !StartsWith(line, "+++"))
    || (StartsWith(line, "-") && !StartsWith(line, "---"))
    || StartsWith(line, "@@")
  }

  function FilterDiff(diff: string): seq<string>
  {
    Filter(KeepDiffLine, Split(diff, '\n'))
  }

  /** Exactly the kept lines of the diff, in order. */
  lemma FilterDiffPerLine(diff: string)
    ensures var lines, idx := Split(diff, '\n'), KeptIndices(KeepDiffLine, Split(diff, '\n'));
      && |FilterDiff(diff)| == |idx|
      && (forall k :: 0 <= k < |idx| ==> idx[k] < |lines| && FilterDiff(diff)[k] == lines[idx[k]])
      && (forall k, l :: 0 <= k < l < |idx| ==> idx[k] < idx[l])
      && (forall i :: 0 <= i < |lines| ==> (KeepDiffLine(lines[i]) <==> i in idx))
  {
    FilterByIndices(KeepDiffLine, Split(diff, '\n'));
  }

  /** No file header, empty line or context line survives: every kept line
      starts with `+`, `-` or `@`, never with `+++` or `---`, and holds no
      line feed. */
  lemma FilterDiffShape(diff: string)
    ensures forall l :: l in FilterDiff(diff) ==>
      && l != "" && l[0] in {'+', '-', '@'}
      && !StartsWith(l, "+++") && !StartsWith(l, "---")
      && '\n' !in l
  {
    FilterMember(KeepDiffLine, Split(diff, '\n'));
    SplitPiecesLackSep(diff, '\n');
    forall l | l in FilterDiff(diff)
      ensures l != "" && l[0] in {'+', '-', '@'}
      ensures !StartsWith(l, "+++") && !StartsWith(l, "---")
    {
      assert KeepDiffLine(l);
      assert l != "";
      assert l[..1][0] == l[0];
      assert |l| >= 3 ==> l[..3][0] == l[0];
    }
  }

  /** Filtering the text the filter emits (each kept line and a line feed)
      gives the same lines again. */
  lemma FilterDiffIdempotent(diff: string)
    ensures FilterDiff(Terminated(FilterDiff(diff), '\n')) == FilterDiff(diff)
  {
    var kept := FilterDiff(diff);
    FilterDiffShape(diff);
    SplitTerminated(kept, '\n');
    FilterSnoc(KeepDiffLine, kept, "");
    FilterIdempotent(KeepDiffLine, Split(diff, '\n'));
  }

  // ---------------------------------------------------------------------------
  // report layout: one element per `report.write` call

  const FileCheckedPrefix: string := "File Checked: "
  const NoContentMarker: string := "No content changes detected.\n"
  const NoFilesMarker: string := "No files changes detected.\n"

  function Header(generatedOn: string): seq<string>
  {
    [ Repeat('=', 40) + "\n",
      "              Git Report      \n",
      "      Generated on :" + generatedOn + "     \n",
      Repeat('=', 40) + "\n\n" ]
  }

  function Summary(config: Config, b: Backend): seq<string>
  {
    [ "Repository: " + RepoName(config) + "\n",
      "Branch: " + ConfigBranch(config) + "\n",
      "Last Commit: " + (if b.lastSubject != "" then b.lastSubject else "(No commits yet)") + "\n",
      "Last Commit Date: " + (if b.lastDate != "" then b.lastDate else "N/A") + "\n",
      "Changes Pushed: " + ChangesPushed(b.status) + "\n",
      "Status: " + ChangesDetected(b.status) + "\n" ]
  }

  function FilesBanner(): seq<string>
  {
    [Repeat('=', 50) + "\n", "Modified Files and Changes\n", Repeat('=', 50) + "\n"]
  }

  function LineWithFeed(line: string): string
  {
    line + "\n"
  }

  function DiffChunks(lines: seq<string>): seq<string>
  {
    MapSeq(LineWithFeed, lines)
  }

  function FileCheckedLine(file: string): string
  {
    FileCheckedPrefix + file + "\n"
  }

  /** What the report holds for one changed file with diff output `diff`. */
  function FileSection(file: string, diff: string): seq<string>
  {
    [FileCheckedLine(file), Repeat('-', 70) + "\n"]
    + if diff != "" then
        ["File: " + file + "\n", Repeat('=', 50) + "\n"]
        + DiffChunks(FilterDiff(diff))
        + ["\n" + Repeat('=', 70) + "\n\n"]
      else [NoContentMarker]
  }

  function FileSections(files: seq<string>, diffOf: string -> string): seq<string>
    decreases |files|
  {
    if files == [] then []
    else
      var last := files[|files| - 1];
      FileSections(files[..|files| - 1], diffOf) + FileSection(last, diffOf(last))
  }

  /** Everything the report holds after the four header writes. */
  function ReportBody(config: Config, b: Backend): seq<string>
  {
    Summary(config, b) + FilesPart(b)
  }

  function ReportText(config: Config, b: Backend, generatedOn: string): seq<string>
  {
    Header(generatedOn) + ReportBody(config, b)
  }

  /** The git invocations of `generate_report`, in order. */
  function ReportCommands(b: Backend): seq<Command>
  {
    [LogSubjectCmd, LogDateCmd, RevParseCmd, StatusCmd] + MapSeq(DiffCmd, ChangedFiles(b.status))
  }

  // ---------------------------------------------------------------------------
  // properties of the report

  /** The part of the report after the summary. */
  function FilesPart(b: Backend): seq<string>
  {
    var files := ChangedFiles(b.status);
    if files != [] then FilesBanner() + FileSections(files, b.diffOf) else [NoFilesMarker]
  }

  /** The report is the header, the six summary lines, and then either the
      changed-files part or the no-files marker alone. */
  lemma ReportLayout(config: Config, b: Backend, generatedOn: string)
    ensures var r := ReportText(config, b, generatedOn);
      && |r| >= 11
      && r[..4] == Header(generatedOn)
      && r[4..10] == Summary(config, b)
      && r[10..] == FilesPart(b)
      && (r[10] == NoFilesMarker <==> ChangedFiles(b.status) == [])
      && (ChangedFiles(b.status) == [] ==> |r| == 11)
  {
    var r := ReportText(config, b, generatedOn);
    assert r == Header(generatedOn) + Summary(config, b) + FilesPart(b);
    if ChangedFiles(b.status) != [] {
      assert r[10] == Repeat('=', 50) + "\n";
      assert r[10][0] != NoFilesMarker[0];
    }
  }

  /** Two field lines with the same label and different values differ. */
  lemma FieldLinesDiffer(name: string, v: string, w: string)
    requires v != w
    ensures name + v + "\n" != name + w + "\n"
  {
    if |v| == |w| {
      assert (name + v + "\n")[|name|..|name| + |v|] == v;
      assert (name + w + "\n")[|name|..|name| + |w|] == w;
    }
  }

  /** The summary names the repository and the configured branch, and its
      two status fields say "Yes" / "Up to date" exactly when the status
      output is empty, "No" / "Uncommitted Changes Detected" otherwise. */
  lemma SummaryFields(config: Config, b: Backend)
    ensures var s := Summary(config, b);
      && s[0] == "Repository: " + RepoName(config) + "\n"
      && s[1] == "Branch: " + ConfigBranch(config) + "\n"
      && (s[4] == "Changes Pushed: " + "Yes" + "\n" <==> b.status == "")
      && (s[4] == "Changes Pushed: " + "No" + "\n" <==> b.status != "")
      && (s[5] == "Status: " + UpToDate + "\n" <==> b.status == "")
      && (s[5] == "Status: " + Uncommitted + "\n" <==> b.status != "")
  {
    FieldLinesDiffer("Changes Pushed: ", "Yes", "No");
    FieldLinesDiffer("Status: ", UpToDate, Uncommitted);
  }

  /** A clean working tree reports "Up to date" and lists no files; a status
      of a lone line feed lists no files either but reports uncommitted
      changes. */
  lemma ReportOfBlankStatus(config: Config, b: Backend, generatedOn: string)
    requires b.status == "" || b.status == "\n"
    ensures var r := ReportText(config, b, generatedOn);
      && |r| == 11
      && r[10] == NoFilesMarker
      && (b.status == "" ==> r[8] == "Changes Pushed: " + "Yes" + "\n" && r[9] == "Status: " + UpToDate + "\n")
      && (b.status == "\n" ==> r[8] == "Changes Pushed: " + "No" + "\n" && r[9] == "Status: " + Uncommitted + "\n")
  {
    BlankStatusHasNoFiles();
    ReportLayout(config, b, generatedOn);
    SummaryFields(config, b);
    var r := ReportText(config, b, generatedOn);
    assert r[8] == r[4..10][4] && r[9] == r[4..10][5];
  }

  predicate IsFileCheckedLine(chunk: string)
  {
    StartsWith(chunk, FileCheckedPrefix)
  }

  /** A written string whose first (or fifth) character differs from that of
      the prefix is not a "File Checked" line. */
  lemma NotFileCheckedLine(chunk: string, k: nat)
    requires k < |chunk| && k < |FileCheckedPrefix| && chunk[k] != FileCheckedPrefix[k]
    ensures !IsFileCheckedLine(chunk)
  {
    if |FileCheckedPrefix| <= |chunk| {
      assert chunk[..|FileCheckedPrefix|][k] == chunk[k];
    }
  }

  /** A file's section holds exactly one "File Checked" line, its own. */
  lemma FileSectionChecksOnce(file: string, diff: string)
    ensures Filter(IsFileCheckedLine, FileSection(file, diff)) == [FileCheckedLine(file)]
  {
    var head := FileCheckedLine(file);
    var rest := FileSection(file, diff)[1..];
    assert FileSection(file, diff) == [head] + rest;
    assert IsFileCheckedLine(head) by {
      assert head[..|FileCheckedPrefix|] == FileCheckedPrefix;
    }
    FilterSnoc(IsFileCheckedLine, [], head);
    forall i | 0 <= i < |rest| ensures !IsFileCheckedLine(rest[i]) {
      if i == 0 {
        NotFileCheckedLine(rest[i], 0);
      } else if diff == "" {
        NotFileCheckedLine(rest[i], 0);
      } else if i == 1 {
        NotFileCheckedLine(rest[i], 4);
      } else if i == 2 || i == |rest| - 1 {
        NotFileCheckedLine(rest[i], 0);
      } else {
        var kept := FilterDiff(diff);
        FilterDiffShape(diff);
        assert rest[i] == LineWithFeed(kept[i - 3]);
        assert kept[i - 3] in kept;
        assert rest[i][0] == kept[i - 3][0];
        NotFileCheckedLine(rest[i], 0);
      }
    }
    FilterNone(IsFileCheckedLine, rest);
    FilterAppend(IsFileCheckedLine, [head], rest);
  }

  /** Every changed file is checked exactly once, in order, across its
      sections. */
  lemma {:induction false} FileSectionsCheckEachOnce(files: seq<string>, diffOf: string -> string)
    ensures Filter(IsFileCheckedLine, FileSections(files, diffOf)) == MapSeq(FileCheckedLine, files)
    decreases |files|
  {
    if files != [] {
      var init, last := files[..|files| - 1], files[|files| - 1];
      assert files == init + [last];
      FileSectionsCheckEachOnce(init, diffOf);
      FilterAppend(IsFileCheckedLine, FileSections(init, diffOf), FileSection(last, diffOf(last)));
      FileSectionChecksOnce(last, diffOf(last));
      MapSeqAppend(FileCheckedLine, init, [last]);
    }
  }

  lemma HeaderChecksNothing(generatedOn: string)
    ensures Filter(IsFileCheckedLine, Header(generatedOn)) == []
  {
    var header := Header(generatedOn);
    forall i | 0 <= i < |header| ensures !IsFileCheckedLine(header[i]) {
      NotFileCheckedLine(header[i], 0);
    }
    FilterNone(IsFileCheckedLine, header);
  }

  lemma SummaryChecksNothing(config: Config, b: Backend)
    ensures Filter(IsFileCheckedLine, Summary(config, b)) == []
  {
    var summary := Summary(config, b);
    forall i | 0 <= i < |summary| ensures !IsFileCheckedLine(summary[i]) {
      NotFileCheckedLine(summary[i], 0);
    }
    FilterNone(IsFileCheckedLine, summary);
  }

  /** The changed-files part checks each changed file once, in order. */
  lemma FilesPartChecksEachOnce(b: Backend)
    ensures Filter(IsFileCheckedLine, FilesPart(b)) == MapSeq(FileCheckedLine, ChangedFiles(b.status))
  {
    var files := ChangedFiles(b.status);
    if files != [] {
      var banner := FilesBanner();
      forall i | 0 <= i < |banner| ensures !IsFileCheckedLine(banner[i]) {
        NotFileCheckedLine(banner[i], 0);
      }
      FilterNone(IsFileCheckedLine, banner);
      FilterAppend(IsFileCheckedLine, banner, FileSections(files, b.diffOf));
      FileSectionsCheckEachOnce(files, b.diffOf);
    } else {
      NotFileCheckedLine(NoFilesMarker, 0);
      FilterSnoc(IsFileCheckedLine, [], NoFilesMarker);
    }
  }

  /** Over the whole report: one "File Checked" line per changed path, in the
      order of the status output, and no other. */
  lemma ReportChecksEachChangedFile(config: Config, b: Backend, generatedOn: string)
    ensures Filter(IsFileCheckedLine, ReportText(config, b, generatedOn))
         == MapSeq(FileCheckedLine, ChangedFiles(b.status))
  {
    var header, summary, tail := Header(generatedOn), Summary(config, b), FilesPart(b);
    assert ReportText(config, b, generatedOn) == header + (summary + tail);
    HeaderChecksNothing(generatedOn);
    SummaryChecksNothing(config, b);
    FilterAppend(IsFileCheckedLine, header, summary + tail);
    FilterAppend(IsFileCheckedLine, summary, tail);
    FilesPartChecksEachOnce(b);
  }

  /** A file's section carries the filtered diff lines, each written with a
      line feed, between its four opening writes and its closing rule. */
  lemma FileSectionDiffLines(file: string, diff: string)
    requires diff != ""
    ensures var s := FileSection(file, diff);
      |s| == 5 + |FilterDiff(diff)| && s[4..|s| - 1] == DiffChunks(FilterDiff(diff))
  {
  }

  /** A file's section carries the no-content marker exactly when its diff
      output is empty. */
  lemma FileSectionMarker(file: string, diff: string)
    ensures NoContentMarker in FileSection(file, diff) <==> diff == ""
  {
    var s := FileSection(file, diff);
    if diff != "" {
      var kept := FilterDiff(diff);
      FilterDiffShape(diff);
      FileSectionDiffLines(file, diff);
      forall i | 0 <= i < |s| ensures s[i] != "" && s[i][0] != 'N' {
        if 4 <= i < |s| - 1 {
          assert s[i] == LineWithFeed(kept[i - 4]);
          assert kept[i - 4] in kept;
        }
      }
      assert NoContentMarker[0] == 'N';
    } else {
      assert s[2] == NoContentMarker;
    }
  }

  /** The diff lines written for a file, put together, are the kept lines
      each followed by a line feed, the text `FilterDiffIdempotent` speaks of. */
  lemma {:induction false} DiffChunksText(lines: seq<string>)
    ensures Flatten(DiffChunks(lines)) == Terminated(lines, '\n')
    decreases |lines|
  {
    if lines != [] {
      DiffChunksText(lines[1..]);
      assert DiffChunks(lines) == [LineWithFeed(lines[0])] + DiffChunks(lines[1..]);
      FlattenCons(LineWithFeed(lines[0]), DiffChunks(lines[1..]));
    }
  }
}
