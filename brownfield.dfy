/**
 * Staleness of the brownfield codebase documents: the analysis date written
 * in the first of the seven documents that has one, the commit at that date,
 * and the share of the repository's source files changed since. Files and git
 * are consulted through oracles; each git oracle returns the trimmed output of
 * its command, or `None` when the command fails.
 */
module Brownfield {
  import opened Strings
  import opened Paths
  import opened Exports
  import opened Ratios

  /** The documents searched for an analysis date, in search order. */
  const BROWNFIELD_DOCS: seq<string> := ["ARCHITECTURE.md", "STACK.md", "CONVENTIONS.md",
    "STRUCTURE.md", "TESTING.md", "INTEGRATIONS.md", "CONCERNS.md"]

  // ---------------------------------------------------------------------------
  // The analysis date
  // ---------------------------------------------------------------------------

  const ANALYSIS_MARKER: string := "**Analysis Date:**"

  /** `\d{4}-\d{2}-\d{2}` */
  predicate IsDate(d: string) {
    |d| == 10 && d[4] == '-' && d[7] == '-' &&
    forall k :: 0 <= k < 10 && k != 4 && k != 7 ==> IsDigit(d[k])
  }

  /** The first position at or after `i` that does not hold whitespace. */
  function SkipSpaces(s: string, i: nat): (j: nat)
    requires i <= |s|
    ensures i <= j <= |s|
    ensures j < |s| ==> !IsSpace(s[j])
    ensures forall k :: i <= k < j ==> IsSpace(s[k])
    decreases |s| - i
  {
    if i == |s| || !IsSpace(s[i]) then i else SkipSpaces(s, i + 1)
  }

  /** The date matched by `ANALYSIS_DATE_RE` when its match starts at `i`. A
      date begins with a digit, which is not whitespace, so `\s*` can only
      succeed by taking the whole run of whitespace after the marker. */
  function DateAt(s: string, i: nat): (r: Option<string>)
    requires i <= |s|
    ensures r.Some? ==> IsDate(r.value)
  {
    if !StartsWith(s[i..], ANALYSIS_MARKER) then None
    else
      var j := SkipSpaces(s, i + |ANALYSIS_MARKER|);
      if j + 10 <= |s| && IsDate(s[j..j + 10]) then Some(s[j..j + 10]) else None
  }

  /** The date of the leftmost match at or after `i`. */
  function FindDate(s: string, i: nat): Option<string>
    requires i <= |s|
    decreases |s| - i
  {
    if i == |s| then None
    else if DateAt(s, i).Some? then DateAt(s, i)
    else FindDate(s, i + 1)
  }

  /** `content.match(ANALYSIS_DATE_RE)?.[1]` */
  function AnalysisDateIn(s: string): Option<string> {
    FindDate(s, 0)
  }

  /** The date found is the one after the leftmost marker that is followed by
      a date; no marker before it is. */
  lemma {:induction false} FindDateFirst(s: string, i: nat)
    requires i <= |s| && FindDate(s, i).Some?
    ensures exists k :: (i <= k < |s| && DateAt(s, k) == FindDate(s, i) &&
                         forall m :: i <= m < k ==> DateAt(s, m).None?)
    decreases |s| - i
  {
    if DateAt(s, i).None? {
      FindDateFirst(s, i + 1);
      var k :| i + 1 <= k < |s| && DateAt(s, k) == FindDate(s, i + 1) &&
               forall m :: i + 1 <= m < k ==> DateAt(s, m).None?;
      assert DateAt(s, k) == FindDate(s, i);
    } else {
      assert DateAt(s, i) == FindDate(s, i);
    }
  }

  /** No date is found exactly when no marker is followed by a date. */
  lemma {:induction false} FindDateNone(s: string, i: nat)
    requires i <= |s|
    ensures FindDate(s, i).None? <==> forall k :: i <= k < |s| ==> DateAt(s, k).None?
    decreases |s| - i
  {
    if i < |s| {
      FindDateNone(s, i + 1);
      if DateAt(s, i).None? {
        assert FindDate(s, i) == FindDate(s, i + 1);
        forall k | i <= k < |s| && DateAt(s, k).Some? ensures i + 1 <= k {
        }
      } else {
        assert FindDate(s, i).Some?;
      }
    }
  }

  /** A found date has the shape `YYYY-MM-DD`. */
  lemma AnalysisDateShape(s: string)
    requires AnalysisDateIn(s).Some?
    ensures IsDate(AnalysisDateIn(s).value)
  {
    FindDateFirst(s, 0);
  }

  lemma ExampleDate()
    ensures DateAt("**Analysis Date:** 2024-01-15", 0) == Some("2024-01-15")
  {
    var s := "**Analysis Date:** 2024-01-15";
    assert s[..|ANALYSIS_MARKER|] == ANALYSIS_MARKER;
    assert SkipSpaces(s, 18) == 19 by {
      assert IsSpace(s[18]) && !IsSpace(s[19]);
    }
    assert s[19..29] == "2024-01-15";
  }

  /** The date of one document: `None` when it is missing or has none. */
  function DocDate(docs: string -> Option<string>, name: string): Option<string> {
    match docs(name)
    case None => None
    case Some(content) => AnalysisDateIn(content)
  }

  /** The date of the first of `names` that has one. */
  function FirstDate(docs: string -> Option<string>, names: seq<string>): Option<string>
    decreases |names|
  {
    if names == [] then None
    else if DocDate(docs, names[0]).Some? then DocDate(docs, names[0])
    else FirstDate(docs, names[1..])
  }

  /** The first document with a date wins: the result is that document's date
      and no earlier document has one; there is no date exactly when no
      document has one. */
  lemma {:induction false} FirstDateWins(docs: string -> Option<string>, names: seq<string>)
    ensures FirstDate(docs, names).Some? ==>
      exists k :: 0 <= k < |names| && DocDate(docs, names[k]) == FirstDate(docs, names) &&
        forall j :: 0 <= j < k ==> DocDate(docs, names[j]).None?
    ensures FirstDate(docs, names).None? <==> forall k :: 0 <= k < |names| ==> DocDate(docs, names[k]).None?
    decreases |names|
  {
    if names != [] && DocDate(docs, names[0]).None? {
      FirstDateWins(docs, names[1..]);
      if FirstDate(docs, names).Some? {
        var k :| 0 <= k < |names[1..]| && DocDate(docs, names[1..][k]) == FirstDate(docs, names[1..]) &&
          forall j :: 0 <= j < k ==> DocDate(docs, names[1..][j]).None?;
        assert names[k + 1] == names[1..][k];
        forall j | 0 <= j < k + 1 ensures DocDate(docs, names[j]).None? {
          if j > 0 {
            assert names[j] == names[1..][j - 1];
          }
        }
      }
      forall k | 1 <= k < |names| ensures names[k] == names[1..][k - 1] { }
    }
  }

  /** The loop over the documents, stopping at the first date. */
  method FindAnalysisDate(docs: string -> Option<string>, names: seq<string>) returns (date: Option<string>)
    ensures date == FirstDate(docs, names)
  {
    date := None;
    var i := 0;
    while i < |names|
      invariant i <= |names|
      invariant FirstDate(docs, names) == FirstDate(docs, names[i..])
    {
      assert names[i..][1..] == names[i + 1..];
      var content := docs(names[i]);
      if content.Some? {
        var match_ := AnalysisDateIn(content.value);
        if match_.Some? {
          return match_;
        }
      }
      i := i + 1;
    }
  }

  // ---------------------------------------------------------------------------
  // Git
  // ---------------------------------------------------------------------------

  /** The trimmed outputs of the git commands used: `git log --until=<date>T23:59:59
      --format=%H -1`, `git rev-list --max-parents=0 HEAD`, `git diff --name-only
      <commit>..HEAD` and `git ls-files`; `None` when the command fails. */
  datatype Git = Git(
    logUntil: string -> Option<string>,
    rootCommits: Option<string>,
    diff: string -> Option<string>,
    lsFiles: Option<string>)

  /** The commit the documents describe: the last one on or before the analysis
      date, or else the first root commit; `None` when there is none. */
  function BaseCommit(date: string, git: Git): Option<string> {
    match git.logUntil(date)
    case None => None
    case Some(logged) =>
      if logged != "" then Some(logged)
      else match git.rootCommits
        case None => None
        case Some(roots) =>
          var first := if '\n' in roots then Split(roots, '\n')[0] else roots;
          if first == "" then None else Some(first)
  }

  /** The base commit is never empty; it is the commit logged at the date when
      there is one, and otherwise the first line of the root commits. */
  lemma BaseCommitChoice(date: string, git: Git)
    ensures BaseCommit(date, git).Some? ==> BaseCommit(date, git).value != ""
    ensures git.logUntil(date).Some? && git.logUntil(date).value != "" ==>
      BaseCommit(date, git) == git.logUntil(date)
    ensures git.logUntil(date) == Some("") && BaseCommit(date, git).Some? ==>
      git.rootCommits.Some? && StartsWith(git.rootCommits.value, BaseCommit(date, git).value) &&
      '\n' !in BaseCommit(date, git).value
    ensures git.logUntil(date).None? ==> BaseCommit(date, git).None?
  {
    if git.logUntil(date) == Some("") && git.rootCommits.Some? {
      var roots := git.rootCommits.value;
      if '\n' in roots {
        var i := IndexOfChar(roots, '\n');
        assert Split(roots, '\n')[0] == roots[..i];
      }
    }
  }

  /** `raw ? raw.split('\n').filter(Boolean) : []` */
  function Lines(raw: string): seq<string> {
    if raw == "" then [] else Filter(NonEmpty, Split(raw, '\n'))
  }

  /** The listed paths with a supported source extension. */
  function SourcePaths(raw: string): seq<string> {
    Filter(HasSourceExtension, Lines(raw))
  }

  /** A path is counted exactly when it is a non-empty line of the output and
      has a supported source extension. */
  lemma SourcePathsIff(raw: string, p: string)
    ensures p in SourcePaths(raw) <==>
      (p != "" && p in Split(raw, '\n') && HasSourceExtension(p))
  {
    FilterMembers(HasSourceExtension, Lines(raw), p);
    if raw != "" {
      FilterMembers(NonEmpty, Split(raw, '\n'), p);
    } else {
      assert Split(raw, '\n') == [""];
    }
  }

  /** The number of source files git tracks; 0 when `git ls-files` fails. */
  function TotalFiles(git: Git): nat {
    match git.lsFiles
    case None => 0
    case Some(raw) => |SourcePaths(raw)|
  }

  // ---------------------------------------------------------------------------
  // The verdict
  // ---------------------------------------------------------------------------

  datatype SkipReason = NoAnalysisDate | NoCommitAtDate | GitDiffFailed

  /** `changePct` is kept in hundredths. */
  datatype BrownfieldReport =
    | NoCodebaseDocs
    | Skipped(reason: SkipReason)
    | Measured(docStale: bool, analysisDate: string, changedFiles: nat, totalFiles: nat, changePct: nat)

  /** `changed / total > 0.3`, exactly. */
  predicate MostlyChanged(changed: nat, total: nat) {
    10 * changed > 3 * total
  }

  /** Steps 7 and 8: no source files means not stale with a zero share. */
  function Measure(date: string, changed: nat, total: nat): BrownfieldReport {
    if total == 0 then Measured(false, date, changed, 0, 0)
    else Measured(MostlyChanged(changed, total), date, changed, total, Hundredths(changed, total))
  }

  /** What `detectBrownfieldDocStaleness` reports. */
  function BrownfieldOf(dirExists: bool, docs: string -> Option<string>, git: Git): BrownfieldReport {
    if !dirExists then NoCodebaseDocs
    else match FirstDate(docs, BROWNFIELD_DOCS)
      case None => Skipped(NoAnalysisDate)
      case Some(date) =>
        match BaseCommit(date, git)
        case None => Skipped(NoCommitAtDate)
        case Some(base) =>
          match git.diff(base)
          case None => Skipped(GitDiffFailed)
          case Some(raw) => Measure(date, |SourcePaths(raw)|, TotalFiles(git))
  }

  /** The documents are stale exactly when more than 30% of the source files
      changed; the reported share is then at least 0.30, and otherwise at most
      0.30, or 0 when there are no source files. */
  lemma MeasureVerdict(date: string, changed: nat, total: nat)
    ensures var r := Measure(date, changed, total);
      r.Measured? && r.analysisDate == date && r.changedFiles == changed && r.totalFiles == total &&
      (r.docStale <==> total > 0 && MostlyChanged(changed, total)) &&
      (r.docStale ==> r.changePct >= 30) &&
      (!r.docStale ==> r.changePct <= 30) &&
      (total == 0 ==> r.changePct == 0)
  {
    if total > 0 {
      if MostlyChanged(changed, total) {
        HundredthsAbove30(changed, total);
      } else {
        HundredthsAtMost30(changed, total);
      }
    }
  }

  /** More changed source files than tracked ones (deleted or renamed files
      count) give a share above 1. */
  lemma ChangedMayExceedTotal()
    ensures Measure("2024-01-15", 5, 2) == Measured(true, "2024-01-15", 5, 2, 250)
  {
    HundredthsRounds(5, 2);
  }

  /** Which step ends the check: no codebase documents, no date in any of
      them, no base commit, a failed diff, or a measurement. */
  lemma BrownfieldSteps(dirExists: bool, docs: string -> Option<string>, git: Git)
    ensures var r := BrownfieldOf(dirExists, docs, git);
      var date := FirstDate(docs, BROWNFIELD_DOCS);
      (r.NoCodebaseDocs? <==> !dirExists) &&
      (r == Skipped(NoAnalysisDate) <==> dirExists && date.None?) &&
      (r == Skipped(NoCommitAtDate) <==> dirExists && date.Some? && BaseCommit(date.value, git).None?) &&
      (r == Skipped(GitDiffFailed) <==>
         dirExists && date.Some? && BaseCommit(date.value, git).Some? &&
         git.diff(BaseCommit(date.value, git).value).None?) &&
      (r.Measured? ==> r.analysisDate == date.value && r.totalFiles == TotalFiles(git))
  {
  }

  // ---------------------------------------------------------------------------
  // detectBrownfieldDocStaleness
  // ---------------------------------------------------------------------------

  method DetectBrownfieldDocStaleness(dirExists: bool, docs: string -> Option<string>, git: Git)
    returns (r: BrownfieldReport)
    ensures r == BrownfieldOf(dirExists, docs, git)
  {
    if !dirExists {
      return NoCodebaseDocs;
    }
    var analysisDate := FindAnalysisDate(docs, BROWNFIELD_DOCS);
    if analysisDate.None? {
      return Skipped(NoAnalysisDate);
    }
    var date := analysisDate.value;
    var logged := git.logUntil(date);
    if logged.None? {
      return Skipped(NoCommitAtDate);
    }
    var baseCommit := logged.value;
    if baseCommit == "" {
      if git.rootCommits.None? {
        return Skipped(NoCommitAtDate);
      }
      baseCommit := git.rootCommits.value;
      if '\n' in baseCommit {
        baseCommit := Split(baseCommit, '\n')[0];
      }
      if baseCommit == "" {
        return Skipped(NoCommitAtDate);
      }
    }
    var changedRaw := git.diff(baseCommit);
    if changedRaw.None? {
      return Skipped(GitDiffFailed);
    }
    var sourceChanged := SourcePaths(changedRaw.value);
    var totalFiles := TotalFiles(git);
    if totalFiles == 0 {
      return Measured(false, date, |sourceChanged|, 0, 0);
    }
    return Measured(10 * |sourceChanged| > 3 * totalFiles, date, |sourceChanged|, totalFiles,
                    Hundredths(|sourceChanged|, totalFiles));
  }
}
