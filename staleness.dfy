/**
 * The staleness check of a stored index: which indexed files changed since
 * the commit they were indexed at. Git is consulted through two oracles:
 * `valid(commit)` says whether the commit still exists, and `diff(commit)` is
 * the trimmed output of `git diff --name-only <commit>..HEAD`, or `None` when
 * that command fails.
 */
module Staleness {
  import opened Strings
  import opened Dicts
  import opened Extract
  import opened Exports
  import opened Ratios

  // ---------------------------------------------------------------------------
  // The stored index and the report
  // ---------------------------------------------------------------------------

  /** An index entry; `lastIndexed` is "" when the entry has none. */
  datatype Entry = Entry(lastIndexed: string)

  /** A parsed `index.json`; `commitHash` is "" when it has none. */
  datatype StoredIndex = StoredIndex(commitHash: string, files: Dict<string, Entry>)

  /** `stalePct` is kept in hundredths. */
  datatype StaleReport = StaleReport(
    staleFiles: seq<string>,
    freshFiles: seq<string>,
    totalIndexed: nat,
    staleCount: nat,
    stalePct: nat,
    oldestStaleCommit: Option<string>,
    hasDocBasedEntries: bool)

  /** The report for a missing or unparsable index. */
  const EMPTY_REPORT: StaleReport := StaleReport([], [], 0, 0, 0, None, false)

  // ---------------------------------------------------------------------------
  // Grouping by commit
  // ---------------------------------------------------------------------------

  /** `(entry && entry.lastIndexed) || topCommit` */
  function CommitOf(e: Entry, top: string): string {
    if e.lastIndexed != "" then e.lastIndexed else top
  }

  /** A path with a commit to compare against: no wildcard, and a commit of
      its own or the index's. */
  predicate Tracked(files: Dict<string, Entry>, top: string, p: string)
    requires p in files.vals
  {
    '*' !in p && CommitOf(files.vals[p], top) != ""
  }

  /** `byCommit` after the paths `paths` of the index. */
  function ByCommit(files: Dict<string, Entry>, top: string, paths: seq<string>): (g: Dict<string, seq<string>>)
    requires forall i :: 0 <= i < |paths| ==> paths[i] in files.vals
    ensures Valid(g)
  {
    if paths == [] then Empty()
    else
      var g := ByCommit(files, top, paths[..|paths| - 1]);
      var p := paths[|paths| - 1];
      if !Tracked(files, top, p) then g
      else
        var c := CommitOf(files.vals[p], top);
        Put(g, c, Get(g, c, []) + [p])
  }

  /** `docBasedCount` after the paths `paths`: the paths without a wildcard
      and without a commit of their own. */
  function DocBasedCount(files: Dict<string, Entry>, paths: seq<string>): nat
    requires forall i :: 0 <= i < |paths| ==> paths[i] in files.vals
  {
    if paths == [] then 0
    else
      var p := paths[|paths| - 1];
      DocBasedCount(files, paths[..|paths| - 1]) + (if '*' !in p && files.vals[p].lastIndexed == "" then 1 else 0)
  }

  lemma ByCommitSnoc(files: Dict<string, Entry>, top: string, paths: seq<string>, i: nat)
    requires forall j :: 0 <= j < |paths| ==> paths[j] in files.vals
    requires i < |paths|
    ensures var g := ByCommit(files, top, paths[..i]);
      var c := CommitOf(files.vals[paths[i]], top);
      ByCommit(files, top, paths[..i + 1]) ==
        if !Tracked(files, top, paths[i]) then g else Put(g, c, Get(g, c, []) + [paths[i]])
  {
    assert paths[..i + 1][..i] == paths[..i];
  }

  /** A path is in the group of commit `c` exactly when it is one of `paths`,
      is tracked, and `c` is its commit. */
  lemma {:induction false} ByCommitMembers(files: Dict<string, Entry>, top: string, paths: seq<string>, c: string, p: string)
    requires forall i :: 0 <= i < |paths| ==> paths[i] in files.vals
    ensures p in Get(ByCommit(files, top, paths), c, []) <==>
      p in paths && Tracked(files, top, p) && CommitOf(files.vals[p], top) == c
    decreases |paths|
  {
    if paths != [] {
      var n := |paths| - 1;
      ByCommitMembers(files, top, paths[..n], c, p);
      ByCommitSnoc(files, top, paths, n);
      assert paths[..n + 1] == paths;
      assert paths == paths[..n] + [paths[n]];
    }
  }

  /** No group is empty. */
  lemma {:induction false} ByCommitNonEmpty(files: Dict<string, Entry>, top: string, paths: seq<string>, c: string)
    requires forall i :: 0 <= i < |paths| ==> paths[i] in files.vals
    requires c in ByCommit(files, top, paths).vals
    ensures ByCommit(files, top, paths).vals[c] != []
    decreases |paths|
  {
    var n := |paths| - 1;
    ByCommitSnoc(files, top, paths, n);
    assert paths[..n + 1] == paths;
    var g := ByCommit(files, top, paths[..n]);
    if c in g.vals {
      ByCommitNonEmpty(files, top, paths[..n], c);
    }
  }

  lemma ByCommitAllNonEmpty(files: Dict<string, Entry>, top: string)
    requires Valid(files)
    ensures forall c :: c in ByCommit(files, top, files.keys).vals ==> ByCommit(files, top, files.keys).vals[c] != []
  {
    forall c | c in ByCommit(files, top, files.keys).vals
      ensures ByCommit(files, top, files.keys).vals[c] != []
    {
      ByCommitNonEmpty(files, top, files.keys, c);
    }
  }

  // ---------------------------------------------------------------------------
  // Judging one group
  // ---------------------------------------------------------------------------

  /** What git says about the files of a commit's group. */
  datatype Change = Unknown | Unchanged | Changed(paths: seq<string>)

  /** `Unknown` when the commit is gone or the diff fails, `Unchanged` when the
      diff is empty, otherwise the non-empty lines of the diff. */
  function ChangeSince(commit: string, valid: string -> bool, diff: string -> Option<string>): Change {
    if !valid(commit) then Unknown
    else match diff(commit)
      case None => Unknown
      case Some(raw) => if raw == "" then Unchanged else Changed(Filter(NonEmpty, Split(raw, '\n')))
  }

  predicate IsStale(ch: Change, p: string) {
    ch.Unknown? || (ch.Changed? && p in ch.paths)
  }

  function StaleUnder(ch: Change): string -> bool {
    p => IsStale(ch, p)
  }

  function FreshUnder(ch: Change): string -> bool {
    p => !IsStale(ch, p)
  }

  /** The stale and the fresh paths of one group, in group order. */
  function StaleIn(ch: Change, group: seq<string>): seq<string> {
    Filter(StaleUnder(ch), group)
  }

  function FreshIn(ch: Change, group: seq<string>): seq<string> {
    Filter(FreshUnder(ch), group)
  }

  lemma {:induction false} FilterAll(keep: string -> bool, xs: seq<string>)
    requires forall i :: 0 <= i < |xs| ==> keep(xs[i])
    ensures Filter(keep, xs) == xs
    decreases |xs|
  {
    if xs != [] {
      FilterAll(keep, xs[..|xs| - 1]);
      InitLast(xs);
    }
  }

  lemma {:induction false} FilterNone(keep: string -> bool, xs: seq<string>)
    requires forall i :: 0 <= i < |xs| ==> !keep(xs[i])
    ensures Filter(keep, xs) == []
    decreases |xs|
  {
    if xs != [] {
      FilterNone(keep, xs[..|xs| - 1]);
    }
  }

  // ---------------------------------------------------------------------------
  // Over all groups
  // ---------------------------------------------------------------------------

  /** Git's answer for every commit. */
  function ChangesFrom(valid: string -> bool, diff: string -> Option<string>): string -> Change {
    c => ChangeSince(c, valid, diff)
  }

  /** `staleFiles` before sorting, after the groups of `commits`. */
  function StaleOver(groups: Dict<string, seq<string>>, commits: seq<string>, changeOf: string -> Change): seq<string>
    requires forall i :: 0 <= i < |commits| ==> commits[i] in groups.vals
  {
    if commits == [] then []
    else
      var c := commits[|commits| - 1];
      StaleOver(groups, commits[..|commits| - 1], changeOf) + StaleIn(changeOf(c), groups.vals[c])
  }

  /** `freshFiles` before sorting, after the groups of `commits`. */
  function FreshOver(groups: Dict<string, seq<string>>, commits: seq<string>, changeOf: string -> Change): seq<string>
    requires forall i :: 0 <= i < |commits| ==> commits[i] in groups.vals
  {
    if commits == [] then []
    else
      var c := commits[|commits| - 1];
      FreshOver(groups, commits[..|commits| - 1], changeOf) + FreshIn(changeOf(c), groups.vals[c])
  }

  /** `oldestStaleCommit` after the groups of `commits`: the first commit whose
      group has a stale path. */
  function OldestOver(groups: Dict<string, seq<string>>, commits: seq<string>, changeOf: string -> Change): Option<string>
    requires forall i :: 0 <= i < |commits| ==> commits[i] in groups.vals
  {
    if commits == [] then None
    else
      var c := commits[|commits| - 1];
      var earlier := OldestOver(groups, commits[..|commits| - 1], changeOf);
      if earlier.Some? then earlier
      else if StaleIn(changeOf(c), groups.vals[c]) != [] then Some(c)
      else None
  }

  /** Some group of `commits` holds `p`, and the change of that group's commit
      satisfies `judge` for `p`. */
  predicate HeldBy(groups: Dict<string, seq<string>>, commits: seq<string>, changeOf: string -> Change,
                   judge: (Change, string) -> bool, p: string)
    requires forall i :: 0 <= i < |commits| ==> commits[i] in groups.vals
  {
    exists i :: 0 <= i < |commits| && p in groups.vals[commits[i]] && judge(changeOf(commits[i]), p)
  }

  function StaleJudge(): (Change, string) -> bool {
    (ch, p) => IsStale(ch, p)
  }

  function FreshJudge(): (Change, string) -> bool {
    (ch, p) => !IsStale(ch, p)
  }

  lemma HeldBySnoc(groups: Dict<string, seq<string>>, commits: seq<string>, changeOf: string -> Change,
                   judge: (Change, string) -> bool, p: string)
    requires forall i :: 0 <= i < |commits| ==> commits[i] in groups.vals
    requires commits != []
    ensures var n := |commits| - 1;
      HeldBy(groups, commits, changeOf, judge, p) <==>
        HeldBy(groups, commits[..n], changeOf, judge, p) ||
        (p in groups.vals[commits[n]] && judge(changeOf(commits[n]), p))
  {
    var n := |commits| - 1;
    forall i | 0 <= i < n ensures commits[..n][i] == commits[i] { }
  }

  /** A path is among the stale paths exactly when some group of `commits`
      holds it and its commit's change marks it stale. */
  lemma {:induction false} StaleOverMembers(groups: Dict<string, seq<string>>, commits: seq<string>,
                                            changeOf: string -> Change, p: string)
    requires forall i :: 0 <= i < |commits| ==> commits[i] in groups.vals
    ensures p in StaleOver(groups, commits, changeOf) <==> HeldBy(groups, commits, changeOf, StaleJudge(), p)
    decreases |commits|
  {
    if commits != [] {
      var n := |commits| - 1;
      var c := commits[n];
      StaleOverMembers(groups, commits[..n], changeOf, p);
      FilterMembers(StaleUnder(changeOf(c)), groups.vals[c], p);
      HeldBySnoc(groups, commits, changeOf, StaleJudge(), p);
    }
  }

  /** A path is among the fresh paths exactly when some group of `commits`
      holds it and its commit's change does not mark it stale. */
  lemma {:induction false} FreshOverMembers(groups: Dict<string, seq<string>>, commits: seq<string>,
                                            changeOf: string -> Change, p: string)
    requires forall i :: 0 <= i < |commits| ==> commits[i] in groups.vals
    ensures p in FreshOver(groups, commits, changeOf) <==> HeldBy(groups, commits, changeOf, FreshJudge(), p)
    decreases |commits|
  {
    if commits != [] {
      var n := |commits| - 1;
      var c := commits[n];
      FreshOverMembers(groups, commits[..n], changeOf, p);
      FilterMembers(FreshUnder(changeOf(c)), groups.vals[c], p);
      HeldBySnoc(groups, commits, changeOf, FreshJudge(), p);
    }
  }

  /** There is an oldest stale commit exactly when some path is stale. */
  lemma {:induction false} OldestIffStale(groups: Dict<string, seq<string>>, commits: seq<string>, changeOf: string -> Change)
    requires forall i :: 0 <= i < |commits| ==> commits[i] in groups.vals
    ensures OldestOver(groups, commits, changeOf).Some? <==> StaleOver(groups, commits, changeOf) != []
    decreases |commits|
  {
    if commits != [] {
      OldestIffStale(groups, commits[..|commits| - 1], changeOf);
    }
  }

  /** The group of commit `c` has a stale path. */
  predicate HasStale(groups: Dict<string, seq<string>>, changeOf: string -> Change, c: string)
    requires c in groups.vals
  {
    StaleIn(changeOf(c), groups.vals[c]) != []
  }

  /** The oldest stale commit is the first commit, in group order, whose
      group has a stale path: not the earliest in history. */
  lemma {:induction false} OldestIsFirst(groups: Dict<string, seq<string>>, commits: seq<string>, changeOf: string -> Change)
    requires forall i :: 0 <= i < |commits| ==> commits[i] in groups.vals
    requires OldestOver(groups, commits, changeOf).Some?
    ensures exists i :: (0 <= i < |commits| && commits[i] == OldestOver(groups, commits, changeOf).value &&
      HasStale(groups, changeOf, commits[i]) &&
      forall j :: 0 <= j < i ==> !HasStale(groups, changeOf, commits[j]))
    decreases |commits|
  {
    var n := |commits| - 1;
    var init := commits[..n];
    var earlier := OldestOver(groups, init, changeOf);
    if earlier.Some? {
      OldestIsFirst(groups, init, changeOf);
      var i :| 0 <= i < |init| && init[i] == earlier.value && HasStale(groups, changeOf, init[i]) &&
        forall j :: 0 <= j < i ==> !HasStale(groups, changeOf, init[j]);
      assert commits[i] == init[i];
      forall j | 0 <= j < i ensures !HasStale(groups, changeOf, commits[j]) {
        assert commits[j] == init[j];
      }
    } else {
      forall j | 0 <= j < n ensures !HasStale(groups, changeOf, commits[j]) {
        NoOldestNoStale(groups, init, changeOf, j);
        assert commits[j] == init[j];
      }
    }
  }

  lemma {:induction false} NoOldestNoStale(groups: Dict<string, seq<string>>, commits: seq<string>, changeOf: string -> Change, j: nat)
    requires forall i :: 0 <= i < |commits| ==> commits[i] in groups.vals
    requires OldestOver(groups, commits, changeOf).None? && j < |commits|
    ensures !HasStale(groups, changeOf, commits[j])
    decreases |commits|
  {
    var n := |commits| - 1;
    if j < n {
      NoOldestNoStale(groups, commits[..n], changeOf, j);
      assert commits[..n][j] == commits[j];
    }
  }

  // ---------------------------------------------------------------------------
  // The report
  // ---------------------------------------------------------------------------

  /** The report for a parsed index, given git's answer for every commit;
      `hasDocDir` says whether the project holds doc-based intelligence. */
  function ReportFor(ix: StoredIndex, hasDocDir: bool, changeOf: string -> Change): StaleReport
    requires Valid(ix.files)
  {
    var groups := ByCommit(ix.files, ix.commitHash, ix.files.keys);
    Summary(StaleOver(groups, groups.keys, changeOf), FreshOver(groups, groups.keys, changeOf),
            OldestOver(groups, groups.keys, changeOf),
            hasDocDir && DocBasedCount(ix.files, ix.files.keys) > 0)
  }

  /** The report on the judged files: both lists sorted, their total, and
      the stale share in hundredths of a percent. */
  function Summary(stale: seq<string>, freshes: seq<string>, oldest: Option<string>, hasDocBased: bool): StaleReport {
    var total := |stale| + |freshes|;
    StaleReport(Sort(stale), Sort(freshes), total, |stale|,
                if total > 0 then Hundredths(|stale|, total) else 0,
                oldest, hasDocBased)
  }

  /** What `detectStaleFiles` reports. */
  function ReportOf(index: Option<StoredIndex>, hasDocDir: bool,
                    valid: string -> bool, diff: string -> Option<string>): StaleReport
    requires index.Some? ==> Valid(index.value.files)
  {
    match index
    case None => EMPTY_REPORT
    case Some(ix) => ReportFor(ix, hasDocDir, ChangesFrom(valid, diff))
  }

  /** A path lies in some group and passes `judge` there exactly when it is
      indexed, tracked, and passes `judge` for its own commit. */
  lemma GroupedIff(files: Dict<string, Entry>, top: string, changeOf: string -> Change,
                   judge: (Change, string) -> bool, p: string)
    requires Valid(files)
    ensures var groups := ByCommit(files, top, files.keys);
      HeldBy(groups, groups.keys, changeOf, judge, p) <==>
        (p in files.vals && Tracked(files, top, p) && judge(changeOf(CommitOf(files.vals[p], top)), p))
  {
    var groups := ByCommit(files, top, files.keys);
    if HeldBy(groups, groups.keys, changeOf, judge, p) {
      var i :| 0 <= i < |groups.keys| && p in groups.vals[groups.keys[i]] && judge(changeOf(groups.keys[i]), p);
      ByCommitMembers(files, top, files.keys, groups.keys[i], p);
    }
    if p in files.vals && Tracked(files, top, p) {
      var c := CommitOf(files.vals[p], top);
      ByCommitMembers(files, top, files.keys, c, p);
      assert c in groups.vals;
      var i :| 0 <= i < |groups.keys| && groups.keys[i] == c;
      assert p in groups.vals[groups.keys[i]];
    }
  }

  lemma SortedMembers(xs: seq<string>, p: string)
    ensures p in Sort(xs) <==> p in xs
  {
    assert p in Sort(xs) <==> p in multiset(Sort(xs));
  }

  /** A path is listed as stale exactly when it is indexed, has no wildcard, has
      a commit (its own or the index's), and the change since that commit
      marks it stale. */
  lemma ReportStale(ix: StoredIndex, hasDocDir: bool, changeOf: string -> Change, p: string)
    requires Valid(ix.files)
    ensures p in ReportFor(ix, hasDocDir, changeOf).staleFiles <==>
      (p in ix.files.vals && Tracked(ix.files, ix.commitHash, p) &&
       IsStale(changeOf(CommitOf(ix.files.vals[p], ix.commitHash)), p))
  {
    var groups := ByCommit(ix.files, ix.commitHash, ix.files.keys);
    SortedMembers(StaleOver(groups, groups.keys, changeOf), p);
    StaleOverMembers(groups, groups.keys, changeOf, p);
    GroupedIff(ix.files, ix.commitHash, changeOf, StaleJudge(), p);
  }

  /** A path is listed as fresh exactly when it is indexed and tracked and the
      change since its commit does not mark it stale; so the two lists are
      disjoint and together hold every tracked path. */
  lemma ReportFresh(ix: StoredIndex, hasDocDir: bool, changeOf: string -> Change, p: string)
    requires Valid(ix.files)
    ensures p in ReportFor(ix, hasDocDir, changeOf).freshFiles <==>
      (p in ix.files.vals && Tracked(ix.files, ix.commitHash, p) &&
       !IsStale(changeOf(CommitOf(ix.files.vals[p], ix.commitHash)), p))
  {
    var groups := ByCommit(ix.files, ix.commitHash, ix.files.keys);
    SortedMembers(FreshOver(groups, groups.keys, changeOf), p);
    FreshOverMembers(groups, groups.keys, changeOf, p);
    GroupedIff(ix.files, ix.commitHash, changeOf, FreshJudge(), p);
  }

  /** Both lists are sorted, the counts agree with them, and there is an
      oldest stale commit exactly when something is stale. */
  lemma ReportCounts(ix: StoredIndex, hasDocDir: bool, changeOf: string -> Change)
    requires Valid(ix.files)
    ensures var r := ReportFor(ix, hasDocDir, changeOf);
      Sorted(r.staleFiles) && Sorted(r.freshFiles) &&
      r.staleCount == |r.staleFiles| && r.totalIndexed == |r.staleFiles| + |r.freshFiles| &&
      (r.oldestStaleCommit.Some? <==> r.staleCount > 0)
  {
    var groups := ByCommit(ix.files, ix.commitHash, ix.files.keys);
    var stale := StaleOver(groups, groups.keys, changeOf);
    var freshes := FreshOver(groups, groups.keys, changeOf);
    assert |Sort(stale)| == |stale| by {
      assert |multiset(Sort(stale))| == |multiset(stale)|;
    }
    assert |Sort(freshes)| == |freshes| by {
      assert |multiset(Sort(freshes))| == |multiset(freshes)|;
    }
    OldestIffStale(groups, groups.keys, changeOf);
  }

  /** The stale percentage is at most 100 (in hundredths of a percent point:
      at most 1.0 as a share), and 0 for an index with nothing tracked. */
  lemma ReportPercentage(ix: StoredIndex, hasDocDir: bool, changeOf: string -> Change)
    requires Valid(ix.files)
    ensures var r := ReportFor(ix, hasDocDir, changeOf);
      r.stalePct <= 100 && (r.totalIndexed == 0 ==> r.stalePct == 0) &&
      (r.totalIndexed > 0 ==> r.stalePct == Hundredths(r.staleCount, r.totalIndexed))
  {
    var groups := ByCommit(ix.files, ix.commitHash, ix.files.keys);
    SummaryPercentage(StaleOver(groups, groups.keys, changeOf), FreshOver(groups, groups.keys, changeOf),
                      OldestOver(groups, groups.keys, changeOf),
                      hasDocDir && DocBasedCount(ix.files, ix.files.keys) > 0);
  }

  lemma SummaryPercentage(stale: seq<string>, freshes: seq<string>, oldest: Option<string>, hasDocBased: bool)
    ensures var r := Summary(stale, freshes, oldest, hasDocBased);
      r.stalePct <= 100 && (r.totalIndexed == 0 ==> r.stalePct == 0) &&
      (r.totalIndexed > 0 ==> r.stalePct == Hundredths(r.staleCount, r.totalIndexed))
  {
    if |stale| + |freshes| > 0 {
      HundredthsAtMost100(|stale|, |stale| + |freshes|);
    }
  }

  /** The index has doc-based entries exactly when the codebase directory
      exists and some wildcard-free path has no commit of its own. */
  lemma ReportDocBased(ix: StoredIndex, hasDocDir: bool, changeOf: string -> Change)
    requires Valid(ix.files)
    ensures ReportFor(ix, hasDocDir, changeOf).hasDocBasedEntries <==>
      (hasDocDir && exists i :: 0 <= i < |ix.files.keys| && '*' !in ix.files.keys[i] &&
                               ix.files.vals[ix.files.keys[i]].lastIndexed == "")
  {
    DocBasedCountIff(ix.files, ix.files.keys);
  }

  lemma {:induction false} DocBasedCountIff(files: Dict<string, Entry>, paths: seq<string>)
    requires forall i :: 0 <= i < |paths| ==> paths[i] in files.vals
    ensures DocBasedCount(files, paths) > 0 <==>
      exists i :: 0 <= i < |paths| && '*' !in paths[i] && files.vals[paths[i]].lastIndexed == ""
    decreases |paths|
  {
    if paths != [] {
      var n := |paths| - 1;
      DocBasedCountIff(files, paths[..n]);
      forall i | 0 <= i < n ensures paths[..n][i] == paths[i] { }
    }
  }

  /** A commit that no longer exists makes every path of its group stale. */
  lemma InvalidCommitAllStale(valid: string -> bool, diff: string -> Option<string>, c: string, p: string)
    requires !valid(c)
    ensures IsStale(ChangesFrom(valid, diff)(c), p)
  {
  }

  /** An empty diff makes every path of the group fresh; a non-empty diff
      marks exactly the paths it lists on a line of their own. */
  lemma DiffLines(valid: string -> bool, diff: string -> Option<string>, c: string, p: string)
    requires valid(c) && diff(c).Some?
    ensures diff(c).value == "" ==> !IsStale(ChangesFrom(valid, diff)(c), p)
    ensures diff(c).value != "" ==>
      (IsStale(ChangesFrom(valid, diff)(c), p) <==> p != "" && p in Split(diff(c).value, '\n'))
  {
    FilterMembers(NonEmpty, Split(diff(c).value, '\n'), p);
  }

  // ---------------------------------------------------------------------------
  // detectStaleFiles
  // ---------------------------------------------------------------------------

  /** One iteration of the grouping loop. */
  method GroupStep(files: Dict<string, Entry>, top: string, i: nat,
                   byCommit: Dict<string, seq<string>>, docBased: nat)
    returns (byCommit': Dict<string, seq<string>>, docBased': nat)
    requires Valid(files) && i < |files.keys|
    requires byCommit == ByCommit(files, top, files.keys[..i])
    requires docBased == DocBasedCount(files, files.keys[..i])
    ensures byCommit' == ByCommit(files, top, files.keys[..i + 1])
    ensures docBased' == DocBasedCount(files, files.keys[..i + 1])
  {
    var keys := files.keys;
    ByCommitSnoc(files, top, keys, i);
    assert keys[..i + 1][..i] == keys[..i];
    var filePath := keys[i];
    var entry := files.vals[filePath];
    byCommit', docBased' := byCommit, docBased;
    if '*' in filePath {
      return;
    }
    var commit := if entry.lastIndexed != "" then entry.lastIndexed else top;
    if commit == "" {
      docBased' := docBased' + 1;
      return;
    }
    if entry.lastIndexed == "" {
      docBased' := docBased' + 1;
    }
    if commit !in byCommit'.vals {
      byCommit' := Put(byCommit', commit, []);
      PutTwice(byCommit, commit, [], [filePath]);
      assert [] + [filePath] == [filePath];
    }
    byCommit' := Put(byCommit', commit, byCommit'.vals[commit] + [filePath]);
  }

  /** The grouping loop: `byCommit` and `docBasedCount`. */
  method GroupByCommit(files: Dict<string, Entry>, top: string)
    returns (byCommit: Dict<string, seq<string>>, docBased: nat)
    requires Valid(files)
    ensures byCommit == ByCommit(files, top, files.keys)
    ensures docBased == DocBasedCount(files, files.keys)
    ensures forall c :: c in byCommit.vals ==> byCommit.vals[c] != []
  {
    byCommit, docBased := Empty(), 0;
    for i := 0 to |files.keys|
      invariant byCommit == ByCommit(files, top, files.keys[..i])
      invariant docBased == DocBasedCount(files, files.keys[..i])
    {
      byCommit, docBased := GroupStep(files, top, i, byCommit, docBased);
    }
    TakeAll(files.keys);
    ByCommitAllNonEmpty(files, top);
  }

  /** The loop over one group's paths when the diff lists changed files. */
  method SplitGroup(changed: seq<string>, group: seq<string>, stale0: seq<string>, fresh0: seq<string>)
    returns (stale: seq<string>, freshes: seq<string>)
    ensures stale == stale0 + StaleIn(Changed(changed), group)
    ensures freshes == fresh0 + FreshIn(Changed(changed), group)
  {
    var ch := Changed(changed);
    stale, freshes := stale0, fresh0;
    for i := 0 to |group|
      invariant stale == stale0 + StaleIn(ch, group[..i])
      invariant freshes == fresh0 + FreshIn(ch, group[..i])
    {
      FilterSnoc(StaleUnder(ch), group, i);
      FilterSnoc(FreshUnder(ch), group, i);
      if group[i] in changed {
        stale := stale + [group[i]];
      } else {
        freshes := freshes + [group[i]];
      }
    }
    TakeAll(group);
  }

  lemma OverSnoc(groups: Dict<string, seq<string>>, commits: seq<string>, changeOf: string -> Change, i: nat)
    requires forall j :: 0 <= j < |commits| ==> commits[j] in groups.vals
    requires i < |commits|
    ensures var ch := changeOf(commits[i]);
      var g := groups.vals[commits[i]];
      StaleOver(groups, commits[..i + 1], changeOf) == StaleOver(groups, commits[..i], changeOf) + StaleIn(ch, g) &&
      FreshOver(groups, commits[..i + 1], changeOf) == FreshOver(groups, commits[..i], changeOf) + FreshIn(ch, g) &&
      OldestOver(groups, commits[..i + 1], changeOf) ==
        (var earlier := OldestOver(groups, commits[..i], changeOf);
         if earlier.Some? then earlier else if StaleIn(ch, g) != [] then Some(commits[i]) else None)
  {
    assert commits[..i + 1][..i] == commits[..i];
  }

  /** The whole group goes to one list. */
  lemma WholeGroup(ch: Change, group: seq<string>)
    ensures ch.Unknown? ==> StaleIn(ch, group) == group && FreshIn(ch, group) == []
    ensures ch.Unchanged? ==> StaleIn(ch, group) == [] && FreshIn(ch, group) == group
  {
    if ch.Unknown? {
      FilterAll(StaleUnder(ch), group);
      FilterNone(FreshUnder(ch), group);
    } else if ch.Unchanged? {
      FilterNone(StaleUnder(ch), group);
      FilterAll(FreshUnder(ch), group);
    }
  }

  /** One iteration of the loop over `Object.entries(byCommit)`. */
  method JudgeGroup(groups: Dict<string, seq<string>>, i: nat,
                    valid: string -> bool, diff: string -> Option<string>,
                    stale0: seq<string>, fresh0: seq<string>, oldest0: Option<string>)
    returns (stale: seq<string>, freshes: seq<string>, oldest: Option<string>)
    requires Valid(groups) && i < |groups.keys|
    requires groups.vals[groups.keys[i]] != []
    requires stale0 == StaleOver(groups, groups.keys[..i], ChangesFrom(valid, diff))
    requires fresh0 == FreshOver(groups, groups.keys[..i], ChangesFrom(valid, diff))
    requires oldest0 == OldestOver(groups, groups.keys[..i], ChangesFrom(valid, diff))
    ensures stale == StaleOver(groups, groups.keys[..i + 1], ChangesFrom(valid, diff))
    ensures freshes == FreshOver(groups, groups.keys[..i + 1], ChangesFrom(valid, diff))
    ensures oldest == OldestOver(groups, groups.keys[..i + 1], ChangesFrom(valid, diff))
  {
    var commit := groups.keys[i];
    var indexedPaths := groups.vals[commit];
    var ch := ChangeSince(commit, valid, diff);
    assert ChangesFrom(valid, diff)(commit) == ch;
    OverSnoc(groups, groups.keys, ChangesFrom(valid, diff), i);
    WholeGroup(ch, indexedPaths);
    stale, freshes, oldest := stale0, fresh0, oldest0;
    if !valid(commit) {
      stale := stale + indexedPaths;
      oldest := if oldest.Some? then oldest else Some(commit);
      return;
    }
    var changedRaw := diff(commit);
    if changedRaw.None? {
      stale := stale + indexedPaths;
      oldest := if oldest.Some? then oldest else Some(commit);
      return;
    }
    if changedRaw.value == "" {
      freshes := freshes + indexedPaths;
      return;
    }
    var changed := Filter(NonEmpty, Split(changedRaw.value, '\n'));
    stale, freshes := SplitGroup(changed, indexedPaths, stale, freshes);
    if oldest.None? && |stale| > |stale0| {
      oldest := Some(commit);
    }
  }

  /** The loop over `Object.entries(byCommit)`. */
  method JudgeGroups(byCommit: Dict<string, seq<string>>, valid: string -> bool, diff: string -> Option<string>)
    returns (staleFiles: seq<string>, freshFiles: seq<string>, oldestStaleCommit: Option<string>)
    requires Valid(byCommit)
    requires forall c :: c in byCommit.vals ==> byCommit.vals[c] != []
    ensures staleFiles == StaleOver(byCommit, byCommit.keys, ChangesFrom(valid, diff))
    ensures freshFiles == FreshOver(byCommit, byCommit.keys, ChangesFrom(valid, diff))
    ensures oldestStaleCommit == OldestOver(byCommit, byCommit.keys, ChangesFrom(valid, diff))
  {
    ghost var changeOf := ChangesFrom(valid, diff);
    staleFiles, freshFiles, oldestStaleCommit := [], [], None;
    for i := 0 to |byCommit.keys|
      invariant staleFiles == StaleOver(byCommit, byCommit.keys[..i], changeOf)
      invariant freshFiles == FreshOver(byCommit, byCommit.keys[..i], changeOf)
      invariant oldestStaleCommit == OldestOver(byCommit, byCommit.keys[..i], changeOf)
    {
      staleFiles, freshFiles, oldestStaleCommit :=
        JudgeGroup(byCommit, i, valid, diff, staleFiles, freshFiles, oldestStaleCommit);
    }
    TakeAll(byCommit.keys);
  }

  /** `detectStaleFiles`; `index` is `None` when `index.json` is missing or
      does not parse. */
  method DetectStaleFiles(index: Option<StoredIndex>, hasDocDir: bool,
                          valid: string -> bool, diff: string -> Option<string>)
    returns (r: StaleReport)
    requires index.Some? ==> Valid(index.value.files)
    ensures r == ReportOf(index, hasDocDir, valid, diff)
    ensures index.None? ==>
      r.staleFiles == [] && r.freshFiles == [] && r.totalIndexed == 0 && r.staleCount == 0 &&
      r.stalePct == 0 && r.oldestStaleCommit.None? && !r.hasDocBasedEntries
  {
    if index.None? {
      return EMPTY_REPORT;
    }
    var ix := index.value;
    var byCommit, docBasedCount := GroupByCommit(ix.files, ix.commitHash);
    var hasDocBasedEntries := hasDocDir && docBasedCount > 0;
    var staleFiles, freshFiles, oldestStaleCommit := JudgeGroups(byCommit, valid, diff);
    r := Summary(staleFiles, freshFiles, oldestStaleCommit, hasDocBasedEntries);
  }
}
