/**
 * What the scanner infers about directories and file names: the purpose of a
 * directory, from the suffixes of its files or from its own name, and how
 * often each well-known file suffix occurs.
 */
module Directories {
  import opened Strings
  import opened Dicts
  import opened Paths
  import opened Extract
  import opened Exports
  import opened IndexStore

  // ---------------------------------------------------------------------------
  // Tables
  // ---------------------------------------------------------------------------

  /** `SUFFIX_PURPOSES`, in its insertion order: a suffix and what files ending
      in it are. */
  const SUFFIX_TABLE: seq<(string, string)> := [
    (".test.ts", "test files"),
    (".test.tsx", "test files"),
    (".test.js", "test files"),
    (".test.jsx", "test files"),
    (".spec.ts", "test files"),
    (".spec.tsx", "test files"),
    (".spec.js", "test files"),
    (".spec.jsx", "test files"),
    (".service.ts", "service layer"),
    (".service.js", "service layer"),
    (".controller.ts", "controller layer"),
    (".controller.js", "controller layer"),
    (".model.ts", "data model"),
    (".model.js", "data model"),
    (".entity.ts", "entity definition"),
    (".entity.js", "entity definition"),
    (".hook.ts", "React hooks"),
    (".hook.tsx", "React hooks"),
    (".component.tsx", "UI components"),
    (".component.jsx", "UI components"),
    (".module.ts", "module definition"),
    (".module.js", "module definition"),
    (".dto.ts", "data transfer object"),
    (".schema.ts", "schema definition"),
    (".util.ts", "utility functions"),
    (".util.js", "utility functions"),
    (".config.ts", "configuration"),
    (".config.js", "configuration"),
    (".config.cjs", "configuration"),
    (".config.mjs", "configuration"),
    (".d.ts", "type declarations")
  ]

  /** `DIR_PURPOSES`: the purpose a directory's own name announces. */
  const DIR_TABLE: seq<(string, string)> := [
    ("components", "UI components"),
    ("hooks", "React hooks"),
    ("utils", "Utility functions"),
    ("util", "Utility functions"),
    ("lib", "Shared library code"),
    ("services", "Service layer"),
    ("service", "Service layer"),
    ("api", "API endpoints"),
    ("routes", "Route definitions"),
    ("types", "Type definitions"),
    ("models", "Data models"),
    ("model", "Data models"),
    ("tests", "Test files"),
    ("test", "Test files"),
    ("__tests__", "Test files"),
    ("middleware", "Middleware"),
    ("config", "Configuration"),
    ("scripts", "Build/utility scripts"),
    ("pages", "Page components"),
    ("layouts", "Layout components"),
    ("store", "State management"),
    ("styles", "Stylesheets"),
    ("assets", "Static assets"),
    ("public", "Public assets"),
    ("controllers", "Controller layer"),
    ("repositories", "Data access layer"),
    ("entities", "Entity definitions"),
    ("schemas", "Schema definitions"),
    ("fixtures", "Test fixtures"),
    ("helpers", "Helper functions"),
    ("constants", "Constants"),
    ("enums", "Enumeration definitions"),
    ("interfaces", "Interface definitions"),
    ("adapters", "Adapter layer"),
    ("providers", "Provider layer"),
    ("plugins", "Plugin modules"),
    ("bin", "CLI entry points")
  ]

  /** `Object.keys(SUFFIX_PURPOSES)` */
  function SuffixKeys(): (r: seq<string>)
    ensures |r| == |SUFFIX_TABLE|
    ensures forall i :: 0 <= i < |r| ==> r[i] == SUFFIX_TABLE[i].0
  {
    seq(|SUFFIX_TABLE|, i requires 0 <= i < |SUFFIX_TABLE| => SUFFIX_TABLE[i].0)
  }

  /** `table[s]` for a table of distinct names: the value of the first row
      named `s`. */
  function Lookup(table: seq<(string, string)>, s: string): Option<string> {
    if table == [] then None
    else if table[0].0 == s then Some(table[0].1)
    else Lookup(table[1..], s)
  }

  /** A name is found exactly when some row has it, and then the value
      found is that of a row with that name. */
  lemma {:induction false} LookupIff(table: seq<(string, string)>, s: string)
    ensures Lookup(table, s).Some? <==> exists i :: 0 <= i < |table| && table[i].0 == s
    ensures Lookup(table, s).Some? ==> exists i :: 0 <= i < |table| && table[i] == (s, Lookup(table, s).value)
  {
    if table != [] && table[0].0 != s {
      LookupIff(table[1..], s);
      if Lookup(table, s).Some? {
        var i :| 0 <= i < |table[1..]| && table[1..][i] == (s, Lookup(table, s).value);
        assert table[i + 1] == table[1..][i];
      }
      forall i | 0 <= i < |table| && table[i].0 == s ensures Lookup(table, s).Some? {
        assert table[1..][i - 1] == table[i];
      }
    }
  }

  /** `SUFFIX_PURPOSES[suffix]` for a suffix of the table. */
  function SuffixPurpose(s: string): string {
    match Lookup(SUFFIX_TABLE, s)
    case Some(p) => p
    case None => ""
  }

  /** `fp.endsWith(suffix)`, as a test on suffixes. */
  function EndsIn(fp: string): string -> bool {
    s => EndsWith(fp, s)
  }

  /** The suffixes of the table that `fp` ends with, in table order: the ones
      the inner `for (const suffix of Object.keys(SUFFIX_PURPOSES))` loop
      counts. */
  function MatchingSuffixes(fp: string): seq<string> {
    Filter(EndsIn(fp), SuffixKeys())
  }

  lemma MatchingSuffixesIff(fp: string, s: string)
    ensures s in MatchingSuffixes(fp) <==> s in SuffixKeys() && EndsWith(fp, s)
  {
    FilterMembers(EndsIn(fp), SuffixKeys(), s);
  }

  /** Every suffix occurrence among `files`, file by file. */
  function SuffixOccurrences(files: seq<string>): seq<string> {
    FlatMap(MatchingSuffixes, files)
  }

  lemma SuffixOccurrencesIff(files: seq<string>, s: string)
    ensures s in SuffixOccurrences(files) <==>
      s in SuffixKeys() && exists fp :: fp in files && EndsWith(fp, s)
  {
    FlatMapMembers(MatchingSuffixes, files, s);
    forall fp | fp in files ensures s in MatchingSuffixes(fp) <==> s in SuffixKeys() && EndsWith(fp, s) {
      MatchingSuffixesIff(fp, s);
    }
  }

  // ---------------------------------------------------------------------------
  // The counting loops
  // ---------------------------------------------------------------------------

  /** The inner loop for one file: count each table suffix `fp` ends with. */
  method CountSuffixesOf(counter: Dict<string, nat>, ghost before: seq<string>, fp: string)
    returns (r: Dict<string, nat>)
    requires counter == Tally(before)
    ensures r == Tally(before + MatchingSuffixes(fp))
  {
    r := CountSuffixesIn(SuffixKeys(), counter, before, fp);
  }

  /** The inner loop over the suffixes `keys` that `fp` ends with. */
  method CountSuffixesIn(keys: seq<string>, counter: Dict<string, nat>, ghost before: seq<string>, fp: string)
    returns (r: Dict<string, nat>)
    requires counter == Tally(before)
    ensures r == Tally(before + Filter(EndsIn(fp), keys))
  {
    r := counter;
    assert Filter(EndsIn(fp), keys[..0]) == [];
    assert before + [] == before;
    for j := 0 to |keys|
      invariant r == Tally(before + Filter(EndsIn(fp), keys[..j]))
    {
      FilterSnoc(EndsIn(fp), keys, j);
      ghost var done := before + Filter(EndsIn(fp), keys[..j]);
      if EndsIn(fp)(keys[j]) {
        assert before + Filter(EndsIn(fp), keys[..j + 1]) == done + [keys[j]];
        r := Bump(r, done, keys[j]);
      } else {
        assert before + Filter(EndsIn(fp), keys[..j + 1]) == done;
      }
    }
    TakeAll(keys);
  }


  /** The `suffixCounts` loops of `detectDirectoryPurposes`. */
  method CountSuffixes(files: seq<string>) returns (r: Dict<string, nat>)
    ensures r == Tally(SuffixOccurrences(files))
  {
    r := Empty();
    for i := 0 to |files|
      invariant r == Tally(FlatMap(MatchingSuffixes, files[..i]))
    {
      FlatMapSnoc(MatchingSuffixes, files, i);
      r := CountSuffixesOf(r, FlatMap(MatchingSuffixes, files[..i]), files[i]);
    }
    TakeAll(files);
  }

  /** The `extCounts` loop of `detectDirectoryPurposes`. */
  method CountExtensions(files: seq<string>) returns (r: Dict<string, nat>)
    ensures r == Tally(ExtensionsOf(files))
  {
    r := Empty();
    for i := 0 to |files|
      invariant r == Tally(ExtensionsOf(files[..i]))
    {
      r := CountExtension(r, files, i);
    }
    TakeAll(files);
  }

  // ---------------------------------------------------------------------------
  // The purpose of one directory
  // ---------------------------------------------------------------------------

  datatype DetectedBy = SuffixAnalysis | NameLookup

  /** The entry `detectDirectoryPurposes` writes for a directory.
      `dominantSuffix` holds the most frequent extension of its files. */
  datatype DirPurpose = DirPurpose(
    purpose: string,
    detectedBy: DetectedBy,
    fileCount: nat,
    dominantSuffix: Option<string>)

  /** `Object.entries(d).sort((a, b) => b[1] - a[1])[0]`, when there is one. */
  function TopEntry(d: Dict<string, nat>): (r: Option<string>)
    requires Valid(d)
    ensures r.None? <==> d.vals == map[]
    ensures r.Some? ==> r.value in d.vals && forall k :: k in d.vals ==> d.vals[k] <= d.vals[r.value]
  {
    if |d.keys| == 0 then None
    else
      assert d.keys[0] in d.vals;
      Some(TopKey(d))
  }

  /** A suffix counted at least three times decides the purpose. */
  predicate SuffixDecides(counts: Dict<string, nat>)
    requires Valid(counts)
  {
    var top := TopEntry(counts);
    top.Some? && counts.vals[top.value] >= 3
  }

  /** The purpose of the directory `dir` holding `files` and how it was
      found, or `None` when neither its suffixes nor its name tell. */
  function Explain(dir: string, files: seq<string>): Option<(string, DetectedBy)> {
    var suffixCounts := Tally(SuffixOccurrences(files));
    if SuffixDecides(suffixCounts) then Some((SuffixPurpose(TopEntry(suffixCounts).value), SuffixAnalysis))
    else match Lookup(DIR_TABLE, Basename(dir))
      case Some(purpose) => Some((purpose, NameLookup))
      case None => None
  }

  /** The entry for the directory `dir` holding `files`, if it gets one:
      whichever way it is explained, the entry counts the directory's files
      and names their most frequent extension. */
  function PurposeOf(dir: string, files: seq<string>): (r: Option<DirPurpose>)
    ensures r.Some? <==> Explain(dir, files).Some?
    ensures r.Some? ==> (r.value.purpose, r.value.detectedBy) == Explain(dir, files).value
    ensures r.Some? ==> r.value.fileCount == |files| && r.value.dominantSuffix == TopEntry(Tally(ExtensionsOf(files)))
  {
    match Explain(dir, files)
    case Some(found) => Some(DirPurpose(found.0, found.1, |files|, TopEntry(Tally(ExtensionsOf(files)))))
    case None => None
  }

  /** A directory is explained by its suffixes exactly when its most frequent
      table suffix occurs at least three times. */
  lemma PurposeBySuffix(dir: string, files: seq<string>)
    ensures var r := PurposeOf(dir, files);
      r.Some? && r.value.detectedBy == SuffixAnalysis <==> SuffixDecides(Tally(SuffixOccurrences(files)))
  {
    if !SuffixDecides(Tally(SuffixOccurrences(files))) {
      var e := Explain(dir, files);
      assert e.None? || e.value.1 == NameLookup;
    }
  }

  /** Otherwise it is explained by its name exactly when its last component
      is a name of `DIR_PURPOSES`, with the purpose given there, and gets no
      entry when that fails too. */
  lemma PurposeByName(dir: string, files: seq<string>)
    requires !SuffixDecides(Tally(SuffixOccurrences(files)))
    ensures var r := PurposeOf(dir, files);
      (r.Some? <==> exists i :: 0 <= i < |DIR_TABLE| && DIR_TABLE[i].0 == Basename(dir)) &&
      (r.Some? ==> r.value.detectedBy == NameLookup) &&
      (r.Some? ==> exists i :: 0 <= i < |DIR_TABLE| && DIR_TABLE[i] == (Basename(dir), r.value.purpose))
  {
    LookupIff(DIR_TABLE, Basename(dir));
  }

  /** The purpose the table gives one of its suffixes is one of its rows. */
  lemma SuffixPurposeRow(s: string)
    requires s in SuffixKeys()
    ensures exists i :: 0 <= i < |SUFFIX_TABLE| && SUFFIX_TABLE[i] == (s, SuffixPurpose(s))
  {
    var j :| 0 <= j < |SuffixKeys()| && SuffixKeys()[j] == s;
    assert SUFFIX_TABLE[j].0 == s;
    LookupIff(SUFFIX_TABLE, s);
  }

  /** A purpose found by suffix analysis is the table's purpose for a table
      suffix counted at least three times, which some file name of the
      directory ends with. */
  lemma SuffixPurposeFromTable(dir: string, files: seq<string>)
    requires var r := PurposeOf(dir, files); r.Some? && r.value.detectedBy == SuffixAnalysis
    ensures var counts := Tally(SuffixOccurrences(files));
      var s := TopEntry(counts).value;
      s in SuffixKeys() && PurposeOf(dir, files).value.purpose == SuffixPurpose(s) &&
      multiset(SuffixOccurrences(files))[s] >= 3 &&
      (exists fp :: fp in files && EndsWith(fp, s))
  {
    var counts := Tally(SuffixOccurrences(files));
    PurposeBySuffix(dir, files);
    var s := TopEntry(counts).value;
    TallyCounts(SuffixOccurrences(files), s);
    SuffixOccurrencesIff(files, s);
  }

  // ---------------------------------------------------------------------------
  // detectDirectoryPurposes
  // ---------------------------------------------------------------------------

  /** `path.dirname(p) === dir`, as a test on paths. */
  function InDir(dir: string): string -> bool {
    p => Dirname(p) == dir
  }

  /** The paths of `paths` whose directory is `dir`, in order. */
  function FilesIn(paths: seq<string>, dir: string): seq<string> {
    Filter(InDir(dir), paths)
  }

  /** `dirFiles`: each directory, in order of first appearance, with its
      paths in order. */
  function GroupByDir(paths: seq<string>): (g: Dict<string, seq<string>>)
    ensures Valid(g)
  {
    if paths == [] then Empty()
    else
      var g := GroupByDir(paths[..|paths| - 1]);
      var p := paths[|paths| - 1];
      Put(g, Dirname(p), Get(g, Dirname(p), []) + [p])
  }

  lemma GroupByDirSnoc(paths: seq<string>, i: nat)
    requires i < |paths|
    ensures var g := GroupByDir(paths[..i]);
      var d := Dirname(paths[i]);
      GroupByDir(paths[..i + 1]) == Put(g, d, Get(g, d, []) + [paths[i]])
  {
    assert paths[..i + 1][..i] == paths[..i];
  }

  /** A directory is grouped exactly when some path lies in it. */
  lemma {:induction false} GroupByDirKeys(paths: seq<string>, dir: string)
    ensures dir in GroupByDir(paths).vals <==> exists p :: p in paths && Dirname(p) == dir
    decreases |paths|
  {
    if paths != [] {
      var init := paths[..|paths| - 1];
      GroupByDirKeys(init, dir);
      assert paths == init + [paths[|paths| - 1]];
    }
  }

  /** The group of a directory is the paths lying in it, in order. */
  lemma {:induction false} GroupByDirFiles(paths: seq<string>, dir: string)
    ensures Get(GroupByDir(paths), dir, []) == FilesIn(paths, dir)
    decreases |paths|
  {
    if paths != [] {
      var n := |paths| - 1;
      GroupByDirFiles(paths[..n], dir);
      FilterSnoc(InDir(dir), paths, n);
      GroupByDirSnoc(paths, n);
      assert paths[..n + 1] == paths;
    }
  }

  /** The `directories` object built from the groups of `dirs`, in order. */
  function PurposesOver(describe: (string, seq<string>) -> Option<DirPurpose>,
                        groups: Dict<string, seq<string>>, dirs: seq<string>): (r: Dict<string, DirPurpose>)
    requires Valid(groups)
    requires forall i :: 0 <= i < |dirs| ==> dirs[i] in groups.vals
    ensures Valid(r)
  {
    if dirs == [] then Empty()
    else
      var dir := dirs[|dirs| - 1];
      var r := PurposesOver(describe, groups, dirs[..|dirs| - 1]);
      match describe(dir, groups.vals[dir])
      case Some(entry) => Put(r, dir + "/", entry)
      case None => r
  }

  /** What `detectDirectoryPurposes` returns. */
  function DirectoryPurposes(paths: seq<string>): Dict<string, DirPurpose> {
    var groups := GroupByDir(paths);
    PurposesOver(PurposeOf, groups, groups.keys)
  }

  lemma SlashInjective(a: string, b: string)
    requires a + "/" == b + "/"
    ensures a == b
  {
    assert a == (a + "/")[..|a|];
    assert b == (b + "/")[..|b|];
  }

  /** `dir + "/"` is a key exactly when `dir` is one of `dirs` and gets a
      purpose, and it then holds that entry. */
  lemma {:induction false} PurposesOverEntry(describe: (string, seq<string>) -> Option<DirPurpose>,
                                             groups: Dict<string, seq<string>>, dirs: seq<string>, dir: string)
    requires Valid(groups)
    requires forall i :: 0 <= i < |dirs| ==> dirs[i] in groups.vals
    ensures var r := PurposesOver(describe, groups, dirs);
      (dir + "/" in r.vals <==> dir in dirs && describe(dir, groups.vals[dir]).Some?) &&
      (dir + "/" in r.vals ==> Some(r.vals[dir + "/"]) == describe(dir, groups.vals[dir]))
    decreases |dirs|
  {
    if dirs != [] {
      var init := dirs[..|dirs| - 1];
      var last := dirs[|dirs| - 1];
      PurposesOverEntry(describe, groups, init, dir);
      InitLast(dirs);
      InSnoc(dir, init, last);
      if last + "/" == dir + "/" {
        SlashInjective(last, dir);
      }
    }
  }

  /** Every key is one of `dirs` with a slash appended. */
  lemma {:induction false} PurposesOverKeys(describe: (string, seq<string>) -> Option<DirPurpose>,
                                            groups: Dict<string, seq<string>>, dirs: seq<string>, k: string)
    requires Valid(groups)
    requires forall i :: 0 <= i < |dirs| ==> dirs[i] in groups.vals
    requires k in PurposesOver(describe, groups, dirs).vals
    ensures exists i :: 0 <= i < |dirs| && k == dirs[i] + "/"
    decreases |dirs|
  {
    var init := dirs[..|dirs| - 1];
    var last := dirs[|dirs| - 1];
    if k != last + "/" {
      PurposesOverKeys(describe, groups, init, k);
      var i :| 0 <= i < |init| && k == init[i] + "/";
      assert dirs[i] == init[i];
    }
  }

  /** A directory holding some of the paths appears, with a trailing slash,
      exactly when its files or its name give it a purpose, and its entry is
      the one its own files determine: their count, their most frequent
      extension, and the purpose. */
  lemma DirectoryPurposesEntry(paths: seq<string>, dir: string)
    ensures var r := DirectoryPurposes(paths);
      (dir + "/" in r.vals <==>
        (exists p :: p in paths && Dirname(p) == dir) && PurposeOf(dir, FilesIn(paths, dir)).Some?) &&
      (dir + "/" in r.vals ==> Some(r.vals[dir + "/"]) == PurposeOf(dir, FilesIn(paths, dir)))
  {
    var groups := GroupByDir(paths);
    GroupByDirKeys(paths, dir);
    GroupByDirFiles(paths, dir);
    PurposesOverEntry(PurposeOf, groups, groups.keys, dir);
  }

  /** Every key is the directory of some path, with a slash appended. */
  lemma DirectoryPurposesKeys(paths: seq<string>, k: string)
    requires k in DirectoryPurposes(paths).vals
    ensures exists p :: p in paths && k == Dirname(p) + "/"
  {
    var groups := GroupByDir(paths);
    PurposesOverKeys(PurposeOf, groups, groups.keys, k);
    var i :| 0 <= i < |groups.keys| && k == groups.keys[i] + "/";
    GroupByDirKeys(paths, groups.keys[i]);
  }

  /** `if (!dirFiles[dir]) dirFiles[dir] = []; dirFiles[dir].push(fp)` for
      the `i`-th path. */
  method AddToGroup(groups: Dict<string, seq<string>>, paths: seq<string>, i: nat)
    returns (r: Dict<string, seq<string>>)
    requires i < |paths|
    requires groups == GroupByDir(paths[..i])
    ensures r == GroupByDir(paths[..i + 1])
  {
    GroupByDirSnoc(paths, i);
    var dir := Dirname(paths[i]);
    if dir !in groups.vals {
      r := Put(groups, dir, []);
      PutTwice(groups, dir, [], [paths[i]]);
      assert [] + [paths[i]] == [paths[i]];
    } else {
      r := groups;
    }
    r := Put(r, dir, r.vals[dir] + [paths[i]]);
  }

  /** The grouping loop of `detectDirectoryPurposes`. */
  method GroupPaths(paths: seq<string>) returns (groups: Dict<string, seq<string>>)
    ensures groups == GroupByDir(paths)
  {
    groups := Empty();
    for i := 0 to |paths|
      invariant groups == GroupByDir(paths[..i])
    {
      groups := AddToGroup(groups, paths, i);
    }
    TakeAll(paths);
  }

  /** The body of the loop over `Object.entries(dirFiles)` for one directory. */
  method DescribeDirectory(dir: string, files: seq<string>) returns (r: Option<DirPurpose>)
    ensures r == PurposeOf(dir, files)
  {
    var dirName := Basename(dir);
    var suffixCounts := CountSuffixes(files);
    var extCounts := CountExtensions(files);
    var dominantSuffix := TopEntry(extCounts);
    var topSuffix := TopEntry(suffixCounts);
    var purpose: Option<(string, DetectedBy)> := None;
    if topSuffix.Some? && suffixCounts.vals[topSuffix.value] >= 3 {
      purpose := Some((SuffixPurpose(topSuffix.value), SuffixAnalysis));
    }
    if purpose.None? {
      var named := Lookup(DIR_TABLE, dirName);
      if named.Some? {
        purpose := Some((named.value, NameLookup));
      }
    }
    assert purpose == Explain(dir, files);
    if purpose.Some? {
      return Some(DirPurpose(purpose.value.0, purpose.value.1, |files|, dominantSuffix));
    }
    return None;
  }

  lemma PurposesOverSnoc(groups: Dict<string, seq<string>>, dirs: seq<string>, i: nat)
    requires Valid(groups) && i < |dirs|
    requires forall j :: 0 <= j < |dirs| ==> dirs[j] in groups.vals
    ensures var r := PurposesOver(PurposeOf, groups, dirs[..i]);
      PurposesOver(PurposeOf, groups, dirs[..i + 1]) ==
        match PurposeOf(dirs[i], groups.vals[dirs[i]])
        case Some(entry) => Put(r, dirs[i] + "/", entry)
        case None => r
  {
    assert dirs[..i + 1][..i] == dirs[..i];
  }

  /** `if (purpose) directories[dir + '/'] = { ... }` for the `i`-th
      directory. */
  method AddDirectory(directories: Dict<string, DirPurpose>, groups: Dict<string, seq<string>>, i: nat)
    returns (r: Dict<string, DirPurpose>)
    requires Valid(groups) && i < |groups.keys|
    requires directories == PurposesOver(PurposeOf, groups, groups.keys[..i])
    ensures r == PurposesOver(PurposeOf, groups, groups.keys[..i + 1])
  {
    PurposesOverSnoc(groups, groups.keys, i);
    var dir := groups.keys[i];
    var entry := DescribeDirectory(dir, groups.vals[dir]);
    r := directories;
    if entry.Some? {
      r := Put(r, dir + "/", entry.value);
    }
  }

  /** `detectDirectoryPurposes` */
  method DetectDirectoryPurposes(paths: seq<string>) returns (directories: Dict<string, DirPurpose>)
    ensures directories == DirectoryPurposes(paths)
  {
    var groups := GroupPaths(paths);
    directories := Empty();
    for i := 0 to |groups.keys|
      invariant directories == PurposesOver(PurposeOf, groups, groups.keys[..i])
    {
      directories := AddDirectory(directories, groups, i);
    }
    TakeAll(groups.keys);
  }

  // ---------------------------------------------------------------------------
  // detectFileSuffixes
  // ---------------------------------------------------------------------------

  /** The entry `detectFileSuffixes` keeps per suffix. */
  datatype SuffixInfo = SuffixInfo(purpose: string, count: nat)

  /** `entry.count++` */
  function Counted(entry: SuffixInfo): (r: SuffixInfo)
    ensures r.purpose == entry.purpose && r.count == entry.count + 1
  {
    entry.(count := entry.count + 1)
  }

  /** A suffix counter with each count paired with the suffix's purpose. */
  function AnnotateWith(purposeOf: string -> string, counts: Dict<string, nat>): Dict<string, SuffixInfo> {
    Dict(counts.keys, map s | s in counts.vals :: SuffixInfo(purposeOf(s), counts.vals[s]))
  }

  /** What `detectFileSuffixes` returns. */
  function FileSuffixes(paths: seq<string>): Dict<string, SuffixInfo> {
    AnnotateWith(SuffixPurpose, Tally(SuffixOccurrences(paths)))
  }

  /** A suffix is listed exactly when it is in the table and some path ends
      with it; its entry carries the table's purpose and the number of its
      occurrences, and the counts add up to the number of occurrences. */
  lemma FileSuffixesEntry(paths: seq<string>, s: string)
    ensures var r := FileSuffixes(paths);
      (s in r.vals <==> s in SuffixKeys() && exists fp :: fp in paths && EndsWith(fp, s)) &&
      (s in r.vals ==> r.vals[s] == SuffixInfo(SuffixPurpose(s), multiset(SuffixOccurrences(paths))[s]))
  {
    TallyCounts(SuffixOccurrences(paths), s);
    SuffixOccurrencesIff(paths, s);
  }

  /** The suffixes are listed in order of first occurrence. */
  lemma FileSuffixesOrder(paths: seq<string>)
    ensures FileSuffixes(paths).keys == Unique(SuffixOccurrences(paths))
  {
    TallyKeys(SuffixOccurrences(paths));
  }

  /** The inner loop of `detectFileSuffixes` for one path. */
  method RecordSuffixesOf(acc: Dict<string, SuffixInfo>, ghost before: seq<string>, fp: string)
    returns (r: Dict<string, SuffixInfo>)
    requires acc == AnnotateWith(SuffixPurpose, Tally(before))
    ensures r == AnnotateWith(SuffixPurpose, Tally(before + MatchingSuffixes(fp)))
  {
    r := RecordSuffixes(SuffixPurpose, SuffixKeys(), acc, before, fp);
  }

  /** The inner loop over the suffixes `keys`, for any table of purposes. */
  method RecordSuffixes(purposeOf: string -> string, keys: seq<string>, acc: Dict<string, SuffixInfo>,
                        ghost before: seq<string>, fp: string)
    returns (r: Dict<string, SuffixInfo>)
    requires acc == AnnotateWith(purposeOf, Tally(before))
    ensures r == AnnotateWith(purposeOf, Tally(before + Filter(EndsIn(fp), keys)))
  {
    r := acc;
    assert Filter(EndsIn(fp), keys[..0]) == [];
    assert before + [] == before;
    for j := 0 to |keys|
      invariant r == AnnotateWith(purposeOf, Tally(before + Filter(EndsIn(fp), keys[..j])))
    {
      FilterSnoc(EndsIn(fp), keys, j);
      ghost var done := before + Filter(EndsIn(fp), keys[..j]);
      var suffix := keys[j];
      if EndsIn(fp)(suffix) {
        assert before + Filter(EndsIn(fp), keys[..j + 1]) == done + [suffix];
        r := CountSuffix(purposeOf, r, done, suffix);
      } else {
        assert before + Filter(EndsIn(fp), keys[..j + 1]) == done;
      }
    }
    TakeAll(keys);
  }

  /** Creating `{ purpose, count: 0 }` when the suffix is new, then adding
      one to its count. */
  method CountSuffix(purposeOf: string -> string, acc: Dict<string, SuffixInfo>, ghost done: seq<string>, suffix: string)
    returns (r: Dict<string, SuffixInfo>)
    requires acc == AnnotateWith(purposeOf, Tally(done))
    ensures r == AnnotateWith(purposeOf, Tally(done + [suffix]))
  {
    r := acc;
    if suffix !in r.vals {
      r := Put(r, suffix, SuffixInfo(purposeOf(suffix), 0));
    }
    AnnotateStep(purposeOf, done, suffix, r);
    r := Put(r, suffix, Counted(r.vals[suffix]));
  }

  /** Seeding a missing suffix with a zero count and then adding one to its
      count annotates the counter with one more occurrence. */
  lemma AnnotateStep(purposeOf: string -> string, done: seq<string>, s: string, seeded: Dict<string, SuffixInfo>)
    requires var a := AnnotateWith(purposeOf, Tally(done));
      seeded == if s in a.vals then a else Put(a, s, SuffixInfo(purposeOf(s), 0))
    ensures s in seeded.vals
    ensures AnnotateWith(purposeOf, Tally(done + [s])) == Put(seeded, s, Counted(seeded.vals[s]))
  {
    TallySnoc(done, s);
    var t := Tally(done);
    assert s in AnnotateWith(purposeOf, t).vals <==> s in t.vals;
    if s in t.vals {
      AnnotateBump(purposeOf, t, s);
    } else {
      AnnotateSeed(purposeOf, t, s);
    }
  }

  /** Adding one to the count of a listed suffix is incrementing the
      underlying counter. */
  lemma AnnotateBump(purposeOf: string -> string, t: Dict<string, nat>, s: string)
    requires Valid(t) && s in t.vals
    ensures var a := AnnotateWith(purposeOf, t);
      AnnotateWith(purposeOf, Inc(t, s)) == Put(a, s, Counted(a.vals[s]))
  {
    var a := AnnotateWith(purposeOf, t);
    var n := t.vals[s] + 1;
    IncPresent(t, s);
    AnnotateUpdate(purposeOf, t.keys, t.vals, s, n);
    AnnotateValid(purposeOf, t);
    PutPresent(a, s, Counted(a.vals[s]));
  }

  /** Annotating a counter after one update is updating the annotation. */
  lemma AnnotateUpdate(purposeOf: string -> string, keys: seq<string>, m: map<string, nat>, s: string, n: nat)
    ensures AnnotateWith(purposeOf, Dict(keys, m[s := n])) ==
      Dict(keys, AnnotateWith(purposeOf, Dict(keys, m)).vals[s := SuffixInfo(purposeOf(s), n)])
  {
    AnnotateVals(purposeOf, m, s, n);
  }

  lemma IncPresent(t: Dict<string, nat>, s: string)
    requires Valid(t) && s in t.vals
    ensures Inc(t, s) == Dict(t.keys, t.vals[s := t.vals[s] + 1])
  {
  }

  lemma PutPresent(a: Dict<string, SuffixInfo>, s: string, v: SuffixInfo)
    requires Valid(a) && s in a.vals
    ensures Put(a, s, v) == Dict(a.keys, a.vals[s := v])
  {
  }

  /** Annotating keeps a counter well formed. */
  lemma AnnotateValid(purposeOf: string -> string, t: Dict<string, nat>)
    requires Valid(t)
    ensures Valid(AnnotateWith(purposeOf, t)) && AnnotateWith(purposeOf, t).vals.Keys == t.vals.Keys
  {
  }

  /** Annotating a counter after one update is updating the annotation. */
  lemma AnnotateVals(purposeOf: string -> string, m: map<string, nat>, s: string, n: nat)
    ensures (map k | k in m[s := n] :: SuffixInfo(purposeOf(k), m[s := n][k])) ==
      (map k | k in m :: SuffixInfo(purposeOf(k), m[k]))[s := SuffixInfo(purposeOf(s), n)]
  {
    var lhs := map k | k in m[s := n] :: SuffixInfo(purposeOf(k), m[s := n][k]);
    var rhs := (map k | k in m :: SuffixInfo(purposeOf(k), m[k]))[s := SuffixInfo(purposeOf(s), n)];
    assert lhs.Keys == rhs.Keys;
    forall k | k in lhs ensures lhs[k] == rhs[k] {
    }
  }


  /** Seeding a new suffix with a zero count and then adding one is
      incrementing the underlying counter. */
  lemma AnnotateSeed(purposeOf: string -> string, t: Dict<string, nat>, s: string)
    requires Valid(t) && s !in t.vals
    ensures var a := AnnotateWith(purposeOf, t);
      Valid(a) && s !in a.vals &&
      var seeded := Put(a, s, SuffixInfo(purposeOf(s), 0));
      AnnotateWith(purposeOf, Inc(t, s)) == Put(seeded, s, Counted(seeded.vals[s]))
  {
    var a := AnnotateWith(purposeOf, t);
    AnnotateValid(purposeOf, t);
    assert Inc(t, s) == Dict(t.keys + [s], t.vals[s := 1]);
    AnnotateVals(purposeOf, t.vals, s, 1);
    var seeded := Put(a, s, SuffixInfo(purposeOf(s), 0));
    PutTwice(a, s, SuffixInfo(purposeOf(s), 0), SuffixInfo(purposeOf(s), 1));
    assert Counted(seeded.vals[s]) == SuffixInfo(purposeOf(s), 1);
  }



  /** `detectFileSuffixes` */
  method DetectFileSuffixes(paths: seq<string>) returns (suffixCounts: Dict<string, SuffixInfo>)
    ensures suffixCounts == FileSuffixes(paths)
  {
    suffixCounts := Empty();
    assert suffixCounts == AnnotateWith(SuffixPurpose, Tally([]));
    for i := 0 to |paths|
      invariant suffixCounts == AnnotateWith(SuffixPurpose, Tally(FlatMap(MatchingSuffixes, paths[..i])))
    {
      FlatMapSnoc(MatchingSuffixes, paths, i);
      suffixCounts := RecordSuffixesOf(suffixCounts, FlatMap(MatchingSuffixes, paths[..i]), paths[i]);
    }
    TakeAll(paths);
  }
}
