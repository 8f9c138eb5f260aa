/**
 * The convention checker: the exports of the given files are compared with
 * the naming pattern recorded in the conventions file. Its comment stripping,
 * `classifyIdentifier`, `getLanguage` and export extractors are copies of the
 * scanner's, so this module uses the scanner's models of them. Reading a file
 * is an oracle: `sources(path)` is the file's text, or `None` when it cannot
 * be read.
 */
module CheckConventions {
  import opened Strings
  import opened Paths
  import opened Classify
  import opened Extract
  import opened Exports

  /** The part of `conventions.json` the checker reads: `naming.exports.pattern`
      ("" when it is missing or falsy) and `naming.exports.confidence`, in
      hundredths (0 when it is missing or falsy). */
  datatype ConventionsFile = ConventionsFile(pattern: string, confidence: int)

  datatype SkipReason =
    | Unreadable
    | InsufficientConventionData
    | LowConfidence(confidence: int)
    | NoSupportedFiles

  /** One naming violation; `kind` is always `naming` and `severity` always
      `warning`. */
  datatype Violation = Violation(file: string, kind: string, exportName: string, found: Style,
                                 expected: string, severity: string)

  datatype CheckResult =
    | Skipped(reason: SkipReason)
    | Checked(violations: seq<Violation>, checked: nat, passed: int, conventionPattern: string,
              confidence: int)

  /** The lowest confidence that is enforced: 0.7. */
  const MIN_CONFIDENCE: int := 70

  /** A pattern the checker has nothing to enforce with. */
  predicate Undecided(pattern: string) {
    pattern == "" || pattern == "insufficient_data" || pattern == "mixed"
  }

  // ---------------------------------------------------------------------------
  // Violations
  // ---------------------------------------------------------------------------

  /** An export breaks the pattern when its style is known and differs. */
  predicate Breaks(style: Style, expected: string) {
    StyleName(style) != expected && style != Other
  }

  /** The violations of `file` among `names`, in order. */
  function ViolationsIn(file: string, names: seq<string>, expected: string): seq<Violation> {
    if names == [] then []
    else
      var n := names[|names| - 1];
      var style := ClassifyIdentifier(n);
      ViolationsIn(file, names[..|names| - 1], expected) +
        (if Breaks(style, expected) then [Violation(file, "naming", n, style, expected, "warning")] else [])
  }

  /** A file is checked when it can be read and has a language. */
  predicate Checkable(sources: string -> Option<string>, file: string) {
    sources(file).Some? && GetLanguage(file).Some?
  }

  /** The exports the checker sees in a checkable file. */
  function FileExports(sources: string -> Option<string>, file: string, scan: Scanner): seq<string>
    requires Checkable(sources, file)
  {
    ExportsOf(sources(file).value, GetLanguage(file).value, scan)
  }

  /** The violations of one file: none when it is not checked. */
  function FileViolations(sources: string -> Option<string>, file: string, expected: string, scan: Scanner): seq<Violation> {
    if Checkable(sources, file) then ViolationsIn(file, FileExports(sources, file, scan), expected) else []
  }

  function Violator(sources: string -> Option<string>, expected: string, scan: Scanner): string -> seq<Violation> {
    file => FileViolations(sources, file, expected, scan)
  }

  function CheckableBy(sources: string -> Option<string>): string -> bool {
    file => Checkable(sources, file)
  }

  /** The violations of `files`, file by file. */
  function ViolationsOver(perFile: string -> seq<Violation>, files: seq<string>): seq<Violation> {
    if files == [] then []
    else ViolationsOver(perFile, files[..|files| - 1]) + perFile(files[|files| - 1])
  }

  /** How many of `files` are checked (a path listed twice counts twice). */
  function CheckedCount(checkable: string -> bool, files: seq<string>): nat {
    if files == [] then 0
    else CheckedCount(checkable, files[..|files| - 1]) + (if checkable(files[|files| - 1]) then 1 else 0)
  }

  /** The files with at least one violation. */
  function FilesOf(vs: seq<Violation>): set<string> {
    set v | v in vs :: v.file
  }

  /** What `checkConventions` returns. */
  function CheckOf(filePaths: seq<string>, conventions: Option<ConventionsFile>,
                   sources: string -> Option<string>, scan: Scanner): CheckResult {
    var supported := Filter(IsSupportedFile, filePaths);
    match conventions
    case None => Skipped(Unreadable)
    case Some(conv) =>
      if Undecided(conv.pattern) then Skipped(InsufficientConventionData)
      else if conv.confidence < MIN_CONFIDENCE then Skipped(LowConfidence(conv.confidence))
      else if supported == [] then Skipped(NoSupportedFiles)
      else
        var violations := ViolationsOver(Violator(sources, conv.pattern, scan), supported);
        var checked := CheckedCount(CheckableBy(sources), supported);
        Checked(violations, checked, checked - |FilesOf(violations)|, conv.pattern, conv.confidence)
  }

  // ---------------------------------------------------------------------------
  // Properties
  // ---------------------------------------------------------------------------

  /** The gates apply in order: an unreadable conventions file, then an
      undecided pattern, then a confidence below 0.7, then no supported file;
      only past all four is anything checked. */
  lemma SkipGates(filePaths: seq<string>, conventions: Option<ConventionsFile>,
                  sources: string -> Option<string>, scan: Scanner)
    ensures var r := CheckOf(filePaths, conventions, sources, scan);
      (r == Skipped(Unreadable) <==> conventions.None?) &&
      (r == Skipped(InsufficientConventionData) <==>
         conventions.Some? && Undecided(conventions.value.pattern)) &&
      (r.Skipped? && r.reason.LowConfidence? <==>
         conventions.Some? && !Undecided(conventions.value.pattern) &&
         conventions.value.confidence < MIN_CONFIDENCE) &&
      (r == Skipped(NoSupportedFiles) <==>
         conventions.Some? && !Undecided(conventions.value.pattern) &&
         conventions.value.confidence >= MIN_CONFIDENCE &&
         forall i :: 0 <= i < |filePaths| ==> !IsSupportedFile(filePaths[i])) &&
      (r.Checked? ==> r.conventionPattern == conventions.value.pattern && !Undecided(r.conventionPattern) &&
                      r.confidence == conventions.value.confidence && r.confidence >= MIN_CONFIDENCE)
  {
    var supported := Filter(IsSupportedFile, filePaths);
    forall t ensures t in supported <==> t in filePaths && IsSupportedFile(t) {
      FilterMembers(IsSupportedFile, filePaths, t);
    }
    if supported != [] {
      assert supported[0] in supported;
    }
    forall i | 0 <= i < |filePaths| && supported == [] ensures !IsSupportedFile(filePaths[i]) {
      assert filePaths[i] in filePaths;
    }
  }

  lemma {:induction false} ViolationsInIff(file: string, names: seq<string>, expected: string, v: Violation)
    ensures v in ViolationsIn(file, names, expected) <==>
      v.file == file && v.kind == "naming" && v.severity == "warning" && v.expected == expected &&
      v.exportName in names && v.found == ClassifyIdentifier(v.exportName) && Breaks(v.found, expected)
    decreases |names|
  {
    if names != [] {
      ViolationsInIff(file, names[..|names| - 1], expected, v);
      InitLast(names);
    }
  }

  /** Each file's violations name that file. */
  ghost predicate Tagged(perFile: string -> seq<Violation>) {
    forall file, v :: v in perFile(file) ==> v.file == file
  }

  lemma ViolatorTagged(sources: string -> Option<string>, expected: string, scan: Scanner)
    ensures Tagged(Violator(sources, expected, scan))
  {
    forall file, v | v in Violator(sources, expected, scan)(file) ensures v.file == file {
      ViolationsInIff(file, FileExports(sources, file, scan), expected, v);
    }
  }

  lemma {:induction false} ViolationsOverIff(perFile: string -> seq<Violation>, files: seq<string>, v: Violation)
    requires Tagged(perFile)
    ensures v in ViolationsOver(perFile, files) <==> v.file in files && v in perFile(v.file)
    decreases |files|
  {
    if files != [] {
      var last := files[|files| - 1];
      ViolationsOverIff(perFile, files[..|files| - 1], v);
      assert files == files[..|files| - 1] + [last];
    }
  }

  /** A violation is reported exactly for each export of a checked supported
      file whose style is known and differs from the pattern; it records the
      export's style as found and the pattern as expected. */
  lemma CheckedViolations(filePaths: seq<string>, conventions: Option<ConventionsFile>,
                          sources: string -> Option<string>, scan: Scanner, v: Violation)
    requires CheckOf(filePaths, conventions, sources, scan).Checked?
    ensures var r := CheckOf(filePaths, conventions, sources, scan);
      v in r.violations <==>
        v.file in filePaths && IsSupportedFile(v.file) && Checkable(sources, v.file) &&
        v.exportName in FileExports(sources, v.file, scan) &&
        v.found == ClassifyIdentifier(v.exportName) && v.found != Other &&
        StyleName(v.found) != v.expected && v.expected == r.conventionPattern &&
        v.kind == "naming" && v.severity == "warning"
  {
    var conv := conventions.value;
    var supported := Filter(IsSupportedFile, filePaths);
    var r := CheckOf(filePaths, conventions, sources, scan);
    assert r.violations == ViolationsOver(Violator(sources, conv.pattern, scan), supported);
    assert r.conventionPattern == conv.pattern;
    ViolatorTagged(sources, conv.pattern, scan);
    ViolationsOverIff(Violator(sources, conv.pattern, scan), supported, v);
    FilterMembers(IsSupportedFile, filePaths, v.file);
    if Checkable(sources, v.file) {
      ViolationsInIff(v.file, FileExports(sources, v.file, scan), conv.pattern, v);
    }
  }

  /** Only checked files have violations. */
  ghost predicate OnlyChecked(perFile: string -> seq<Violation>, checkable: string -> bool) {
    forall file :: perFile(file) != [] ==> checkable(file)
  }

  /** There are no more files with a violation than files checked. */
  lemma {:induction false} ViolatorsChecked(perFile: string -> seq<Violation>, checkable: string -> bool, files: seq<string>)
    requires Tagged(perFile) && OnlyChecked(perFile, checkable)
    ensures |FilesOf(ViolationsOver(perFile, files))| <= CheckedCount(checkable, files)
    decreases |files|
  {
    if files != [] {
      var init := files[..|files| - 1];
      var last := files[|files| - 1];
      var before := ViolationsOver(perFile, init);
      var here := perFile(last);
      ViolatorsChecked(perFile, checkable, init);
      assert FilesOf(before + here) == FilesOf(before) + FilesOf(here);
      if here != [] {
        assert FilesOf(here) <= {last};
        SubsetOfSingleton(FilesOf(here), last);
      } else {
        assert FilesOf(here) == {};
      }
    }
  }

  lemma SubsetOfSingleton(s: set<string>, x: string)
    requires s <= {x}
    ensures |s| <= 1
  {
    if s != {} {
      assert s == {x};
    }
  }

  /** At most every supported file is checked. */
  lemma {:induction false} CheckedAtMostFiles(checkable: string -> bool, files: seq<string>)
    ensures CheckedCount(checkable, files) <= |files|
    decreases |files|
  {
    if files != [] {
      CheckedAtMostFiles(checkable, files[..|files| - 1]);
    }
  }

  /** `checked` is at most the number of supported files, and `passed` lies
      between 0 and `checked`. */
  lemma CheckedCounts(filePaths: seq<string>, conventions: Option<ConventionsFile>,
                      sources: string -> Option<string>, scan: Scanner)
    requires CheckOf(filePaths, conventions, sources, scan).Checked?
    ensures var r := CheckOf(filePaths, conventions, sources, scan);
      r.checked <= |Filter(IsSupportedFile, filePaths)| && 0 <= r.passed <= r.checked
  {
    var conv := conventions.value;
    var supported := Filter(IsSupportedFile, filePaths);
    CheckedAtMostFiles(CheckableBy(sources), supported);
    ViolatorTagged(sources, conv.pattern, scan);
    assert OnlyChecked(Violator(sources, conv.pattern, scan), CheckableBy(sources));
    ViolatorsChecked(Violator(sources, conv.pattern, scan), CheckableBy(sources), supported);
  }

  /** Exports whose style is `other` never cause a violation. */
  lemma OtherNeverViolates(file: string, names: seq<string>, expected: string, v: Violation)
    requires v in ViolationsIn(file, names, expected)
    ensures v.found != Other
  {
    ViolationsInIff(file, names, expected, v);
  }

  // ---------------------------------------------------------------------------
  // checkConventions
  // ---------------------------------------------------------------------------

  /** The loop over one file's exports. */
  method CollectViolations(file: string, exports: seq<string>, expected: string, violations0: seq<Violation>)
    returns (violations: seq<Violation>)
    ensures violations == violations0 + ViolationsIn(file, exports, expected)
  {
    violations := violations0;
    for j := 0 to |exports|
      invariant violations == violations0 + ViolationsIn(file, exports[..j], expected)
    {
      assert exports[..j + 1][..j] == exports[..j];
      var name := exports[j];
      var style := ClassifyIdentifier(name);
      if StyleName(style) != expected && style != Other {
        violations := violations + [Violation(file, "naming", name, style, expected, "warning")];
      }
    }
    TakeAll(exports);
  }

  /** One iteration of the loop over the supported files. */
  method CheckFile(sources: string -> Option<string>, file: string, expected: string, scan: Scanner,
                   violations0: seq<Violation>, checked0: nat)
    returns (violations: seq<Violation>, checked: nat)
    ensures violations == violations0 + FileViolations(sources, file, expected, scan)
    ensures checked == checked0 + (if Checkable(sources, file) then 1 else 0)
  {
    violations, checked := violations0, checked0;
    var source := sources(file);
    if source.None? {
      return;
    }
    var lang := GetLanguage(file);
    if lang.None? {
      return;
    }
    var exports := ExtractExports(source.value, lang, scan);
    checked := checked + 1;
    violations := CollectViolations(file, exports, expected, violations);
  }

  /** The loop over the supported files. */
  method CheckFiles(sources: string -> Option<string>, supported: seq<string>, expectedPattern: string, scan: Scanner)
    returns (violations: seq<Violation>, checked: nat)
    ensures violations == ViolationsOver(Violator(sources, expectedPattern, scan), supported)
    ensures checked == CheckedCount(CheckableBy(sources), supported)
  {
    violations, checked := [], 0;
    for i := 0 to |supported|
      invariant violations == ViolationsOver(Violator(sources, expectedPattern, scan), supported[..i])
      invariant checked == CheckedCount(CheckableBy(sources), supported[..i])
    {
      assert supported[..i + 1][..i] == supported[..i];
      violations, checked := CheckFile(sources, supported[i], expectedPattern, scan, violations, checked);
    }
    TakeAll(supported);
  }

  /** `checkConventions`; `conventions` is `None` when the conventions file
      is missing or does not parse. */
  method Check(filePaths: seq<string>, conventions: Option<ConventionsFile>,
               sources: string -> Option<string>, scan: Scanner)
    returns (r: CheckResult)
    ensures r == CheckOf(filePaths, conventions, sources, scan)
  {
    var supported := Filter(IsSupportedFile, filePaths);
    if conventions.None? {
      return Skipped(Unreadable);
    }
    var expectedPattern := conventions.value.pattern;
    var confidence := conventions.value.confidence;
    if Undecided(expectedPattern) {
      return Skipped(InsufficientConventionData);
    }
    if confidence < MIN_CONFIDENCE {
      return Skipped(LowConfidence(confidence));
    }
    if supported == [] {
      return Skipped(NoSupportedFiles);
    }
    var violations, checked := CheckFiles(sources, supported, expectedPattern, scan);
    var violators := FilesOf(violations);
    return Checked(violations, checked, checked - |violators|, expectedPattern, confidence);
  }
}
