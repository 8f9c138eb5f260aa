/**
 * The export extractors of the scanner: for each language, the names a
 * file makes visible to other files, deduplicated and sorted.
 */
module Exports {
  import opened Strings
  import opened Paths
  import opened Extract

  // ---------------------------------------------------------------------------
  // Filtering and mapping name lists
  // ---------------------------------------------------------------------------

  /** `xs.filter(keep)` */
  function Filter(keep: string -> bool, xs: seq<string>): seq<string> {
    if xs == [] then []
    else
      var x := xs[|xs| - 1];
      Filter(keep, xs[..|xs| - 1]) + (if keep(x) then [x] else [])
  }

  lemma {:induction false} FilterMembers(keep: string -> bool, xs: seq<string>, t: string)
    ensures t in Filter(keep, xs) <==> t in xs && keep(t)
    decreases |xs|
  {
    if xs != [] {
      FilterMembers(keep, xs[..|xs| - 1], t);
      InitLast(xs);
    }
  }

  lemma FilterSnoc(keep: string -> bool, xs: seq<string>, i: nat)
    requires i < |xs|
    ensures Filter(keep, xs[..i + 1]) == Filter(keep, xs[..i]) + (if keep(xs[i]) then [xs[i]] else [])
  {
    assert xs[..i + 1][..i] == xs[..i];
  }

  /** A loop that pushes the captures passing a test. */
  method PushFiltered(acc: seq<string>, keep: string -> bool, xs: seq<string>) returns (r: seq<string>)
    ensures r == acc + Filter(keep, xs)
  {
    r := acc;
    for i := 0 to |xs|
      invariant r == acc + Filter(keep, xs[..i])
    {
      FilterSnoc(keep, xs, i);
      if keep(xs[i]) {
        r := r + [xs[i]];
      }
    }
    TakeAll(xs);
  }

  /** `xs.map(f)` */
  function Map(f: string -> string, xs: seq<string>): (r: seq<string>)
    ensures |r| == |xs|
  {
    if xs == [] then [] else [f(xs[0])] + Map(f, xs[1..])
  }

  lemma {:induction false} MapMembers(f: string -> string, xs: seq<string>, t: string)
    ensures t in Map(f, xs) <==> exists x :: x in xs && f(x) == t
    decreases |xs|
  {
    if xs != [] {
      MapMembers(f, xs[1..], t);
      if exists x :: x in xs && f(x) == t {
        var x :| x in xs && f(x) == t;
        if x != xs[0] {
          assert x in xs[1..];
        }
      }
    }
  }

  predicate NonEmpty(s: string) {
    s != ""
  }

  // ---------------------------------------------------------------------------
  // Re-export and `module.exports = { ... }` pieces
  // ---------------------------------------------------------------------------

  /** The end of the run of white space that starts at `p`. */
  function SpaceRunEnd(s: string, p: nat): (k: nat)
    requires p <= |s|
    ensures p <= k <= |s|
    ensures forall i :: p <= i < k ==> IsSpace(s[i])
    ensures k < |s| ==> !IsSpace(s[k])
    decreases |s| - p
  {
    if p < |s| && IsSpace(s[p]) then SpaceRunEnd(s, p + 1) else p
  }

  /** `/\s+as\s+/` matches at `p`: white space, then `as`, then white space. */
  predicate AsAt(s: string, p: nat) {
    p < |s| && IsSpace(s[p]) &&
    var k := SpaceRunEnd(s, p);
    k + 2 < |s| && s[k] == 'a' && s[k + 1] == 's' && IsSpace(s[k + 2])
  }

  /** The leftmost match of `/\s+as\s+/` at or after `p`, or `|s|`. */
  function FirstAs(s: string, p: nat): (q: nat)
    requires p <= |s|
    ensures p <= q <= |s|
    ensures q < |s| ==> AsAt(s, q)
    ensures forall i :: p <= i < q ==> !AsAt(s, i)
    decreases |s| - p
  {
    if p == |s| || AsAt(s, p) then p else FirstAs(s, p + 1)
  }

  /** `s.split(/\s+as\s+/)[0]` */
  function BeforeAs(s: string): (r: string)
    ensures StartsWith(s, r)
    ensures forall i :: 0 <= i < |r| ==> !AsAt(s, i)
    ensures |r| == |s| || AsAt(s, |r|)
  {
    s[..FirstAs(s, 0)]
  }

  /** One piece of `export { X, Y as Z }`: its original name. */
  function ReExportName(piece: string): string {
    Trim(BeforeAs(Trim(piece)))
  }

  /** The re-export filters: not empty, not `default`, not `type`. */
  predicate IsReExportName(n: string) {
    n != "" && n != "default" && n != "type"
  }

  /** The names one `export { ... }` contributes. */
  function ReExportNames(group: string): seq<string> {
    Filter(IsReExportName, Map(ReExportName, Split(group, ',')))
  }

  lemma BeforeAsAlias()
    ensures BeforeAs("Foo as Bar") == "Foo"
  {
    var s := "Foo as Bar";
    assert s[3] == ' ' && s[4] == 'a' && s[5] == 's' && s[6] == ' ';
    assert SpaceRunEnd(s, 3) == 4 by {
      assert !IsSpace(s[4]);
    }
    assert !IsSpace(s[0]) && !IsSpace(s[1]) && !IsSpace(s[2]);
    assert FirstAs(s, 0) == 3;
  }

  lemma AliasTrim()
    ensures Trim("Foo as Bar") == "Foo as Bar"
  {
    var s := "Foo as Bar";
    assert s[0] == 'F' && s[9] == 'r';
    TrimNoSpace(s);
  }

  lemma NameTrim()
    ensures Trim("Foo") == "Foo"
  {
    TrimNoSpace("Foo");
  }

  /** `Y as Z` exports `Y`, under its original name. */
  lemma ReExportAlias()
    ensures ReExportName("Foo as Bar") == "Foo"
  {
    AliasTrim();
    BeforeAsAlias();
    NameTrim();
  }

  /** A piece without an `as` keeps its trimmed text. */
  lemma ReExportPlain(piece: string)
    requires forall i :: 0 <= i < |Trim(piece)| ==> !AsAt(Trim(piece), i)
    ensures ReExportName(piece) == Trim(piece)
  {
    var t := Trim(piece);
    assert FirstAs(t, 0) == |t|;
    assert BeforeAs(t) == t;
    TrimNoSpace(t);
  }

  /** Every re-exported name is the original name of one piece, and none is
      empty, `default` or `type`. */
  lemma ReExportNamesKept(group: string, n: string)
    requires n in ReExportNames(group)
    ensures n != "" && n != "default" && n != "type"
    ensures exists piece :: piece in Split(group, ',') && ReExportName(piece) == n
  {
    FilterMembers(IsReExportName, Map(ReExportName, Split(group, ',')), n);
    MapMembers(ReExportName, Split(group, ','), n);
  }

  /** `s.split(/[\s:]/)[0]`: the text before the first white space or colon. */
  function BeforeSpaceOrColon(s: string): (r: string)
    ensures StartsWith(s, r)
    ensures forall i :: 0 <= i < |r| ==> !IsSpace(r[i]) && r[i] != ':'
    ensures |r| < |s| ==> IsSpace(s[|r|]) || s[|r|] == ':'
  {
    if s == [] || IsSpace(s[0]) || s[0] == ':' then ""
    else [s[0]] + BeforeSpaceOrColon(s[1..])
  }

  /** One piece of `module.exports = { a, b: c }`: the key before any colon. */
  function CjsObjectName(piece: string): (n: string)
    ensures forall i :: 0 <= i < |n| ==> !IsSpace(n[i]) && n[i] != ':'
  {
    var b := BeforeSpaceOrColon(Trim(piece));
    TrimNoSpace(b);
    Trim(b)
  }

  /** The names one `module.exports = { ... }` contributes. */
  function CjsObjectNames(group: string): seq<string> {
    Filter(NonEmpty, Map(CjsObjectName, Split(group, ',')))
  }

  /** Every object-export name is non-empty, without white space or colon. */
  lemma CjsObjectNamesShape(group: string, n: string)
    requires n in CjsObjectNames(group)
    ensures n != "" && forall i :: 0 <= i < |n| ==> !IsSpace(n[i]) && n[i] != ':'
  {
    FilterMembers(NonEmpty, Map(CjsObjectName, Split(group, ',')), n);
    MapMembers(CjsObjectName, Split(group, ','), n);
  }

  /** `module.exports = NAME`: a word that is not `{`, `class` or `function`. */
  predicate IsCjsSingleName(n: string) {
    n != "{" && n != "class" && n != "function"
  }

  // ---------------------------------------------------------------------------
  // Extractors
  // ---------------------------------------------------------------------------

  /** Everything `extractJSExports` pushes, in order. */
  function JsExportCandidates(source: string, scan: Scanner): seq<string> {
    var c := StripComments(source);
    scan(JsNamedExport, c) + scan(JsDefaultExport, c) +
    FlatMap(ReExportNames, scan(JsReExport, c)) +
    FlatMap(CjsObjectNames, scan(CjsObjectExport, c)) +
    Filter(IsCjsSingleName, scan(CjsSingleExport, c))
  }

  /** Where a JavaScript export comes from: a declaration, a default
      declaration, the original name in a re-export list, a key of an object
      assigned to `module.exports`, or a name assigned to it. */
  lemma JsExportSources(source: string, scan: Scanner, n: string)
    requires n in SortedSet(JsExportCandidates(source, scan))
    ensures var c := StripComments(source);
      n in scan(JsNamedExport, c) || n in scan(JsDefaultExport, c) ||
      (IsReExportName(n) && exists g :: g in scan(JsReExport, c) && n in ReExportNames(g)) ||
      (n != "" && exists g :: g in scan(CjsObjectExport, c) && n in CjsObjectNames(g)) ||
      (n in scan(CjsSingleExport, c) && IsCjsSingleName(n))
  {
    var c := StripComments(source);
    FlatMapMembers(ReExportNames, scan(JsReExport, c), n);
    FlatMapMembers(CjsObjectNames, scan(CjsObjectExport, c), n);
    FilterMembers(IsCjsSingleName, scan(CjsSingleExport, c), n);
    if exists g :: g in scan(JsReExport, c) && n in ReExportNames(g) {
      var g :| g in scan(JsReExport, c) && n in ReExportNames(g);
      ReExportNamesKept(g, n);
    }
    if exists g :: g in scan(CjsObjectExport, c) && n in CjsObjectNames(g) {
      var g :| g in scan(CjsObjectExport, c) && n in CjsObjectNames(g);
      CjsObjectNamesShape(g, n);
    }
  }

  /** `extractJSExports` */
  method ExtractJsExports(source: string, scan: Scanner) returns (r: seq<string>)
    ensures r == SortedSet(JsExportCandidates(source, scan))
  {
    var c := StripComments(source);
    var named, defaults, reExports, objects, singles :=
      scan(JsNamedExport, c), scan(JsDefaultExport, c), scan(JsReExport, c),
      scan(CjsObjectExport, c), scan(CjsSingleExport, c);
    var exports := PushAll([], named);
    assert exports == named;
    exports := PushAll(exports, defaults);
    exports := PushFlatMap(exports, ReExportNames, reExports);
    ghost var before := exports;
    assert before == named + defaults + FlatMap(ReExportNames, reExports);
    exports := PushFlatMap(exports, CjsObjectNames, objects);
    exports := PushFiltered(exports, IsCjsSingleName, singles);
    assert exports == before + FlatMap(CjsObjectNames, objects) + Filter(IsCjsSingleName, singles);
    r := SortedSet(exports);
  }

  /** A top-level `def` is exported unless its name starts with `_`. */
  predicate IsPublicName(n: string) {
    !StartsWith(n, "_")
  }

  /** What `extractPythonExports` returns for the captured classes and defs. */
  function PythonExports(classes: seq<string>, defs: seq<string>): seq<string> {
    SortedSet(classes + Filter(IsPublicName, defs))
  }

  /** Every class is exported; a function is exported exactly when its name
      does not start with `_`; nothing else is. */
  lemma PythonExportsIff(classes: seq<string>, defs: seq<string>, n: string)
    ensures n in PythonExports(classes, defs) <==> n in classes || (n in defs && IsPublicName(n))
  {
    FilterMembers(IsPublicName, defs, n);
  }

  /** A private helper is hidden, unless a class has the same name. */
  lemma PrivateDefHidden()
    ensures "_helper" !in PythonExports([], ["_helper"])
  {
    assert "_helper"[0] == '_';
    PrivateNameHidden("_helper");
  }

  lemma PrivateNameHidden(n: string)
    requires |n| > 0 && n[0] == '_'
    ensures n !in PythonExports([], [n])
  {
    PythonExportsIff([], [n], n);
    assert n[..1] == "_";
  }

  /** `extractPythonExports` */
  method ExtractPythonExports(source: string, scan: Scanner) returns (r: seq<string>)
    ensures r == PythonExports(scan(PyClass, StripPythonComments(source)),
                               scan(PyDef, StripPythonComments(source)))
  {
    var c := StripPythonComments(source);
    var classes, defs := scan(PyClass, c), scan(PyDef, c);
    var exports := PushAll([], classes);
    exports := PushFiltered(exports, IsPublicName, defs);
    assert exports == classes + Filter(IsPublicName, defs);
    r := SortedSet(exports);
  }

  /** The shared shape of the Go, Rust and Java extractors: every capture of
      two patterns, deduplicated and sorted. */
  method TwoPatternExports(source: string, scan: Scanner, first: Pattern, second: Pattern)
    returns (r: seq<string>)
    ensures r == SortedSet(scan(first, StripComments(source)) + scan(second, StripComments(source)))
    ensures forall n :: n in r <==> n in scan(first, StripComments(source)) || n in scan(second, StripComments(source))
  {
    var c := StripComments(source);
    var exports := PushAll([], scan(first, c));
    assert exports == scan(first, c);
    exports := PushAll(exports, scan(second, c));
    r := SortedSet(exports);
  }

  /** `extractGoExports`: exported functions and types. */
  method ExtractGoExports(source: string, scan: Scanner) returns (r: seq<string>)
    ensures r == SortedSet(scan(GoFunc, StripComments(source)) + scan(GoType, StripComments(source)))
    ensures forall n :: n in r <==> n in scan(GoFunc, StripComments(source)) || n in scan(GoType, StripComments(source))
  {
    r := TwoPatternExports(source, scan, GoFunc, GoType);
  }

  /** `extractRustExports`: `pub fn` and `pub` types. */
  method ExtractRustExports(source: string, scan: Scanner) returns (r: seq<string>)
    ensures r == SortedSet(scan(RustPubFn, StripComments(source)) + scan(RustPubType, StripComments(source)))
    ensures forall n :: n in r <==> n in scan(RustPubFn, StripComments(source)) || n in scan(RustPubType, StripComments(source))
  {
    r := TwoPatternExports(source, scan, RustPubFn, RustPubType);
  }

  /** `extractJavaExports`: public classes, interfaces, enums and records. */
  method ExtractJavaExports(source: string, scan: Scanner) returns (r: seq<string>)
    ensures r == SortedSet(scan(JavaPublicDecl, StripComments(source)))
    ensures forall n :: n in r <==> n in scan(JavaPublicDecl, StripComments(source))
  {
    var c := StripComments(source);
    var exports := PushAll([], scan(JavaPublicDecl, c));
    assert exports == scan(JavaPublicDecl, c);
    r := SortedSet(exports);
  }

  /** Everything the extractor of `lang` pushes, before deduplication. */
  function ExportCandidates(source: string, lang: Language, scan: Scanner): seq<string> {
    match lang
    case JavaScript => JsExportCandidates(source, scan)
    case Python =>
      var c := StripPythonComments(source);
      scan(PyClass, c) + Filter(IsPublicName, scan(PyDef, c))
    case Go => scan(GoFunc, StripComments(source)) + scan(GoType, StripComments(source))
    case Rust => scan(RustPubFn, StripComments(source)) + scan(RustPubType, StripComments(source))
    case Java => scan(JavaPublicDecl, StripComments(source))
  }

  /** The exports of a file: its candidates, deduplicated and sorted. */
  function ExportsOf(source: string, lang: Language, scan: Scanner): seq<string> {
    SortedSet(ExportCandidates(source, lang, scan))
  }

  /** `extractExports`: dispatch on the language; no language, no exports. */
  method ExtractExports(source: string, lang: Option<Language>, scan: Scanner) returns (r: seq<string>)
    ensures StrictlySorted(r)
    ensures lang == None ==> r == []
    ensures lang.Some? ==> r == ExportsOf(source, lang.value, scan)
  {
    match lang {
      case None => r := [];
      case Some(JavaScript) => r := ExtractJsExports(source, scan);
      case Some(Python) => r := ExtractPythonExports(source, scan);
      case Some(Go) => r := ExtractGoExports(source, scan);
      case Some(Rust) => r := ExtractRustExports(source, scan);
      case Some(Java) => r := ExtractJavaExports(source, scan);
    }
  }
}
