/** The file-name tests the scripts apply to repository-relative paths: the
    list of supported extensions, the two different ways of reading an
    extension (`split('.').pop()` and `path.extname`), the language dispatch,
    and the POSIX `path.dirname`/`path.basename` of paths that do not end in
    a slash. */
module Paths {
  import opened Strings

  /** Extensions of the source files the indexer reads, in the scripts' order. */
  const SUPPORTED_EXTENSIONS: seq<string> :=
    ["js", "mjs", "cjs", "ts", "mts", "cts", "jsx", "tsx", "py", "go", "rs", "java"]

  /** Index of the last `c` in `s`, or -1. */
  function LastIndex(s: string, c: char): (i: int)
    ensures -1 <= i < |s|
    ensures i >= 0 ==> s[i] == c
    ensures forall j :: i < j < |s| ==> s[j] != c
    ensures (i >= 0) == (c in s)
  {
    if |s| == 0 then -1
    else if s[|s| - 1] == c then |s| - 1
    else LastIndex(s[..|s| - 1], c)
  }

  /** `path.basename(p)`: the text after the last `/`. */
  function Basename(p: string): (b: string)
    ensures '/' !in b && EndsWith(p, b)
    ensures |b| == |p| || p[|p| - |b| - 1] == '/'
  {
    p[LastIndex(p, '/') + 1..]
  }

  /** `path.dirname(p)`: the text before the last `/`; `.` when there is none
      and `/` when the only one is in front. */
  function Dirname(p: string): string {
    var i := LastIndex(p, '/');
    if i < 0 then "." else if i == 0 then "/" else p[..i]
  }

  /** A path with a slash after its first character is its directory, a slash
      and its base name. */
  lemma DirnameBasename(p: string)
    requires LastIndex(p, '/') > 0
    ensures p == Dirname(p) + "/" + Basename(p)
  {
  }

  /** `path.extname(p)`: from the last `.` of the base name on, unless that dot
      is the base name's first character (a dotfile) or there is none. */
  function Extname(p: string): (e: string)
    ensures e == "" || (e[0] == '.' && '.' !in e[1..] && '/' !in e && EndsWith(p, e))
    ensures e == "" <==> forall k :: 0 < k < |Basename(p)| ==> Basename(p)[k] != '.'
    ensures e != "" ==> EndsWith(Basename(p), e) && |e| < |Basename(p)|
  {
    var b := Basename(p);
    var i := LastIndex(b, '.');
    if i <= 0 then "" else b[i..]
  }

  /** `isSupportedFile`: the text after the last `.` of the whole path, compared
      case-sensitively with the supported extensions. */
  predicate IsSupportedFile(p: string) {
    LastPiece(p, '.') in SUPPORTED_EXTENSIONS
  }

  predicate EndsWithExtension(p: string, e: string) {
    EndsWith(p, ['.'] + e)
  }

  lemma LastPieceAfterLastIndex(s: string, c: char)
    ensures LastPiece(s, c) == s[LastIndex(s, c) + 1..]
  {
    LastPieceIsSuffix(s, c);
    if c in s {
      AfterLastIndex(s, c, LastPiece(s, c));
    }
  }

  /** Text without `c` that `s` ends with, just after a `c`, is what follows
      the last index of `c`. */
  lemma AfterLastIndex(s: string, c: char, r: string)
    requires EndsWith(s, [c] + r) && c !in r
    ensures r == s[LastIndex(s, c) + 1..]
  {
    var k := |s| - |r| - 1;
    SuffixAfterSeparator(s, c, r);
    forall j | k < j < |s| ensures s[j] != c {
      assert s[j] == r[j - k - 1];
    }
    LastIndexAt(s, c, k);
  }

  /** The last index of `c` is the position of a `c` with none after it. */
  lemma LastIndexAt(s: string, c: char, k: int)
    requires 0 <= k < |s| && s[k] == c
    requires forall j :: k < j < |s| ==> s[j] != c
    ensures LastIndex(s, c) == k
  {
  }

  /** A text ending with `c` and then `r` has `c` just before the last `|r|`
      characters, and those characters are `r`. */
  lemma SuffixAfterSeparator(s: string, c: char, r: string)
    requires EndsWith(s, [c] + r)
    ensures |r| < |s| && s[|s| - |r| - 1] == c && s[|s| - |r|..] == r
    ensures forall j :: |s| - |r| <= j < |s| ==> s[j] == r[j - (|s| - |r|)]
  {
    var k := |s| - |r| - 1;
    assert s[k..] == [c] + r;
    assert s[k] == ([c] + r)[0];
    assert s[k + 1..] == s[k..][1..];
  }

  /** When a path ends with `c` followed by text without `c`, that text is the last piece. */
  lemma LastPieceExact(p: string, c: char, e: string)
    requires EndsWith(p, [c] + e) && c !in e
    ensures LastPiece(p, c) == e
  {
    LastPieceAfterLastIndex(p, c);
    AfterLastIndex(p, c, e);
  }

  /** A path is supported exactly when it is itself a supported extension (no
      dot at all) or ends with a dot and a supported extension; the comparison
      is case-sensitive. */
  lemma IsSupportedFileIff(p: string)
    ensures IsSupportedFile(p) <==>
      p in SUPPORTED_EXTENSIONS ||
      exists e :: e in SUPPORTED_EXTENSIONS && EndsWithExtension(p, e)
  {
    LastPieceIsSuffix(p, '.');
    assert forall e :: e in SUPPORTED_EXTENSIONS ==> '.' !in e;
    if p in SUPPORTED_EXTENSIONS {
      assert IsSupportedFile(p);
    }
    if exists e :: e in SUPPORTED_EXTENSIONS && EndsWithExtension(p, e) {
      var e :| e in SUPPORTED_EXTENSIONS && EndsWithExtension(p, e);
      LastPieceExact(p, '.', e);
    }
    if IsSupportedFile(p) && '.' in p {
      assert EndsWithExtension(p, LastPiece(p, '.'));
    }
  }

  /** "A.JS" is not supported although its language is known, and the bare
      name "js" is supported although it has no extension. */
  lemma SupportedFileIsCaseSensitive()
    ensures !IsSupportedFile("A.JS")
    ensures IsSupportedFile("js")
  {
    assert '.' !in "js";
    LastPieceExact("A.JS", '.', "JS");
  }

  datatype Language = JavaScript | Python | Go | Rust | Java

  const JS_EXTENSIONS: seq<string> := ["js", "mjs", "cjs", "ts", "mts", "cts", "jsx", "tsx"]

  /** `getLanguage`: the lower-cased `path.extname` picks the language; the
      cases `.js` … `.java` are written here as a dot followed by a name. */
  function GetLanguage(p: string): Option<Language> {
    var e := Lower(Extname(p));
    if |e| == 0 || e[0] != '.' then None else LanguageOf(e[1..])
  }

  function LanguageOf(x: string): (r: Option<Language>)
    ensures r.Some? <==> x in SUPPORTED_EXTENSIONS
  {
    assert SUPPORTED_EXTENSIONS == JS_EXTENSIONS + ["py", "go", "rs", "java"];
    if x in JS_EXTENSIONS then Some(JavaScript)
    else if x == "py" then Some(Python)
    else if x == "go" then Some(Go)
    else if x == "rs" then Some(Rust)
    else if x == "java" then Some(Java)
    else None
  }

  /** A language is found exactly when the lower-cased extension, without its
      dot, is one of the supported extensions. */
  lemma GetLanguageIff(p: string)
    ensures GetLanguage(p).Some? <==>
      Extname(p) != "" && Lower(Extname(p))[1..] in SUPPORTED_EXTENSIONS
  {
  }

  /** `hasSourceExtension`: `path.extname` without its dot is a supported
      extension (case-sensitive). */
  predicate HasSourceExtension(p: string) {
    var e := Extname(p);
    (if |e| > 0 && e[0] == '.' then e[1..] else e) in SUPPORTED_EXTENSIONS
  }

  /** Every path the staleness check counts as a source file is also accepted
      by `isSupportedFile` and has a language. */
  lemma SourceExtensionSupported(p: string)
    requires HasSourceExtension(p)
    ensures IsSupportedFile(p) && GetLanguage(p).Some?
  {
    var e := Extname(p);
    EmptyNotSupported();
    assert e != "";
    var x := e[1..];
    assert x in SUPPORTED_EXTENSIONS;
    DotSplit(e);
    SupportedByExtension(p, x);
    LanguageByExtension(p, e, x);
  }

  lemma EmptyNotSupported()
    ensures "" !in SUPPORTED_EXTENSIONS
  {
  }

  lemma DotSplit(e: string)
    requires e != [] && e[0] == '.'
    ensures e == ['.'] + e[1..]
  {
  }

  lemma SupportedByExtension(p: string, x: string)
    requires x in SUPPORTED_EXTENSIONS && EndsWithExtension(p, x)
    ensures IsSupportedFile(p)
  {
    assert '.' !in x;
    LastPieceExact(p, '.', x);
  }

  lemma LanguageByExtension(p: string, e: string, x: string)
    requires e == Extname(p) && x in SUPPORTED_EXTENSIONS && e == ['.'] + x
    ensures GetLanguage(p).Some?
  {
    LowerSupported(x);
    LowerAppend(['.'], x);
    assert Lower(e)[1..] == x;
  }

  lemma LowerAppend(a: string, b: string)
    ensures Lower(a + b) == Lower(a) + Lower(b)
  {
  }

  lemma LowerSupported(x: string)
    requires x in SUPPORTED_EXTENSIONS
    ensures Lower(x) == x
  {
  }
}
