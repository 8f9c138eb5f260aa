/** What the code scanner reads out of one source file: comments are removed
    by character scans, generated files are recognised by name or by a marker
    near the top, and the per-language regular expressions deliver capture
    groups that are post-processed into sorted, duplicate-free lists of
    imported modules (split into packages and local modules) and exported
    names. The regular-expression matching itself is a parameter: `scan(p, t)`
    is the list of the groups the scanner reads from the matches of pattern `p`
    over text `t`, in match order. */
module Extract {
  import opened Strings
  import opened Paths

  // ---------------------------------------------------------------------------
  // Block comments and triple-quoted strings: `/open[\s\S]*?close/g`
  // ---------------------------------------------------------------------------

  /** `pat` occurs in `s` at index `k`. */
  predicate MatchAt(s: string, pat: string, k: int) {
    0 <= k && k + |pat| <= |s| && s[k..k + |pat|] == pat
  }

  /** Index of the first occurrence of `pat` in `s` at or after `from`, or -1. */
  function FindFrom(s: string, pat: string, from: nat): (r: int)
    requires |pat| > 0
    ensures r == -1 || (from <= r && MatchAt(s, pat, r))
    ensures forall k :: from <= k && (r == -1 || k < r) ==> !MatchAt(s, pat, k)
    decreases |s| - from
  {
    if from + |pat| > |s| then -1
    else if s[from..from + |pat|] == pat then from
    else FindFrom(s, pat, from + 1)
  }

  /** Global replacement of the shortest spans from `open` to the next `close`
      by `repl`; an `open` with no `close` after it ends the replacement. */
  function ReplaceSpans(s: string, open: string, close: string, repl: string): string
    requires |open| > 0 && |close| > 0
    decreases |s|
  {
    var i := FindFrom(s, open, 0);
    if i < 0 then s
    else
      var j := FindFrom(s, close, i + |open|);
      if j < 0 then s
      else s[..i] + repl + ReplaceSpans(s[j + |close|..], open, close, repl)
  }

  /** Text without an opening delimiter is left alone. */
  lemma ReplaceSpansNoOpen(s: string, open: string, close: string, repl: string)
    requires |open| > 0 && |close| > 0 && !Contains(s, open)
    ensures ReplaceSpans(s, open, close, repl) == s
  {
    var i := FindFrom(s, open, 0);
    if i >= 0 {
      ContainsAt(s, open, i);
    }
  }

  /** The first delimited span is replaced whole and the scan goes on after it. */
  lemma ReplaceSpansFirst(a: string, open: string, m: string, close: string, b: string, repl: string)
    requires |open| > 0 && |close| > 0
    requires open[0] !in a && close[0] !in m
    ensures ReplaceSpans(a + open + m + close + b, open, close, repl) ==
            a + repl + ReplaceSpans(b, open, close, repl)
  {
    var s := a + open + m + close + b;
    assert MatchAt(s, open, |a|);
    forall k | 0 <= k < |a| ensures !MatchAt(s, open, k) {
      assert s[k] == a[k];
    }
    var start := |a| + |open|;
    var c := |a| + |open| + |m|;
    assert MatchAt(s, close, c);
    forall k | start <= k < c ensures !MatchAt(s, close, k) {
      assert s[k] == m[k - start];
    }
    assert FindFrom(s, open, 0) == |a|;
    assert FindFrom(s, close, start) == c;
    assert s[c + |close|..] == b;
    assert s[..|a|] == a;
  }

  // ---------------------------------------------------------------------------
  // Line comments: `//` (not after `:`, not before a third `/`) and `#`
  // ---------------------------------------------------------------------------

  datatype CommentSyntax = Slashes | Hash

  /** A line comment starts at `i`: `(?<!:)\/\/(?!\/)` or `#`. */
  predicate CommentAt(syn: CommentSyntax, s: string, i: nat) {
    match syn
    case Slashes =>
      i + 2 <= |s| && s[i] == '/' && s[i + 1] == '/' &&
      (i == 0 || s[i - 1] != ':') && (i + 2 == |s| || s[i + 2] != '/')
    case Hash => i < |s| && s[i] == '#'
  }

  /** The first line terminator at or after `i`, or the end of the text. */
  function LineEnd(s: string, i: nat): (e: nat)
    requires i <= |s|
    ensures i <= e <= |s|
    ensures forall k :: i <= k < e ==> !IsLineTerminator(s[k])
    ensures e < |s| ==> IsLineTerminator(s[e])
    decreases |s| - i
  {
    if i == |s| || IsLineTerminator(s[i]) then i else LineEnd(s, i + 1)
  }

  /** Removes every comment from its start to the end of its line (`.*$` with
      the multiline flag), scanning from index `i`. */
  function StripLineComments(syn: CommentSyntax, s: string, i: nat): string
    requires i <= |s|
    decreases |s| - i
  {
    if i == |s| then ""
    else if CommentAt(syn, s, i) then StripLineComments(syn, s, LineEnd(s, i))
    else [s[i]] + StripLineComments(syn, s, i + 1)
  }

  /** `stripComments`: block comments first, then `//` line comments. */
  function StripComments(source: string): string {
    var t := ReplaceSpans(source, "/*", "*/", "");
    StripLineComments(Slashes, t, 0)
  }

  /** `stripPythonComments`: triple-quoted strings are emptied (their quotes
      stay), then `#` comments are removed. */
  function StripPythonComments(source: string): string {
    var t := ReplaceSpans(source, "\"\"\"", "\"\"\"", "\"\"\"\"\"\"");
    var u := ReplaceSpans(t, "'''", "'''", "''''''");
    StripLineComments(Hash, u, 0)
  }

  /** The line terminators of a text, in order. */
  function Terminators(s: string): (r: string)
    ensures forall k :: 0 <= k < |r| ==> IsLineTerminator(r[k])
  {
    if s == "" then ""
    else
      var rest := Terminators(s[1..]);
      if IsLineTerminator(s[0]) then [s[0]] + rest else rest
  }

  lemma {:induction false} TerminatorsAppend(a: string, b: string)
    ensures Terminators(a + b) == Terminators(a) + Terminators(b)
    decreases |a|
  {
    if a != "" {
      assert (a + b)[1..] == a[1..] + b;
      assert (a + b)[0] == a[0];
      TerminatorsAppend(a[1..], b);
      var t := Terminators(a[1..]);
      if IsLineTerminator(a[0]) {
        assert Terminators(a + b) == [a[0]] + (t + Terminators(b));
        assert [a[0]] + (t + Terminators(b)) == ([a[0]] + t) + Terminators(b);
      } else {
        assert Terminators(a + b) == t + Terminators(b);
      }
    } else {
      assert a + b == b;
    }
  }

  lemma {:induction false} TerminatorsNone(s: string)
    requires forall k :: 0 <= k < |s| ==> !IsLineTerminator(s[k])
    ensures Terminators(s) == ""
    decreases |s|
  {
    if s != "" {
      TerminatorsNone(s[1..]);
    }
  }

  /** Removing line comments keeps every line terminator, so the text keeps its
      lines and their order. */
  lemma {:induction false} StripKeepsLines(syn: CommentSyntax, s: string, i: nat)
    requires i <= |s|
    ensures Terminators(StripLineComments(syn, s, i)) == Terminators(s[i..])
    decreases |s| - i
  {
    if i < |s| {
      if CommentAt(syn, s, i) {
        var e := LineEnd(s, i);
        StripKeepsLines(syn, s, e);
        SliceConcat(s, i, e);
        TerminatorsAppend(s[i..e], s[e..]);
        TerminatorsNone(s[i..e]);
      } else {
        StripKeepsLines(syn, s, i + 1);
        SliceConcat(s, i, i + 1);
        assert s[i..i + 1] == [s[i]];
        TerminatorsAppend([s[i]], s[i + 1..]);
        TerminatorsAppend([s[i]], StripLineComments(syn, s, i + 1));
      }
    }
  }

  /** No `#` survives the Python line-comment pass. */
  lemma {:induction false} NoHashLeft(s: string, i: nat)
    requires i <= |s|
    ensures '#' !in StripLineComments(Hash, s, i)
    decreases |s| - i
  {
    if i < |s| {
      if CommentAt(Hash, s, i) {
        NoHashLeft(s, LineEnd(s, i));
      } else {
        NoHashLeft(s, i + 1);
      }
    }
  }

  /** Text in which no comment starts is left as it is. */
  lemma {:induction false} StripNothing(syn: CommentSyntax, s: string, i: nat)
    requires i <= |s|
    requires forall k :: i <= k < |s| ==> !CommentAt(syn, s, k)
    ensures StripLineComments(syn, s, i) == s[i..]
    decreases |s| - i
  {
    if i < |s| {
      StripNothing(syn, s, i + 1);
      assert s[i..] == [s[i]] + s[i + 1..];
    }
  }

  /** A URL's `://` is not a comment start. */
  lemma UrlIsNotComment()
    ensures StripLineComments(Slashes, "a://b", 0) == "a://b"
  {
    var s := "a://b";
    forall k | 0 <= k < |s| ensures !CommentAt(Slashes, s, k) {
    }
    StripNothing(Slashes, s, 0);
  }

  // ---------------------------------------------------------------------------
  // Generated files
  // ---------------------------------------------------------------------------

  /** The literal parts of `/\.generated\.\w+$/`, `/\.gen\.\w+$/`, `/_pb\.\w+$/`
      and `/_grpc\.\w+$/`. */
  const GENERATED_TAGS: seq<string> := [".generated.", ".gen.", "_pb.", "_grpc."]
  const GENERATED_MARKERS: seq<string> := ["@generated", "DO NOT EDIT"]

  predicate AllWord(w: string) {
    forall k :: 0 <= k < |w| ==> IsWordChar(w[k])
  }

  /** Length of the longest run of word characters ending the text. */
  function TrailingWordLen(s: string): (n: nat)
    ensures n <= |s|
    ensures forall k :: |s| - n <= k < |s| ==> IsWordChar(s[k])
    ensures n < |s| ==> !IsWordChar(s[|s| - n - 1])
  {
    if |s| > 0 && IsWordChar(s[|s| - 1]) then 1 + TrailingWordLen(s[..|s| - 1]) else 0
  }

  /** The path ends with `tag` and then one or more word characters. */
  predicate HasGeneratedTag(path: string, tag: string) {
    var n := TrailingWordLen(path);
    n > 0 && EndsWith(path[..|path| - n], tag)
  }

  /** `source.split('\n').slice(0, 5).join('\n')` */
  function FirstLines(source: string): string {
    var lines := Split(source, '\n');
    Join(lines[..if |lines| < 5 then |lines| else 5], '\n')
  }

  /** `isGeneratedFile` */
  predicate IsGeneratedFile(path: string, source: string) {
    (exists t :: t in GENERATED_TAGS && HasGeneratedTag(path, t)) ||
    MarkerNearTop(source)
  }

  /** For a tag ending in a non-word character, the scan above is the regular
      expression `tag\w+$`. */
  lemma GeneratedTagIff(path: string, tag: string)
    requires |tag| > 0 && !IsWordChar(tag[|tag| - 1])
    ensures HasGeneratedTag(path, tag) <==>
      exists w :: |w| > 0 && AllWord(w) && EndsWith(path, tag + w)
  {
    if HasGeneratedTag(path, tag) {
      GeneratedTagSound(path, tag);
    }
    if exists w :: |w| > 0 && AllWord(w) && EndsWith(path, tag + w) {
      var w :| |w| > 0 && AllWord(w) && EndsWith(path, tag + w);
      GeneratedTagComplete(path, tag, w);
    }
  }

  lemma GeneratedTagSound(path: string, tag: string)
    requires HasGeneratedTag(path, tag)
    ensures var w := path[|path| - TrailingWordLen(path)..];
      |w| > 0 && AllWord(w) && EndsWith(path, tag + w)
  {
    var n := TrailingWordLen(path);
    var w := path[|path| - n..];
    SliceConcat(path, |path| - n - |tag|, |path| - n);
  }

  lemma GeneratedTagComplete(path: string, tag: string, w: string)
    requires |tag| > 0 && !IsWordChar(tag[|tag| - 1])
    requires |w| > 0 && AllWord(w) && EndsWith(path, tag + w)
    ensures HasGeneratedTag(path, tag)
  {
    var L := |path|;
    assert path[L - |w| - |tag|..] == tag + w;
    assert path[L - |w| - 1] == tag[|tag| - 1];
    forall k | L - |w| <= k < L ensures IsWordChar(path[k]) {
      assert path[k] == w[k - (L - |w|)];
    }
    TrailingWordLenIs(path, |w|);
    assert path[..L - |w|][L - |w| - |tag|..] == tag;
  }

  /** The trailing run of word characters is the one that a non-word
      character (or the start of the text) bounds. */
  lemma TrailingWordLenIs(s: string, n: nat)
    requires n <= |s|
    requires forall k :: |s| - n <= k < |s| ==> IsWordChar(s[k])
    requires n < |s| ==> !IsWordChar(s[|s| - n - 1])
    ensures TrailingWordLen(s) == n
  {
  }

  lemma ContainsAroundNewline(a: string, b: string, m: string)
    requires '\n' !in m
    ensures Contains(a + "\n" + b, m) <==> Contains(a, m) || Contains(b, m)
  {
    if Contains(a + "\n" + b, m) {
      ContainsOnOneSide(a, b, m);
    }
    if Contains(a, m) {
      ContainsInLeft(a, b, m);
    }
    if Contains(b, m) {
      ContainsInRight(a, b, m);
    }
  }

  lemma ContainsOnOneSide(a: string, b: string, m: string)
    requires '\n' !in m && Contains(a + "\n" + b, m)
    ensures Contains(a, m) || Contains(b, m)
  {
    var an := a + "\n";
    var s := an + b;
    var k := ContainsWitness(s, m);
    ConcatSlices(an, b, k, k + |m|);
    if k + |m| <= |a| {
      ConcatSlices(a, "\n", k, k + |m|);
      ContainsAt(a, m, k);
    } else if k > |a| {
      ContainsAt(b, m, k - |a| - 1);
    } else {
      WindowOverChar(s, m, k, |a|);
      assert false;
    }
  }

  lemma ContainsInLeft(a: string, b: string, m: string)
    requires Contains(a, m)
    ensures Contains(a + "\n" + b, m)
  {
    var k := ContainsWitness(a, m);
    ConcatSlices(a, "\n", k, k + |m|);
    ConcatSlices(a + "\n", b, k, k + |m|);
    ContainsAt(a + "\n" + b, m, k);
  }

  lemma ContainsInRight(a: string, b: string, m: string)
    requires Contains(b, m)
    ensures Contains(a + "\n" + b, m)
  {
    var k := ContainsWitness(b, m);
    ConcatSlices(a + "\n", b, |a| + 1 + k, |a| + 1 + k + |m|);
    ContainsAt(a + "\n" + b, m, |a| + 1 + k);
  }

  /** A window of `s` that covers index `j` holds the character at `j`. */
  lemma WindowOverChar(s: string, m: string, k: nat, j: nat)
    requires k <= j < k + |m| <= |s| && s[k..k + |m|] == m
    ensures s[j] in m
  {
    assert m[j - k] == s[j];
  }

  /** A text without a newline occurs in joined lines exactly when it occurs in one of them. */
  lemma {:induction false} ContainsInJoin(lines: seq<string>, m: string)
    requires |m| > 0 && '\n' !in m
    ensures Contains(Join(lines, '\n'), m) <==> exists i :: 0 <= i < |lines| && Contains(lines[i], m)
    decreases |lines|
  {
    if |lines| == 1 {
    } else if |lines| > 1 {
      ContainsInJoin(lines[1..], m);
      ContainsAroundNewline(lines[0], Join(lines[1..], '\n'), m);
      if exists i :: 1 <= i < |lines| && Contains(lines[i], m) {
        var i :| 1 <= i < |lines| && Contains(lines[i], m);
        assert lines[1..][i - 1] == lines[i];
      }
    }
  }

  lemma TagsEndInDot(t: string)
    requires t in GENERATED_TAGS
    ensures |t| > 0 && !IsWordChar(t[|t| - 1])
  {
  }

  /** The name test of `isGeneratedFile` is the four regular expressions. */
  lemma GeneratedNameIff(path: string)
    ensures (exists t :: t in GENERATED_TAGS && HasGeneratedTag(path, t)) <==>
            (exists t, w :: t in GENERATED_TAGS && |w| > 0 && AllWord(w) && EndsWith(path, t + w))
  {
    if exists t :: t in GENERATED_TAGS && HasGeneratedTag(path, t) {
      var t :| t in GENERATED_TAGS && HasGeneratedTag(path, t);
      TagsEndInDot(t);
      GeneratedTagIff(path, t);
    }
    if exists t, w :: t in GENERATED_TAGS && |w| > 0 && AllWord(w) && EndsWith(path, t + w) {
      var t, w :| t in GENERATED_TAGS && |w| > 0 && AllWord(w) && EndsWith(path, t + w);
      TagsEndInDot(t);
      GeneratedTagIff(path, t);
    }
  }

  lemma MarkersHaveNoNewline(m: string)
    requires m in GENERATED_MARKERS
    ensures |m| > 0 && '\n' !in m
  {
  }

  predicate MarkerNearTop(source: string) {
    exists m :: m in GENERATED_MARKERS && Contains(FirstLines(source), m)
  }

  predicate MarkerInFirstFiveLines(source: string) {
    var lines := Split(source, '\n');
    exists i, m :: 0 <= i < 5 && i < |lines| && m in GENERATED_MARKERS && Contains(lines[i], m)
  }

  /** The marker test of `isGeneratedFile` looks at the first five lines only. */
  lemma GeneratedMarkerIff(source: string)
    ensures MarkerNearTop(source) <==> MarkerInFirstFiveLines(source)
  {
    var lines := Split(source, '\n');
    var first := lines[..if |lines| < 5 then |lines| else 5];
    assert FirstLines(source) == Join(first, '\n');
    if MarkerNearTop(source) {
      var m :| m in GENERATED_MARKERS && Contains(FirstLines(source), m);
      MarkersHaveNoNewline(m);
      ContainsInJoin(first, m);
      var i :| 0 <= i < |first| && Contains(first[i], m);
      assert first[i] == lines[i];
    }
    if MarkerInFirstFiveLines(source) {
      var i, m :| 0 <= i < 5 && i < |lines| && m in GENERATED_MARKERS && Contains(lines[i], m);
      assert first[i] == lines[i];
      MarkersHaveNoNewline(m);
      ContainsInJoin(first, m);
    }
  }

  /** A file is generated exactly when its path ends in a generated tag
      followed by word characters, or one of its first five lines holds a
      generation marker. */
  lemma IsGeneratedFileIff(path: string, source: string)
    ensures IsGeneratedFile(path, source) <==>
      (exists t, w :: t in GENERATED_TAGS && |w| > 0 && AllWord(w) && EndsWith(path, t + w)) ||
      MarkerInFirstFiveLines(source)
  {
    GeneratedNameIff(path);
    GeneratedMarkerIff(source);
  }

  // ---------------------------------------------------------------------------
  // Regular-expression captures
  // ---------------------------------------------------------------------------

  /** The regular expressions the extractors run, one per `matchAll`. */
  datatype Pattern =
    | EsImport | SideEffectImport | CjsRequire | DynamicImport
    | JsNamedExport | JsDefaultExport | JsReExport | CjsObjectExport | CjsSingleExport
    | PyFromImport | PyPlainImport | PyClass | PyDef
    | GoSingleImport | GoBlockImport | GoFunc | GoType
    | RustUse | RustPubFn | RustPubType
    | JavaImport | JavaPublicDecl

  /** The captured group of every match of a pattern over a text, in order. */
  type Scanner = (Pattern, string) -> seq<string>

  // ---------------------------------------------------------------------------
  // Imports
  // ---------------------------------------------------------------------------

  datatype Imports = Imports(packages: seq<string>, local: seq<string>)

  /** The per-language test for a module of the project itself. */
  datatype LocalRule = JsAliases | PythonRelative | RustPaths

  predicate IsLocal(rule: LocalRule, t: string) {
    match rule
    case JsAliases =>
      StartsWith(t, ".") || StartsWith(t, "@/") || StartsWith(t, "~/") || StartsWith(t, "#/")
    case PythonRelative => StartsWith(t, ".")
    case RustPaths => StartsWith(t, "crate::") || StartsWith(t, "super::") || StartsWith(t, "self::")
  }

  /** Only the JavaScript `classify` helper drops an empty target. */
  predicate Kept(rule: LocalRule, t: string) {
    rule != JsAliases || t != ""
  }

  /** Both lists sorted without duplicates. */
  predicate Normalized(r: Imports) {
    StrictlySorted(r.packages) && StrictlySorted(r.local)
  }

  /** Normalized, and no module in both lists. */
  predicate WellFormed(r: Imports) {
    Normalized(r) && forall t :: t in r.local ==> t !in r.packages
  }

  /** The targets, in order, that the partitioning sends to `local` (when
      `toLocal`) or to `packages`. */
  function Partitioned(rule: LocalRule, ts: seq<string>, toLocal: bool): seq<string> {
    if ts == [] then []
    else
      var t := ts[|ts| - 1];
      Partitioned(rule, ts[..|ts| - 1], toLocal) +
      (if Kept(rule, t) && IsLocal(rule, t) == toLocal then [t] else [])
  }

  lemma {:induction false} PartitionedMembers(rule: LocalRule, ts: seq<string>, toLocal: bool, t: string)
    ensures t in Partitioned(rule, ts, toLocal) <==> t in ts && Kept(rule, t) && IsLocal(rule, t) == toLocal
    decreases |ts|
  {
    if ts != [] {
      PartitionedMembers(rule, ts[..|ts| - 1], toLocal, t);
      InitLast(ts);
    }
  }

  lemma {:induction false} PartitionedAppend(rule: LocalRule, a: seq<string>, b: seq<string>, toLocal: bool)
    ensures Partitioned(rule, a + b, toLocal) == Partitioned(rule, a, toLocal) + Partitioned(rule, b, toLocal)
    decreases |b|
  {
    if b == [] {
      assert a + b == a;
    } else {
      var b0, t := b[..|b| - 1], b[|b| - 1];
      var x := if Kept(rule, t) && IsLocal(rule, t) == toLocal then [t] else [];
      PartitionedAppend(rule, a, b0, toLocal);
      InitOfAppend(a, b);
      assert Partitioned(rule, a + b, toLocal) == Partitioned(rule, a + b0, toLocal) + x;
      AppendAssoc(Partitioned(rule, a, toLocal), Partitioned(rule, b0, toLocal), x);
    }
  }

  /** Pushing the partitions of four lists one after the other onto empty
      lists partitions their concatenation. */
  lemma PartitionedFour(rule: LocalRule, a: seq<string>, b: seq<string>, c: seq<string>, d: seq<string>,
                        toLocal: bool)
    ensures [] + Partitioned(rule, a, toLocal) + Partitioned(rule, b, toLocal) +
            Partitioned(rule, c, toLocal) + Partitioned(rule, d, toLocal) ==
            Partitioned(rule, a + b + c + d, toLocal)
  {
    PartitionedAppend(rule, a + b + c, d, toLocal);
    PartitionedAppend(rule, a + b, c, toLocal);
    PartitionedAppend(rule, a, b, toLocal);
    assert [] + Partitioned(rule, a, toLocal) == Partitioned(rule, a, toLocal);
  }

  lemma PartitionedSnoc(rule: LocalRule, ts: seq<string>, i: nat, toLocal: bool)
    requires i < |ts|
    ensures Partitioned(rule, ts[..i + 1], toLocal) ==
      Partitioned(rule, ts[..i], toLocal) +
      (if Kept(rule, ts[i]) && IsLocal(rule, ts[i]) == toLocal then [ts[i]] else [])
  {
    assert ts[..i + 1][..i] == ts[..i];
  }

  /** Pushes each target onto `packages` or `local`, as the `classify` helper
      (or the inline test) of each extractor does. */
  method PushPartitioned(rule: LocalRule, targets: seq<string>, packages0: seq<string>, local0: seq<string>)
    returns (packages: seq<string>, local: seq<string>)
    ensures packages == packages0 + Partitioned(rule, targets, false)
    ensures local == local0 + Partitioned(rule, targets, true)
  {
    packages, local := packages0, local0;
    for i := 0 to |targets|
      invariant packages == packages0 + Partitioned(rule, targets[..i], false)
      invariant local == local0 + Partitioned(rule, targets[..i], true)
    {
      PartitionedSnoc(rule, targets, i, false);
      PartitionedSnoc(rule, targets, i, true);
      var t := targets[i];
      if Kept(rule, t) {
        if IsLocal(rule, t) {
          local := local + [t];
        } else {
          packages := packages + [t];
        }
      }
    }
    TakeAll(targets);
  }

  /** Pushes every element, as `for (const m of ...) xs.push(m[1])` does. */
  method PushAll(acc: seq<string>, xs: seq<string>) returns (r: seq<string>)
    ensures r == acc + xs
  {
    r := acc;
    for i := 0 to |xs|
      invariant r == acc + xs[..i]
    {
      r := r + [xs[i]];
    }
    TakeAll(xs);
  }

  /** The concatenation of `f(g)` over the groups, in order: the nested
      `for` loops that push every name of every match. */
  function FlatMap(f: string -> seq<string>, groups: seq<string>): seq<string> {
    if groups == [] then []
    else FlatMap(f, groups[..|groups| - 1]) + f(groups[|groups| - 1])
  }

  lemma FlatMapSnoc(f: string -> seq<string>, groups: seq<string>, i: nat)
    requires i < |groups|
    ensures FlatMap(f, groups[..i + 1]) == FlatMap(f, groups[..i]) + f(groups[i])
  {
    assert groups[..i + 1][..i] == groups[..i];
  }

  /** Every element comes from one of the groups, and every group contributes all of its elements. */
  lemma {:induction false} FlatMapMembers(f: string -> seq<string>, groups: seq<string>, t: string)
    ensures t in FlatMap(f, groups) <==> exists g :: g in groups && t in f(g)
    decreases |groups|
  {
    if groups != [] {
      var init := groups[..|groups| - 1];
      FlatMapMembers(f, init, t);
      assert groups == init + [groups[|groups| - 1]];
    }
  }

  method PushFlatMap(acc: seq<string>, f: string -> seq<string>, groups: seq<string>) returns (r: seq<string>)
    ensures r == acc + FlatMap(f, groups)
  {
    r := acc;
    for i := 0 to |groups|
      invariant r == acc + FlatMap(f, groups[..i])
    {
      FlatMapSnoc(f, groups, i);
      r := PushAll(r, f(groups[i]));
    }
    TakeAll(groups);
  }

  /** Both sides of the partition of `ts`, deduplicated and sorted. */
  function Partition(rule: LocalRule, ts: seq<string>): Imports {
    Imports(SortedSet(Partitioned(rule, ts, false)), SortedSet(Partitioned(rule, ts, true)))
  }

  /** The partition is well formed, and a kept target is local or a package
      according to the language's rule alone. */
  lemma PartitionSpec(rule: LocalRule, ts: seq<string>)
    ensures WellFormed(Partition(rule, ts))
    ensures forall t :: t in Partition(rule, ts).local <==> t in ts && Kept(rule, t) && IsLocal(rule, t)
    ensures forall t :: t in Partition(rule, ts).packages <==> t in ts && Kept(rule, t) && !IsLocal(rule, t)
  {
    forall t
      ensures t in Partition(rule, ts).local <==> t in ts && Kept(rule, t) && IsLocal(rule, t)
      ensures t in Partition(rule, ts).packages <==> t in ts && Kept(rule, t) && !IsLocal(rule, t)
    {
      PartitionedMembers(rule, ts, true, t);
      PartitionedMembers(rule, ts, false, t);
    }
  }

  /** The import targets of a JavaScript or TypeScript file, in the order the
      four patterns are run. */
  function JsImportTargets(source: string, scan: Scanner): seq<string> {
    var c := StripComments(source);
    scan(EsImport, c) + scan(SideEffectImport, c) + scan(CjsRequire, c) + scan(DynamicImport, c)
  }

  /** `extractJSImports`: a non-empty target is local exactly when it starts
      with `.`, `@/`, `~/` or `#/` (see `PartitionSpec`). */
  method ExtractJsImports(source: string, scan: Scanner) returns (r: Imports)
    ensures r == Partition(JsAliases, JsImportTargets(source, scan))
  {
    var cleaned := StripComments(source);
    var a, b, c, d := scan(EsImport, cleaned), scan(SideEffectImport, cleaned),
                      scan(CjsRequire, cleaned), scan(DynamicImport, cleaned);
    var packages, local := [], [];
    packages, local := PushPartitioned(JsAliases, a, packages, local);
    packages, local := PushPartitioned(JsAliases, b, packages, local);
    packages, local := PushPartitioned(JsAliases, c, packages, local);
    packages, local := PushPartitioned(JsAliases, d, packages, local);
    PartitionedFour(JsAliases, a, b, c, d, false);
    PartitionedFour(JsAliases, a, b, c, d, true);
    r := Imports(SortedSet(packages), SortedSet(local));
  }

  /** `pieces.map(s => s.trim()).filter(Boolean)` */
  function NonEmptyTrimmed(pieces: seq<string>): seq<string> {
    if pieces == [] then []
    else
      var t := Trim(pieces[0]);
      (if t != "" then [t] else []) + NonEmptyTrimmed(pieces[1..])
  }

  /** The module names of one `import a, b.c` statement. */
  function PlainImportNames(group: string): seq<string> {
    NonEmptyTrimmed(Split(group, ','))
  }

  /** A name of a plain `import` is one comma-separated piece, trimmed and not empty. */
  lemma {:induction false} PlainImportNameIsPiece(pieces: seq<string>, n: string)
    ensures n in NonEmptyTrimmed(pieces) <==> n != "" && exists p :: p in pieces && Trim(p) == n
    decreases |pieces|
  {
    if pieces != [] {
      PlainImportNameIsPiece(pieces[1..], n);
      if exists p :: p in pieces && Trim(p) == n {
        var p :| p in pieces && Trim(p) == n;
        if p != pieces[0] {
          assert p in pieces[1..];
        }
      }
    }
  }

  /** What `extractPythonImports` returns for the `from` targets and the
      plain-`import` groups. */
  function PythonImports(fromTargets: seq<string>, plainGroups: seq<string>): Imports {
    Imports(SortedSet(Partitioned(PythonRelative, fromTargets, false) + FlatMap(PlainImportNames, plainGroups)),
            SortedSet(Partitioned(PythonRelative, fromTargets, true)))
  }

  /** `from` targets are local exactly when they start with `.`; every name of
      a plain `import` is a package, even one starting with `.`. */
  lemma PythonImportsSpec(fromTargets: seq<string>, plainGroups: seq<string>)
    ensures var r := PythonImports(fromTargets, plainGroups);
      Normalized(r) &&
      (forall t :: t in r.local <==> t in fromTargets && IsLocal(PythonRelative, t)) &&
      (forall t :: t in r.packages <==>
         (t in fromTargets && !IsLocal(PythonRelative, t)) || t in FlatMap(PlainImportNames, plainGroups))
  {
    forall t
      ensures t in Partitioned(PythonRelative, fromTargets, true) <==> t in fromTargets && IsLocal(PythonRelative, t)
      ensures t in Partitioned(PythonRelative, fromTargets, false) <==> t in fromTargets && !IsLocal(PythonRelative, t)
    {
      PartitionedMembers(PythonRelative, fromTargets, true, t);
      PartitionedMembers(PythonRelative, fromTargets, false, t);
    }
  }

  lemma PlainImportDotA()
    ensures PlainImportNames(".a") == [".a"]
  {
    assert ".a"[0] == '.' && ".a"[1] == 'a';
    PlainImportSingle(".a");
  }

  /** A group with no comma and no surrounding whitespace names one module. */
  lemma PlainImportSingle(n: string)
    requires ',' !in n && n != "" && !IsSpace(n[0]) && !IsSpace(n[|n| - 1])
    ensures PlainImportNames(n) == [n]
  {
    assert Split(n, ',') == [n];
    TrimNoSpace(n);
    assert NonEmptyTrimmed([n]) == [n] + NonEmptyTrimmed([]);
  }

  /** A plain `import .a` beside `from .a import b` puts `.a` in both lists:
      only the `from` targets are checked for a leading dot. */
  lemma PythonListsMayOverlap()
    ensures var r := PythonImports([".a"], [".a"]); ".a" in r.packages && ".a" in r.local
  {
    PythonImportsSpec([".a"], [".a"]);
    DotAIsRelative();
    DotAIsPlainName();
  }

  lemma DotAIsRelative()
    ensures IsLocal(PythonRelative, ".a")
  {
    assert ".a"[..1] == ".";
  }

  lemma DotAIsPlainName()
    ensures ".a" in FlatMap(PlainImportNames, [".a"])
  {
    PlainImportDotA();
    FlatMapSingle(PlainImportNames, ".a");
  }

  lemma FlatMapSingle(f: string -> seq<string>, g: string)
    ensures FlatMap(f, [g]) == f(g)
  {
    var none: seq<string> := [];
    assert [g][..0] == none;
  }

  /** `extractPythonImports` */
  method ExtractPythonImports(source: string, scan: Scanner) returns (r: Imports)
    ensures r == PythonImports(scan(PyFromImport, StripPythonComments(source)),
                               scan(PyPlainImport, StripPythonComments(source)))
  {
    var cleaned := StripPythonComments(source);
    var fromTargets, groups := scan(PyFromImport, cleaned), scan(PyPlainImport, cleaned);
    var packages, local := PushPartitioned(PythonRelative, fromTargets, [], []);
    AppendEmpty(Partitioned(PythonRelative, fromTargets, false));
    AppendEmpty(Partitioned(PythonRelative, fromTargets, true));
    packages := PushFlatMap(packages, PlainImportNames, groups);
    r := Imports(SortedSet(packages), SortedSet(local));
  }

  /** `"v"` stands at `k`: a double quote, the non-empty quote-free `v`, and
      a closing double quote. */
  predicate QuotedAt(s: string, k: nat, v: string) {
    k + |v| + 2 <= |s| && |v| > 0 && '"' !in v &&
    s[k] == '"' && s[k + 1..k + 1 + |v|] == v && s[k + 1 + |v|] == '"'
  }

  /** Dropping the first character moves every quoted pair one place left. */
  lemma QuotedShift(s: string)
    requires |s| > 0
    ensures forall k: nat, v :: QuotedAt(s[1..], k, v) <==> QuotedAt(s, k + 1, v)
  {
    forall k: nat, v
      ensures QuotedAt(s[1..], k, v) <==> QuotedAt(s, k + 1, v)
    {
      if k + |v| + 2 <= |s[1..]| {
        assert s[1..][k + 1..k + 1 + |v|] == s[k + 2..k + 2 + |v|];
      }
    }
  }

  /** A pair at the front needs a second character that is not a quote and a
      later quote. */
  lemma QuotedAtFront(s: string, v: string)
    requires QuotedAt(s, 0, v)
    ensures |s| >= 3 && s[0] == '"' && s[1] != '"' && '"' in s[2..]
  {
    assert s[1] == v[0];
    assert s[2..][|v| - 1] == '"';
  }

  /** The quoted text of `/(?:\w+\s+)?"([^"]+)"/` on one line: the leftmost
      pair of double quotes with at least one character between them (the
      optional word before it holds no quote, so it cannot move the match). */
  function FirstQuoted(s: string): (r: Option<string>)
    ensures r.Some? ==> |r.value| > 0 && '"' !in r.value && Contains(s, ['"'] + r.value + ['"'])
    ensures r.Some? ==> exists k: nat :: (QuotedAt(s, k, r.value) &&
      forall m: nat, w :: m < k ==> !QuotedAt(s, m, w))
    ensures r.None? ==> forall k: nat, w :: !QuotedAt(s, k, w)
    ensures '"' !in s ==> r == None
    decreases |s|
  {
    if |s| < 3 then None
    else if s[0] == '"' && s[1] != '"' && '"' in s[2..] then
      var j := IndexOfChar(s[1..], '"');
      var v := s[1..1 + j];
      assert s[..j + 2] == ['"'] + v + ['"'];
      ContainsAt(s, ['"'] + v + ['"'], 0);
      assert QuotedAt(s, 0, v);
      Some(v)
    else
      var r := FirstQuoted(s[1..]);
      QuotedShift(s);
      assert forall w :: !QuotedAt(s, 0, w) by {
        forall w | QuotedAt(s, 0, w) { QuotedAtFront(s, w); }
      }
      if r.Some? then
        ContainsSuffix(s, ['"'] + r.value + ['"'], 1);
        assert exists k: nat :: (QuotedAt(s, k, r.value) &&
          forall m: nat, w :: m < k ==> !QuotedAt(s, m, w)) by {
          var k: nat :| QuotedAt(s[1..], k, r.value) &&
            forall m: nat, w :: m < k ==> !QuotedAt(s[1..], m, w);
          forall m: nat, w | m < k + 1
            ensures !QuotedAt(s, m, w)
          {
            if m > 0 { assert !QuotedAt(s[1..], m - 1, w); }
          }
          assert QuotedAt(s, k + 1, r.value);
        }
        r
      else
        assert forall k: nat, w :: !QuotedAt(s, k, w) by {
          forall k: nat, w | k > 0
            ensures !QuotedAt(s, k, w)
          {
            assert !QuotedAt(s[1..], k - 1, w);
          }
        }
        r
  }

  /** A Go block line `alias "path"` yields its path. */
  lemma FirstQuotedAliased()
    ensures FirstQuoted("f \"fmt\"") == Some("fmt")
  {
    var q := "\"fmt\"";
    assert IndexOfChar(q[1..], '"') == 3 by {
      assert q[1..][1..][1..][1..] == "\"";
    }
    assert q[1..4] == "fmt";
    assert FirstQuoted(q) == Some("fmt");
    var s := "f \"fmt\"";
    assert s[1..][1..] == q;
  }

  /** The packages of one `import ( ... )` block: the first quoted text of each trimmed line. */
  function BlockPackages(lines: seq<string>): seq<string> {
    if lines == [] then []
    else
      var q := FirstQuoted(Trim(lines[0]));
      (if q.Some? then [q.value] else []) + BlockPackages(lines[1..])
  }

  /** Every block package is a non-empty text without quotes. */
  lemma {:induction false} BlockPackagesUnquoted(lines: seq<string>, t: string)
    requires t in BlockPackages(lines)
    ensures t != "" && '"' !in t
    decreases |lines|
  {
    var q := FirstQuoted(Trim(lines[0]));
    if !(q.Some? && t == q.value) {
      BlockPackagesUnquoted(lines[1..], t);
    }
  }

  /** The packages of one captured block body. */
  function GroupPackages(group: string): seq<string> {
    BlockPackages(Split(group, '\n'))
  }

  /** `extractGoImports`: single and block imports are all packages; there are
      never local imports. */
  method ExtractGoImports(source: string, scan: Scanner) returns (r: Imports)
    ensures WellFormed(r) && r.local == []
    ensures r.packages == SortedSet(scan(GoSingleImport, StripComments(source)) +
                                    FlatMap(GroupPackages, scan(GoBlockImport, StripComments(source))))
  {
    var cleaned := StripComments(source);
    var singles, groups := scan(GoSingleImport, cleaned), scan(GoBlockImport, cleaned);
    var packages := PushAll([], singles);
    AppendEmpty(singles);
    packages := PushFlatMap(packages, GroupPackages, groups);
    r := Imports(SortedSet(packages), SortedSet([]));
    assert r.local == [];
  }

  /** `extractRustImports`: a `use` path is local exactly when it starts with
      `crate::`, `super::` or `self::` (see `PartitionSpec`). */
  method ExtractRustImports(source: string, scan: Scanner) returns (r: Imports)
    ensures r == Partition(RustPaths, scan(RustUse, StripComments(source)))
  {
    var cleaned := StripComments(source);
    var packages, local := PushPartitioned(RustPaths, scan(RustUse, cleaned), [], []);
    assert packages == Partitioned(RustPaths, scan(RustUse, cleaned), false);
    assert local == Partitioned(RustPaths, scan(RustUse, cleaned), true);
    r := Imports(SortedSet(packages), SortedSet(local));
  }

  /** `extractJavaImports`: every import is a package. */
  method ExtractJavaImports(source: string, scan: Scanner) returns (r: Imports)
    ensures WellFormed(r) && r.local == []
    ensures forall t :: t in r.packages <==> t in scan(JavaImport, StripComments(source))
    ensures r == Imports(SortedSet(scan(JavaImport, StripComments(source))), [])
  {
    var cleaned := StripComments(source);
    var packages := PushAll([], scan(JavaImport, cleaned));
    AppendEmpty(scan(JavaImport, cleaned));
    r := Imports(SortedSet(packages), SortedSet([]));
  }

  /** The imports of a file in a supported language, as each language's
      extractor computes them from the comment-stripped source. */
  function ImportsOf(source: string, lang: Language, scan: Scanner): Imports {
    match lang
    case JavaScript => Partition(JsAliases, JsImportTargets(source, scan))
    case Python =>
      var cleaned := StripPythonComments(source);
      PythonImports(scan(PyFromImport, cleaned), scan(PyPlainImport, cleaned))
    case Go =>
      var cleaned := StripComments(source);
      Imports(SortedSet(scan(GoSingleImport, cleaned) + FlatMap(GroupPackages, scan(GoBlockImport, cleaned))), [])
    case Rust => Partition(RustPaths, scan(RustUse, StripComments(source)))
    case Java => Imports(SortedSet(scan(JavaImport, StripComments(source))), [])
  }

  /** `extractImports`: dispatch on the language; no language gives empty
      lists, and only JavaScript, Python and Rust can report local modules.
      Outside Python no module is both a package and local. */
  method ExtractImports(source: string, lang: Option<Language>, scan: Scanner) returns (r: Imports)
    ensures Normalized(r)
    ensures lang != Some(Python) ==> WellFormed(r)
    ensures lang == None ==> r == Imports([], [])
    ensures lang != Some(JavaScript) && lang != Some(Python) && lang != Some(Rust) ==> r.local == []
    ensures lang.Some? ==> r == ImportsOf(source, lang.value, scan)
  {
    match lang {
      case None =>
        r := Imports([], []);
      case Some(JavaScript) =>
        r := ExtractJsImports(source, scan);
        PartitionSpec(JsAliases, JsImportTargets(source, scan));
      case Some(Python) =>
        r := ExtractPythonImports(source, scan);
        PythonImportsSpec(scan(PyFromImport, StripPythonComments(source)),
                          scan(PyPlainImport, StripPythonComments(source)));
      case Some(Go) =>
        r := ExtractGoImports(source, scan);
      case Some(Rust) =>
        r := ExtractRustImports(source, scan);
        PartitionSpec(RustPaths, scan(RustUse, StripComments(source)));
      case Some(Java) =>
        r := ExtractJavaImports(source, scan);
    }
  }
}
