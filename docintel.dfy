/**
 * The documentation-derived intel builder: from the codebase documents
 * (STRUCTURE.md, ARCHITECTURE.md, CONVENTIONS.md, TESTING.md, ...) it mines
 * the file paths the documents mention, the `Imports:`/`Exports:` notes near
 * each mention, a naming-convention guess, the directory purposes, and a
 * summary bounded in length.
 */
module DocIntel {
  import opened Strings
  import opened Dicts
  import opened Classify
  import opened Extract
  import opened Exports
  import opened Paths

  // ---------------------------------------------------------------------------
  // Documents
  // ---------------------------------------------------------------------------

  /** The documents read from the codebase directory, in the order they are read. */
  const DOC_FILES: seq<string> := [
    "STACK.md", "ARCHITECTURE.md", "CONVENTIONS.md", "TESTING.md",
    "STRUCTURE.md", "INTEGRATIONS.md", "CONCERNS.md"
  ]

  /** The `source` of the index this builder writes. */
  const SOURCE_LABEL: string := "kata-map-codebase"

  /** Document contents by file name; a document that does not exist reads as
      the empty text. */
  type Docs = map<string, string>

  /** `docs[name] || ""` */
  function DocText(docs: Docs, name: string): string {
    if name in docs then docs[name] else ""
  }

  /** `git rev-parse --short HEAD`, trimmed, or `unknown` when git fails;
      `git` is the command's output, `None` when it throws. */
  function CommitHashOf(git: Option<string>): (h: string)
    ensures git.None? ==> h == "unknown"
    ensures git.Some? ==> exists i :: IsSliceAt(h, git.value, i)
  {
    match git
    case None => "unknown"
    case Some(out) => Trim(out)
  }

  function Min(a: int, b: int): int { if a <= b then a else b }
  function Max(a: int, b: int): int { if a >= b then a else b }

  /** The patterns this builder leaves to a regular-expression engine: the bare
      dotted paths of `extractPathCandidates` (whole match) and the
      `**`dir`:** / - Purpose:` blocks of `extractDirectoryPurposes` (first
      group). */
  datatype DocPattern = BarePath | PurposeBlock

  /** Every match of a pattern over a text, left to right. */
  type DocScanner = (DocPattern, string) -> seq<string>

  // ---------------------------------------------------------------------------
  // Backtick spans: /`([^`\n]+)`/g
  // ---------------------------------------------------------------------------

  /** The length of the run at the start of `s` holding neither a backtick nor
      a newline. */
  function PlainRun(s: string): (n: nat)
    ensures n <= |s|
    ensures forall i :: 0 <= i < n ==> s[i] != '`' && s[i] != '\n'
    ensures n < |s| ==> s[n] == '`' || s[n] == '\n'
  {
    if |s| > 0 && s[0] != '`' && s[0] != '\n' then 1 + PlainRun(s[1..]) else 0
  }

  /** The text between every matched pair of backticks, left to right: a match
      starts at a backtick followed by at least one character that is neither a
      backtick nor a newline and then a closing backtick; the search resumes
      after the closing backtick, or one character on when there is no match. */
  function BacktickSpans(s: string): seq<string>
    decreases |s|
  {
    if |s| == 0 then []
    else if s[0] == '`' then
      var n := PlainRun(s[1..]);
      if 0 < n && n + 1 < |s| && s[n + 1] == '`' then [s[1..n + 1]] + BacktickSpans(s[n + 2..])
      else BacktickSpans(s[1..])
    else BacktickSpans(s[1..])
  }

  /** Each span is non-empty and holds no backtick and no newline. */
  lemma {:induction false} BacktickSpanShape(s: string, span: string)
    requires span in BacktickSpans(s)
    ensures |span| > 0 && '`' !in span && '\n' !in span
    decreases |s|
  {
    if s[0] == '`' {
      var n := PlainRun(s[1..]);
      if 0 < n && n + 1 < |s| && s[n + 1] == '`' {
        InCons(span, s[1..n + 1], BacktickSpans(s[n + 2..]));
        if span == s[1..n + 1] {
          TakeOfDrop(s, 1, n);
          PlainPrefix(s[1..], n);
        } else {
          BacktickSpanShape(s[n + 2..], span);
        }
      } else {
        BacktickSpanShape(s[1..], span);
      }
    } else {
      BacktickSpanShape(s[1..], span);
    }
  }

  /** The first `n` characters of a plain run hold no backtick and no newline. */
  lemma PlainPrefix(t: string, n: nat)
    requires n <= PlainRun(t)
    ensures '`' !in t[..n] && '\n' !in t[..n]
  {
    forall i | 0 <= i < n ensures t[..n][i] != '`' && t[..n][i] != '\n' {
      assert t[..n][i] == t[i];
    }
  }

  /** A text without a backtick has no span. */
  lemma {:induction false} NoBacktickNoSpan(s: string)
    requires '`' !in s
    ensures BacktickSpans(s) == []
    decreases |s|
  {
    if |s| > 0 {
      assert '`' !in s[1..];
      NoBacktickNoSpan(s[1..]);
    }
  }

  lemma ExampleSpans()
    ensures BacktickSpans("`a/b.ts`") == ["a/b.ts"]
  {
    var s := "`a/b.ts`";
    assert PlainRun(s[7..]) == 0;
    assert PlainRun(s[6..]) == 1 by { assert s[6..][1..] == s[7..]; }
    assert PlainRun(s[5..]) == 2 by { assert s[5..][1..] == s[6..]; }
    assert PlainRun(s[4..]) == 3 by { assert s[4..][1..] == s[5..]; }
    assert PlainRun(s[3..]) == 4 by { assert s[3..][1..] == s[4..]; }
    assert PlainRun(s[2..]) == 5 by { assert s[2..][1..] == s[3..]; }
    assert PlainRun(s[1..]) == 6 by { assert s[1..][1..] == s[2..]; }
    assert s[1..7] == "a/b.ts";
    assert s[8..] == [];
  }

  // ---------------------------------------------------------------------------
  // extractPathCandidates
  // ---------------------------------------------------------------------------

  /** `/\.[a-zA-Z0-9]+/.test(s)`: a dot followed by a letter or a digit. */
  predicate HasDottedSuffix(s: string) {
    exists i :: 0 <= i < |s| - 1 && s[i] == '.' && IsAlnum(s[i + 1])
  }

  /** A backtick span is kept when it holds a slash and a dotted suffix. */
  predicate Qualifies(span: string) {
    '/' in span && HasDottedSuffix(span)
  }

  /** `p.trim().replace(/^\.?\//, "")`: trimmed, then one leading `./` or `/`
      removed. */
  function Normalize(p: string): string {
    var t := Trim(p);
    if StartsWith(t, "./") then t[2..] else if StartsWith(t, "/") then t[1..] else t
  }

  /** The four filters, in one: not a URL, holds a slash, outside `.planning/`
      and `node_modules/`. */
  predicate KeptPath(p: string) {
    !StartsWith(p, "http") && '/' in p &&
    !StartsWith(p, ".planning/") && !StartsWith(p, "node_modules/")
  }

  /** The `paths` list: the qualifying backtick spans, then the bare paths. */
  function RawCandidates(text: string, scan: DocScanner): seq<string> {
    Filter(Qualifies, BacktickSpans(text)) + scan(BarePath, text)
  }

  /** `extractPathCandidates` */
  function PathCandidates(text: string, scan: DocScanner): seq<string> {
    Sort(Unique(Filter(KeptPath, Map(Normalize, RawCandidates(text, scan)))))
  }

  /** The candidates are sorted with no repeats, and they are exactly the
      normalised raw candidates that pass the filters. */
  lemma PathCandidatesMembers(text: string, scan: DocScanner, x: string)
    ensures StrictlySorted(PathCandidates(text, scan))
    ensures x in PathCandidates(text, scan) <==>
      KeptPath(x) && exists p :: p in RawCandidates(text, scan) && Normalize(p) == x
  {
    var raw := RawCandidates(text, scan);
    var kept := Filter(KeptPath, Map(Normalize, raw));
    SortUnique(kept);
    FilterMembers(KeptPath, Map(Normalize, raw), x);
    MapMembers(Normalize, raw, x);
  }

  /** Every candidate holds a slash and starts with none of `http`,
      `.planning/` and `node_modules/`. */
  lemma PathCandidateShape(text: string, scan: DocScanner, x: string)
    requires x in PathCandidates(text, scan)
    ensures '/' in x && !StartsWith(x, "http")
    ensures !StartsWith(x, ".planning/") && !StartsWith(x, "node_modules/")
  {
    PathCandidatesMembers(text, scan, x);
  }

  /** A text with no qualifying span and no bare dotted path gives no candidate. */
  lemma NoCandidates(text: string, scan: DocScanner)
    requires forall span :: span in BacktickSpans(text) ==> !Qualifies(span)
    requires scan(BarePath, text) == []
    ensures PathCandidates(text, scan) == []
  {
    var r := PathCandidates(text, scan);
    if r != [] {
      PathCandidatesMembers(text, scan, r[0]);
      var p :| p in RawCandidates(text, scan) && Normalize(p) == r[0];
      FilterMembers(Qualifies, BacktickSpans(text), p);
      assert false;
    }
  }

  /** A leading `./` or `/` is removed after trimming. */
  lemma NormalizeStripsDotSlash()
    ensures Normalize("./src/app.ts") == "src/app.ts"
  {
    var t := "./src/app.ts";
    assert StartsWith(t, "./") by {
      assert t[..2] == "./";
    }
    assert t[2..] == "src/app.ts";
    TrimNoSpace(t);
  }

  lemma NormalizeStripsSlash()
    ensures Normalize("/lib/db.js") == "lib/db.js"
  {
    var t := "/lib/db.js";
    assert !StartsWith(t, "./") && StartsWith(t, "/") by {
      assert t[..2][1] != "./"[1];
      assert t[..1] == "/";
    }
    assert t[1..] == "lib/db.js";
    TrimNoSpace(t);
  }

  /** Only one leading slash goes. */
  lemma NormalizeStripsOnce()
    ensures Normalize("//x/y.js") == "/x/y.js"
  {
    var t := "//x/y.js";
    assert !StartsWith(t, "./") && StartsWith(t, "/") by {
      assert t[..2][0] != "./"[0];
      assert t[..1] == "/";
    }
    assert t[1..] == "/x/y.js";
    TrimNoSpace(t);
  }

  /** A parent-directory prefix is kept. */
  lemma NormalizeKeepsParent()
    ensures Normalize("../up.js") == "../up.js"
  {
    var t := "../up.js";
    assert !StartsWith(t, "./") && !StartsWith(t, "/") by {
      assert t[..2][1] != "./"[1];
      assert t[..1][0] != "/"[0];
    }
    TrimNoSpace(t);
  }

  // ---------------------------------------------------------------------------
  // extractImportsExports: the lines near each mention of a path
  // ---------------------------------------------------------------------------

  /** A line without the carriage return that ends it, if any. */
  function DropCarriageReturn(s: string): string {
    if |s| > 0 && s[|s| - 1] == '\r' then s[..|s| - 1] else s
  }

  /** `text.split(/\r?\n/)`: split at every newline, each piece that a newline
      follows losing one trailing carriage return. */
  function DocLines(text: string): (lines: seq<string>)
    ensures |lines| == |Split(text, '\n')| >= 1
  {
    var parts := Split(text, '\n');
    seq(|parts|, i requires 0 <= i < |parts| =>
      if i < |parts| - 1 then DropCarriageReturn(parts[i]) else parts[i])
  }

  /** The lines pushed for line `i`: when it mentions `path`, it and the next
      two lines that exist. */
  function Window(lines: seq<string>, path: string, i: nat): seq<string>
    requires i < |lines|
  {
    if Contains(lines[i], path) then lines[i..Min(i + 3, |lines|)] else []
  }

  /** The `related` list after the first `n` lines. */
  function RelatedUpTo(lines: seq<string>, path: string, n: nat): seq<string>
    requires n <= |lines|
  {
    if n == 0 then [] else RelatedUpTo(lines, path, n - 1) + Window(lines, path, n - 1)
  }

  function Related(lines: seq<string>, path: string): seq<string> {
    RelatedUpTo(lines, path, |lines|)
  }

  /** `x` is a line mentioning `path`, among the first `n` lines, or one of the
      two lines after such a line. */
  ghost predicate NearUpTo(lines: seq<string>, path: string, x: string, n: nat) {
    exists i, j :: 0 <= i < n && i <= j < |lines| && j <= i + 2 && Contains(lines[i], path) && lines[j] == x
  }

  ghost predicate Near(lines: seq<string>, path: string, x: string) {
    NearUpTo(lines, path, x, |lines|)
  }

  lemma WindowMembers(lines: seq<string>, path: string, i: nat, x: string)
    requires i < |lines|
    ensures x in Window(lines, path, i) <==>
      Contains(lines[i], path) && exists j :: i <= j < |lines| && j <= i + 2 && lines[j] == x
  {
    if Contains(lines[i], path) {
      var w := lines[i..Min(i + 3, |lines|)];
      if x in w {
        var k :| 0 <= k < |w| && w[k] == x;
        assert lines[i + k] == x;
      }
      forall j | i <= j < |lines| && j <= i + 2 && lines[j] == x ensures x in w {
        assert w[j - i] == x;
      }
    }
  }

  /** The related lines are exactly the lines mentioning the path and the (up
      to) two lines after each; no other line is examined. */
  lemma {:induction false} RelatedUpToIff(lines: seq<string>, path: string, x: string, n: nat)
    requires n <= |lines|
    ensures x in RelatedUpTo(lines, path, n) <==> NearUpTo(lines, path, x, n)
    decreases n
  {
    if n > 0 {
      RelatedUpToIff(lines, path, x, n - 1);
      WindowMembers(lines, path, n - 1, x);
      NearUpToSnoc(lines, path, x, n);
    }
  }

  /** Near one of the first `n` lines is near one of the first `n - 1`, or
      near line `n - 1` itself. */
  lemma NearUpToSnoc(lines: seq<string>, path: string, x: string, n: nat)
    requires 0 < n <= |lines|
    ensures NearUpTo(lines, path, x, n) <==>
      NearUpTo(lines, path, x, n - 1) ||
      (Contains(lines[n - 1], path) && exists j :: n - 1 <= j < |lines| && j <= n + 1 && lines[j] == x)
  {
    if NearUpTo(lines, path, x, n) {
      var i, j :| 0 <= i < n && i <= j < |lines| && j <= i + 2 && Contains(lines[i], path) && lines[j] == x;
      if i < n - 1 {
        assert NearUpTo(lines, path, x, n - 1);
      }
    }
    if NearUpTo(lines, path, x, n - 1) {
      var i, j :| 0 <= i < n - 1 && i <= j < |lines| && j <= i + 2 && Contains(lines[i], path) && lines[j] == x;
      assert NearUpTo(lines, path, x, n);
    }
    if Contains(lines[n - 1], path) && exists j :: n - 1 <= j < |lines| && j <= n + 1 && lines[j] == x {
      var j :| n - 1 <= j < |lines| && j <= n + 1 && lines[j] == x;
      assert NearUpTo(lines, path, x, n);
    }
  }

  lemma RelatedIff(lines: seq<string>, path: string, x: string)
    ensures x in Related(lines, path) <==> Near(lines, path, x)
  {
    RelatedUpToIff(lines, path, x, |lines|);
  }

  /** The window of a mentioning line, as the loop pushes it. */
  lemma WindowPushes(lines: seq<string>, path: string, i: nat)
    requires i < |lines| && Contains(lines[i], path)
    ensures Window(lines, path, i) ==
      [lines[i]] + (if i + 1 < |lines| then [lines[i + 1]] else []) +
      (if i + 2 < |lines| then [lines[i + 2]] else [])
  {
  }

  /** Pushing the line and the (up to) two after it appends the window. */
  lemma WindowPushed(lines: seq<string>, path: string, i: nat, before: seq<string>, after: seq<string>)
    requires i < |lines| && Contains(lines[i], path)
    requires after == before + [lines[i]] + (if i + 1 < |lines| then [lines[i + 1]] else []) +
      (if i + 2 < |lines| then [lines[i + 2]] else [])
    ensures after == before + Window(lines, path, i)
  {
    var x, y := if i + 1 < |lines| then [lines[i + 1]] else [], if i + 2 < |lines| then [lines[i + 2]] else [];
    WindowPushes(lines, path, i);
    AppendAssoc(before, [lines[i]], x);
    AppendAssoc(before, [lines[i]] + x, y);
  }

  /** The `related` loop. */
  method CollectRelated(lines: seq<string>, path: string) returns (related: seq<string>)
    ensures related == Related(lines, path)
  {
    related := [];
    for i := 0 to |lines|
      invariant related == RelatedUpTo(lines, path, i)
    {
      ghost var before := related;
      if Contains(lines[i], path) {
        related := related + [lines[i]];
        if i + 1 < |lines| {
          related := related + [lines[i + 1]];
        }
        if i + 2 < |lines| {
          related := related + [lines[i + 2]];
        }
        WindowPushed(lines, path, i, before, related);
      }
    }
  }

  // ---------------------------------------------------------------------------
  // extractImportsExports: /import[s]?:\s*([^|]+)/i and its export twin
  // ---------------------------------------------------------------------------

  /** The lower-case keyword `kw` appears at `i`, in any case. */
  predicate KeywordAt(line: string, i: nat, kw: string) {
    i + |kw| <= |line| && Lower(line[i..i + |kw|]) == kw
  }

  /** Where the colon of `kw`, an optional `s` and `:` starting at `i` is. */
  function ColonAt(line: string, i: nat, kw: string): (c: Option<nat>)
    ensures c.Some? ==> i + |kw| <= c.value < |line| && line[c.value] == ':'
  {
    if !KeywordAt(line, i, kw) then None
    else
      var j := i + |kw|;
      if j + 1 < |line| && LowerChar(line[j]) == 's' && line[j + 1] == ':' then Some(j + 1)
      else if j < |line| && line[j] == ':' then Some(j)
      else None
  }

  /** The first `|` at or after `p`, or the end of `s`. */
  function PipeOrEnd(s: string, p: nat): (q: nat)
    requires p <= |s|
    ensures p <= q <= |s|
    ensures forall k :: p <= k < q ==> s[k] != '|'
    ensures q < |s| ==> s[q] == '|'
    decreases |s| - p
  {
    if p < |s| && s[p] != '|' then PipeOrEnd(s, p + 1) else p
  }

  /** The group of a match starting at `i`: after the colon and the white space
      that follows it, everything up to the next `|`; when only white space
      stands between the colon and the next `|` or the end, the group is the
      last white-space character (the regular expression gives one back). */
  function CaptureAt(line: string, i: nat, kw: string): (g: Option<string>)
    ensures g.Some? ==> |g.value| > 0 && '|' !in g.value
  {
    match ColonAt(line, i, kw)
    case None => None
    case Some(c) =>
      var k := SpaceRunEnd(line, c + 1);
      if k < |line| && line[k] != '|' then
        var q := PipeOrEnd(line, k);
        assert forall m :: 0 <= m < q - k ==> line[k..q][m] == line[k + m];
        Some(line[k..q])
      else if k > c + 1 then Some([line[k - 1]])
      else None
  }

  /** `line.match(re)`: the group of the leftmost match at or after `i`. */
  function FirstCapture(line: string, i: nat, kw: string): (g: Option<string>)
    ensures g.Some? ==> |g.value| > 0 && '|' !in g.value
    ensures g.Some? ==> exists j :: (i <= j < |line| && CaptureAt(line, j, kw) == g &&
      forall m :: i <= m < j ==> CaptureAt(line, m, kw).None?)
    ensures g.None? ==> forall m :: i <= m < |line| ==> CaptureAt(line, m, kw).None?
    decreases |line| - i
  {
    if i >= |line| then None
    else
      match CaptureAt(line, i, kw)
      case Some(g) => Some(g)
      case None => FirstCapture(line, i + 1, kw)
  }

  predicate IsTokenSeparator(c: char) {
    c == ',' || IsSpace(c)
  }

  /** The length of the run at the start of `s` holding no separator. */
  function WordRun(s: string): (n: nat)
    ensures n <= |s|
    ensures forall k :: 0 <= k < n ==> !IsTokenSeparator(s[k])
    ensures n < |s| ==> IsTokenSeparator(s[n])
  {
    if |s| > 0 && !IsTokenSeparator(s[0]) then 1 + WordRun(s[1..]) else 0
  }

  /** The non-empty pieces of `s.split(/[,\s]+/)`: the maximal runs of
      characters that are neither commas nor white space. (The split also
      yields an empty piece before a leading and after a trailing run of
      separators; the filter below drops those.) */
  function Words(s: string): seq<string>
    decreases |s|
  {
    if |s| == 0 then []
    else if IsTokenSeparator(s[0]) then Words(s[1..])
    else
      var n := WordRun(s);
      [s[..n]] + Words(s[n..])
  }

  lemma {:induction false} WordsShape(s: string, w: string)
    requires w in Words(s)
    ensures forall c :: c in w ==> c in s && !IsTokenSeparator(c)
    decreases |s|
  {
    if IsTokenSeparator(s[0]) {
      WordsShape(s[1..], w);
    } else {
      var n := WordRun(s);
      if w != s[..n] {
        WordsShape(s[n..], w);
      }
    }
  }

  predicate IsQuoteChar(c: char) {
    c == '`' || c == '"' || c == '\'' || c == '(' || c == ')'
  }

  /** `s.replace(/[`"'()]/g, "")` */
  function Unquote(s: string): (r: string)
    ensures forall c :: c in r ==> c in s && !IsQuoteChar(c)
  {
    if s == [] then [] else (if IsQuoteChar(s[0]) then [] else [s[0]]) + Unquote(s[1..])
  }

  /** One piece, cleaned: quotes and parentheses removed, then trimmed. */
  function Token(w: string): string {
    Trim(Unquote(w))
  }

  /** The names listed in a group. */
  function Tokens(group: string): seq<string> {
    Filter(NonEmpty, Map(Token, Words(group)))
  }

  /** The names a line lists after `kw`, or none when the line does not match. */
  function LineTokens(line: string, kw: string): seq<string> {
    match FirstCapture(line, 0, kw)
    case None => []
    case Some(g) => Tokens(g)
  }

  function Annotated(kw: string): string -> seq<string> {
    line => LineTokens(line, kw)
  }

  /** `unique(...).sort()` over the names every related line lists after `kw`. */
  function Annotations(path: string, docsText: string, kw: string): seq<string> {
    Sort(Unique(FlatMap(Annotated(kw), Related(DocLines(docsText), path))))
  }

  /** A name is non-empty and holds no comma, white space, quote, backtick or
      parenthesis. */
  lemma TokenShape(group: string, t: string)
    requires t in Tokens(group)
    ensures t != ""
    ensures forall c :: c in t ==> c in group && !IsTokenSeparator(c) && !IsQuoteChar(c)
  {
    FilterMembers(NonEmpty, Map(Token, Words(group)), t);
    MapMembers(Token, Words(group), t);
    var w :| w in Words(group) && Token(w) == t;
    WordsShape(group, w);
    forall c | c in t ensures c in Unquote(w) {
      TrimKeeps(Unquote(w), c);
    }
  }

  lemma TrimKeeps(s: string, c: char)
    requires c in Trim(s)
    ensures c in s
  {
    var t := Trim(s);
    var i :| IsSliceAt(t, s, i);
    var k :| 0 <= k < |t| && t[k] == c;
    assert s[i + k] == c;
  }

  /** The keyword matches in any case, with or without its `s`; the group
      stops at the first `|`. */
  lemma ExampleCapture()
    ensures FirstCapture("Imports: a|b", 0, "import") == Some("a")
  {
    var line := "Imports: a|b";
    assert Lower(line[0..6]) == "import";
    assert LowerChar(line[6]) == 's' && line[7] == ':';
    assert ColonAt(line, 0, "import") == Some(7);
    assert SpaceRunEnd(line, 8) == 9 by {
      assert SpaceRunEnd(line, 9) == 9;
    }
    assert PipeOrEnd(line, 9) == 10 by {
      assert PipeOrEnd(line, 10) == 10;
    }
    assert line[9..10] == "a";
  }

  /** The names are sorted with no repeats, and they are exactly the names
      listed after `kw` on the lines near a mention of the path. */
  lemma AnnotationsMembers(path: string, docsText: string, kw: string, x: string)
    ensures StrictlySorted(Annotations(path, docsText, kw))
    ensures x in Annotations(path, docsText, kw) <==>
      exists line :: Near(DocLines(docsText), path, line) && x in LineTokens(line, kw)
  {
    var lines := DocLines(docsText);
    var all := FlatMap(Annotated(kw), Related(lines, path));
    SortUnique(all);
    FlatMapMembers(Annotated(kw), Related(lines, path), x);
    forall line ensures line in Related(lines, path) <==> Near(lines, path, line) {
      RelatedIff(lines, path, line);
    }
  }

  /** With no `kw` annotation near a mention of the path, the list is empty. */
  lemma NoAnnotation(path: string, docsText: string, kw: string)
    requires forall line :: Near(DocLines(docsText), path, line) ==> FirstCapture(line, 0, kw).None?
    ensures Annotations(path, docsText, kw) == []
  {
    var r := Annotations(path, docsText, kw);
    if r != [] {
      AnnotationsMembers(path, docsText, kw, r[0]);
      assert false;
    }
  }

  /** `extractImportsExports`: both lists filled in one pass over the related
      lines. */
  method ExtractImportsExports(pathValue: string, docsText: string)
    returns (imports: seq<string>, exports: seq<string>)
    ensures imports == Annotations(pathValue, docsText, "import")
    ensures exports == Annotations(pathValue, docsText, "export")
  {
    var lines := DocLines(docsText);
    var related := CollectRelated(lines, pathValue);
    var allImports, allExports := [], [];
    for k := 0 to |related|
      invariant allImports == FlatMap(Annotated("import"), related[..k])
      invariant allExports == FlatMap(Annotated("export"), related[..k])
    {
      FlatMapSnoc(Annotated("import"), related, k);
      FlatMapSnoc(Annotated("export"), related, k);
      allImports := PushAll(allImports, LineTokens(related[k], "import"));
      allExports := PushAll(allExports, LineTokens(related[k], "export"));
    }
    TakeAll(related);
    imports := Sort(Unique(allImports));
    exports := Sort(Unique(allExports));
  }

  // ---------------------------------------------------------------------------
  // buildIndex
  // ---------------------------------------------------------------------------

  /** One entry of `files`; unlike the code scanner's records these carry no
      `lastIndexed`. */
  datatype DocRecord = DocRecord(
    exports: seq<string>,
    imports: seq<string>,
    fileType: FileType,
    layer: Layer)

  datatype DocStats = DocStats(totalFiles: nat, byType: Dict<FileType, nat>, byLayer: Dict<Layer, nat>)

  datatype DocIndex = DocIndex(
    version: nat,
    generated: string,
    source: string,
    commitHash: string,
    files: Dict<string, DocRecord>,
    stats: DocStats)

  /** `${STRUCTURE.md}\n${ARCHITECTURE.md}` */
  function SourceText(docs: Docs): string {
    DocText(docs, "STRUCTURE.md") + "\n" + DocText(docs, "ARCHITECTURE.md")
  }

  /** The record of one candidate path. */
  function RecordFor(path: string, text: string): DocRecord {
    DocRecord(Annotations(path, text, "export"), Annotations(path, text, "import"),
              ClassifyDocType(path), ClassifyDocLayer(path))
  }

  /** The record maker of a source text. */
  function RecordsFrom(text: string): string -> DocRecord {
    path => RecordFor(path, text)
  }

  /** `files` after assigning the record of each path, in order. */
  function RecordsOf(paths: seq<string>, record: string -> DocRecord): (d: Dict<string, DocRecord>)
    ensures Valid(d)
  {
    if paths == [] then Empty()
    else
      var last := paths[|paths| - 1];
      Put(RecordsOf(paths[..|paths| - 1], record), last, record(last))
  }

  function DocTypes(paths: seq<string>): (r: seq<FileType>)
    ensures |r| == |paths|
  {
    if paths == [] then [] else DocTypes(paths[..|paths| - 1]) + [ClassifyDocType(paths[|paths| - 1])]
  }

  function DocLayers(paths: seq<string>): (r: seq<Layer>)
    ensures |r| == |paths|
  {
    if paths == [] then [] else DocLayers(paths[..|paths| - 1]) + [ClassifyDocLayer(paths[|paths| - 1])]
  }

  /** What `buildIndex` returns; `git` is the output of `git rev-parse`. */
  function DocIndexOf(docs: Docs, generated: string, git: Option<string>, scan: DocScanner): DocIndex {
    var text := SourceText(docs);
    var candidates := PathCandidates(text, scan);
    var files := RecordsOf(candidates, RecordsFrom(text));
    DocIndex(2, generated, SOURCE_LABEL, CommitHashOf(git), files,
             DocStats(|files.keys|, Tally(DocTypes(candidates)), Tally(DocLayers(candidates))))
  }

  /** A path has a record exactly when it is one of the paths, and the record
      is the one built for it. */
  lemma {:induction false} RecordsOfEntries(paths: seq<string>, record: string -> DocRecord, k: string)
    ensures k in RecordsOf(paths, record).vals <==> k in paths
    ensures k in paths ==> RecordsOf(paths, record).vals[k] == record(k)
    decreases |paths|
  {
    if paths != [] {
      var init := paths[..|paths| - 1];
      RecordsOfEntries(init, record, k);
      assert paths == init + [paths[|paths| - 1]];
    }
  }

  /** Paths listed once each become the keys, in their own order. */
  lemma {:induction false} RecordsOfKeys(paths: seq<string>, record: string -> DocRecord)
    requires NoDup(paths)
    ensures RecordsOf(paths, record).keys == paths
    decreases |paths|
  {
    if paths != [] {
      var init := paths[..|paths| - 1];
      assert paths == init + [paths[|paths| - 1]];
      RecordsOfKeys(init, record);
      RecordsOfEntries(init, record, paths[|paths| - 1]);
    }
  }

  /** The index is version 2, from `kata-map-codebase`, with one record per
      candidate path, keyed in candidate order; `totalFiles` is the number of
      records, and the type and layer counts each add up to it. */
  lemma DocIndexShape(docs: Docs, generated: string, git: Option<string>, scan: DocScanner)
    ensures var r := DocIndexOf(docs, generated, git, scan);
      r.version == 2 && r.source == SOURCE_LABEL && r.generated == generated &&
      r.files.keys == PathCandidates(SourceText(docs), scan) &&
      r.stats.totalFiles == |r.files.keys| &&
      Total(r.stats.byType) == r.stats.totalFiles && Total(r.stats.byLayer) == r.stats.totalFiles
  {
    var text := SourceText(docs);
    var candidates := PathCandidates(text, scan);
    PathCandidatesMembers(text, scan, "");
    StrictlySortedNoDup(candidates);
    RecordsOfKeys(candidates, RecordsFrom(text));
    TallyTotal(DocTypes(candidates));
    TallyTotal(DocLayers(candidates));
  }

  /** The record of a candidate holds this builder's type and layer of the
      path and the names annotated near its mentions. */
  lemma DocIndexRecord(docs: Docs, generated: string, git: Option<string>, scan: DocScanner, k: string)
    ensures var r := DocIndexOf(docs, generated, git, scan);
      var text := SourceText(docs);
      (k in r.files.vals <==> k in PathCandidates(text, scan)) &&
      (k in r.files.vals ==>
        r.files.vals[k].fileType == ClassifyDocType(k) && r.files.vals[k].layer == ClassifyDocLayer(k) &&
        r.files.vals[k].imports == Annotations(k, text, "import") &&
        r.files.vals[k].exports == Annotations(k, text, "export"))
  {
    RecordsOfEntries(PathCandidates(SourceText(docs), scan), RecordsFrom(SourceText(docs)), k);
  }

  lemma DocTypesSnoc(paths: seq<string>, record: string -> DocRecord, i: nat)
    requires i < |paths|
    ensures DocTypes(paths[..i + 1]) == DocTypes(paths[..i]) + [ClassifyDocType(paths[i])]
    ensures DocLayers(paths[..i + 1]) == DocLayers(paths[..i]) + [ClassifyDocLayer(paths[i])]
    ensures RecordsOf(paths[..i + 1], record) == Put(RecordsOf(paths[..i], record), paths[i], record(paths[i]))
  {
    assert paths[..i + 1][..i] == paths[..i];
  }

  /** One iteration of the `buildIndex` loop. */
  method AddCandidate(candidates: seq<string>, text: string, i: nat, files: Dict<string, DocRecord>,
                      byType: Dict<FileType, nat>, byLayer: Dict<Layer, nat>)
    returns (files': Dict<string, DocRecord>, byType': Dict<FileType, nat>, byLayer': Dict<Layer, nat>)
    requires i < |candidates|
    requires files == RecordsOf(candidates[..i], RecordsFrom(text))
    requires byType == Tally(DocTypes(candidates[..i])) && byLayer == Tally(DocLayers(candidates[..i]))
    ensures files' == RecordsOf(candidates[..i + 1], RecordsFrom(text))
    ensures byType' == Tally(DocTypes(candidates[..i + 1])) && byLayer' == Tally(DocLayers(candidates[..i + 1]))
  {
    DocTypesSnoc(candidates, RecordsFrom(text), i);
    var path := candidates[i];
    var fileType := ClassifyDocType(path);
    var layer := ClassifyDocLayer(path);
    var imports, exports := ExtractImportsExports(path, text);
    files' := Put(files, path, DocRecord(exports, imports, fileType, layer));
    TallySnoc(DocTypes(candidates[..i]), fileType);
    byType' := Inc(byType, fileType);
    TallySnoc(DocLayers(candidates[..i]), layer);
    byLayer' := Inc(byLayer, layer);
  }

  /** The `buildIndex` loop over the candidates. */
  method BuildRecords(candidates: seq<string>, text: string)
    returns (files: Dict<string, DocRecord>, byType: Dict<FileType, nat>, byLayer: Dict<Layer, nat>)
    ensures files == RecordsOf(candidates, RecordsFrom(text))
    ensures byType == Tally(DocTypes(candidates)) && byLayer == Tally(DocLayers(candidates))
  {
    files, byType, byLayer := Empty(), Empty(), Empty();
    for i := 0 to |candidates|
      invariant files == RecordsOf(candidates[..i], RecordsFrom(text))
      invariant byType == Tally(DocTypes(candidates[..i])) && byLayer == Tally(DocLayers(candidates[..i]))
    {
      files, byType, byLayer := AddCandidate(candidates, text, i, files, byType, byLayer);
    }
    TakeAll(candidates);
  }

  /** `buildIndex` */
  method BuildDocIndex(docs: Docs, generated: string, git: Option<string>, scan: DocScanner)
    returns (r: DocIndex)
    ensures r == DocIndexOf(docs, generated, git, scan)
  {
    var text := SourceText(docs);
    var candidates := PathCandidates(text, scan);
    var files, byType, byLayer := BuildRecords(candidates, text);
    r := DocIndex(2, generated, SOURCE_LABEL, CommitHashOf(git), files,
                  DocStats(|files.keys|, byType, byLayer));
  }

  // ---------------------------------------------------------------------------
  // extractDirectoryPurposes
  // ---------------------------------------------------------------------------

  /** `s.replace(/\/+$/, "")` */
  function TrimTrailingSlashes(s: string): (r: string)
    ensures |r| <= |s| && r == s[..|r|]
    ensures |r| > 0 ==> r[|r| - 1] != '/'
    ensures forall k :: |r| <= k < |s| ==> s[k] == '/'
  {
    if |s| > 0 && s[|s| - 1] == '/' then TrimTrailingSlashes(s[..|s| - 1]) else s
  }

  /** `dir.replace(/\/+$/, "").split("/").pop()` */
  function DirKey(dir: string): string {
    LastPiece(TrimTrailingSlashes(dir), '/')
  }

  /** The key is the last segment of the directory once trailing slashes are
      gone; it is empty exactly when the directory is nothing but slashes. */
  lemma DirKeyShape(dir: string)
    ensures '/' !in DirKey(dir) && EndsWith(TrimTrailingSlashes(dir), DirKey(dir))
    ensures DirKey(dir) == "" <==> forall k :: 0 <= k < |dir| ==> dir[k] == '/'
  {
    var t := TrimTrailingSlashes(dir);
    var key := DirKey(dir);
    LastPieceIsSuffix(t, '/');
    if '/' in t {
      assert t[|t| - |key|..] == (['/'] + key)[1..] by {
        assert t[|t| - (|key| + 1)..] == ['/'] + key;
      }
    } else {
      assert t[|t| - |t|..] == t;
    }
  }

  /** `directories` after each matched block, in order, keyed by `keyOf`: a
      block whose key is empty is skipped, and a later block overwrites an
      earlier one with the same key. */
  function PurposesOver(keyOf: string -> string, dirs: seq<string>): (d: Dict<string, string>)
    ensures Valid(d)
  {
    if dirs == [] then Empty()
    else
      var d := PurposesOver(keyOf, dirs[..|dirs| - 1]);
      var dir := dirs[|dirs| - 1];
      if keyOf(dir) != "" then Put(d, keyOf(dir), dir) else d
  }

  function PurposesOf(dirs: seq<string>): Dict<string, string> {
    PurposesOver(DirKey, dirs)
  }

  /** A key is present exactly when it is the non-empty key of some block. */
  lemma {:induction false} PurposesKeys(keyOf: string -> string, dirs: seq<string>, k: string)
    ensures k in PurposesOver(keyOf, dirs).vals <==> k != "" && exists i :: 0 <= i < |dirs| && keyOf(dirs[i]) == k
    decreases |dirs|
  {
    if dirs != [] {
      PurposesKeys(keyOf, dirs[..|dirs| - 1], k);
      SomeKeySnoc(keyOf, dirs, dirs[..|dirs| - 1], k);
    }
  }

  /** Some block of `dirs` has key `k` exactly when some block before the
      last has, or the last has. */
  lemma SomeKeySnoc(keyOf: string -> string, dirs: seq<string>, init: seq<string>, k: string)
    requires dirs != [] && init == dirs[..|dirs| - 1]
    ensures (exists i :: 0 <= i < |dirs| && keyOf(dirs[i]) == k) <==>
      (exists i :: 0 <= i < |init| && keyOf(init[i]) == k) || keyOf(dirs[|dirs| - 1]) == k
  {
    if exists i :: 0 <= i < |dirs| && keyOf(dirs[i]) == k {
      var i :| 0 <= i < |dirs| && keyOf(dirs[i]) == k;
      if i < |init| {
        assert keyOf(init[i]) == k;
      }
    }
    if exists i :: 0 <= i < |init| && keyOf(init[i]) == k {
      var i :| 0 <= i < |init| && keyOf(init[i]) == k;
      assert keyOf(dirs[i]) == k;
    }
  }

  /** A key maps to the last block with that key. */
  lemma {:induction false} PurposesLast(keyOf: string -> string, dirs: seq<string>, k: string, i: nat)
    requires i < |dirs| && keyOf(dirs[i]) == k && k != ""
    requires forall j :: i < j < |dirs| ==> keyOf(dirs[j]) != k
    ensures k in PurposesOver(keyOf, dirs).vals && PurposesOver(keyOf, dirs).vals[k] == dirs[i]
    decreases |dirs|
  {
    var n := |dirs| - 1;
    var init := dirs[..n];
    if i < n {
      assert forall j :: i < j < n ==> init[j] == dirs[j];
      PurposesLast(keyOf, init, k, i);
    }
  }

  /** The directories: keyed by the non-empty last segments, each holding the
      directory of the last block with that segment. */
  lemma PurposesEntry(dirs: seq<string>, k: string, i: nat)
    ensures k in PurposesOf(dirs).vals <==> k != "" && exists m :: 0 <= m < |dirs| && DirKey(dirs[m]) == k
    ensures i < |dirs| && DirKey(dirs[i]) == k && k != "" && (forall j :: i < j < |dirs| ==> DirKey(dirs[j]) != k) ==>
      PurposesOf(dirs).vals[k] == dirs[i]
  {
    PurposesKeys(DirKey, dirs, k);
    if i < |dirs| && DirKey(dirs[i]) == k && k != "" && (forall j :: i < j < |dirs| ==> DirKey(dirs[j]) != k) {
      PurposesLast(DirKey, dirs, k, i);
    }
  }

  /** `extractDirectoryPurposes`: `dirs` are the directories quoted by the
      `**`dir`:**` / `- Purpose:` blocks of STRUCTURE.md, in order. */
  method ExtractDirectoryPurposes(structureText: string, scan: DocScanner) returns (directories: Dict<string, string>)
    ensures directories == PurposesOf(scan(PurposeBlock, structureText))
  {
    var dirs := scan(PurposeBlock, structureText);
    directories := Empty();
    for i := 0 to |dirs|
      invariant directories == PurposesOver(DirKey, dirs[..i])
    {
      assert dirs[..i + 1][..i] == dirs[..i];
      var key := DirKey(dirs[i]);
      if key != "" {
        directories := Put(directories, key, dirs[i]);
      }
    }
    TakeAll(dirs);
  }

  lemma ExampleDirKey()
    ensures DirKey("src/components/") == "components"
  {
    var dir := "src/components/";
    assert TrimTrailingSlashes(dir) == dir[..14];
    var t := dir[..14];
    assert t[3..] == ['/'] + "components";
    LastPieceExact(t, '/', "components");
  }

  // ---------------------------------------------------------------------------
  // buildConventions
  // ---------------------------------------------------------------------------

  /** One `{ regex, value }` entry of `pickFirstStyle`: each regular expression
      here is a case-insensitive alternation of plain words, so it tests the
      lower-cased text for any of the words. */
  function StyleEntry(words: seq<string>, value: string): Rule<string> {
    Rule(seq(|words|, i requires 0 <= i < |words| => Includes(words[i])), value)
  }

  const FILE_STYLES: seq<Rule<string>> := [
    StyleEntry(["kebab-case"], "kebab-case"),
    StyleEntry(["snake_case"], "snake_case"),
    StyleEntry(["camelcase"], "camelCase"),
    StyleEntry(["pascalcase"], "PascalCase")
  ]

  const FUNCTION_STYLES: seq<Rule<string>> := [
    StyleEntry(["camelcase"], "camelCase"),
    StyleEntry(["snake_case"], "snake_case"),
    StyleEntry(["pascalcase"], "PascalCase")
  ]

  const VARIABLE_STYLES: seq<Rule<string>> := [
    StyleEntry(["caps_underscores", "screaming_snake"], "SCREAMING_SNAKE"),
    StyleEntry(["camelcase"], "camelCase"),
    StyleEntry(["snake_case"], "snake_case")
  ]

  /** `pickFirstStyle`: the value of the first entry whose words occur in the
      text, or `unknown`. */
  function PickFirstStyle(text: string, entries: seq<Rule<string>>): (r: string)
    ensures (forall i :: 0 <= i < |entries| ==> !Fires(entries[i], Lower(text))) ==> r == "unknown"
    ensures forall i :: (0 <= i < |entries| && Fires(entries[i], Lower(text)) &&
                         (forall j :: 0 <= j < i ==> !Fires(entries[j], Lower(text)))) ==> r == entries[i].verdict
  {
    FirstMatch(entries, Lower(text), "unknown")
  }

  datatype NamingGuess = NamingGuess(files: string, functions: string, variables: string)

  /** File names are judged from CONVENTIONS.md alone; functions and variables
      from CONVENTIONS.md and TESTING.md joined by a newline. */
  function NamingGuessOf(conventionsText: string, testingText: string): NamingGuess {
    var combined := conventionsText + "\n" + testingText;
    NamingGuess(PickFirstStyle(conventionsText, FILE_STYLES),
                PickFirstStyle(combined, FUNCTION_STYLES),
                PickFirstStyle(combined, VARIABLE_STYLES))
  }

  /** A mention of SCREAMING_SNAKE (or caps_underscores) decides the variable
      style, whatever else the documents say. */
  lemma ScreamingSnakeWins(conventionsText: string, testingText: string)
    requires Contains(Lower(conventionsText + "\n" + testingText), "screaming_snake")
    ensures NamingGuessOf(conventionsText, testingText).variables == "SCREAMING_SNAKE"
  {
    var p := Lower(conventionsText + "\n" + testingText);
    assert Passes(VARIABLE_STYLES[0].tests[1], p);
    assert Fires(VARIABLE_STYLES[0], p);
  }

  /** A file-naming style mentioned only in TESTING.md does not count. */
  lemma FilesUnknownWithoutConventions(testingText: string)
    ensures NamingGuessOf("", testingText).files == "unknown"
  {
    forall i, k | 0 <= i < |FILE_STYLES| && 0 <= k < |FILE_STYLES[i].tests|
      ensures !Passes(FILE_STYLES[i].tests[k], Lower(""))
    {
      assert |FILE_STYLES[i].tests[k].text| > 0;
    }
  }

  datatype Confidence = Low | Medium | High

  /** The confidence grade: both documents, one of them, or neither. */
  function ConfidenceOf(conventionsText: string, testingText: string): (c: Confidence)
    ensures c == High <==> conventionsText != "" && testingText != ""
    ensures c == Medium <==> (conventionsText != "") != (testingText != "")
    ensures c == Low <==> conventionsText == "" && testingText == ""
  {
    if conventionsText != "" && testingText != "" then High
    else if conventionsText != "" || testingText != "" then Medium
    else Low
  }

  /** What `buildConventions` returns, without the pattern lines. */
  datatype DocConventions = DocConventions(
    version: nat,
    generated: string,
    commitHash: string,
    naming: NamingGuess,
    directories: Dict<string, string>,
    confidence: Confidence)

  function ConventionsOf(docs: Docs, generated: string, git: Option<string>, scan: DocScanner): DocConventions {
    var conventionsText := DocText(docs, "CONVENTIONS.md");
    var testingText := DocText(docs, "TESTING.md");
    DocConventions(1, generated, CommitHashOf(git), NamingGuessOf(conventionsText, testingText),
                   PurposesOf(scan(PurposeBlock, DocText(docs, "STRUCTURE.md"))),
                   ConfidenceOf(conventionsText, testingText))
  }

  /** `buildConventions` */
  method BuildConventions(docs: Docs, generated: string, git: Option<string>, scan: DocScanner)
    returns (r: DocConventions)
    ensures r == ConventionsOf(docs, generated, git, scan)
  {
    var conventionsText := DocText(docs, "CONVENTIONS.md");
    var testingText := DocText(docs, "TESTING.md");
    var directories := ExtractDirectoryPurposes(DocText(docs, "STRUCTURE.md"), scan);
    var confidence := Low;
    if conventionsText != "" && testingText != "" {
      confidence := High;
    } else if conventionsText != "" || testingText != "" {
      confidence := Medium;
    }
    r := DocConventions(1, generated, CommitHashOf(git), NamingGuessOf(conventionsText, testingText),
                        directories, confidence);
  }

  // ---------------------------------------------------------------------------
  // ensureLineBounds
  // ---------------------------------------------------------------------------

  const FILLER_LINE: string := "- Additional codebase detail not available in source docs."

  /** At most `hi` lines; when fewer than `lo` remain, filler lines are added
      up to `lo` (and the result again cut to `hi`). */
  function Bounded(lines: seq<string>, lo: nat, hi: nat): (r: seq<string>)
    ensures |r| == Min(Max(|lines|, lo), hi)
    ensures r[..Min(|lines|, hi)] == lines[..Min(|lines|, hi)]
    ensures forall i :: Min(|lines|, hi) <= i < |r| ==> r[i] == FILLER_LINE
  {
    var trimmed := lines[..Min(|lines|, hi)];
    if |trimmed| >= lo then trimmed
    else (trimmed + seq(lo - |trimmed|, _ => FILLER_LINE))[..Min(lo, hi)]
  }

  /** `ensureLineBounds` */
  method EnsureLineBounds(lines: seq<string>, lo: nat, hi: nat) returns (r: seq<string>)
    ensures r == Bounded(lines, lo, hi)
  {
    var trimmed := lines[..Min(|lines|, hi)];
    if |trimmed| >= lo {
      return trimmed;
    }
    var padded := trimmed;
    while |padded| < lo
      invariant |trimmed| <= |padded| <= lo
      invariant padded == trimmed + seq(|padded| - |trimmed|, _ => FILLER_LINE)
      decreases lo - |padded|
    {
      padded := padded + [FILLER_LINE];
    }
    r := padded[..Min(|padded|, hi)];
  }
}
