/** Text helpers shared by every part of the indexer: the characters JavaScript
    treats as whitespace and as line terminators, prefix/suffix/substring tests,
    ASCII lower-casing, `String.prototype.split` on one character, `trim`, the
    order in which `Array.prototype.sort` arranges strings, and the three ways
    the scripts deduplicate a list (`[...new Set(xs)].sort()`, a plain sort, and
    `Array.from(new Set(xs))`). */
module Strings {

  datatype Option<T> = None | Some(value: T)

  // ---------------------------------------------------------------------------
  // Character classes
  // ---------------------------------------------------------------------------

  /** The characters matched by `\s` in a JavaScript regular expression and
      removed by `String.prototype.trim`. */
  predicate IsSpace(c: char) {
    c in {' ', '\t', '\n', '\U{000B}', '\U{000C}', '\r', '\U{00A0}', '\U{1680}',
          '\U{2000}', '\U{2001}', '\U{2002}', '\U{2003}', '\U{2004}', '\U{2005}',
          '\U{2006}', '\U{2007}', '\U{2008}', '\U{2009}', '\U{200A}', '\U{2028}',
          '\U{2029}', '\U{202F}', '\U{205F}', '\U{3000}', '\U{FEFF}'}
  }

  /** The characters at which `^` and `$` match in multiline mode and which `.` does not match. */
  predicate IsLineTerminator(c: char) {
    c in {'\n', '\r', '\U{2028}', '\U{2029}'}
  }

  predicate IsUpper(c: char) { 'A' <= c <= 'Z' }
  predicate IsLowerLetter(c: char) { 'a' <= c <= 'z' }
  predicate IsDigit(c: char) { '0' <= c <= '9' }
  predicate IsAlnum(c: char) { IsUpper(c) || IsLowerLetter(c) || IsDigit(c) }
  /** `\w` */
  predicate IsWordChar(c: char) { IsAlnum(c) || c == '_' }

  lemma LineTerminatorIsSpace(c: char)
    requires IsLineTerminator(c)
    ensures IsSpace(c)
  {
  }

  // ---------------------------------------------------------------------------
  // Prefixes, suffixes, substrings
  // ---------------------------------------------------------------------------

  predicate StartsWith(s: string, p: string) {
    |p| <= |s| && s[..|p|] == p
  }

  predicate EndsWith(s: string, p: string) {
    |p| <= |s| && s[|s| - |p|..] == p
  }

  /** `s.includes(p)` */
  predicate Contains(s: string, p: string)
    decreases |s|
  {
    StartsWith(s, p) || (|s| > 0 && Contains(s[1..], p))
  }

  lemma {:induction false} ContainsSuffix(s: string, p: string, i: nat)
    requires i <= |s| && Contains(s[i..], p)
    ensures Contains(s, p)
    decreases i
  {
    if i > 0 {
      assert s[1..][i - 1..] == s[i..];
      ContainsSuffix(s[1..], p, i - 1);
    }
  }

  lemma {:induction false} ContainsAt(s: string, p: string, i: nat)
    requires i + |p| <= |s| && s[i..i + |p|] == p
    ensures Contains(s, p)
  {
    assert StartsWith(s[i..], p);
    ContainsSuffix(s, p, i);
  }

  lemma {:induction false} ContainsWitness(s: string, p: string) returns (i: nat)
    requires Contains(s, p)
    ensures i + |p| <= |s| && s[i..i + |p|] == p
    decreases |s|
  {
    if StartsWith(s, p) {
      i := 0;
    } else {
      var j := ContainsWitness(s[1..], p);
      assert s[1..][j..j + |p|] == s[j + 1..j + 1 + |p|];
      i := j + 1;
    }
  }

  /** A string that contains a character does so at some index. */
  lemma ContainsChar(s: string, c: char)
    requires Contains(s, [c])
    ensures c in s
  {
    var i := ContainsWitness(s, [c]);
    assert s[i] == s[i..i + 1][0];
  }

  lemma CharContained(s: string, c: char)
    requires c in s
    ensures Contains(s, [c])
  {
    var i :| 0 <= i < |s| && s[i] == c;
    assert s[i..i + 1] == [c];
    ContainsAt(s, [c], i);
  }

  /** A suffix of a string is contained in it. */
  lemma EndsWithContains(s: string, p: string)
    requires EndsWith(s, p)
    ensures Contains(s, p)
  {
    ContainsAt(s, p, |s| - |p|);
  }

  // ---------------------------------------------------------------------------
  // Lower-casing (ASCII letters only)
  // ---------------------------------------------------------------------------

  function LowerChar(c: char): char {
    if IsUpper(c) then (c as int + 32) as char else c
  }

  /** `toLowerCase()` restricted to the ASCII letters. */
  function Lower(s: string): (r: string)
    ensures |r| == |s|
    ensures forall i :: 0 <= i < |s| ==> r[i] == LowerChar(s[i])
  {
    seq(|s|, i requires 0 <= i < |s| => LowerChar(s[i]))
  }

  // ---------------------------------------------------------------------------
  // split / join on one character
  // ---------------------------------------------------------------------------

  function IndexOfChar(s: string, c: char): (i: nat)
    requires c in s
    ensures i < |s| && s[i] == c && c !in s[..i]
  {
    if s[0] == c then 0 else IndexOfChar(s[1..], c) + 1
  }

  /** `s.split(c)`: the pieces between occurrences of `c`; never empty. */
  function Split(s: string, c: char): (parts: seq<string>)
    ensures |parts| >= 1
    ensures forall i :: 0 <= i < |parts| ==> c !in parts[i]
    decreases |s|
  {
    if c !in s then [s]
    else
      var i := IndexOfChar(s, c);
      [s[..i]] + Split(s[i + 1..], c)
  }

  /** `parts.join(c)` */
  function Join(parts: seq<string>, c: char): string {
    if |parts| == 0 then ""
    else if |parts| == 1 then parts[0]
    else parts[0] + [c] + Join(parts[1..], c)
  }

  /** Splitting and joining on the same character gives the text back. */
  lemma {:induction false} JoinSplit(s: string, c: char)
    ensures Join(Split(s, c), c) == s
    decreases |s|
  {
    if c in s {
      var i := IndexOfChar(s, c);
      var rest := Split(s[i + 1..], c);
      assert Split(s, c) == [s[..i]] + rest;
      JoinCons(s[..i], rest, c);
      JoinSplit(s[i + 1..], c);
      assert s == s[..i] + [c] + s[i + 1..];
    }
  }

  lemma JoinCons(a: string, rest: seq<string>, c: char)
    requires |rest| >= 1
    ensures Join([a] + rest, c) == a + [c] + Join(rest, c)
  {
    assert ([a] + rest)[1..] == rest;
  }

  /** `s.split(c).pop()`: the text after the last `c`, or all of `s`. */
  function LastPiece(s: string, c: char): (r: string)
    ensures c !in r
    decreases |s|
  {
    if c !in s then s else LastPiece(s[IndexOfChar(s, c) + 1..], c)
  }

  /** The last piece is the whole text when `c` does not occur, and otherwise
      the suffix that follows the final `c`. */
  lemma {:induction false} LastPieceIsSuffix(s: string, c: char)
    ensures c !in s ==> LastPiece(s, c) == s
    ensures c in s ==> EndsWith(s, [c] + LastPiece(s, c))
    decreases |s|
  {
    if c in s {
      var i := IndexOfChar(s, c);
      var t := s[i + 1..];
      LastPieceIsSuffix(t, c);
      if c !in t {
        SeparatorThenRest(s, i);
      } else {
        EndsWithDrop(s, i + 1, [c] + LastPiece(t, c));
      }
    }
  }

  /** `s` ends with its element at `i` followed by everything after it. */
  lemma SeparatorThenRest<T>(s: seq<T>, i: nat)
    requires i < |s|
    ensures |s| - (|s[i + 1..]| + 1) == i && s[i..] == [s[i]] + s[i + 1..]
  {
  }

  /** A suffix of a suffix of `s` is a suffix of `s`. */
  lemma EndsWithDrop(s: string, k: nat, x: string)
    requires k <= |s| && EndsWith(s[k..], x)
    ensures EndsWith(s, x)
  {
    assert s[|s| - |x|..] == s[k..][|s| - k - |x|..];
  }

  /** Splits `s` at every line terminator (the lines seen by a multiline `^`/`$`). */
  function SplitLines(s: string): (lines: seq<string>)
    ensures |lines| >= 1
    ensures forall i, j :: 0 <= i < |lines| && 0 <= j < |lines[i]| ==> !IsLineTerminator(lines[i][j])
    decreases |s|
  {
    if |s| == 0 then [""]
    else
      var rest := SplitLines(s[1..]);
      if IsLineTerminator(s[0]) then [""] + rest
      else [[s[0]] + rest[0]] + rest[1..]
  }

  // ---------------------------------------------------------------------------
  // trim
  // ---------------------------------------------------------------------------

  function TrimStart(s: string): (r: string)
    ensures |r| <= |s| && r == s[|s| - |r|..]
    ensures |r| > 0 ==> !IsSpace(r[0])
    ensures forall k :: 0 <= k < |s| - |r| ==> IsSpace(s[k])
  {
    if |s| > 0 && IsSpace(s[0]) then
      var r := TrimStart(s[1..]);
      assert forall k :: 1 <= k < |s| - |r| ==> s[k] == s[1..][k - 1];
      r
    else s
  }

  function TrimEnd(s: string): (r: string)
    ensures |r| <= |s| && r == s[..|r|]
    ensures |r| > 0 ==> !IsSpace(r[|r| - 1])
    ensures forall k :: |r| <= k < |s| ==> IsSpace(s[k])
  {
    if |s| > 0 && IsSpace(s[|s| - 1]) then TrimEnd(s[..|s| - 1]) else s
  }

  /** `r` occurs in `s` starting at index `i`. */
  predicate IsSliceAt(r: string, s: string, i: int) {
    0 <= i <= |s| - |r| && r == s[i..i + |r|]
  }

  /** `s.trim()`: a contiguous piece of `s` that neither starts nor ends with
      whitespace, with only whitespace dropped around it. */
  function Trim(s: string): (r: string)
    ensures exists i :: (IsSliceAt(r, s, i) &&
      (forall k :: 0 <= k < i ==> IsSpace(s[k])) &&
      (forall k :: i + |r| <= k < |s| ==> IsSpace(s[k])))
    ensures |r| > 0 ==> !IsSpace(r[0]) && !IsSpace(r[|r| - 1])
  {
    var t := TrimStart(s);
    var r := TrimEnd(t);
    var i := |s| - |t|;
    TakeOfDrop(s, i, |r|);
    assert IsSliceAt(r, s, i);
    r
  }

  /** The first `n` elements after the first `i` are the slice from `i` to `i + n`. */
  lemma TakeOfDrop<T>(s: seq<T>, i: nat, n: nat)
    requires i + n <= |s|
    ensures s[i..][..n] == s[i..i + n]
  {
  }

  /** A trimmed text keeps every character of a text that has no whitespace at either end. */
  lemma TrimNoSpace(s: string)
    requires |s| > 0 ==> !IsSpace(s[0]) && !IsSpace(s[|s| - 1])
    ensures Trim(s) == s
  {
  }

  // ---------------------------------------------------------------------------
  // The default sort order on strings
  // ---------------------------------------------------------------------------

  /** Lexicographic order by character code, as `Array.prototype.sort` compares strings. */
  predicate Lt(a: string, b: string)
    decreases |a|
  {
    |b| > 0 && (|a| == 0 || a[0] < b[0] || (a[0] == b[0] && Lt(a[1..], b[1..])))
  }

  predicate Le(a: string, b: string) {
    a == b || Lt(a, b)
  }

  lemma {:induction false} LtIrreflexive(a: string)
    ensures !Lt(a, a)
    decreases |a|
  {
    if |a| > 0 {
      LtIrreflexive(a[1..]);
    }
  }

  lemma {:induction false} LtTransitive(a: string, b: string, c: string)
    requires Lt(a, b) && Lt(b, c)
    ensures Lt(a, c)
    decreases |a|
  {
    if |a| > 0 && a[0] == b[0] && b[0] == c[0] {
      LtTransitive(a[1..], b[1..], c[1..]);
    }
  }

  lemma {:induction false} LtTotal(a: string, b: string)
    ensures a == b || Lt(a, b) || Lt(b, a)
    decreases |a|
  {
    if |a| > 0 && |b| > 0 && a[0] == b[0] {
      LtTotal(a[1..], b[1..]);
      if a[1..] == b[1..] {
        assert a == [a[0]] + a[1..] && b == [b[0]] + b[1..];
      }
    }
  }

  lemma LtAsymmetric(a: string, b: string)
    requires Lt(a, b)
    ensures !Lt(b, a)
  {
    if Lt(b, a) {
      LtTransitive(a, b, a);
      LtIrreflexive(a);
    }
  }

  predicate Sorted(s: seq<string>) {
    forall i, j :: 0 <= i < j < |s| ==> Le(s[i], s[j])
  }

  /** Sorted with no element twice. */
  predicate StrictlySorted(s: seq<string>) {
    forall i, j :: 0 <= i < j < |s| ==> Lt(s[i], s[j])
  }

  predicate NoDup<T(==)>(s: seq<T>) {
    forall i, j :: 0 <= i < j < |s| ==> s[i] != s[j]
  }

  /** Cutting at `j` and then dropping `i` is the slice from `i` to `j`, and
      the suffix from `i` is that slice followed by the suffix from `j`. */
  lemma SliceConcat<T>(s: seq<T>, i: nat, j: nat)
    requires i <= j <= |s|
    ensures s[..j][i..] == s[i..j] && s[i..] == s[i..j] + s[j..]
  {
  }

  /** A slice of a concatenation that lies within one side is a slice of that side. */
  lemma ConcatSlices<T>(x: seq<T>, y: seq<T>, i: nat, j: nat)
    requires i <= j <= |x| + |y|
    ensures j <= |x| ==> (x + y)[i..j] == x[i..j]
    ensures |x| <= i ==> (x + y)[i..j] == y[i - |x|..j - |x|]
  {
  }

  /** Taking `n + 1` elements is the first element followed by `n` of the rest;
      dropping `k` of the rest is dropping `k + 1`. */
  lemma HeadTail<T>(s: seq<T>, n: nat, k: nat)
    requires n < |s| && k < |s|
    ensures s[..n + 1] == [s[0]] + s[1..][..n]
    ensures s[1..][k..] == s[k + 1..]
  {
  }

  lemma InCons<T>(x: T, a: T, b: seq<T>)
    ensures x in [a] + b <==> x == a || x in b
  {
  }

  lemma InSnoc<T>(x: T, a: seq<T>, b: T)
    ensures x in a + [b] <==> x in a || x == b
  {
  }

  lemma AppendEmpty<T>(s: seq<T>)
    ensures [] + s == s && s + [] == s
  {
  }

  /** The front of `a + b`, for a non-empty `b`, is `a` and the front of `b`. */
  lemma InitOfAppend<T>(a: seq<T>, b: seq<T>)
    requires b != []
    ensures (a + b)[..|a + b| - 1] == a + b[..|b| - 1] && (a + b)[|a + b| - 1] == b[|b| - 1]
  {
  }

  lemma ConsParts<T>(x: T, s: seq<T>)
    ensures ([x] + s)[0] == x && ([x] + s)[1..] == s
  {
  }

  lemma AppendAssoc<T>(a: seq<T>, b: seq<T>, c: seq<T>)
    ensures a + (b + c) == (a + b) + c
  {
  }

  /** Taking all of a sequence leaves it whole. */
  lemma TakeAll<T>(s: seq<T>)
    ensures s[..|s|] == s
  {
  }

  /** A non-empty sequence is its front followed by its last element. */
  lemma InitLast<T>(s: seq<T>)
    requires s != []
    ensures s == s[..|s| - 1] + [s[|s| - 1]]
  {
  }

  /** Dropping the last element keeps the rest distinct, and the last is not among them. */
  lemma NoDupInit<T>(s: seq<T>)
    requires NoDup(s) && s != []
    ensures NoDup(s[..|s| - 1]) && s[|s| - 1] !in s[..|s| - 1]
  {
    var init := s[..|s| - 1];
    forall i | 0 <= i < |init| ensures init[i] != s[|s| - 1] {
      assert init[i] == s[i];
    }
  }

  lemma StrictlySortedNoDup(s: seq<string>)
    requires StrictlySorted(s)
    ensures NoDup(s)
  {
    forall i, j | 0 <= i < j < |s| ensures s[i] != s[j] {
      LtIrreflexive(s[i]);
    }
  }

  lemma StrictlySortedCons(x: string, s: seq<string>)
    requires StrictlySorted(s)
    requires forall y :: y in s ==> Lt(x, y)
    ensures StrictlySorted([x] + s)
  {
    var r := [x] + s;
    forall i, j | 0 <= i < j < |r| ensures Lt(r[i], r[j]) {
      if i > 0 {
        assert r[i] == s[i - 1] && r[j] == s[j - 1];
      } else {
        assert r[j] == s[j - 1];
      }
    }
  }

  lemma SortedCons(x: string, s: seq<string>)
    requires Sorted(s)
    requires forall y :: y in s ==> Le(x, y)
    ensures Sorted([x] + s)
  {
    var r := [x] + s;
    forall i, j | 0 <= i < j < |r| ensures Le(r[i], r[j]) {
      if i > 0 {
        assert r[i] == s[i - 1] && r[j] == s[j - 1];
      } else {
        assert r[j] == s[j - 1];
      }
    }
  }

  /** Inserts `x` into a sorted list, keeping it sorted. */
  function Insert(x: string, s: seq<string>): (r: seq<string>)
    requires Sorted(s)
    ensures Sorted(r)
    ensures multiset(r) == multiset(s) + multiset{x}
  {
    if s == [] then [x]
    else if Le(x, s[0]) then
      assert forall y :: y in s ==> Le(x, y) by {
        forall y | y in s ensures Le(x, y) {
          var k :| 0 <= k < |s| && s[k] == y;
          if k > 0 && x != s[0] && s[0] != y { LtTransitive(x, s[0], y); }
        }
      }
      SortedCons(x, s);
      [x] + s
    else
      LtTotal(x, s[0]);
      var t := Insert(x, s[1..]);
      assert s == [s[0]] + s[1..];
      assert forall y :: y in t ==> Le(s[0], y) by {
        forall y | y in t ensures Le(s[0], y) {
          assert y in multiset(t);
          if y != x {
            assert y in multiset(s[1..]);
            var k :| 0 <= k < |s[1..]| && s[1..][k] == y;
            assert s[k + 1] == y;
          }
        }
      }
      SortedCons(s[0], t);
      [s[0]] + t
  }

  /** `xs.sort()` (duplicates kept). */
  function Sort(xs: seq<string>): (r: seq<string>)
    ensures Sorted(r)
    ensures multiset(r) == multiset(xs)
  {
    if xs == [] then []
    else
      InitLast(xs);
      Insert(xs[|xs| - 1], Sort(xs[..|xs| - 1]))
  }

  /** Inserts `x` into a strictly sorted list unless it is already there. */
  function InsertNew(x: string, s: seq<string>): (r: seq<string>)
    requires StrictlySorted(s)
    ensures StrictlySorted(r)
    ensures forall y :: y in r <==> y in s || y == x
  {
    if s == [] then [x]
    else if x == s[0] then s
    else if Lt(x, s[0]) then
      assert forall y :: y in s ==> Lt(x, y) by {
        forall y | y in s ensures Lt(x, y) {
          var k :| 0 <= k < |s| && s[k] == y;
          if k > 0 { LtTransitive(x, s[0], y); }
        }
      }
      StrictlySortedCons(x, s);
      [x] + s
    else
      LtTotal(x, s[0]);
      var t := InsertNew(x, s[1..]);
      assert forall y :: y in t ==> Lt(s[0], y) by {
        forall y | y in t ensures Lt(s[0], y) {
          if y != x {
            var k :| 0 <= k < |s[1..]| && s[1..][k] == y;
            assert s[k + 1] == y;
          }
        }
      }
      StrictlySortedCons(s[0], t);
      assert s == [s[0]] + s[1..];
      [s[0]] + t
  }

  /** `[...new Set(xs)].sort()`: the distinct elements of `xs`, in order. */
  function SortedSet(xs: seq<string>): (r: seq<string>)
    ensures StrictlySorted(r)
    ensures forall y :: y in r <==> y in xs
  {
    if xs == [] then []
    else
      var init := xs[..|xs| - 1];
      InitLast(xs);
      InsertNew(xs[|xs| - 1], SortedSet(init))
  }

  /** A strictly sorted list is determined by its elements: this is why the
      deduplicated, sorted lists the extractors return do not depend on the
      order in which matches were found. */
  lemma {:induction false} StrictlySortedUnique(a: seq<string>, b: seq<string>)
    requires StrictlySorted(a) && StrictlySorted(b)
    requires forall y :: y in a <==> y in b
    ensures a == b
    decreases |a|
  {
    HeadIn(a);
    HeadIn(b);
    if a != [] && b != [] {
      var i :| 0 <= i < |b| && b[i] == a[0];
      var j :| 0 <= j < |a| && a[j] == b[0];
      if i > 0 && j > 0 {
        assert Lt(b[0], a[0]) && Lt(a[0], b[0]);
        LtAsymmetric(a[0], b[0]);
      }
      assert a[0] == b[0] by {
        if i > 0 { assert a[j] == b[0]; assert j == 0; }
      }
      forall y ensures y in a[1..] <==> y in b[1..] {
        if y in a[1..] {
          var k :| 0 <= k < |a[1..]| && a[1..][k] == y;
          assert Lt(a[0], a[k + 1]);
          LtIrreflexive(y);
          assert y in b && y != b[0];
          var m :| 0 <= m < |b| && b[m] == y;
          assert m > 0;
          assert b[1..][m - 1] == y;
        }
        if y in b[1..] {
          var k :| 0 <= k < |b[1..]| && b[1..][k] == y;
          assert Lt(b[0], b[k + 1]);
          LtIrreflexive(y);
          assert y in a && y != a[0];
          var m :| 0 <= m < |a| && a[m] == y;
          assert m > 0;
          assert a[1..][m - 1] == y;
        }
      }
      StrictlySortedUnique(a[1..], b[1..]);
      assert a == [a[0]] + a[1..] && b == [b[0]] + b[1..];
    }
  }

  lemma HeadIn<T>(s: seq<T>)
    ensures |s| > 0 ==> s[0] in s
  {
  }

  /** Deduplicating and sorting depends only on which strings occur: running
      an extractor over the same matches in any order or multiplicity gives
      the same list. */
  lemma SortedSetDeterministic(xs: seq<string>, ys: seq<string>)
    requires forall y :: y in xs <==> y in ys
    ensures SortedSet(xs) == SortedSet(ys)
  {
    StrictlySortedUnique(SortedSet(xs), SortedSet(ys));
  }

  /** Sorting a duplicate-free list yields its strictly sorted set. */
  lemma SortNoDup(xs: seq<string>)
    requires NoDup(xs)
    ensures StrictlySorted(Sort(xs))
    ensures Sort(xs) == SortedSet(xs)
  {
    var r := Sort(xs);
    forall i, j | 0 <= i < j < |r| ensures Lt(r[i], r[j]) {
      if r[i] == r[j] {
        TwiceCounted(r, i, j);
        MultisetTwice(xs, r[i]);
      }
    }
    forall y ensures y in r <==> y in xs {
      assert y in r <==> y in multiset(r);
      assert y in xs <==> y in multiset(xs);
    }
    StrictlySortedUnique(r, SortedSet(xs));
  }

  lemma TwiceCounted<T>(s: seq<T>, i: nat, j: nat)
    requires i < j < |s| && s[i] == s[j]
    ensures multiset(s)[s[i]] >= 2
  {
    assert s == s[..j] + s[j..];
    assert multiset(s) == multiset(s[..j]) + multiset(s[j..]);
    assert s[..j][i] == s[i];
    assert s[j..][0] == s[i];
  }

  lemma {:induction false} MultisetTwice<T>(xs: seq<T>, y: T)
    requires multiset(xs)[y] >= 2
    ensures !NoDup(xs)
  {
    var i :| 0 <= i < |xs| && xs[i] == y;
    var rest := xs[..i] + xs[i + 1..];
    assert xs == xs[..i] + [xs[i]] + xs[i + 1..];
    assert multiset(xs) == multiset(rest) + multiset{xs[i]};
    assert y in rest;
    var k :| 0 <= k < |rest| && rest[k] == y;
    if k < i {
      assert xs[k] == y;
    } else {
      assert xs[k + 1] == y;
    }
  }

  // ---------------------------------------------------------------------------
  // First-occurrence deduplication
  // ---------------------------------------------------------------------------

  /** Index of the first occurrence of `x` in `xs`. */
  function FirstIndex<T(==)>(xs: seq<T>, x: T): (i: nat)
    requires x in xs
    ensures i < |xs| && xs[i] == x && x !in xs[..i]
  {
    if xs[0] == x then 0 else FirstIndex(xs[1..], x) + 1
  }

  /** `Array.from(new Set(xs))`: each element once, at its first occurrence. */
  function Unique<T(==)>(xs: seq<T>): (r: seq<T>)
    ensures NoDup(r)
    ensures forall k :: 0 <= k < |r| ==> r[k] in xs
    ensures forall k :: 0 <= k < |xs| ==> xs[k] in r
    ensures |r| <= |xs|
  {
    if xs == [] then []
    else
      var init := xs[..|xs| - 1];
      var u := Unique(init);
      assert xs == init + [xs[|xs| - 1]];
      if xs[|xs| - 1] in u then u else u + [xs[|xs| - 1]]
  }

  lemma UniqueMembers<T>(xs: seq<T>, y: T)
    ensures y in Unique(xs) <==> y in xs
  {
    if y in xs {
      var k :| 0 <= k < |xs| && xs[k] == y;
    }
  }

  /** `Unique` keeps elements in the order of their first occurrence. */
  lemma {:induction false} UniqueFirstOccurrenceOrder<T>(xs: seq<T>, i: nat, j: nat)
    requires i < j < |Unique(xs)|
    ensures Unique(xs)[i] in xs && Unique(xs)[j] in xs
    ensures FirstIndex(xs, Unique(xs)[i]) < FirstIndex(xs, Unique(xs)[j])
    decreases |xs|
  {
    var init := xs[..|xs| - 1];
    var last := xs[|xs| - 1];
    var u := Unique(init);
    assert xs == init + [last];
    FirstIndexOfPrefix(init, last, Unique(xs)[i]);
    FirstIndexOfPrefix(init, last, Unique(xs)[j]);
    if last in u {
      UniqueFirstOccurrenceOrder(init, i, j);
    } else if j < |u| {
      UniqueFirstOccurrenceOrder(init, i, j);
    } else {
      assert Unique(xs)[j] == last && last !in init;
      assert Unique(xs)[i] == u[i] && u[i] in init;
    }
  }

  lemma FirstIndexOfPrefix<T>(init: seq<T>, last: T, y: T)
    requires y in init + [last]
    ensures y in init ==> FirstIndex(init + [last], y) == FirstIndex(init, y)
    ensures y !in init ==> FirstIndex(init + [last], y) == |init|
  {
    var xs := init + [last];
    var k := FirstIndex(xs, y);
    assert xs[..|init|] == init;
    if y in init {
      var m := FirstIndex(init, y);
      assert xs[m] == y;
      assert init[..m] == xs[..m];
    }
  }

  /** The first element of a non-empty list survives deduplication in front. */
  lemma {:induction false} UniqueHead<T>(xs: seq<T>)
    requires |xs| > 0
    ensures |Unique(xs)| > 0 && Unique(xs)[0] == xs[0]
    decreases |xs|
  {
    if |xs| > 1 {
      var init := xs[..|xs| - 1];
      UniqueHead(init);
    }
  }

  /** `unique(xs).sort()` and `[...new Set(xs)].sort()` are the same list. */
  lemma SortUnique(xs: seq<string>)
    ensures Sort(Unique(xs)) == SortedSet(xs)
    ensures StrictlySorted(Sort(Unique(xs)))
  {
    var u := Unique(xs);
    SortNoDup(u);
    forall y ensures y in SortedSet(u) <==> y in SortedSet(xs) {
      UniqueMembers(xs, y);
    }
    StrictlySortedUnique(SortedSet(u), SortedSet(xs));
  }
}
