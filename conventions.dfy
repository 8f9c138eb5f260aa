/**
 * The convention detector of the scanner: the naming style of exported
 * names, the purpose of each directory, and the counts of well-known file
 * suffixes.
 */
module Conventions {
  import opened Strings
  import opened Dicts
  import opened Paths
  import opened Classify
  import opened Extract
  import opened Exports
  import opened IndexStore
  import opened Ratios

  // ---------------------------------------------------------------------------
  // Naming conventions of exports
  // ---------------------------------------------------------------------------

  datatype NamingPattern = InsufficientData | Mixed | Dominant(style: Style)

  /** `confidence` is kept in hundredths: `Math.round(top / total * 100) / 100`
      is `Hundredths(top, total) / 100`. */
  datatype NamingConvention = NamingConvention(
    pattern: NamingPattern,
    confidence: nat,
    sampleSize: nat,
    breakdown: Dict<Style, nat>)

  /** The fewest exports a verdict is based on. */
  const MIN_SAMPLES: nat := 5

  /** `confidence >= 0.7`, exactly. */
  predicate Consensus(top: nat, total: nat) {
    10 * top >= 7 * total
  }

  /** Every exported name of the files of `paths`, file by file. */
  function ExportNames(index: FileIndex, paths: seq<string>): seq<string>
    requires forall i :: 0 <= i < |paths| ==> paths[i] in index.vals
  {
    if paths == [] then []
    else ExportNames(index, paths[..|paths| - 1]) + index.vals[paths[|paths| - 1]].exports
  }

  /** The style of each name. */
  function Styles(names: seq<string>): (r: seq<Style>)
    ensures |r| == |names|
  {
    if names == [] then [] else Styles(names[..|names| - 1]) + [ClassifyIdentifier(names[|names| - 1])]
  }

  /** What `detectConventions` reports for the list of all exported names. */
  function NamingOf(names: seq<string>): NamingConvention {
    VerdictOnStyles(Styles(names))
  }

  /** The report on the styles of all exported names, one per name. */
  function VerdictOnStyles(styles: seq<Style>): NamingConvention {
    var total := |styles|;
    if total < MIN_SAMPLES then NamingConvention(InsufficientData, 0, total, Empty())
    else VerdictOf(Tally(styles), total)
  }

  /** The verdict on `total` names whose styles were tallied in `counts`: the
      most frequent style and its share. */
  function VerdictOf(counts: Dict<Style, nat>, total: nat): NamingConvention
    requires Valid(counts) && |counts.keys| > 0 && 0 < total
  {
    var top := TopKey(counts);
    var confidence := Hundredths(counts.vals[top], total);
    if Consensus(counts.vals[top], total) then NamingConvention(Dominant(top), confidence, total, counts)
    else NamingConvention(Mixed, confidence, total, counts)
  }

  lemma {:induction false} StylesAt(names: seq<string>, i: nat)
    requires i < |names|
    ensures Styles(names)[i] == ClassifyIdentifier(names[i])
    decreases |names|
  {
    if i < |names| - 1 {
      StylesAt(names[..|names| - 1], i);
    }
  }

  /** Fewer than five exports: no verdict, zero confidence, no breakdown. */
  lemma NamingInsufficient(names: seq<string>)
    requires |names| < MIN_SAMPLES
    ensures NamingOf(names) == NamingConvention(InsufficientData, 0, |names|, Empty())
  {
  }

  /** With enough exports, the breakdown is the tally of the names' styles. */
  lemma NamingTally(names: seq<string>)
    requires |names| >= MIN_SAMPLES
    ensures var r := NamingOf(names);
      r.sampleSize == |names| && r.breakdown == Tally(Styles(names)) &&
      |r.breakdown.keys| > 0 &&
      var count := r.breakdown.vals[TopKey(r.breakdown)];
      r.confidence == Hundredths(count, |names|) &&
      r.pattern == (if Consensus(count, |names|) then Dominant(TopKey(r.breakdown)) else Mixed)
  {
  }

  /** With enough exports, the breakdown counts every name once, under its
      style: each count is the number of names of that style, and the counts
      add up to the sample size. */
  lemma NamingBreakdown(names: seq<string>, s: Style)
    requires |names| >= MIN_SAMPLES
    ensures var r := NamingOf(names);
      r.sampleSize == |names| && Total(r.breakdown) == |names| &&
      Get(r.breakdown, s, 0) == multiset(Styles(names))[s]
  {
    NamingTally(names);
    TallyTotal(Styles(names));
    TallyCounts(Styles(names), s);
  }

  /** A style is listed in the breakdown exactly when some name has it. */
  lemma NamingListsStyles(names: seq<string>, s: Style)
    requires |names| >= MIN_SAMPLES
    ensures s in NamingOf(names).breakdown.vals
        <==> exists i :: 0 <= i < |names| && ClassifyIdentifier(names[i]) == s
  {
    NamingTally(names);
    TallyCounts(Styles(names), s);
    StylesMembers(names, s);
  }

  lemma StylesMembers(names: seq<string>, s: Style)
    ensures s in Styles(names) <==> exists i :: 0 <= i < |names| && ClassifyIdentifier(names[i]) == s
  {
    if s in Styles(names) {
      var i :| 0 <= i < |names| && Styles(names)[i] == s;
      StylesAt(names, i);
    }
    forall i | 0 <= i < |names| && ClassifyIdentifier(names[i]) == s
      ensures s in Styles(names)
    {
      StylesAt(names, i);
    }
  }

  /** With enough exports, the pattern is the most frequent style (the first
      one met among equally frequent styles) exactly when it covers at least
      70% of the names; otherwise it is `mixed`. The confidence is that
      style's share in hundredths, in both cases. */
  lemma NamingVerdict(names: seq<string>)
    requires |names| >= MIN_SAMPLES
    ensures var r := NamingOf(names);
      |r.breakdown.keys| > 0 &&
      var top := TopKey(r.breakdown);
      var count := r.breakdown.vals[top];
      r.confidence == Hundredths(count, |names|) && r.confidence <= 100 &&
      (r.pattern == Dominant(top) <==> Consensus(count, |names|)) &&
      (r.pattern == Mixed <==> !Consensus(count, |names|))
  {
    var counts := Tally(Styles(names));
    TallyCounts(Styles(names), ClassifyIdentifier(names[0]));
    StylesAt(names, 0);
    TallyTotal(Styles(names));
    var top := TopKey(counts);
    TallyCounts(Styles(names), top);
    assert counts.vals[top] <= |names| by {
      MultiplicityAtMostLength(Styles(names), top);
    }
    HundredthsAtMost100(counts.vals[top], |names|);
  }

  lemma {:induction false} MultiplicityAtMostLength<T>(xs: seq<T>, x: T)
    ensures multiset(xs)[x] <= |xs|
    decreases |xs|
  {
    if xs != [] {
      MultiplicityAtMostLength(xs[1..], x);
      assert xs == [xs[0]] + xs[1..];
    }
  }

  // ---------------------------------------------------------------------------
  // detectConventions
  // ---------------------------------------------------------------------------

  /** The `allExports` loop: every export of every file, in index order. */
  method CollectExports(index: FileIndex) returns (names: seq<string>)
    requires Valid(index)
    ensures names == ExportNames(index, index.keys)
  {
    names := [];
    for i := 0 to |index.keys|
      invariant names == ExportNames(index, index.keys[..i])
    {
      assert index.keys[..i + 1][..i] == index.keys[..i];
      names := PushAll(names, index.vals[index.keys[i]].exports);
    }
    TakeAll(index.keys);
  }

  /** The `counts` loop: the style of every name, tallied. */
  method CountStyles(names: seq<string>) returns (counts: Dict<Style, nat>)
    ensures counts == Tally(Styles(names))
  {
    counts := Empty();
    for i := 0 to |names|
      invariant counts == Tally(Styles(names[..i]))
    {
      ghost var before := Styles(names[..i]);
      var style := ClassifyIdentifier(names[i]);
      StylesSnoc(names, i);
      counts := Bump(counts, before, style);
    }
    TakeAll(names);
  }

  lemma StylesSnoc(names: seq<string>, i: nat)
    requires i < |names|
    ensures Styles(names[..i + 1]) == Styles(names[..i]) + [ClassifyIdentifier(names[i])]
  {
    assert names[..i + 1][..i] == names[..i];
  }

  /** `detectConventions` */
  method DetectConventions(index: FileIndex) returns (r: NamingConvention)
    requires Valid(index)
    ensures r == NamingOf(ExportNames(index, index.keys))
  {
    var names := CollectExports(index);
    if |names| < MIN_SAMPLES {
      return NamingConvention(InsufficientData, 0, |names|, Empty());
    }
    var counts := CountStyles(names);
    var total := |names|;
    TallyCounts(Styles(names), ClassifyIdentifier(names[0]));
    StylesAt(names, 0);
    var top := TopKey(counts);
    var confidence := Hundredths(counts.vals[top], total);
    if 10 * counts.vals[top] < 7 * total {
      return NamingConvention(Mixed, confidence, total, counts);
    }
    return NamingConvention(Dominant(top), confidence, total, counts);
  }

  /** No style occurs more often in `styles` than `s`. */
  predicate MostFrequent(styles: seq<Style>, s: Style) {
    forall j :: multiset(styles)[j] <= multiset(styles)[s]
  }

  /** Detection is monotonic: one more export in a most frequent style never
      lowers the confidence. */
  lemma ConfidenceGrows(names: seq<string>, n: string)
    requires |names| >= MIN_SAMPLES
    requires MostFrequent(Styles(names), ClassifyIdentifier(n))
    ensures NamingOf(names + [n]).confidence >= NamingOf(names).confidence
  {
    StylesSnocLast(names, n);
    StyleConfidenceGrows(Styles(names), ClassifyIdentifier(n));
  }

  /** One more export in a most frequent style puts that style alone on top,
      and keeps a dominant verdict dominant. */
  lemma DominantStyleStays(names: seq<string>, n: string)
    requires |names| >= MIN_SAMPLES
    requires MostFrequent(Styles(names), ClassifyIdentifier(n))
    ensures NamingOf(names + [n]).pattern.Dominant? ==> NamingOf(names + [n]).pattern.style == ClassifyIdentifier(n)
    ensures NamingOf(names).pattern.Dominant? ==> NamingOf(names + [n]).pattern == Dominant(ClassifyIdentifier(n))
  {
    StylesSnocLast(names, n);
    StyleDominantStays(Styles(names), ClassifyIdentifier(n));
  }

  lemma StyleConfidenceGrows(styles: seq<Style>, s: Style)
    requires |styles| >= MIN_SAMPLES && MostFrequent(styles, s)
    ensures VerdictOnStyles(styles + [s]).confidence >= VerdictOnStyles(styles).confidence
  {
    MostFrequentCount(styles, s);
    VerdictOnMore(styles, s);
    VerdictConfidenceGrows(Tally(styles), s, |styles|, |styles + [s]|);
  }

  lemma StyleDominantStays(styles: seq<Style>, s: Style)
    requires |styles| >= MIN_SAMPLES && MostFrequent(styles, s)
    ensures VerdictOnStyles(styles + [s]).pattern.Dominant? ==> VerdictOnStyles(styles + [s]).pattern.style == s
    ensures VerdictOnStyles(styles).pattern.Dominant? ==> VerdictOnStyles(styles + [s]).pattern == Dominant(s)
  {
    MostFrequentCount(styles, s);
    VerdictOnMore(styles, s);
    VerdictDominantStays(Tally(styles), s, |styles|, |styles + [s]|);
  }

  /** The report on one more style is the verdict on the tally with that
      style counted once more. */
  lemma VerdictOnMore(styles: seq<Style>, s: Style)
    requires |styles| >= MIN_SAMPLES
    ensures |Inc(Tally(styles), s).keys| > 0
    ensures VerdictOnStyles(styles) == VerdictOf(Tally(styles), |styles|)
    ensures VerdictOnStyles(styles + [s]) == VerdictOf(Inc(Tally(styles), s), |styles + [s]|)
  {
    TallySnoc(styles, s);
  }

  /** A most frequent style is counted in the tally, no more often than there
      are styles, and no style is counted more often. */
  lemma MostFrequentCount(styles: seq<Style>, s: Style)
    requires |styles| > 0 && MostFrequent(styles, s)
    ensures var d := Tally(styles);
      s in d.vals && d.vals[s] <= |styles| && forall j :: j in d.vals ==> d.vals[j] <= d.vals[s]
  {
    var d := Tally(styles);
    TallyCounts(styles, styles[0]);
    TallyCounts(styles, s);
    assert d.vals[s] <= |styles| by {
      assert multiset(styles)[s] <= |multiset(styles)|;
    }
    forall j | j in d.vals ensures d.vals[j] <= d.vals[s] {
      TallyCounts(styles, j);
    }
  }

  /** Counting one more name of a most frequent style, out of `grown` names
      now, does not lower its share. */
  lemma VerdictConfidenceGrows(d: Dict<Style, nat>, s: Style, total: nat, grown: nat)
    requires Valid(d) && s in d.vals && d.vals[s] <= total && 0 < total && grown == total + 1
    requires forall j :: j in d.vals ==> d.vals[j] <= d.vals[s]
    ensures |d.keys| > 0
    ensures VerdictOf(Inc(d, s), grown).confidence >= VerdictOf(d, total).confidence
  {
    IncTop(d, s);
    var c := d.vals[s];
    assert VerdictOf(d, total).confidence == Hundredths(c, total);
    assert VerdictOf(Inc(d, s), grown).confidence == Hundredths(c + 1, total + 1);
    HundredthsGrow(c, total);
  }

  /** Counting one more name of a most frequent style, out of `grown` names
      now, puts that style alone on top, and a consensus stays one. */
  lemma VerdictDominantStays(d: Dict<Style, nat>, s: Style, total: nat, grown: nat)
    requires Valid(d) && s in d.vals && d.vals[s] <= total && 0 < total && grown == total + 1
    requires forall j :: j in d.vals ==> d.vals[j] <= d.vals[s]
    ensures |d.keys| > 0
    ensures VerdictOf(Inc(d, s), grown).pattern.Dominant? ==> VerdictOf(Inc(d, s), grown).pattern.style == s
    ensures VerdictOf(d, total).pattern.Dominant? ==> VerdictOf(Inc(d, s), grown).pattern == Dominant(s)
  {
    IncTop(d, s);
  }

  lemma StylesSnocLast(names: seq<string>, n: string)
    ensures Styles(names + [n]) == Styles(names) + [ClassifyIdentifier(n)]
  {
    assert (names + [n])[..|names|] == names;
  }

  lemma ExampleStyles()
    ensures ClassifyIdentifier("getUser") == CamelCase
    ensures ClassifyIdentifier("getOrder") == CamelCase
    ensures ClassifyIdentifier("getX") == CamelCase
  {
    ClassifyIdentifierIff("getUser", CamelCase);
    ClassifyIdentifierIff("getOrder", CamelCase);
    ClassifyIdentifierIff("getX", CamelCase);
  }

  lemma ExampleStylesMore()
    ensures ClassifyIdentifier("Fetch") == PascalCase
    ensures ClassifyIdentifier("OTHER_X") == ScreamingSnake
  {
    ClassifyIdentifierIff("Fetch", PascalCase);
    assert "OTHER_X"[5] == '_';
    ClassifyIdentifierIff("OTHER_X", ScreamingSnake);
  }

  lemma ExampleStylesSeq()
    ensures Styles(["getUser", "getOrder", "getX", "Fetch", "OTHER_X"])
         == [CamelCase, CamelCase, CamelCase, PascalCase, ScreamingSnake]
  {
    var names := ["getUser", "getOrder", "getX", "Fetch", "OTHER_X"];
    var styles := [CamelCase, CamelCase, CamelCase, PascalCase, ScreamingSnake];
    ExampleStyles();
    ExampleStylesMore();
    forall i | 0 <= i < 5 ensures Styles(names)[i] == styles[i] {
      StylesAt(names, i);
    }
  }

  /** In the tally of three camelCase, one PascalCase and one SCREAMING_SNAKE
      style, camelCase comes first with three. */
  lemma ExampleTally()
    ensures var counts := Tally([CamelCase, CamelCase, CamelCase, PascalCase, ScreamingSnake]);
      |counts.keys| > 0 && TopKey(counts) == CamelCase && counts.vals[CamelCase] == 3
  {
    var styles := [CamelCase, CamelCase, CamelCase, PascalCase, ScreamingSnake];
    assert multiset(styles)[CamelCase] == 3;
    assert forall j :: j != CamelCase ==> multiset(styles)[j] <= 1;
    TallyStrictTop(styles, CamelCase);
  }

  /** Any five names styled like the example below give a `mixed` verdict
      with confidence 0.6. */
  lemma MixedThreeOfFive(names: seq<string>)
    requires Styles(names) == [CamelCase, CamelCase, CamelCase, PascalCase, ScreamingSnake]
    ensures var r := NamingOf(names);
      r.pattern == Mixed && r.confidence == 60 && r.sampleSize == 5
  {
    NamingTally(names);
    ExampleTally();
    HundredthsRounds(3, 5);
  }

  /** Three camelCase names out of five fall short of the 70% consensus: the
      verdict is `mixed` with confidence 0.6. */
  lemma ThreeOfFiveIsMixed()
    ensures var r := NamingOf(["getUser", "getOrder", "getX", "Fetch", "OTHER_X"]);
      r.pattern == Mixed && r.confidence == 60 && r.sampleSize == 5
  {
    ExampleStylesSeq();
    MixedThreeOfFive(["getUser", "getOrder", "getX", "Fetch", "OTHER_X"]);
  }
}
