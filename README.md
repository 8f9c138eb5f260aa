# kata-skills code intelligence, modelled in Dafny

This project models the code-intelligence core of the kata-skills scripts:

- **The codebase scanner** (`scan-codebase.cjs`):
  - filters source files by extension;
  - strips comments and skips generated files;
  - extracts imports and exports for JavaScript/TypeScript, Python, Go, Rust and Java;
  - classifies every file by type and layer;
  - merges a fresh scan into an existing index;
  - computes index statistics;
  - detects the dominant export naming convention, directory purposes and file-suffix conventions.
- **The staleness detector** (`detect-stale-intel.cjs`):
  - groups indexed files by the commit they were indexed at;
  - asks git which of them changed since;
  - reports stale and fresh files with a rounded percentage;
  - decides whether brownfield codebase documents are out of date.
- **The convention checker** (`check-conventions.cjs`): flags exports whose naming style differs from the project's confident dominant style.
- **The doc-derived intel generator** (`generate-intel.js`):
  - builds an index and a conventions summary out of the codebase documents (`STRUCTURE.md`, `ARCHITECTURE.md`, `CONVENTIONS.md`, `TESTING.md`);
  - uses backtick path spans, "Imports:"/"Exports:" annotations and directory-purpose blocks.
- **The kata-lib config helper** (`kata-lib.cjs`):
  - dotted-key resolution in `config.json`;
  - read-config, read-pref, set-config and has-pref;
  - check-config validation against the table of known keys;
  - check-roadmap;
  - template field-presence checks.

Modules follow the scripts. Shared logic is defined once:
- `Strings`, `Dicts` (JavaScript objects with insertion-ordered keys) and `Paths` (extname, dirname, basename);
- `Ratios` (rounding to hundredths);
- `Classify` (type, layer and identifier-style rules);
- `Extract` and `Exports` (comment stripping, generated-file detection, import and export extraction);
- `Conventions` and `Directories` (convention detection);
- `IndexStore` (scanFile, mergeIndex, computeStats and index assembly);
- `Staleness` and `Brownfield` (the staleness detector);
- `CheckConventions`, `DocIntel` and `KataLib`.

`check-conventions.cjs` carries its own copies of several scanner functions:
- stripComments and stripPythonComments;
- classifyIdentifier and getLanguage;
- the export extractors and isSupportedFile.

These copies read the same as the scanner's, so the model defines each one once and both scripts use it.

How the environment is represented:
- **Regular expressions.** Every `matchAll` over a regular expression is a *scanner* parameter: a function from a pattern name and a text to the captured groups. Everything the scripts do with the captures is modelled, including:
  - the trimming, splitting and filtering;
  - deduplication and sorting;
  - partitioning into packages and local imports.

  Regular expressions that only test text are modelled as character-level predicates. These include:
  - the comment strippers and the generated-file check;
  - identifier styles and the type and layer rules;
  - the analysis-date pattern and the roadmap headings;
  - the frontmatter strip and the field and section tests.
- **git, the filesystem and the clock** are parameters:
  - a failing command or an unreadable file is `None`;
  - the current time is a string argument.
- **Ratios** the scripts round with `Math.round(x * 100) / 100` are integer hundredths, rounded half up.

Behaviour of the code worth noting:
- **Merging an index.** Merging the same scan twice is not fully idempotent. The merged *entries* are (`IndexStore.MergeValuesIdempotent`), but the key order is not: a deleted-and-rescanned key moves to the end (`IndexStore.MergeOrderNotIdempotent`).
- **Python imports.** The package and local import lists of a Python file are not always disjoint: `import .a` together with `from .a import b` puts `.a` in both (`Extract.PythonListsMayOverlap`). The disjointness guarantee holds for the other languages.
- **The five-export example.** The exports `getUser`, `getOrder`, `getX`, `Fetch`, `OTHER_X` give three camelCase names out of five. The result is `mixed` with confidence 0.60, not a camelCase verdict (`Conventions.ThreeOfFiveIsMixed`).
- **`dominantSuffix`.** A directory's `dominantSuffix` is its most frequent file *extension* (from `path.extname`), not one of the compound suffixes such as `.test.ts` (`Directories.PurposeOf`).

## Model

| member | source | states |
|---|---|---|
| Strings.Lower | skills/kata-map-codebase/scripts/scan-codebase.cjs:482 | lower-casing keeps the length and maps each character by ASCII case folding |
| Strings.Split | skills/kata-research-phase/scripts/kata-lib.cjs:35 | splitting yields at least one piece and no piece contains the separator |
| Strings.JoinSplit | skills/kata-research-phase/scripts/kata-lib.cjs:35 | joining the pieces of a split with the separator gives back the original text |
| Strings.LastPieceIsSuffix | skills/kata-map-codebase/scripts/scan-codebase.cjs:158 | `split(c).pop()` is the whole text when `c` is absent, otherwise the text ends with `c` followed by that piece |
| Strings.SplitLines | skills/kata-research-phase/scripts/kata-lib.cjs:259-261 | splitting into lines yields at least one line and no line holds a line terminator |
| Strings.Trim | skills/kata-map-codebase/scripts/scan-codebase.cjs:269 | a trimmed string is a contiguous slice of the input that neither starts nor ends with white space, and everything dropped before and after it is white space |
| Strings.TrimNoSpace | skills/kata-map-codebase/scripts/scan-codebase.cjs:269 | trimming a string with no surrounding white space leaves it unchanged |
| Strings.LtTransitive | skills/kata-map-codebase/scripts/scan-codebase.cjs:244-245 | the string order used by `sort()` is transitive |
| Strings.LtTotal | skills/kata-map-codebase/scripts/scan-codebase.cjs:244-245 | any two different strings are ordered one way or the other |
| Strings.LtAsymmetric | skills/kata-map-codebase/scripts/scan-codebase.cjs:244-245 | the string order never holds both ways |
| Strings.Sort | skills/kata-map-codebase/scripts/generate-intel.js:188 | sorting yields an ordered permutation of the input |
| Strings.SortedSet | skills/kata-map-codebase/scripts/scan-codebase.cjs:244-245 | `[...new Set(xs)].sort()` is strictly increasing and holds exactly the members of `xs` |
| Strings.StrictlySortedUnique | skills/kata-map-codebase/scripts/scan-codebase.cjs:244-245 | two strictly sorted lists with the same members are equal, so the deduplicated sorted list is unique |
| Strings.SortedSetDeterministic | skills/kata-map-codebase/scripts/scan-codebase.cjs:244-245 | the deduplicated sorted result depends only on which values occur, not on their order or repetition |
| Strings.SortNoDup | skills/kata-map-codebase/scripts/generate-intel.js:188 | sorting a duplicate-free list gives the same result as deduplicating and sorting |
| Strings.Unique | skills/kata-map-codebase/scripts/generate-intel.js:79-81 | `unique` has no duplicates, loses no member, adds none and is no longer than its input |
| Strings.UniqueMembers | skills/kata-map-codebase/scripts/generate-intel.js:79-81 | a value is in `unique(xs)` exactly when it is in `xs` |
| Strings.UniqueFirstOccurrenceOrder | skills/kata-map-codebase/scripts/generate-intel.js:79-81 | `unique` keeps values in the order of their first occurrence |
| Strings.SortUnique | skills/kata-map-codebase/scripts/generate-intel.js:188 | `unique(xs).sort()` equals the deduplicated sorted list of `xs` |
| Dicts.Put | skills/kata-map-codebase/scripts/scan-codebase.cjs:752-754 | assigning a key updates its value, keeps the key order for an existing key and appends a new key at the end |
| Dicts.PutTwice | skills/kata-map-codebase/scripts/scan-codebase.cjs:752-754 | assigning a key twice is the same as assigning the last value once |
| Dicts.Remove | skills/kata-map-codebase/scripts/scan-codebase.cjs:747-749 | `delete` drops exactly that key from the values and from the key order |
| Dicts.TallySnoc | skills/kata-map-codebase/scripts/scan-codebase.cjs:591-593 | counting one more element is one `(counts[x] \|\| 0) + 1` step |
| Dicts.TallyCounts | skills/kata-map-codebase/scripts/scan-codebase.cjs:591-593 | each counter equals the element's multiplicity, and a key exists exactly for the elements that occur |
| Dicts.TallyKeys | skills/kata-map-codebase/scripts/scan-codebase.cjs:591-593 | counter keys appear in order of first occurrence |
| Dicts.IncTotal | skills/kata-map-codebase/scripts/scan-codebase.cjs:591-593 | one increment raises the sum of the counters by one |
| Dicts.TallyTotal | skills/kata-map-codebase/scripts/scan-codebase.cjs:591-593 | the counters sum to the number of elements counted |
| Dicts.TopIndex | skills/kata-map-codebase/scripts/scan-codebase.cjs:596-597 | the stable descending sort's first entry has a maximal count, and every earlier key has a strictly smaller count |
| Dicts.TopKey | skills/kata-map-codebase/scripts/scan-codebase.cjs:596-597 | the dominant key is present and its count is maximal |
| Dicts.TallyStrictTop | skills/kata-map-codebase/scripts/scan-codebase.cjs:596-597 | an element strictly more frequent than every other is the dominant key, with its multiplicity as count |
| Dicts.TopKeyStrict | skills/kata-map-codebase/scripts/scan-codebase.cjs:596-597 | a key with a strictly largest count is the dominant key whatever its position |
| Dicts.IncTop | skills/kata-map-codebase/scripts/scan-codebase.cjs:591-597 | incrementing a key with a maximal count makes it the dominant key, one higher |
| Paths.LastIndex | skills/kata-map-codebase/scripts/scan-codebase.cjs:628 | finds the last occurrence of a separator, or -1 exactly when there is none |
| Paths.Basename | skills/kata-map-codebase/scripts/scan-codebase.cjs:628 | the base name holds no `/`, ends the path, and is either the whole path or preceded by a `/` |
| Paths.DirnameBasename | skills/kata-map-codebase/scripts/scan-codebase.cjs:620-628 | a path with an inner `/` is its directory name, `/` and base name |
| Paths.Extname | skills/kata-map-codebase/scripts/scan-codebase.cjs:482 | an extension is empty exactly when the base name has no `.` after its first character; otherwise it is a single-dot suffix of the base name shorter than it |
| Paths.LastPieceAfterLastIndex | skills/kata-map-codebase/scripts/scan-codebase.cjs:158 | the last `.`-piece is the text after the last `.` |
| Paths.IsSupportedFileIff | skills/kata-map-codebase/scripts/scan-codebase.cjs:157-160 | a file is supported exactly when its last `.`-piece is a supported extension: either the whole path has no dot and is itself an extension name, or it ends in `.ext` |
| Paths.SupportedFileIsCaseSensitive | skills/kata-map-codebase/scripts/scan-codebase.cjs:157-160 | the support check does not fold case (`A.JS` is rejected) and accepts a bare `js` |
| Paths.LanguageOf | skills/kata-map-codebase/scripts/scan-codebase.cjs:481-499 | an extension maps to a language exactly when it is supported |
| Paths.GetLanguageIff | skills/kata-map-codebase/scripts/scan-codebase.cjs:481-499 | `getLanguage` is defined exactly when the lower-cased extension without its dot is supported |
| Paths.SourceExtensionSupported | skills/kata-map-codebase/scripts/detect-stale-intel.cjs:182-185 | a path with a source extension is supported by the scanner and has a language |
| Ratios.QuotientBounds | skills/kata-map-codebase/scripts/scan-codebase.cjs:598 | the quotient is the floor of the division |
| Ratios.HundredthsRounds | skills/kata-map-codebase/scripts/scan-codebase.cjs:598 | the rounded hundredths are within half a hundredth of the exact ratio, rounding halves up |
| Ratios.HundredthsAtMost100 | skills/kata-map-codebase/scripts/scan-codebase.cjs:598 | a ratio of a part to its whole rounds to at most 1.00 |
| Ratios.HundredthsAbove30 | skills/kata-map-codebase/scripts/detect-stale-intel.cjs:276-280 | a change ratio above 0.3 is reported as at least 0.30 |
| Ratios.HundredthsAtMost30 | skills/kata-map-codebase/scripts/detect-stale-intel.cjs:276-280 | a change ratio of at most 0.3 is reported as at most 0.30 |
| Ratios.HundredthsGrow | skills/kata-map-codebase/scripts/scan-codebase.cjs:597-598 | adding one to both a part and its whole never lowers the rounded ratio |
| Classify.FirstMatch | skills/kata-map-codebase/scripts/scan-codebase.cjs:527-542 | an ordered rule table gives the verdict of the first firing rule, and the default when none fires |
| Classify.FirstFiring | skills/kata-map-codebase/scripts/scan-codebase.cjs:527-542 | locates the first firing rule: it fires and no earlier rule does |
| Classify.TestMarkerWins | skills/kata-map-codebase/scripts/scan-codebase.cjs:529 | a path containing `.test.` or `.spec.` is a test in both the scanner's and the doc generator's type tables |
| Classify.ComponentTestIsTest | skills/kata-map-codebase/scripts/scan-codebase.cjs:527-542 | a component's test file is classified as a test, not a component |
| Classify.DefaultsIffNoRule | skills/kata-map-codebase/scripts/scan-codebase.cjs:527-553 | a file is `util` (type) or `shared` (layer) exactly when no rule fires |
| Classify.DocTypeHasNoHookOrMiddleware | skills/kata-map-codebase/scripts/generate-intel.js:92-128 | the doc generator's type table never yields hook or middleware |
| Classify.ScannerNeedsSlashOrDot | skills/kata-map-codebase/scripts/scan-codebase.cjs:527-553 | a bare name with neither `/` nor `.` gets the scanner's defaults for both type and layer |
| Classify.TypeRulesAnchored | skills/kata-map-codebase/scripts/scan-codebase.cjs:527-542 | every scanner type rule needs a `/` or `.` in the path |
| Classify.LayerRulesAnchored | skills/kata-map-codebase/scripts/scan-codebase.cjs:544-553 | every scanner layer rule needs a `/` or `.` in the path |
| Classify.TypeVariantsDiffer | skills/kata-map-codebase/scripts/generate-intel.js:92-128 | the two type tables differ: `mycomponent` is a component for the doc generator but `util` for the scanner |
| Classify.ClassifyIdentifierIff | skills/kata-map-codebase/scripts/scan-codebase.cjs:559-565 | an identifier gets a style exactly when it matches that style's pattern and no earlier one |
| Classify.CapitalsArePascal | skills/kata-map-codebase/scripts/scan-codebase.cjs:559-565 | an all-capital name without underscore, such as `HTTP`, is PascalCase: SCREAMING_SNAKE is checked first but needs an `_`, so the name falls through to the PascalCase test |
| Extract.FindFrom | skills/kata-map-codebase/scripts/scan-codebase.cjs:168 | finds the first occurrence of a delimiter at or after a position, or reports none |
| Extract.ReplaceSpansNoOpen | skills/kata-map-codebase/scripts/scan-codebase.cjs:168 | text without a block-comment opener is unchanged by block stripping |
| Extract.ReplaceSpansFirst | skills/kata-map-codebase/scripts/scan-codebase.cjs:168 | the first delimited span is replaced as a whole and the scan continues after its close |
| Extract.StripKeepsLines | skills/kata-map-codebase/scripts/scan-codebase.cjs:170 | stripping line comments keeps every line terminator, so line structure is preserved |
| Extract.NoHashLeft | skills/kata-map-codebase/scripts/scan-codebase.cjs:179 | after stripping `#` comments no `#` remains |
| Extract.StripNothing | skills/kata-map-codebase/scripts/scan-codebase.cjs:170 | text with no comment start is unchanged |
| Extract.UrlIsNotComment | skills/kata-map-codebase/scripts/scan-codebase.cjs:170 | `//` preceded by `:` does not start a comment |
| Extract.GeneratedTagIff | skills/kata-map-codebase/scripts/scan-codebase.cjs:188-190 | a path has a generated tag exactly when it ends with the tag followed by one or more word characters |
| Extract.GeneratedNameIff | skills/kata-map-codebase/scripts/scan-codebase.cjs:17-22 | the name check fires exactly when some listed tag is followed by a trailing word |
| Extract.GeneratedMarkerIff | skills/kata-map-codebase/scripts/scan-codebase.cjs:192-195 | a generated marker in the first five lines joined by newlines is a marker within one of those lines |
| Extract.IsGeneratedFileIff | skills/kata-map-codebase/scripts/scan-codebase.cjs:187-197 | a file is generated exactly when its path ends in a tag plus a word, or a marker appears in its first five lines |
| Extract.PartitionedMembers | skills/kata-map-codebase/scripts/scan-codebase.cjs:208-217 | a target lands in a list exactly when it is kept and its locality matches that list |
| Extract.PushPartitioned | skills/kata-map-codebase/scripts/scan-codebase.cjs:208-217 | the classify loop appends kept targets to packages or local according to the language rule |
| Extract.PushAll | skills/kata-map-codebase/scripts/scan-codebase.cjs:324-327 | appending every element keeps the order |
| Extract.FlatMapMembers | skills/kata-map-codebase/scripts/scan-codebase.cjs:316-322 | a flattened list holds exactly the members of the per-group lists |
| Extract.PartitionSpec | skills/kata-map-codebase/scripts/scan-codebase.cjs:203-247 | the partition is sorted and duplicate-free, and the two lists hold exactly the kept local and the kept package targets |
| Extract.ExtractJsImports | skills/kata-map-codebase/scripts/scan-codebase.cjs:203-247 | JavaScript imports are the partition of the import, require and dynamic-import targets, in that source order |
| Extract.PlainImportNameIsPiece | skills/kata-map-codebase/scripts/scan-codebase.cjs:316-322 | a plain `import a, b` yields exactly the non-empty trimmed comma pieces |
| Extract.PythonImportsSpec | skills/kata-map-codebase/scripts/scan-codebase.cjs:299-328 | Python local imports are the from-targets starting with a dot; packages are the other from-targets plus every plain import name |
| Extract.PythonListsMayOverlap | skills/kata-map-codebase/scripts/scan-codebase.cjs:305-322 | `.a` both as a plain import and as a from-target ends up in both lists |
| Extract.ExtractPythonImports | skills/kata-map-codebase/scripts/scan-codebase.cjs:299-328 | Python imports are computed from the from-import and plain-import captures of the comment-stripped source |
| Extract.FirstQuoted | skills/kata-map-codebase/scripts/scan-codebase.cjs:371 | the result is the text of the leftmost pair of double quotes enclosing a non-empty quote-free text, and is absent exactly when the line has no such pair |
| Extract.FirstQuotedAliased | skills/kata-map-codebase/scripts/scan-codebase.cjs:371 | an aliased block import `f "fmt"` yields `fmt` |
| Extract.BlockPackagesUnquoted | skills/kata-map-codebase/scripts/scan-codebase.cjs:365-374 | packages from an import block are non-empty and carry no quote |
| Extract.ExtractGoImports | skills/kata-map-codebase/scripts/scan-codebase.cjs:355-380 | Go imports have no local list; packages are the sorted distinct single imports and block imports |
| Extract.ExtractRustImports | skills/kata-map-codebase/scripts/scan-codebase.cjs:405-424 | Rust imports are the partition of the `use` paths by the crate/self/super rule |
| Extract.ExtractJavaImports | skills/kata-map-codebase/scripts/scan-codebase.cjs:449-462 | Java imports have no local list, and the packages are the sorted distinct captured imports |
| Extract.ExtractImports | skills/kata-map-codebase/scripts/scan-codebase.cjs:501-510 | imports are always sorted; the two lists are disjoint except for Python; an unknown language gives none; only JavaScript, Python and Rust can have local imports; for a known language the result is that language's imports (`ImportsOf`) |
| Exports.FilterMembers | skills/kata-map-codebase/scripts/scan-codebase.cjs:341-346 | a filter keeps exactly the members satisfying its condition |
| Exports.PushFiltered | skills/kata-map-codebase/scripts/scan-codebase.cjs:341-346 | the filtering loop appends exactly the kept elements in order |
| Exports.MapMembers | skills/kata-map-codebase/scripts/scan-codebase.cjs:266-275 | a mapped list holds exactly the images of its input |
| Exports.BeforeAs | skills/kata-map-codebase/scripts/scan-codebase.cjs:271-272 | the part before ` as ` is a prefix containing no ` as `, ending at the first ` as ` or at the end of the text |
| Exports.ReExportAlias | skills/kata-map-codebase/scripts/scan-codebase.cjs:266-275 | a re-exported `Foo as Bar` contributes the original name `Foo` |
| Exports.ReExportPlain | skills/kata-map-codebase/scripts/scan-codebase.cjs:266-275 | a re-exported name without ` as ` contributes its trimmed self |
| Exports.ReExportNamesKept | skills/kata-map-codebase/scripts/scan-codebase.cjs:266-275 | every re-exported name is non-empty, neither `default` nor `type`, and comes from one comma piece |
| Exports.BeforeSpaceOrColon | skills/kata-map-codebase/scripts/scan-codebase.cjs:278-282 | a CommonJS object member's name is the prefix up to the first space or colon |
| Exports.CjsObjectNamesShape | skills/kata-map-codebase/scripts/scan-codebase.cjs:278-282 | names from a `module.exports = { ... }` object are non-empty and hold neither space nor colon |
| Exports.JsExportSources | skills/kata-map-codebase/scripts/scan-codebase.cjs:249-293 | every JavaScript export comes from one of the five export forms |
| Exports.ExtractJsExports | skills/kata-map-codebase/scripts/scan-codebase.cjs:249-293 | JavaScript exports are the sorted distinct candidates of all export forms |
| Exports.PythonExportsIff | skills/kata-map-codebase/scripts/scan-codebase.cjs:330-349 | a Python export is a class, or a function whose name does not start with `_` |
| Exports.PrivateNameHidden | skills/kata-map-codebase/scripts/scan-codebase.cjs:341-346 | a function whose name starts with `_` is never exported |
| Exports.ExtractPythonExports | skills/kata-map-codebase/scripts/scan-codebase.cjs:330-349 | Python exports come from the class and def captures of the comment-stripped source |
| Exports.ExtractGoExports | skills/kata-map-codebase/scripts/scan-codebase.cjs:382-399 | Go exports are exactly the sorted distinct exported function and type names |
| Exports.ExtractRustExports | skills/kata-map-codebase/scripts/scan-codebase.cjs:426-443 | Rust exports are exactly the sorted distinct `pub` function and type names |
| Exports.ExtractJavaExports | skills/kata-map-codebase/scripts/scan-codebase.cjs:464-475 | Java exports are exactly the sorted distinct public declarations |
| Exports.ExtractExports | skills/kata-map-codebase/scripts/scan-codebase.cjs:512-521 | exports are strictly sorted, empty for an unknown language, and otherwise those of the language's extractor |
| Conventions.StylesAt | skills/kata-map-codebase/scripts/scan-codebase.cjs:591-592 | the i-th style is the classification of the i-th exported name |
| Conventions.NamingInsufficient | skills/kata-map-codebase/scripts/scan-codebase.cjs:575-582 | fewer than five exports give `insufficient_data` with zero confidence, the sample size and an empty breakdown |
| Conventions.NamingTally | skills/kata-map-codebase/scripts/scan-codebase.cjs:584-609 | with enough exports, the breakdown counts the styles, the confidence rounds the top count over the total, and the pattern is the top style exactly when consensus holds |
| Conventions.NamingBreakdown | skills/kata-map-codebase/scripts/scan-codebase.cjs:584-593 | the breakdown sums to the sample size and each style's count is its multiplicity |
| Conventions.NamingListsStyles | skills/kata-map-codebase/scripts/scan-codebase.cjs:584-593 | the breakdown lists exactly the styles some export has |
| Conventions.NamingVerdict | skills/kata-map-codebase/scripts/scan-codebase.cjs:595-609 | the pattern is the dominant style if and only if the top share is at least 0.7, `mixed` if and only if it is not, with confidence at most 1.00 |
| Conventions.CollectExports | skills/kata-map-codebase/scripts/scan-codebase.cjs:568-573 | the collecting loop gathers every file's exports in index order |
| Conventions.CountStyles | skills/kata-map-codebase/scripts/scan-codebase.cjs:584-593 | the counting loop builds the style tally of the exports |
| Conventions.DetectConventions | skills/kata-map-codebase/scripts/scan-codebase.cjs:567-610 | detectConventions returns the naming verdict over all exports of the index |
| Conventions.ConfidenceGrows | skills/kata-map-codebase/scripts/scan-codebase.cjs:584-609 | adding an export of a most frequent style never lowers the reported confidence |
| Conventions.DominantStyleStays | skills/kata-map-codebase/scripts/scan-codebase.cjs:584-609 | adding an export of a most frequent style keeps a dominant verdict on that style, and any dominant verdict afterwards is that style |
| Conventions.StyleConfidenceGrows | skills/kata-map-codebase/scripts/scan-codebase.cjs:595-609 | the same confidence monotonicity, stated over the list of styles |
| Conventions.StyleDominantStays | skills/kata-map-codebase/scripts/scan-codebase.cjs:595-609 | the same dominant-style stability, stated over the list of styles |
| Conventions.VerdictOnMore | skills/kata-map-codebase/scripts/scan-codebase.cjs:591-593 | the verdict after one more export is the verdict on the incremented tally |
| Conventions.MostFrequentCount | skills/kata-map-codebase/scripts/scan-codebase.cjs:591-593 | a most frequent style has a tally entry with a maximal count no larger than the sample |
| Conventions.VerdictConfidenceGrows | skills/kata-map-codebase/scripts/scan-codebase.cjs:595-609 | incrementing a maximal count and the total never lowers the confidence |
| Conventions.VerdictDominantStays | skills/kata-map-codebase/scripts/scan-codebase.cjs:595-609 | incrementing a maximal count keeps or makes that style the dominant pattern |
| Conventions.ExampleTally | skills/kata-map-codebase/scripts/scan-codebase.cjs:591-597 | three camelCase, one PascalCase and one SCREAMING_SNAKE give camelCase as top key with count 3 |
| Conventions.MixedThreeOfFive | skills/kata-map-codebase/scripts/scan-codebase.cjs:595-602 | three of five names in one style give `mixed` with confidence 0.60 |
| Conventions.ThreeOfFiveIsMixed | skills/kata-map-codebase/scripts/scan-codebase.cjs:567-610 | the exports `getUser`, `getOrder`, `getX`, `Fetch`, `OTHER_X` give `mixed`, 0.60, sample size 5 |
| Directories.LookupIff | skills/kata-map-codebase/scripts/scan-codebase.cjs:26-65 | a name has a purpose exactly when the table lists it, and the purpose comes from its row |
| Directories.MatchingSuffixesIff | skills/kata-map-codebase/scripts/scan-codebase.cjs:631-638 | a file contributes exactly the known suffixes it ends with |
| Directories.SuffixOccurrencesIff | skills/kata-map-codebase/scripts/scan-codebase.cjs:631-638 | a suffix occurs in a directory exactly when it is known and some file ends with it |
| Directories.CountSuffixes | skills/kata-map-codebase/scripts/scan-codebase.cjs:631-638 | the suffix loop produces the tally of suffix occurrences |
| Directories.CountExtensions | skills/kata-map-codebase/scripts/scan-codebase.cjs:641-647 | the extension loop produces the tally of the non-empty extensions |
| Directories.TopEntry | skills/kata-map-codebase/scripts/scan-codebase.cjs:650 | the most frequent entry is absent exactly when there are no counts, and otherwise has a maximal count |
| Directories.PurposeOf | skills/kata-map-codebase/scripts/scan-codebase.cjs:631-676 | a directory gets an entry exactly when a suffix or its name explains it; the entry carries the file count and the dominant extension |
| Directories.PurposeBySuffix | skills/kata-map-codebase/scripts/scan-codebase.cjs:657-667 | suffix analysis decides the purpose exactly when the most frequent known suffix occurs at least three times |
| Directories.PurposeByName | skills/kata-map-codebase/scripts/scan-codebase.cjs:669-676 | otherwise the directory has a purpose exactly when its base name is in the table, found by name lookup |
| Directories.SuffixPurposeFromTable | skills/kata-map-codebase/scripts/scan-codebase.cjs:657-667 | a suffix-decided purpose is the table purpose of the top suffix, which occurs at least three times |
| Directories.GroupByDirSnoc | skills/kata-map-codebase/scripts/scan-codebase.cjs:618-623 | grouping one more path appends it to its directory's group |
| Directories.GroupByDirKeys | skills/kata-map-codebase/scripts/scan-codebase.cjs:618-623 | the groups are exactly the directories of the paths |
| Directories.GroupByDirFiles | skills/kata-map-codebase/scripts/scan-codebase.cjs:618-623 | each group holds that directory's files in order |
| Directories.DirectoryPurposesEntry | skills/kata-map-codebase/scripts/scan-codebase.cjs:616-680 | `dir/` has an entry exactly when some path lies in `dir` and its files explain a purpose; the entry is that purpose |
| Directories.DirectoryPurposesKeys | skills/kata-map-codebase/scripts/scan-codebase.cjs:616-680 | every key is a path's directory followed by `/` |
| Directories.AddToGroup | skills/kata-map-codebase/scripts/scan-codebase.cjs:618-623 | one grouping step extends the grouping by one path |
| Directories.GroupPaths | skills/kata-map-codebase/scripts/scan-codebase.cjs:618-623 | the grouping loop groups every path by directory |
| Directories.DescribeDirectory | skills/kata-map-codebase/scripts/scan-codebase.cjs:628-677 | the per-directory body computes the directory's purpose entry |
| Directories.AddDirectory | skills/kata-map-codebase/scripts/scan-codebase.cjs:626-678 | one directory step adds that directory's entry, if any |
| Directories.DetectDirectoryPurposes | skills/kata-map-codebase/scripts/scan-codebase.cjs:616-680 | detectDirectoryPurposes returns the purposes of all directories |
| Directories.FileSuffixesEntry | skills/kata-map-codebase/scripts/scan-codebase.cjs:686-699 | a suffix is reported exactly when some file ends with it, with its table purpose and its number of occurrences |
| Directories.FileSuffixesOrder | skills/kata-map-codebase/scripts/scan-codebase.cjs:686-699 | suffixes are reported in order of first occurrence |
| Directories.DetectFileSuffixes | skills/kata-map-codebase/scripts/scan-codebase.cjs:686-699 | detectFileSuffixes returns the suffix report over all paths |
| IndexStore.ScanFile | skills/kata-map-codebase/scripts/scan-codebase.cjs:705-730 | a file is skipped exactly when it is unreadable, generated or of no language; otherwise its record carries its type, layer, commit, time, and exactly the exports (`ExportsOf`) and imports (`ImportsOf`) of its language, sorted and normalised |
| IndexStore.RemoveAllEntries | skills/kata-map-codebase/scripts/scan-codebase.cjs:747-749 | after deleting, exactly the non-deleted entries remain, unchanged |
| IndexStore.PutAllEntries | skills/kata-map-codebase/scripts/scan-codebase.cjs:752-754 | after overwriting, scanned entries win and other entries stay |
| IndexStore.MergeEntries | skills/kata-map-codebase/scripts/scan-codebase.cjs:736-757 | a merged entry is a scanned entry or a surviving existing entry that was not deleted |
| IndexStore.CopyEntries | skills/kata-map-codebase/scripts/scan-codebase.cjs:740-744 | copying the existing index reproduces it |
| IndexStore.RemoveEach | skills/kata-map-codebase/scripts/scan-codebase.cjs:747-749 | the delete loop removes every deleted path |
| IndexStore.PutEach | skills/kata-map-codebase/scripts/scan-codebase.cjs:752-754 | the overwrite loop assigns every scanned entry |
| IndexStore.MergeIndex | skills/kata-map-codebase/scripts/scan-codebase.cjs:736-757 | mergeIndex copies, deletes and overwrites as the merge specification says |
| IndexStore.PutAllCopies | skills/kata-map-codebase/scripts/scan-codebase.cjs:740-744 | copying every entry into an empty object gives the same index |
| IndexStore.MergeValuesIdempotent | skills/kata-map-codebase/scripts/scan-codebase.cjs:736-757 | merging the same scan and deletions twice leaves the entries as after the first merge |
| IndexStore.MergeOrderNotIdempotent | skills/kata-map-codebase/scripts/scan-codebase.cjs:736-757 | a scanned path that is also deleted moves to the end of the key order on a second merge |
| IndexStore.Bump | skills/kata-map-codebase/scripts/scan-codebase.cjs:772-774 | one counter update extends the tally by one element |
| IndexStore.CountExtension | skills/kata-map-codebase/scripts/scan-codebase.cjs:771-774 | one extension step counts the path's extension when it has one |
| IndexStore.CountEntry | skills/kata-map-codebase/scripts/scan-codebase.cjs:768-775 | one loop step keeps the three tallies equal to those of the entries seen so far |
| IndexStore.ComputeStats | skills/kata-map-codebase/scripts/scan-codebase.cjs:763-783 | computeStats returns the file count and the tallies by type, layer and extension |
| IndexStore.StatsTotals | skills/kata-map-codebase/scripts/scan-codebase.cjs:763-783 | the type and layer tallies each sum to the file count; the extension tally sums to the number of files with an extension |
| IndexStore.EmptyStats | skills/kata-map-codebase/scripts/scan-codebase.cjs:763-783 | an empty index has zero files and empty tallies |
| IndexStore.BuildIndex | skills/kata-map-codebase/scripts/scan-codebase.cjs:873-881 | the written index is version 2 from `code-scan` by `scan-codebase`, with the given commit, time, files and their statistics |
| Staleness.ByCommitSnoc | skills/kata-map-codebase/scripts/detect-stale-intel.cjs:99-111 | grouping one more tracked file appends it to its commit's group; an untracked file changes nothing |
| Staleness.ByCommitMembers | skills/kata-map-codebase/scripts/detect-stale-intel.cjs:99-111 | a file is in a commit's group exactly when it is tracked and indexed at that commit |
| Staleness.ByCommitAllNonEmpty | skills/kata-map-codebase/scripts/detect-stale-intel.cjs:99-111 | every commit group is non-empty |
| Staleness.StaleOverMembers | skills/kata-map-codebase/scripts/detect-stale-intel.cjs:123-156 | a file is stale exactly when a group holding it judges it stale |
| Staleness.FreshOverMembers | skills/kata-map-codebase/scripts/detect-stale-intel.cjs:123-156 | a file is fresh exactly when a group holding it judges it fresh |
| Staleness.OldestIffStale | skills/kata-map-codebase/scripts/detect-stale-intel.cjs:123-156 | an oldest stale commit is reported exactly when some file is stale |
| Staleness.OldestIsFirst | skills/kata-map-codebase/scripts/detect-stale-intel.cjs:123-156 | the oldest stale commit is the first commit group in order that has a stale file |
| Staleness.NoOldestNoStale | skills/kata-map-codebase/scripts/detect-stale-intel.cjs:123-156 | with no oldest stale commit, no group has a stale file |
| Staleness.GroupedIff | skills/kata-map-codebase/scripts/detect-stale-intel.cjs:99-156 | judging by commit group is the same as judging each tracked file by its own commit's changes |
| Staleness.ReportStale | skills/kata-map-codebase/scripts/detect-stale-intel.cjs:61-169 | a path is in `staleFiles` exactly when it is indexed, tracked and changed since its commit |
| Staleness.ReportFresh | skills/kata-map-codebase/scripts/detect-stale-intel.cjs:61-169 | a path is in `freshFiles` exactly when it is indexed, tracked and unchanged since its commit |
| Staleness.ReportCounts | skills/kata-map-codebase/scripts/detect-stale-intel.cjs:158-168 | both lists are sorted, `staleCount` is the stale list's length, `totalIndexed` is stale plus fresh, and an oldest stale commit exists exactly when something is stale |
| Staleness.ReportPercentage | skills/kata-map-codebase/scripts/detect-stale-intel.cjs:165 | `stalePct` is the rounded stale share, zero for an empty index, and at most 1.00 |
| Staleness.ReportDocBased | skills/kata-map-codebase/scripts/detect-stale-intel.cjs:116 | doc-based entries are reported exactly when the docs directory exists and some non-glob path has an empty `lastIndexed` |
| Staleness.InvalidCommitAllStale | skills/kata-map-codebase/scripts/detect-stale-intel.cjs:124-129 | every file of a group with an invalid commit is stale |
| Staleness.DiffLines | skills/kata-map-codebase/scripts/detect-stale-intel.cjs:141-155 | an empty diff makes the group fresh; otherwise a file is stale exactly when it is a line of the diff |
| Staleness.WholeGroup | skills/kata-map-codebase/scripts/detect-stale-intel.cjs:124-145 | an unknown change set makes a whole group stale; an empty one makes it all fresh |
| Staleness.GroupStep | skills/kata-map-codebase/scripts/detect-stale-intel.cjs:99-111 | one grouping step extends the commit groups and the doc-based count by one file |
| Staleness.GroupByCommit | skills/kata-map-codebase/scripts/detect-stale-intel.cjs:99-111 | the grouping loop builds the commit groups, all non-empty, and counts doc-based entries |
| Staleness.SplitGroup | skills/kata-map-codebase/scripts/detect-stale-intel.cjs:147-155 | the partition loop appends a group's stale and fresh files in order |
| Staleness.JudgeGroup | skills/kata-map-codebase/scripts/detect-stale-intel.cjs:123-156 | one group step extends the stale list, the fresh list and the oldest stale commit by that group's verdict |
| Staleness.JudgeGroups | skills/kata-map-codebase/scripts/detect-stale-intel.cjs:123-156 | the group loop judges every commit group in order |
| Staleness.DetectStaleFiles | skills/kata-map-codebase/scripts/detect-stale-intel.cjs:61-169 | detectStaleFiles returns the report; a missing index reports nothing stale, nothing fresh and zero percent |
| Brownfield.SkipSpaces | skills/kata-map-codebase/scripts/detect-stale-intel.cjs:180 | skips the white space the date pattern allows |
| Brownfield.DateAt | skills/kata-map-codebase/scripts/detect-stale-intel.cjs:180 | a date read after the label has the form `dddd-dd-dd` |
| Brownfield.FindDateFirst | skills/kata-map-codebase/scripts/detect-stale-intel.cjs:180 | the date found is the one at the first position where the pattern matches |
| Brownfield.FindDateNone | skills/kata-map-codebase/scripts/detect-stale-intel.cjs:180 | no date is found exactly when the pattern matches nowhere |
| Brownfield.ExampleDate | skills/kata-map-codebase/scripts/detect-stale-intel.cjs:180 | `**Analysis Date:** 2024-01-15` yields `2024-01-15` |
| Brownfield.FirstDateWins | skills/kata-map-codebase/scripts/detect-stale-intel.cjs:195-212 | the analysis date comes from the first document, in list order, that has one; none is found exactly when no document has one |
| Brownfield.FindAnalysisDate | skills/kata-map-codebase/scripts/detect-stale-intel.cjs:195-212 | the date loop returns the first date in document order |
| Brownfield.BaseCommitChoice | skills/kata-map-codebase/scripts/detect-stale-intel.cjs:215-238 | the base commit is the last commit before the date when there is one, and otherwise the first line of the root commits; a failing log command gives none |
| Brownfield.SourcePathsIff | skills/kata-map-codebase/scripts/detect-stale-intel.cjs:249-250 | a changed path counts exactly when it is a non-empty diff line with a source extension |
| Brownfield.MeasureVerdict | skills/kata-map-codebase/scripts/detect-stale-intel.cjs:263-281 | the documents are stale exactly when more than 30% of the source files changed; the rounded percentage agrees with the verdict and is zero with no files |
| Brownfield.ChangedMayExceedTotal | skills/kata-map-codebase/scripts/detect-stale-intel.cjs:273-280 | the changed count is not capped by the total, so the percentage can exceed 1.00 |
| Brownfield.BrownfieldSteps | skills/kata-map-codebase/scripts/detect-stale-intel.cjs:187-282 | each early exit happens exactly when its condition holds (no directory, no date, no base commit, failed diff) and otherwise the measure is reported |
| Brownfield.DetectBrownfieldDocStaleness | skills/kata-map-codebase/scripts/detect-stale-intel.cjs:187-282 | the method computes the brownfield verdict |
| CheckConventions.SkipGates | skills/kata-execute-phase/scripts/check-conventions.cjs:263-282 | each skip reason is returned exactly when its gate is the first to fail, in source order |
| CheckConventions.ViolationsInIff | skills/kata-execute-phase/scripts/check-conventions.cjs:302-313 | a violation is recorded for exactly the exports whose style is neither the expected one nor `other` |
| CheckConventions.ViolationsOverIff | skills/kata-execute-phase/scripts/check-conventions.cjs:287-315 | the violations over the files are exactly each file's own violations |
| CheckConventions.CheckedViolations | skills/kata-execute-phase/scripts/check-conventions.cjs:258-324 | a checked run reports exactly the mismatching exports of readable supported files, tagged with the expected pattern |
| CheckConventions.ViolatorsChecked | skills/kata-execute-phase/scripts/check-conventions.cjs:320 | the files with violations are no more than the checked files |
| CheckConventions.CheckedAtMostFiles | skills/kata-execute-phase/scripts/check-conventions.cjs:300 | no more files are checked than given |
| CheckConventions.CheckedCounts | skills/kata-execute-phase/scripts/check-conventions.cjs:317-323 | `checked` is at most the number of supported files and `passed` lies between 0 and `checked` |
| CheckConventions.OtherNeverViolates | skills/kata-execute-phase/scripts/check-conventions.cjs:304 | an export of style `other` is never a violation |
| CheckConventions.CollectViolations | skills/kata-execute-phase/scripts/check-conventions.cjs:302-313 | the per-export loop appends the file's violations |
| CheckConventions.CheckFile | skills/kata-execute-phase/scripts/check-conventions.cjs:288-314 | one file step appends its violations and counts it when it was readable and had a language |
| CheckConventions.CheckFiles | skills/kata-execute-phase/scripts/check-conventions.cjs:287-315 | the file loop collects all violations and the checked count |
| CheckConventions.Check | skills/kata-execute-phase/scripts/check-conventions.cjs:258-324 | checkConventions returns the specified result |
| DocIntel.CommitHashOf | skills/kata-map-codebase/scripts/generate-intel.js:58-68 | the commit hash is the trimmed git output, or `unknown` when git fails |
| DocIntel.BacktickSpanShape | skills/kata-map-codebase/scripts/generate-intel.js:167 | a backtick span is non-empty and holds neither backtick nor newline |
| DocIntel.NoBacktickNoSpan | skills/kata-map-codebase/scripts/generate-intel.js:167 | text without backticks has no spans |
| DocIntel.ExampleSpans | skills/kata-map-codebase/scripts/generate-intel.js:167 | `` `a/b.ts` `` yields the span `a/b.ts` |
| DocIntel.PathCandidatesMembers | skills/kata-map-codebase/scripts/generate-intel.js:160-189 | path candidates are sorted, distinct and exactly the normalised raw candidates that pass the filter |
| DocIntel.PathCandidateShape | skills/kata-map-codebase/scripts/generate-intel.js:181-188 | every candidate holds a `/` and starts with none of `http`, `.planning/` or `node_modules/` |
| DocIntel.NoCandidates | skills/kata-map-codebase/scripts/generate-intel.js:160-189 | with no qualifying span and no bare match there are no candidates |
| DocIntel.NormalizeStripsDotSlash | skills/kata-map-codebase/scripts/generate-intel.js:182 | a leading `./` is removed |
| DocIntel.NormalizeStripsSlash | skills/kata-map-codebase/scripts/generate-intel.js:182 | a leading `/` is removed |
| DocIntel.NormalizeStripsOnce | skills/kata-map-codebase/scripts/generate-intel.js:182 | only one leading `/` is removed |
| DocIntel.NormalizeKeepsParent | skills/kata-map-codebase/scripts/generate-intel.js:182 | a leading `../` is kept |
| DocIntel.DocLines | skills/kata-map-codebase/scripts/generate-intel.js:192 | splitting on `\r?\n` gives as many lines as splitting on `\n` |
| DocIntel.WindowMembers | skills/kata-map-codebase/scripts/generate-intel.js:193-204 | a line that mentions the path contributes itself and the next two lines |
| DocIntel.RelatedIff | skills/kata-map-codebase/scripts/generate-intel.js:193-204 | a line is related exactly when it is within two lines after a line that mentions the path |
| DocIntel.CollectRelated | skills/kata-map-codebase/scripts/generate-intel.js:193-204 | the related-lines loop collects exactly the related lines |
| DocIntel.FirstCapture | skills/kata-map-codebase/scripts/generate-intel.js:208-209 | a captured annotation is non-empty and holds no `\|`; it is the capture at the leftmost position that has one, and there is none exactly when no position has one |
| DocIntel.TokenShape | skills/kata-map-codebase/scripts/generate-intel.js:211-230 | every token is non-empty, from the captured text, and holds no separator or quote |
| DocIntel.ExampleCapture | skills/kata-map-codebase/scripts/generate-intel.js:208-209 | `Imports: a\|b` captures `a` |
| DocIntel.AnnotationsMembers | skills/kata-map-codebase/scripts/generate-intel.js:191-236 | annotations are sorted and distinct, and exactly the tokens of related lines |
| DocIntel.NoAnnotation | skills/kata-map-codebase/scripts/generate-intel.js:191-236 | with no annotation on a related line the list is empty |
| DocIntel.ExtractImportsExports | skills/kata-map-codebase/scripts/generate-intel.js:191-236 | the method computes the import and the export annotations |
| DocIntel.RecordsOfEntries | skills/kata-map-codebase/scripts/generate-intel.js:247-256 | every candidate gets its record and nothing else does |
| DocIntel.DocIndexShape | skills/kata-map-codebase/scripts/generate-intel.js:238-273 | the doc index is version 2 with the source label and time; its keys are the path candidates, and both tallies sum to the file count |
| DocIntel.DocIndexRecord | skills/kata-map-codebase/scripts/generate-intel.js:238-273 | each candidate's record carries its doc type, doc layer, imports and exports |
| DocIntel.AddCandidate | skills/kata-map-codebase/scripts/generate-intel.js:247-259 | one candidate step adds its record and counts its type and layer |
| DocIntel.BuildRecords | skills/kata-map-codebase/scripts/generate-intel.js:247-259 | the candidate loop builds all records and both tallies |
| DocIntel.BuildDocIndex | skills/kata-map-codebase/scripts/generate-intel.js:238-273 | buildIndex returns the specified doc index |
| DocIntel.TrimTrailingSlashes | skills/kata-map-codebase/scripts/generate-intel.js:279 | removing trailing slashes leaves a prefix that does not end in `/`, having dropped only slashes |
| DocIntel.DirKeyShape | skills/kata-map-codebase/scripts/generate-intel.js:279 | a directory key is the last slash-free piece and is empty exactly for an all-slash path |
| DocIntel.PurposesEntry | skills/kata-map-codebase/scripts/generate-intel.js:275-285 | keys are the non-empty directory keys; a later block with the same key overwrites an earlier one |
| DocIntel.ExtractDirectoryPurposes | skills/kata-map-codebase/scripts/generate-intel.js:275-285 | the block loop computes the directory purposes |
| DocIntel.ExampleDirKey | skills/kata-map-codebase/scripts/generate-intel.js:279 | `src/components/` has the key `components` |
| DocIntel.PickFirstStyle | skills/kata-map-codebase/scripts/generate-intel.js:83-90 | the style of the first entry whose pattern appears, case-insensitively, and `unknown` when none does |
| DocIntel.ScreamingSnakeWins | skills/kata-map-codebase/scripts/generate-intel.js:315-319 | mentioning screaming_snake makes the variable style SCREAMING_SNAKE, whatever else is mentioned |
| DocIntel.FilesUnknownWithoutConventions | skills/kata-map-codebase/scripts/generate-intel.js:304-309 | with no conventions document the file naming style is `unknown` |
| DocIntel.ConfidenceOf | skills/kata-map-codebase/scripts/generate-intel.js:335-340 | confidence is high with both documents, medium with exactly one, low with neither |
| DocIntel.BuildConventions | skills/kata-map-codebase/scripts/generate-intel.js:297-351 | buildConventions returns the naming guesses, directories and confidence |
| DocIntel.Bounded | skills/kata-map-codebase/scripts/generate-intel.js:465-475 | the result has `min(max(n, lo), hi)` lines: the first lines of the input, then filler lines |
| DocIntel.EnsureLineBounds | skills/kata-map-codebase/scripts/generate-intel.js:465-475 | the padding loop computes the bounded lines |
| KataLib.ResolvePathAppend | skills/kata-research-phase/scripts/kata-lib.cjs:34-42 | resolving a path in two parts is resolving the first part, then the second |
| KataLib.ResolveStopsEarly | skills/kata-research-phase/scripts/kata-lib.cjs:38 | once the walk reaches a missing value or a non-object, the key resolves to undefined |
| KataLib.FlattenEntries | skills/kata-research-phase/scripts/kata-lib.cjs:216-227 | the flattening loop computes the flattened entries |
| KataLib.FlatLeaves | skills/kata-research-phase/scripts/kata-lib.cjs:220-224 | flattened entries never hold a plain object |
| KataLib.SplitJoin | skills/kata-research-phase/scripts/kata-lib.cjs:219 | splitting a dotted key built from dot-free parts gives back the parts |
| KataLib.FlattenResolves | skills/kata-research-phase/scripts/kata-lib.cjs:216-227 | every flattened key resolves to its value in the configuration when no key is empty or dotted |
| KataLib.EmptyNameLosesLevel | skills/kata-research-phase/scripts/kata-lib.cjs:219 | an empty member name is dropped from the flattened key, which then no longer resolves |
| KataLib.Lookup | skills/kata-research-phase/scripts/kata-lib.cjs:78-97 | a key has a schema exactly when the table lists it, and the schema comes from its row |
| KataLib.Includes | skills/kata-research-phase/scripts/kata-lib.cjs:236 | a value is allowed exactly when it is one of the listed strings |
| KataLib.ValidateValue | skills/kata-research-phase/scripts/kata-lib.cjs:229-249 | no error exactly when the value fits the schema; otherwise the error names the key, schema and value |
| KataLib.CollectMembers | skills/kata-research-phase/scripts/kata-lib.cjs:202-210 | the collected notes are exactly the defined results |
| KataLib.NoteForCases | skills/kata-research-phase/scripts/kata-lib.cjs:203-209 | an unknown key gives a warning; a known key with an ill-fitting value gives that error |
| KataLib.NotesMembers | skills/kata-research-phase/scripts/kata-lib.cjs:194-214 | check-config reports exactly the unknown keys and the invalid values among the entries |
| KataLib.ReportEntries | skills/kata-research-phase/scripts/kata-lib.cjs:202-210 | the entry loop produces the notes |
| KataLib.SetPathResolves | skills/kata-research-phase/scripts/kata-lib.cjs:155-172 | after a successful set-config the key resolves to the new value |
| KataLib.SetPathFrame | skills/kata-research-phase/scripts/kata-lib.cjs:155-172 | keys that diverge from the written path resolve as before |
| KataLib.SetPathWrites | skills/kata-research-phase/scripts/kata-lib.cjs:155-172 | the write succeeds exactly when no member on the path is null or an array (other non-objects and missing members are replaced by `{}`); otherwise a null member throws a TypeError and an array is walked into |
| KataLib.ReadPrecedence | skills/kata-research-phase/scripts/kata-lib.cjs:121 | a configured value wins for both reads; otherwise read-config falls back to the fallback and read-pref to the defaults table, then the fallback |
| KataLib.SetThenRead | skills/kata-research-phase/scripts/kata-lib.cjs:142-190 | after set-config writes a non-null value, read-config and read-pref return it and has-pref holds |
| KataLib.RawTextReadsBack | skills/kata-research-phase/scripts/kata-lib.cjs:164-172 | text that is not a boolean, a number or JSON is stored as-is and read back as the same text |
| KataLib.SplitLinesFirst | skills/kata-research-phase/scripts/kata-lib.cjs:259-261 | lines are the text up to the first terminator, then the lines of the rest |
| KataLib.StartsLineIff | skills/kata-research-phase/scripts/kata-lib.cjs:259-260 | a multiline `^prefix` test matches exactly when some line starts with the prefix |
| KataLib.IsLineOfIff | skills/kata-research-phase/scripts/kata-lib.cjs:261 | a multiline `^line$` test matches exactly when the text has that line |
| KataLib.CheckRoadmap | skills/kata-research-phase/scripts/kata-lib.cjs:253-268 | the exit code is at most 2, and 2 exactly when the roadmap is missing |
| KataLib.RoadmapByLines | skills/kata-research-phase/scripts/kata-lib.cjs:259-267 | the code is 0 exactly when a line starts with `## Milestones`, a line starts with `## Current Milestone:` and no line is `## Phases` |
| KataLib.CloseAt | skills/kata-research-phase/scripts/kata-lib.cjs:371 | finds the first `\n---` at or after a position |
| KataLib.StripFrontmatter | skills/kata-research-phase/scripts/kata-lib.cjs:371 | content without a leading `---\n` or without a closing `\n---` is unchanged; otherwise the body is what follows the first closing `\n---` and at most one line break right after it |
| KataLib.HashRunEnd | skills/kata-research-phase/scripts/kata-lib.cjs:380 | skips the run of `#` of a heading |
| KataLib.CheckFieldPresence | skills/kata-research-phase/scripts/kata-lib.cjs:369-387 | the method computes the missing fields and sections |
| KataLib.FilterSubList | skills/kata-research-phase/scripts/kata-lib.cjs:373-384 | the filtered list is an order-preserving sub-list |
| KataLib.MissingMembers | skills/kata-research-phase/scripts/kata-lib.cjs:369-387 | missing lists the absent frontmatter fields in order, then the absent sections, each exactly the required ones not present in the body |

## Left out

- I/O: reading and writing files, `JSON.stringify` to disk, the atomic rename in set-config, `process.exit` codes other than those of check-roadmap, and all console output. git commands, file reads and the clock are parameters of the model.
- The command-line layer: argument parsing, `main`, `resolveRoot`, usage errors, and the choice between the primary and worktree config paths (kata-lib.cjs:115-119). The configuration is a parameter.
- Regular-expression matching used through `matchAll` is a scanner parameter. Only what the scripts do with the captures is modelled, not the patterns themselves.
- Floating point: ratios are exact integer hundredths rounded half up. JavaScript's `Math.round(x * 100)` can differ at exact halves because of binary rounding. `Number()`, `isNaN`, `JSON.parse` and `JSON.stringify` of values are parameters.
- Text: case folding is ASCII only, and strings are compared by code point. JavaScript's `sort()` compares UTF-16 code units, which agrees on text without astral characters.
- JavaScript objects: integer-like keys that JavaScript enumerates first, and prototype keys, are not modelled. Keys keep insertion order.
- Node's `path` module: `extname`, `dirname` and `basename` are modelled for `/`-separated relative paths, without Windows separators or dot-file special cases beyond those the model states.
- KataLib.SetPathWrites: the set-config walk is modelled on values, not by updating a shared object in place. A walk through an array is reported as an outcome rather than modelled as an array write.
- KataLib: parseSimpleYAML, parseSchemaComment, check-template-drift and resolve-template are not part of this model.
- DocIntel.BuildConventions: the `patterns` lines (collectPatternLines) are not modelled; the result holds naming, directories and confidence.
- DocIntel: the file reads readDocs (the four documents, passed in as the `Docs` parameter) and loadTemplate (the summary template) are not modelled, being I/O.
- DocIntel: the summary rendering (nonEmptyTrimmedLines, chooseLines, toBullet, buildSectionLines, buildSummary) is not modelled; ensureLineBounds is.
- update-intel-summary.cjs and scaffold-intel.cjs are not part of this model.
- Staleness.JudgeGroups: `git diff` runs once per distinct commit. The model guarantees this only by the shape of the loop (one step per group), not by counting calls.
- Concurrency, process environment, timeouts and buffer limits of `execSync` are not modelled.
