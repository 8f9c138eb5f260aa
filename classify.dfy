/** Path classification and identifier-casing classification. Both path
    classifiers are ordered rule tables evaluated first-match-wins on the
    lower-cased path; the code scanner and the documentation-derived builder
    each have their own tables. */
module Classify {
  import opened Strings

  // ---------------------------------------------------------------------------
  // First-match rule tables
  // ---------------------------------------------------------------------------

  /** One test on the (lower-cased) path: `p.includes(text)` or `p.endsWith(text)`. */
  datatype Test = Includes(text: string) | EndsIn(text: string)

  /** A rule gives `verdict` when any of its tests passes. */
  datatype Rule<L> = Rule(tests: seq<Test>, verdict: L)

  predicate Passes(t: Test, p: string) {
    match t
    case Includes(x) => Contains(p, x)
    case EndsIn(x) => EndsWith(p, x)
  }

  predicate Fires<L>(r: Rule<L>, p: string) {
    exists i | 0 <= i < |r.tests| :: Passes(r.tests[i], p)
  }

  /** The label of the first rule that fires, or `dflt` when none does. */
  function FirstMatch<L>(rules: seq<Rule<L>>, p: string, dflt: L): (r: L)
    ensures (forall i :: 0 <= i < |rules| ==> !Fires(rules[i], p)) ==> r == dflt
    ensures forall i :: (0 <= i < |rules| && Fires(rules[i], p) &&
                         (forall j :: 0 <= j < i ==> !Fires(rules[j], p))) ==> r == rules[i].verdict
    ensures (exists i :: 0 <= i < |rules| && Fires(rules[i], p)) ==>
              exists i :: 0 <= i < |rules| && Fires(rules[i], p) && r == rules[i].verdict
  {
    var k := FirstFiring(rules, p);
    if k < |rules| then rules[k].verdict else dflt
  }

  /** The position of the first rule that fires, or the table's length. */
  function FirstFiring<L>(rules: seq<Rule<L>>, p: string): (k: nat)
    ensures k <= |rules|
    ensures k < |rules| ==> Fires(rules[k], p)
    ensures forall j :: 0 <= j < k ==> !Fires(rules[j], p)
  {
    if |rules| == 0 || Fires(rules[0], p) then 0
    else
      var k := FirstFiring(rules[1..], p);
      assert forall j :: 1 <= j <= k ==> rules[j] == rules[1..][j - 1];
      1 + k
  }

  // ---------------------------------------------------------------------------
  // File type and layer
  // ---------------------------------------------------------------------------

  datatype FileType = Test | Component | Service | Route | Model | Config | Hook | Middleware | Util
  datatype Layer = Ui | Api | Data | Shared

  /** The code scanner's `classifyType` table. */
  const TYPE_RULES: seq<Rule<FileType>> := [
    Rule([Includes(".test."), Includes(".spec."), Includes("/test/"), Includes("/tests/"),
          Includes("/__tests__/")], Test),
    Rule([Includes("/component"), EndsIn(".component.tsx"), EndsIn(".component.jsx")], Component),
    Rule([Includes("/service"), EndsIn(".service.ts"), EndsIn(".service.js")], Service),
    Rule([Includes("/route"), Includes("/routes/"), Includes("/controller"), Includes("/api/")], Route),
    Rule([Includes("/model"), Includes("/models/"), Includes("/schema"), Includes("/entity")], Model),
    Rule([EndsIn(".config.js"), EndsIn(".config.ts"), EndsIn(".config.cjs"), EndsIn(".config.mjs"),
          Includes("/config/")], Config),
    Rule([Includes("/hook"), EndsIn(".hook.ts"), EndsIn(".hook.tsx")], Hook),
    Rule([Includes("/middleware")], Middleware)
  ]

  /** The code scanner's `classifyLayer` table. */
  const LAYER_RULES: seq<Rule<Layer>> := [
    Rule([Includes("/component"), Includes("/ui/"), Includes("/view/"), Includes("/pages/"),
          Includes("/layouts/")], Ui),
    Rule([Includes("/api/"), Includes("/route"), Includes("/controller"), Includes("/server/")], Api),
    Rule([Includes("/db/"), Includes("/data/"), Includes("/model"), Includes("/schema"),
          Includes("/repository")], Data)
  ]

  /** The documentation-derived builder's `classifyType` table: bare
      `component`/`service`/`config` substrings, no hook or middleware rules. */
  const DOC_TYPE_RULES: seq<Rule<FileType>> := [
    Rule([Includes(".test."), Includes(".spec."), Includes("/test/"), Includes("/tests/")], Test),
    Rule([Includes("/component"), Includes("component")], Component),
    Rule([Includes("/service"), Includes("service")], Service),
    Rule([Includes("/route"), Includes("/routes/"), Includes("/controller"), Includes("/api/")], Route),
    Rule([Includes("/model"), Includes("/models/"), Includes("/schema"), Includes("/entity")], Model),
    Rule([Includes("config"), EndsIn(".config.js"), EndsIn(".config.ts")], Config)
  ]

  /** The documentation-derived builder's `classifyLayer` table (no `/layouts/`). */
  const DOC_LAYER_RULES: seq<Rule<Layer>> := [
    Rule([Includes("/component"), Includes("/ui/"), Includes("/view/"), Includes("/pages/")], Ui),
    Rule([Includes("/api/"), Includes("/route"), Includes("/controller"), Includes("/server/")], Api),
    Rule([Includes("/db/"), Includes("/data/"), Includes("/model"), Includes("/schema"),
          Includes("/repository")], Data)
  ]

  function ClassifyType(path: string): FileType {
    FirstMatch(TYPE_RULES, Lower(path), Util)
  }

  function ClassifyLayer(path: string): Layer {
    FirstMatch(LAYER_RULES, Lower(path), Shared)
  }

  function ClassifyDocType(path: string): FileType {
    FirstMatch(DOC_TYPE_RULES, Lower(path), Util)
  }

  function ClassifyDocLayer(path: string): Layer {
    FirstMatch(DOC_LAYER_RULES, Lower(path), Shared)
  }

  /** A path containing `.test.` or `.spec.` (in any case) is a test in both
      classifiers, whatever else it contains: the test rule comes first. */
  lemma TestMarkerWins(path: string)
    requires Contains(Lower(path), ".test.") || Contains(Lower(path), ".spec.")
    ensures ClassifyType(path) == Test && ClassifyDocType(path) == Test
  {
    var p := Lower(path);
    var k := if Contains(p, ".test.") then 0 else 1;
    assert Passes(TYPE_RULES[0].tests[k], p);
    assert Fires(TYPE_RULES[0], p);
    assert Passes(DOC_TYPE_RULES[0].tests[k], p);
    assert Fires(DOC_TYPE_RULES[0], p);
  }

  /** A test file under a components directory is still a test. */
  lemma ComponentTestIsTest()
    ensures ClassifyType("src/components/Button.test.tsx") == Test
  {
    var p := Lower("src/components/Button.test.tsx");
    assert p[21..27] == ".test.";
    ContainsAt(p, ".test.", 21);
    TestMarkerWins("src/components/Button.test.tsx");
  }

  /** `util` is the scanner's type exactly when no rule fires, and `shared` its
      layer exactly when no rule fires: the defaults are not rule labels. */
  lemma DefaultsIffNoRule(path: string)
    ensures ClassifyType(path) == Util <==>
      forall i :: 0 <= i < |TYPE_RULES| ==> !Fires(TYPE_RULES[i], Lower(path))
    ensures ClassifyLayer(path) == Shared <==>
      forall i :: 0 <= i < |LAYER_RULES| ==> !Fires(LAYER_RULES[i], Lower(path))
  {
    assert forall i :: 0 <= i < |TYPE_RULES| ==> TYPE_RULES[i].verdict != Util;
    assert forall i :: 0 <= i < |LAYER_RULES| ==> LAYER_RULES[i].verdict != Shared;
  }

  /** The documentation variant never yields `hook` or `middleware`. */
  lemma DocTypeHasNoHookOrMiddleware(path: string)
    ensures ClassifyDocType(path) !in {Hook, Middleware}
  {
    assert forall i :: 0 <= i < |DOC_TYPE_RULES| ==> DOC_TYPE_RULES[i].verdict !in {Hook, Middleware};
  }

  /** Every test of a rule table starts with a slash or a dot. */
  predicate AnchoredTests<L>(rules: seq<Rule<L>>) {
    forall i :: 0 <= i < |rules| ==> Anchored(rules[i])
  }

  predicate Anchored<L>(r: Rule<L>) {
    forall k :: 0 <= k < |r.tests| ==> |r.tests[k].text| > 0 && r.tests[k].text[0] in {'/', '.'}
  }

  /** A test that passes puts the first character of its text into the path. */
  lemma PassesFirstChar(t: Test, p: string)
    requires |t.text| > 0 && Passes(t, p)
    ensures t.text[0] in p
  {
    var i := |p| - |t.text|;
    if t.Includes? {
      i := ContainsWitness(p, t.text);
    }
    assert p[i] == p[i..i + |t.text|][0];
  }

  /** No rule of a table whose tests all start with `/` or `.` fires on a path
      holding neither character. */
  lemma AnchoredNeverFires<L>(rules: seq<Rule<L>>, p: string)
    requires AnchoredTests(rules) && '/' !in p && '.' !in p
    ensures forall i :: 0 <= i < |rules| ==> !Fires(rules[i], p)
  {
    forall i, k | 0 <= i < |rules| && 0 <= k < |rules[i].tests|
      ensures !Passes(rules[i].tests[k], p)
    {
      assert Anchored(rules[i]);
      if Passes(rules[i].tests[k], p) {
        PassesFirstChar(rules[i].tests[k], p);
      }
    }
  }

  lemma LowerKeeps(path: string, c: char)
    requires c !in path && !IsUpper(c) && !IsLowerLetter(c)
    ensures c !in Lower(path)
  {
  }

  /** Every test of the scanner's tables is anchored at a slash or a dot, so a
      name with neither (a bare file name without extension) is always `util`
      in the `shared` layer; the documentation variant, whose table has bare
      substrings, can still give it a type. */
  lemma ScannerNeedsSlashOrDot(path: string)
    requires '/' !in path && '.' !in path
    ensures ClassifyType(path) == Util && ClassifyLayer(path) == Shared
  {
    LowerKeeps(path, '/');
    LowerKeeps(path, '.');
    TypeRulesAnchored();
    LayerRulesAnchored();
    AnchoredNeverFires(TYPE_RULES, Lower(path));
    AnchoredNeverFires(LAYER_RULES, Lower(path));
  }

  lemma TypeRulesAnchored()
    ensures AnchoredTests(TYPE_RULES)
  {
  }

  lemma LayerRulesAnchored()
    ensures AnchoredTests(LAYER_RULES)
  {
  }

  /** The two type classifiers disagree: a bare `component` substring makes a
      component only for the documentation variant. */
  lemma TypeVariantsDiffer()
    ensures ClassifyDocType("mycomponent") == Component
    ensures ClassifyType("mycomponent") == Util
  {
    var p := "mycomponent";
    LowerIdentity(p);
    ComponentRuleFires(p);
    TestRuleQuiet(p);
    ScannerNeedsSlashOrDot(p);
  }

  lemma ComponentRuleFires(p: string)
    requires p == "mycomponent"
    ensures Fires(DOC_TYPE_RULES[1], p)
  {
    assert p[2..11] == "component";
    ContainsAt(p, "component", 2);
    assert Passes(DOC_TYPE_RULES[1].tests[1], p);
  }

  lemma TestRuleQuiet(p: string)
    requires '/' !in p && '.' !in p
    ensures !Fires(DOC_TYPE_RULES[0], p)
  {
    var rules := DOC_TYPE_RULES[..1];
    assert rules == [DOC_TYPE_RULES[0]];
    AnchoredNeverFires(rules, p);
  }

  lemma LowerIdentity(s: string)
    requires forall i :: 0 <= i < |s| ==> !IsUpper(s[i])
    ensures Lower(s) == s
  {
  }

  // ---------------------------------------------------------------------------
  // Identifier casing
  // ---------------------------------------------------------------------------

  datatype Style = ScreamingSnake | PascalCase | CamelCase | SnakeCase | Other

  /** The name each style has in the conventions file. */
  function StyleName(s: Style): string {
    match s
    case ScreamingSnake => "SCREAMING_SNAKE"
    case PascalCase => "PascalCase"
    case CamelCase => "camelCase"
    case SnakeCase => "snake_case"
    case Other => "other"
  }

  /** `/^[A-Z][A-Z0-9_]+$/` together with `name.includes('_')`. */
  predicate ScreamingShape(n: string) {
    |n| >= 2 && IsUpper(n[0]) &&
    (forall i :: 1 <= i < |n| ==> IsUpper(n[i]) || IsDigit(n[i]) || n[i] == '_') &&
    '_' in n
  }

  /** `/^[A-Z][a-zA-Z0-9]*$/` */
  predicate PascalShape(n: string) {
    |n| >= 1 && IsUpper(n[0]) && forall i :: 1 <= i < |n| ==> IsAlnum(n[i])
  }

  /** `/^[a-z][a-zA-Z0-9]*$/` */
  predicate CamelShape(n: string) {
    |n| >= 1 && IsLowerLetter(n[0]) && forall i :: 1 <= i < |n| ==> IsAlnum(n[i])
  }

  /** `/^[a-z][a-z0-9]*(?:_[a-z0-9]+)+$/`: lower-case letters and digits in
      runs joined by single underscores, starting with a letter, with at least
      one underscore and none at the end. */
  predicate SnakeShape(n: string) {
    |n| >= 1 && IsLowerLetter(n[0]) &&
    (forall i :: 0 <= i < |n| ==> IsLowerLetter(n[i]) || IsDigit(n[i]) || n[i] == '_') &&
    '_' in n && n[|n| - 1] != '_' &&
    (forall i :: 0 <= i < |n| - 1 && n[i] == '_' ==> n[i + 1] != '_')
  }

  /** `classifyIdentifier`, in precedence order. */
  function ClassifyIdentifier(n: string): Style {
    if ScreamingShape(n) then ScreamingSnake
    else if PascalShape(n) then PascalCase
    else if CamelShape(n) then CamelCase
    else if SnakeShape(n) then SnakeCase
    else Other
  }

  /** The shape that defines each style; `other` is "none of the shapes". */
  predicate HasStyle(s: Style, n: string) {
    match s
    case ScreamingSnake => ScreamingShape(n)
    case PascalCase => PascalShape(n)
    case CamelCase => CamelShape(n)
    case SnakeCase => SnakeShape(n)
    case Other => !ScreamingShape(n) && !PascalShape(n) && !CamelShape(n) && !SnakeShape(n)
  }

  /** No name has two shapes, so the precedence order never decides anything:
      a name gets a style exactly when it has that style's shape. */
  lemma ClassifyIdentifierIff(n: string, s: Style)
    ensures ClassifyIdentifier(n) == s <==> HasStyle(s, n)
  {
    if PascalShape(n) || CamelShape(n) {
      AlnumNoUnderscore(n);
    }
  }

  /** A name made of a letter and then letters and digits has no underscore. */
  lemma AlnumNoUnderscore(n: string)
    requires |n| >= 1 && n[0] != '_' && forall i :: 1 <= i < |n| ==> IsAlnum(n[i])
    ensures '_' !in n
  {
    forall i | 1 <= i < |n| ensures n[i] != '_' {
      assert IsAlnum(n[i]);
    }
  }

  /** An all-capitals name without an underscore, such as `HTTP` or a single
      capital letter, is PascalCase. */
  lemma CapitalsArePascal(n: string)
    requires |n| >= 1 && forall i :: 0 <= i < |n| ==> IsUpper(n[i])
    ensures ClassifyIdentifier(n) == PascalCase
  {
  }
}
