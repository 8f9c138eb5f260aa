/**
 * The shared library of the planning skills: dotted-key reads of
 * `.planning/config.json` with a table of defaults, the nested write of
 * `set-config`, flattening and validating the configuration against the
 * table of known keys, the ROADMAP.md format check, and the list of required
 * fields a template override lacks.
 */
module KataLib {
  import opened Strings
  import opened Exports

  // ---------------------------------------------------------------------------
  // JSON values
  // ---------------------------------------------------------------------------

  /** A value of `JSON.parse`. Object members keep their insertion order. */
  datatype Json =
    | JNull
    | JBool(b: bool)
    | JNumber(x: real)
    | JString(s: string)
    | JArray(items: seq<Json>)
    | JObject(fields: seq<(string, Json)>)

  /** `typeof v === 'object'`: null and arrays included. */
  predicate IsObjectType(v: Json) {
    v.JNull? || v.JArray? || v.JObject?
  }

  /** `obj[k]` for an own member, or `None` (`undefined`). */
  function Field(fields: seq<(string, Json)>, k: string): Option<Json> {
    if fields == [] then None
    else if fields[0].0 == k then Some(fields[0].1)
    else Field(fields[1..], k)
  }

  /** `obj[k] = v`: an existing member keeps its place, a new one goes last. */
  function SetField(fields: seq<(string, Json)>, k: string, v: Json): seq<(string, Json)> {
    if fields == [] then [(k, v)]
    else if fields[0].0 == k then [(k, v)] + fields[1..]
    else [fields[0]] + SetField(fields[1..], k, v)
  }

  /** After the assignment, `k` reads the new value and every other key what
      it read before. */
  lemma {:induction false} SetFieldLookup(fields: seq<(string, Json)>, k: string, v: Json, q: string)
    ensures Field(SetField(fields, k, v), q) == if q == k then Some(v) else Field(fields, q)
    decreases |fields|
  {
    if fields != [] && fields[0].0 != k {
      SetFieldLookup(fields[1..], k, v, q);
    }
  }

  function DigitChar(d: nat): char
    requires d < 10
  {
    ('0' as int + d) as char
  }

  /** The decimal numeral of `n`: an array index as a property name. */
  function DecimalOf(n: nat): (s: string)
    ensures |s| > 0
    decreases n
  {
    if n < 10 then [DigitChar(n)] else DecimalOf(n / 10) + [DigitChar(n % 10)]
  }

  /** The index at or after `i` (below `n`) whose numeral is `p`. */
  function IndexNamed(n: nat, p: string, i: nat): (r: Option<nat>)
    ensures r.Some? ==> i <= r.value < n && DecimalOf(r.value) == p
    decreases n - i
  {
    if i >= n then None
    else if DecimalOf(i) == p then Some(i)
    else IndexNamed(n, p, i + 1)
  }

  /** `v[p]` for an object or an array; `None` is `undefined`. */
  function Member(v: Json, p: string): Option<Json>
    requires v.JArray? || v.JObject?
  {
    if v.JObject? then Field(v.fields, p)
    else if p == "length" then Some(JNumber(|v.items| as real))
    else
      match IndexNamed(|v.items|, p, 0)
      case Some(i) => Some(v.items[i])
      case None => None
  }

  // ---------------------------------------------------------------------------
  // resolveNested
  // ---------------------------------------------------------------------------

  /** The loop of `resolveNested` from `v` over `parts`: undefined as soon as
      the value reached is null, undefined or not of type 'object'. */
  function ResolvePath(v: Option<Json>, parts: seq<string>): Option<Json>
    decreases |parts|
  {
    if parts == [] then v
    else if v.None? || !(v.value.JArray? || v.value.JObject?) then None
    else ResolvePath(Member(v.value, parts[0]), parts[1..])
  }

  /** `resolveNested(obj, key)` */
  function ResolveNested(obj: Json, key: string): Option<Json> {
    ResolvePath(Some(obj), Split(key, '.'))
  }

  /** Following a path in two legs is following it at once. */
  lemma {:induction false} ResolvePathAppend(v: Option<Json>, a: seq<string>, b: seq<string>)
    ensures ResolvePath(v, a + b) == ResolvePath(ResolvePath(v, a), b)
    decreases |a|
  {
    if a == [] {
      assert a + b == b;
    } else if v.None? || !(v.value.JArray? || v.value.JObject?) {
      if b != [] {
        assert (a + b)[0] == a[0];
      }
    } else {
      assert (a + b)[1..] == a[1..] + b;
      ResolvePathAppend(Member(v.value, a[0]), a[1..], b);
    }
  }

  /** Once a step reaches null, `undefined` or a non-object, the lookup is
      `undefined`, whatever the rest of the key. */
  lemma ResolveStopsEarly(obj: Json, parts: seq<string>, i: nat)
    requires i < |parts|
    requires var w := ResolvePath(Some(obj), parts[..i]); w.None? || !(w.value.JArray? || w.value.JObject?)
    ensures ResolvePath(Some(obj), parts) == None
  {
    assert parts == parts[..i] + parts[i..];
    ResolvePathAppend(Some(obj), parts[..i], parts[i..]);
  }

  // ---------------------------------------------------------------------------
  // flattenConfig
  // ---------------------------------------------------------------------------

  /** `prefix ? `${prefix}.${key}` : key` */
  function JoinKey(prefix: string, key: string): string {
    if prefix != "" then prefix + "." + key else key
  }

  /** The entries of the first `n` members of an object: a member holding a
      (non-array) object contributes the entries of that object under its
      key, any other member one entry. */
  function FlatUpTo(obj: Json, prefix: string, n: nat): seq<(string, Json)>
    requires obj.JObject? && n <= |obj.fields|
    decreases obj, n
  {
    if n == 0 then []
    else
      var member := obj.fields[n - 1];
      assert member in obj.fields;
      var fullKey := JoinKey(prefix, member.0);
      FlatUpTo(obj, prefix, n - 1) +
        (if member.1.JObject? then FlatUpTo(member.1, fullKey, |member.1.fields|) else [(fullKey, member.1)])
  }

  /** `flattenConfig(obj, prefix)` for an object. */
  function Flatten(obj: Json, prefix: string): seq<(string, Json)>
    requires obj.JObject?
  {
    FlatUpTo(obj, prefix, |obj.fields|)
  }

  /** `Object.entries` of an array: its elements under their indexes. */
  function IndexedItems(items: seq<Json>): seq<(string, Json)> {
    seq(|items|, i requires 0 <= i < |items| => (DecimalOf(i), items[i]))
  }

  /** `Object.entries` of a string: its characters under their indexes. */
  function IndexedChars(s: string): seq<(string, Json)> {
    seq(|s|, i requires 0 <= i < |s| => (DecimalOf(i), JString([s[i]])))
  }

  /** `flattenConfig(config)` on any parsed configuration: `None` when
      `Object.entries` throws (a null configuration). */
  function FlattenConfig(config: Json): Option<seq<(string, Json)>> {
    match config
    case JNull => None
    case JObject(_) => Some(Flatten(config, ""))
    case JArray(items) => Some(Flatten(JObject(IndexedItems(items)), ""))
    case JString(s) => Some(Flatten(JObject(IndexedChars(s)), ""))
    case _ => Some([])
  }

  /** `flattenConfig(obj, prefix)` as the source runs it: one pass over the
      members, pushing the entries of nested objects found by recursion. */
  method FlattenEntries(obj: Json, prefix: string) returns (entries: seq<(string, Json)>)
    requires obj.JObject?
    ensures entries == Flatten(obj, prefix)
    decreases obj
  {
    entries := [];
    for i := 0 to |obj.fields|
      invariant entries == FlatUpTo(obj, prefix, i)
    {
      var member := obj.fields[i];
      assert member in obj.fields;
      var fullKey := JoinKey(prefix, member.0);
      if member.1.JObject? {
        var nested := FlattenEntries(member.1, fullKey);
        entries := entries + nested;
      } else {
        entries := entries + [(fullKey, member.1)];
      }
    }
  }

  /** Every entry is a leaf: null, a primitive or an array, never an object
      (an empty nested object therefore contributes nothing). */
  lemma {:induction false} FlatLeaves(obj: Json, prefix: string, n: nat, e: (string, Json))
    requires obj.JObject? && n <= |obj.fields|
    requires e in FlatUpTo(obj, prefix, n)
    ensures !e.1.JObject?
    decreases obj, n
  {
    var member := obj.fields[n - 1];
    assert member in obj.fields;
    var fullKey := JoinKey(prefix, member.0);
    if e in FlatUpTo(obj, prefix, n - 1) {
      FlatLeaves(obj, prefix, n - 1, e);
    } else if member.1.JObject? {
      FlatLeaves(member.1, fullKey, |member.1.fields|, e);
    }
  }

  /** A key that can be a path segment: non-empty and without a dot. */
  predicate Segment(k: string) {
    k != "" && '.' !in k
  }

  /** Every object in the value has distinct member names, all of them path
      segments. */
  ghost predicate WellKeyed(v: Json)
    decreases v
  {
    v.JObject? ==>
      (forall i, j :: 0 <= i < j < |v.fields| ==> v.fields[i].0 != v.fields[j].0) &&
      (forall i :: 0 <= i < |v.fields| ==> Segment(v.fields[i].0) && WellKeyed(v.fields[i].1))
  }

  /** With distinct names, each member is found under its own name. */
  lemma {:induction false} FieldAt(fields: seq<(string, Json)>, i: nat)
    requires i < |fields|
    requires forall a, b :: 0 <= a < b < |fields| ==> fields[a].0 != fields[b].0
    ensures Field(fields, fields[i].0) == Some(fields[i].1)
    decreases |fields|
  {
    if i > 0 {
      assert fields[0].0 != fields[i].0;
      FieldAt(fields[1..], i - 1);
    }
  }

  /** Joining segments with dots and splitting the result again gives the
      segments back. */
  lemma {:induction false} SplitJoin(ks: seq<string>)
    requires |ks| > 0 && forall i :: 0 <= i < |ks| ==> '.' !in ks[i]
    ensures Split(Join(ks, '.'), '.') == ks
    decreases |ks|
  {
    if |ks| > 1 {
      var rest := Join(ks[1..], '.');
      var s := ks[0] + ['.'] + rest;
      assert Join(ks, '.') == s;
      assert s[|ks[0]|] == '.';
      assert s[..|ks[0]|] == ks[0];
      assert IndexOfChar(s, '.') == |ks[0]|;
      assert s[|ks[0]| + 1..] == rest;
      SplitJoin(ks[1..]);
    }
  }

  /** The dotted key under a prefix of segments. */
  lemma JoinKeySnoc(path: seq<string>, key: string)
    requires forall i :: 0 <= i < |path| ==> Segment(path[i])
    ensures JoinKey(Join(path, '.'), key) == Join(path + [key], '.')
  {
    if path != [] {
      JoinNonEmpty(path);
      JoinSnoc(path, key);
    }
  }

  lemma {:induction false} JoinNonEmpty(path: seq<string>)
    requires |path| > 0 && path[0] != ""
    ensures Join(path, '.') != ""
    decreases |path|
  {
    if |path| > 1 {
      assert |Join(path, '.')| >= |path[0]|;
    }
  }

  lemma {:induction false} JoinSnoc(path: seq<string>, key: string)
    requires |path| > 0
    ensures Join(path, '.') + "." + key == Join(path + [key], '.')
    decreases |path|
  {
    if |path| > 1 {
      JoinSnoc(path[1..], key);
      assert (path + [key])[1..] == path[1..] + [key];
    }
  }

  /** A member of a well-keyed object: a segment name, a well-keyed value,
      and the value found under the name. */
  lemma MemberFacts(obj: Json, i: nat)
    requires obj.JObject? && i < |obj.fields| && WellKeyed(obj)
    ensures Segment(obj.fields[i].0) && WellKeyed(obj.fields[i].1)
    ensures Field(obj.fields, obj.fields[i].0) == Some(obj.fields[i].1)
  {
    FieldAt(obj.fields, i);
  }

  /** Every flattened entry of a well-keyed object is found again by
      following the segments after the prefix: the entry's key is the prefix
      and those segments joined by dots. */
  lemma {:induction false} FlatEntryPath(obj: Json, path: seq<string>, n: nat, e: (string, Json))
    returns (ks: seq<string>)
    requires obj.JObject? && n <= |obj.fields| && WellKeyed(obj)
    requires forall i :: 0 <= i < |path| ==> Segment(path[i])
    requires e in FlatUpTo(obj, Join(path, '.'), n)
    ensures |ks| > 0 && (forall i :: 0 <= i < |ks| ==> Segment(ks[i]))
    ensures e.0 == Join(path + ks, '.') && ResolvePath(Some(obj), ks) == Some(e.1)
    decreases obj, n, 1
  {
    var prefix := Join(path, '.');
    if e in FlatUpTo(obj, prefix, n - 1) {
      ks := FlatEntryPath(obj, path, n - 1, e);
    } else {
      ks := FlatMemberPath(obj, path, n - 1, e);
    }
  }

  /** The same for an entry that the member at `i` contributes. */
  lemma {:induction false} FlatMemberPath(obj: Json, path: seq<string>, i: nat, e: (string, Json))
    returns (ks: seq<string>)
    requires obj.JObject? && i < |obj.fields| && WellKeyed(obj)
    requires forall m :: 0 <= m < |path| ==> Segment(path[m])
    requires var member := obj.fields[i]; var fullKey := JoinKey(Join(path, '.'), member.0);
      e in (if member.1.JObject? then FlatUpTo(member.1, fullKey, |member.1.fields|) else [(fullKey, member.1)])
    ensures |ks| > 0 && (forall m :: 0 <= m < |ks| ==> Segment(ks[m]))
    ensures e.0 == Join(path + ks, '.') && ResolvePath(Some(obj), ks) == Some(e.1)
    decreases obj, i + 1, 0
  {
    var member := obj.fields[i];
    assert member in obj.fields;
    MemberFacts(obj, i);
    JoinKeySnoc(path, member.0);
    var longer := path + [member.0];
    assert forall m :: 0 <= m < |longer| ==> Segment(longer[m]);
    if member.1.JObject? {
      var sub := FlatEntryPath(member.1, longer, |member.1.fields|, e);
      ks := [member.0] + sub;
      AppendAssoc(path, [member.0], sub);
      ConsParts(member.0, sub);
    } else {
      ks := [member.0];
    }
  }

  /** For a configuration whose names are distinct, non-empty and free of
      dots, looking up the key of any flattened entry gives its value back. */
  lemma FlattenResolves(config: Json, e: (string, Json))
    requires config.JObject? && WellKeyed(config)
    requires e in Flatten(config, "")
    ensures ResolveNested(config, e.0) == Some(e.1)
  {
    assert Join([], '.') == "";
    var ks := FlatEntryPath(config, [], |config.fields|, e);
    assert [] + ks == ks;
    SplitJoin(ks);
  }

  /** Under an empty name, nested names lose a level: `{"": {"a": 1}}`
      flattens to the key `a`, which does not resolve. */
  lemma EmptyNameLosesLevel(v: Json)
    requires !v.JObject?
    ensures Flatten(JObject([("", JObject([("a", v)]))]), "") == [("a", v)]
    ensures ResolveNested(JObject([("", JObject([("a", v)]))]), "a") == None
  {
    var inner := JObject([("a", v)]);
    var config := JObject([("", inner)]);
    assert JoinKey("", "a") == "a" && JoinKey("", "") == "";
    assert FlatUpTo(inner, "", 0) == [] && FlatUpTo(config, "", 0) == [];
    assert FlatUpTo(inner, "", 1) == [] + [("a", v)];
    assert Flatten(config, "") == [] + FlatUpTo(inner, "", 1);
    assert Split("a", '.') == ["a"];
    assert Field(config.fields, "a") == None;
    assert ResolvePath(Some(config), ["a"]) == ResolvePath(Member(config, "a"), []);
  }

  // ---------------------------------------------------------------------------
  // String(value)
  // ---------------------------------------------------------------------------

  /** `String(v)`, given the text of a number; an array joins the texts of
      its elements with commas, null elements as empty text. */
  function TextOf(v: Json, numberText: real -> string): string
    decreases v
  {
    match v
    case JNull => "null"
    case JBool(b) => if b then "true" else "false"
    case JNumber(x) => numberText(x)
    case JString(s) => s
    case JArray(items) =>
      Join(seq(|items|, i requires 0 <= i < |items| =>
        if items[i].JNull? then "" else TextOf(items[i], numberText)), ',')
    case JObject(_) => "[object Object]"
  }

  // ---------------------------------------------------------------------------
  // Tables and validateValue
  // ---------------------------------------------------------------------------

  /** `table[k]` for a table of distinct keys. */
  function Lookup<V>(table: seq<(string, V)>, k: string): (r: Option<V>)
    ensures r.Some? <==> exists i :: 0 <= i < |table| && table[i].0 == k
    ensures r.Some? ==> exists i :: 0 <= i < |table| && table[i] == (k, r.value)
  {
    if table == [] then None
    else if table[0].0 == k then Some(table[0].1)
    else
      var r := Lookup(table[1..], k);
      assert forall i :: 1 <= i < |table| ==> table[i] == table[1..][i - 1];
      r
  }

  /** The defaults of `read-pref`. */
  const DEFAULTS: seq<(string, string)> := [
    ("release.changelog", "true"),
    ("release.changelog_format", "keep-a-changelog"),
    ("release.version_bump", "conventional-commits"),
    ("docs.readme_on_milestone", "prompt"),
    ("docs.auto_update_files", "README.md"),
    ("conventions.commit_format", "conventional"),
    ("mode", "yolo"),
    ("depth", "standard"),
    ("model_profile", "balanced"),
    ("pr_workflow", "false"),
    ("commit_docs", "true"),
    ("workflow.research", "true"),
    ("workflow.plan_check", "true"),
    ("workflow.verifier", "true"),
    ("worktree.enabled", "false"),
    ("github.enabled", "false"),
    ("github.issue_mode", "never"),
    ("workflows.execute-phase.post_task_command", ""),
    ("workflows.execute-phase.commit_style", "conventional"),
    ("workflows.execute-phase.commit_scope_format", "{phase}-{plan}"),
    ("workflows.verify-work.extra_verification_commands", "[]"),
    ("workflows.complete-milestone.version_files", "[]"),
    ("workflows.complete-milestone.pre_release_commands", "[]")
  ]

  /** The type a known key's value must have. */
  datatype Schema = BooleanType | EnumType(values: seq<string>) | ArrayType | StringType

  /** The keys `check-config` knows. */
  const KNOWN_KEYS: seq<(string, Schema)> := [
    ("mode", EnumType(["yolo", "interactive"])),
    ("depth", EnumType(["quick", "standard", "comprehensive"])),
    ("model_profile", EnumType(["quality", "balanced", "budget"])),
    ("commit_docs", BooleanType),
    ("pr_workflow", BooleanType),
    ("parallelization", BooleanType),
    ("workflow.research", BooleanType),
    ("workflow.plan_check", BooleanType),
    ("workflow.verifier", BooleanType),
    ("github.enabled", BooleanType),
    ("github.issue_mode", EnumType(["auto", "ask", "never"])),
    ("workflows.execute-phase.post_task_command", StringType),
    ("workflows.execute-phase.commit_style", EnumType(["conventional", "semantic", "simple"])),
    ("workflows.execute-phase.commit_scope_format", StringType),
    ("workflows.verify-work.extra_verification_commands", ArrayType),
    ("workflows.complete-milestone.version_files", ArrayType),
    ("workflows.complete-milestone.pre_release_commands", ArrayType),
    ("worktree.enabled", BooleanType)
  ]

  /** A value of the schema's type; an enumeration value is one of the listed
      strings. */
  predicate Fits(value: Json, schema: Schema) {
    match schema
    case BooleanType => value.JBool?
    case EnumType(values) => exists i :: 0 <= i < |values| && value == JString(values[i])
    case ArrayType => value.JArray?
    case StringType => value.JString?
  }

  /** A value that does not fit the schema of its key. */
  datatype ConfigError = ConfigError(key: string, schema: Schema, got: Json)

  /** `values.includes(value)` */
  function Includes(values: seq<string>, value: Json): (r: bool)
    ensures r <==> exists i :: 0 <= i < |values| && value == JString(values[i])
  {
    if values == [] then false
    else value == JString(values[0]) || Includes(values[1..], value)
  }

  /** `validateValue`: no error exactly when the value fits, otherwise the
      error names the key, the schema and the value. */
  function ValidateValue(key: string, value: Json, schema: Schema): (r: Option<ConfigError>)
    ensures r.None? <==> Fits(value, schema)
    ensures r.Some? ==> r.value == ConfigError(key, schema, value)
  {
    var ok := match schema
      case BooleanType => value.JBool?
      case EnumType(values) => Includes(values, value)
      case ArrayType => value.JArray?
      case StringType => value.JString?;
    if ok then None else Some(ConfigError(key, schema, value))
  }

  /** The message `validateValue` returns for an error. */
  function ErrorMessage(e: ConfigError, numberText: real -> string): string {
    var head := "[kata] Config error: Invalid value for '" + e.key + "': expected ";
    var got := "'" + TextOf(e.got, numberText) + "'";
    match e.schema
    case BooleanType => head + "boolean, got " + got
    case EnumType(values) => head + "one of " + JoinWith(values, ", ") + "; got " + got
    case ArrayType => head + "array, got " + got
    case StringType => head + "string, got " + got
  }

  /** `values.join(sep)` for a separator of any length. */
  function JoinWith(values: seq<string>, sep: string): string {
    if |values| == 0 then ""
    else if |values| == 1 then values[0]
    else values[0] + sep + JoinWith(values[1..], sep)
  }

  // ---------------------------------------------------------------------------
  // check-config
  // ---------------------------------------------------------------------------

  /** A line `check-config` prints. */
  datatype ConfigNote = UnknownKey(key: string) | Invalid(error: ConfigError)

  /** What `check-config` prints for one flattened entry. */
  function NoteFor(entry: (string, Json)): Option<ConfigNote> {
    match Lookup(KNOWN_KEYS, entry.0)
    case None => Some(UnknownKey(entry.0))
    case Some(schema) =>
      match ValidateValue(entry.0, entry.1, schema)
      case None => None
      case Some(e) => Some(Invalid(e))
  }

  /** The defined results of `f` over `xs`, in order. */
  function Collect<T, U>(f: T -> Option<U>, xs: seq<T>): seq<U> {
    if xs == [] then []
    else
      var last := xs[|xs| - 1];
      Collect(f, xs[..|xs| - 1]) + (match f(last) case Some(u) => [u] case None => [])
  }

  lemma {:induction false} CollectMembers<T, U>(f: T -> Option<U>, xs: seq<T>, u: U)
    ensures u in Collect(f, xs) <==> exists i :: 0 <= i < |xs| && f(xs[i]) == Some(u)
    decreases |xs|
  {
    if xs != [] {
      var init := xs[..|xs| - 1];
      CollectMembers(f, init, u);
      SomeDefinedSnoc(f, xs, init, u);
    }
  }

  /** `f` gives `u` on some element of `xs` exactly when it does on one
      before the last, or on the last. */
  lemma SomeDefinedSnoc<T, U>(f: T -> Option<U>, xs: seq<T>, init: seq<T>, u: U)
    requires xs != [] && init == xs[..|xs| - 1]
    ensures (exists i :: 0 <= i < |xs| && f(xs[i]) == Some(u)) <==>
      (exists i :: 0 <= i < |init| && f(init[i]) == Some(u)) || f(xs[|xs| - 1]) == Some(u)
  {
    if exists i :: 0 <= i < |xs| && f(xs[i]) == Some(u) {
      var i :| 0 <= i < |xs| && f(xs[i]) == Some(u);
      if i < |init| {
        assert f(init[i]) == Some(u);
      }
    }
    if exists i :: 0 <= i < |init| && f(init[i]) == Some(u) {
      var i :| 0 <= i < |init| && f(init[i]) == Some(u);
      assert f(xs[i]) == Some(u);
    }
  }

  /** The lines for a list of entries, in order. */
  function NotesOf(entries: seq<(string, Json)>): seq<ConfigNote> {
    Collect(NoteFor, entries)
  }

  /** The report on a configuration file: nothing when it is missing (`None`)
      or when flattening throws. */
  function ConfigReport(config: Option<Json>): seq<ConfigNote> {
    if config.None? then []
    else
      match FlattenConfig(config.value)
      case None => []
      case Some(entries) => NotesOf(entries)
  }

  /** The line for one entry: a warning for an unknown key, an error for a
      known key whose value does not fit, and nothing otherwise. */
  lemma NoteForCases(entry: (string, Json), n: ConfigNote)
    ensures NoteFor(entry) == Some(n) && n.UnknownKey? <==>
      n == UnknownKey(entry.0) && Lookup(KNOWN_KEYS, entry.0).None?
    ensures NoteFor(entry) == Some(n) && n.Invalid? <==>
      exists t :: Lookup(KNOWN_KEYS, entry.0) == Some(t) && !Fits(entry.1, t) &&
        n == Invalid(ConfigError(entry.0, t, entry.1))
  {
    var t := Lookup(KNOWN_KEYS, entry.0);
    if t.Some? {
      var v := ValidateValue(entry.0, entry.1, t.value);
    }
  }

  /** A key is reported unknown exactly when an entry carries it and the
      table does not; an error is reported exactly for an entry of a known
      key whose value does not fit. */
  lemma NotesMembers(entries: seq<(string, Json)>, n: ConfigNote)
    ensures n in NotesOf(entries) && n.UnknownKey? <==>
      exists i :: 0 <= i < |entries| && n == UnknownKey(entries[i].0) && Lookup(KNOWN_KEYS, entries[i].0).None?
    ensures n in NotesOf(entries) && n.Invalid? <==>
      exists i, t :: 0 <= i < |entries| && Lookup(KNOWN_KEYS, entries[i].0) == Some(t) &&
        !Fits(entries[i].1, t) && n == Invalid(ConfigError(entries[i].0, t, entries[i].1))
  {
    CollectMembers(NoteFor, entries, n);
    forall i | 0 <= i < |entries| {
      NoteForCases(entries[i], n);
    }
  }

  /** The loop of `check-config` over the flattened entries. */
  method ReportEntries(entries: seq<(string, Json)>) returns (notes: seq<ConfigNote>)
    ensures notes == NotesOf(entries)
  {
    notes := [];
    for i := 0 to |entries|
      invariant notes == NotesOf(entries[..i])
    {
      assert entries[..i + 1][..i] == entries[..i];
      var note := NoteFor(entries[i]);
      if note.Some? {
        notes := notes + [note.value];
      }
    }
    TakeAll(entries);
  }

  // ---------------------------------------------------------------------------
  // set-config
  // ---------------------------------------------------------------------------

  /** How `set-config` ends: the configuration it writes; a TypeError thrown
      before anything is written (the walk reached null, or the file holds
      no object); a walk into an array, whose writes the model leaves out; a
      usage error for an empty key. */
  datatype SetOutcome = Written(config: Json) | TypeError | ThroughArray | UsageError

  /** The member a step of the walk descends into: an absent member or one
      not of type 'object' is first replaced by `{}`. */
  function StepInto(obj: Json, k: string): Json
    requires obj.JObject?
  {
    var child := Field(obj.fields, k);
    if child.None? || !IsObjectType(child.value) then JObject([]) else child.value
  }

  /** The walk of `set-config` from the object `obj` down `parts`, then the
      assignment of `v` to the last part. */
  function SetPath(obj: Json, parts: seq<string>, v: Json): SetOutcome
    requires obj.JObject? && |parts| >= 1
    decreases |parts|
  {
    if |parts| == 1 then Written(JObject(SetField(obj.fields, parts[0], v)))
    else
      var next := StepInto(obj, parts[0]);
      if next.JNull? then TypeError
      else if next.JArray? then ThroughArray
      else
        match SetPath(next, parts[1..], v)
        case Written(c) => Written(JObject(SetField(obj.fields, parts[0], c)))
        case other => other
  }

  /** `set-config key` with the parsed value `v`, on the configuration read
      from the file (`{}` when it is missing or not JSON). */
  function SetConfig(config: Json, key: string, v: Json): SetOutcome {
    if key == "" then UsageError
    else
      match config
      case JObject(_) => SetPath(config, Split(key, '.'), v)
      case JArray(_) => ThroughArray
      case _ => TypeError
  }

  /** The value `set-config` stores for its text argument, given `Number`
      (`None` for NaN) and `JSON.parse` (`None` when it throws). */
  function ParseValue(value: string, toNumber: string -> Option<real>, parseJson: string -> Option<Json>): Json {
    if value == "true" then JBool(true)
    else if value == "false" then JBool(false)
    else if value != "" && toNumber(value).Some? then JNumber(toNumber(value).value)
    else
      match parseJson(value)
      case Some(j) => j
      case None => JString(value)
  }

  /** The written value is found again under the key. */
  lemma {:induction false} SetPathResolves(obj: Json, parts: seq<string>, v: Json)
    requires obj.JObject? && |parts| >= 1 && SetPath(obj, parts, v).Written?
    ensures ResolvePath(Some(SetPath(obj, parts, v).config), parts) == Some(v)
    decreases |parts|
  {
    var r := SetPath(obj, parts, v).config;
    if |parts| == 1 {
      SetFieldLookup(obj.fields, parts[0], v, parts[0]);
    } else {
      var next := StepInto(obj, parts[0]);
      var c := SetPath(next, parts[1..], v).config;
      SetPathResolves(next, parts[1..], v);
      SetFieldLookup(obj.fields, parts[0], c, parts[0]);
    }
  }

  /** `q` leaves `parts` at some position both have. */
  predicate Diverges(q: seq<string>, parts: seq<string>) {
    exists i :: 0 <= i < |q| && i < |parts| && q[..i] == parts[..i] && q[i] != parts[i]
  }

  /** Every key that leaves the written path reads as before. */
  lemma {:induction false} SetPathFrame(obj: Json, parts: seq<string>, v: Json, q: seq<string>)
    requires obj.JObject? && |parts| >= 1 && SetPath(obj, parts, v).Written?
    requires Diverges(q, parts)
    ensures ResolvePath(Some(SetPath(obj, parts, v).config), q) == ResolvePath(Some(obj), q)
    decreases |parts|
  {
    var i :| 0 <= i < |q| && i < |parts| && q[..i] == parts[..i] && q[i] != parts[i];
    var k := parts[0];
    var written := if |parts| == 1 then v else SetPath(StepInto(obj, k), parts[1..], v).config;
    assert SetPath(obj, parts, v).config == JObject(SetField(obj.fields, k, written));
    SetFieldLookup(obj.fields, k, written, q[0]);
    if q[0] == k {
      assert i > 0;
      assert q[0] == q[..i][0];
      var next := StepInto(obj, k);
      assert q[1..][..i - 1] == q[..i][1..] && parts[1..][..i - 1] == parts[..i][1..];
      assert Diverges(q[1..], parts[1..]);
      SetPathFrame(next, parts[1..], v, q[1..]);
      var child := Field(obj.fields, k);
      if child.None? || !IsObjectType(child.value) {
        assert Field([], q[1]) == None;
      }
    }
  }

  /** A step of the walk cannot continue: null or an array. */
  predicate Blocks(o: Option<Json>) {
    o.Some? && (o.value.JNull? || o.value.JArray?)
  }

  /** No intermediate of the key, in the configuration as it was, is null or
      an array. */
  ghost predicate ClearPath(obj: Json, parts: seq<string>) {
    forall i :: 1 <= i < |parts| ==> !Blocks(ResolvePath(Some(obj), parts[..i]))
  }

  lemma ResolveStep(obj: Json, parts: seq<string>, i: nat)
    requires obj.JObject? && 1 <= i <= |parts|
    ensures ResolvePath(Some(obj), parts[..i]) == ResolvePath(Member(obj, parts[0]), parts[1..][..i - 1])
  {
    assert parts[..i][0] == parts[0];
    assert parts[..i][1..] == parts[1..][..i - 1];
  }

  lemma ResolveFromEmpty(parts: seq<string>)
    requires |parts| >= 1
    ensures ResolvePath(Some(JObject([])), parts) == None
  {
    assert Field([], parts[0]) == None;
  }

  /** The walk writes exactly when no intermediate is null or an array;
      otherwise it throws or goes into the array. */
  lemma {:induction false} SetPathWrites(obj: Json, parts: seq<string>, v: Json)
    requires obj.JObject? && |parts| >= 1
    ensures SetPath(obj, parts, v).Written? <==> ClearPath(obj, parts)
    ensures SetPath(obj, parts, v).Written? || SetPath(obj, parts, v).TypeError? || SetPath(obj, parts, v).ThroughArray?
    decreases |parts|
  {
    if |parts| > 1 {
      var k := parts[0];
      var child := Field(obj.fields, k);
      var next := StepInto(obj, k);
      ResolveStep(obj, parts, 1);
      if next.JObject? {
        SetPathWrites(next, parts[1..], v);
        forall i | 1 <= i < |parts|
          ensures Blocks(ResolvePath(Some(obj), parts[..i])) == Blocks(ResolvePath(Some(next), parts[1..][..i - 1]))
        {
          ResolveStep(obj, parts, i);
          if i > 1 && (child.None? || !IsObjectType(child.value)) {
            ResolveFromEmpty(parts[1..][..i - 1]);
          }
        }
        assert ClearPath(obj, parts) <==> ClearPath(next, parts[1..]) by {
          if ClearPath(next, parts[1..]) {
            forall i | 1 <= i < |parts| ensures !Blocks(ResolvePath(Some(obj), parts[..i])) {
              if i > 1 {
                assert !Blocks(ResolvePath(Some(next), parts[1..][..i - 1]));
              }
            }
          }
          if ClearPath(obj, parts) {
            forall j | 1 <= j < |parts[1..]| ensures !Blocks(ResolvePath(Some(next), parts[1..][..j])) {
              assert !Blocks(ResolvePath(Some(obj), parts[..j + 1]));
            }
          }
        }
      }
    }
  }

  // ---------------------------------------------------------------------------
  // read-config, read-pref, has-pref
  // ---------------------------------------------------------------------------

  /** `undefined` or `null`: what `??` passes over. */
  predicate Nullish(o: Option<Json>) {
    o.None? || o.value.JNull?
  }

  /** `read-config key [fallback]`: `fallback` is `''` when it is not given. */
  function ReadConfigValue(config: Json, key: string, fallback: string): Json {
    var found := ResolveNested(config, key);
    if !Nullish(found) then found.value
    else if fallback != "" then JString(fallback)
    else JString("")
  }

  /** `read-pref key [fallback]`: the table of defaults sits between the
      configuration and the fallback. */
  function ReadPrefValue(config: Json, key: string, fallback: string): Json {
    var found := ResolveNested(config, key);
    if !Nullish(found) then found.value
    else
      match Lookup(DEFAULTS, key)
      case Some(d) => JString(d)
      case None => JString(fallback)
  }

  /** `has-pref key` succeeds. */
  predicate HasPref(config: Json, key: string) {
    ResolveNested(config, key).Some?
  }

  /** `formatValue`: JSON text for null, arrays and objects, `String(v)`
      otherwise. */
  function FormatValue(v: Json, stringify: Json -> string, numberText: real -> string): string {
    if IsObjectType(v) then stringify(v) else TextOf(v, numberText)
  }

  /** A configured value wins in both readers; without one, `read-pref` uses
      the default for the key and otherwise agrees with `read-config`, which
      falls back to the fallback (`''` when none is given). */
  lemma ReadPrecedence(config: Json, key: string, fallback: string)
    ensures !Nullish(ResolveNested(config, key)) ==>
      ReadPrefValue(config, key, fallback) == ReadConfigValue(config, key, fallback) == ResolveNested(config, key).value
    ensures Nullish(ResolveNested(config, key)) ==> ReadConfigValue(config, key, fallback) == JString(fallback)
    ensures Nullish(ResolveNested(config, key)) && Lookup(DEFAULTS, key).None? ==>
      ReadPrefValue(config, key, fallback) == ReadConfigValue(config, key, fallback)
    ensures Nullish(ResolveNested(config, key)) ==>
      forall d :: Lookup(DEFAULTS, key) == Some(d) ==> ReadPrefValue(config, key, fallback) == JString(d)
  {
  }

  /** After `set-config` writes a non-null value, both readers give it back
      and `has-pref` holds. */
  lemma SetThenRead(config: Json, key: string, v: Json, fallback: string)
    requires SetConfig(config, key, v).Written? && !v.JNull?
    ensures ReadConfigValue(SetConfig(config, key, v).config, key, fallback) == v
    ensures ReadPrefValue(SetConfig(config, key, v).config, key, fallback) == v
    ensures HasPref(SetConfig(config, key, v).config, key)
  {
    SetPathResolves(config, Split(key, '.'), v);
  }

  /** Text that is neither `true`/`false`, nor a number, nor JSON is stored
      as a string, and `read-config` prints it back unchanged. */
  lemma RawTextReadsBack(config: Json, key: string, value: string, fallback: string,
                         toNumber: string -> Option<real>, parseJson: string -> Option<Json>,
                         stringify: Json -> string, numberText: real -> string)
    requires value != "true" && value != "false"
    requires value == "" || toNumber(value).None?
    requires parseJson(value).None?
    requires SetConfig(config, key, ParseValue(value, toNumber, parseJson)).Written?
    ensures FormatValue(ReadConfigValue(SetConfig(config, key, ParseValue(value, toNumber, parseJson)).config,
                                        key, fallback), stringify, numberText) == value
  {
    SetThenRead(config, key, JString(value), fallback);
  }

  // ---------------------------------------------------------------------------
  // Multiline anchors
  // ---------------------------------------------------------------------------

  /** `^` in multiline mode matches at `p`: the start of the text or just
      after a line terminator. */
  predicate LineStart(s: string, p: nat) {
    p <= |s| && (p == 0 || IsLineTerminator(s[p - 1]))
  }

  /** The end of the line from `p`: the next line terminator, or the end of
      the text. */
  function LineEnd(s: string, p: nat): (e: nat)
    requires p <= |s|
    ensures p <= e <= |s|
    ensures forall i :: p <= i < e ==> !IsLineTerminator(s[i])
    ensures e < |s| ==> IsLineTerminator(s[e])
    decreases |s| - p
  {
    if p == |s| || IsLineTerminator(s[p]) then p else LineEnd(s, p + 1)
  }

  /** `/^pre/m.test(s)` for a literal `pre`. */
  predicate StartsLine(s: string, pre: string) {
    exists p :: 0 <= p <= |s| && LineStart(s, p) && StartsWith(s[p..], pre)
  }

  /** `/^line$/m.test(s)` for a literal `line`. */
  predicate IsLineOf(s: string, line: string) {
    exists p :: 0 <= p <= |s| && LineStart(s, p) && StartsWith(s[p..], line) &&
      (p + |line| == |s| || IsLineTerminator(s[p + |line|]))
  }

  predicate NoTerminator(x: string) {
    forall i :: 0 <= i < |x| ==> !IsLineTerminator(x[i])
  }

  /** The line end is determined by its three properties. */
  lemma LineEndUnique(s: string, p: nat, e: nat)
    requires p <= e <= |s|
    requires forall i :: p <= i < e ==> !IsLineTerminator(s[i])
    requires e < |s| ==> IsLineTerminator(s[e])
    ensures LineEnd(s, p) == e
  {
  }

  lemma LineEndShift(s: string, d: nat, p: nat)
    requires d <= p <= |s|
    ensures LineEnd(s, p) == LineEnd(s[d..], p - d) + d
  {
    var t := s[d..];
    var e := LineEnd(t, p - d);
    assert forall i :: p <= i < e + d ==> s[i] == t[i - d];
    LineEndUnique(s, p, e + d);
  }

  /** The lines of `split` on line terminators are the first line, then the
      lines after its terminator. */
  lemma {:induction false} SplitLinesFirst(s: string)
    ensures SplitLines(s) == [s[..LineEnd(s, 0)]] +
      (if LineEnd(s, 0) < |s| then SplitLines(s[LineEnd(s, 0) + 1..]) else [])
    decreases |s|
  {
    if s != [] && !IsLineTerminator(s[0]) {
      var t := s[1..];
      SplitLinesFirst(t);
      var e := LineEnd(t, 0);
      LineEndShift(s, 1, 1);
      assert LineEnd(s, 0) == LineEnd(s, 1);
      HeadTail(s, e, if e < |t| then e + 1 else 0);
    }
  }

  /** The segment from a line start to the end of its line is a line of the
      text. */
  lemma {:induction false} LineAt(s: string, p: nat)
    requires LineStart(s, p)
    ensures s[p..LineEnd(s, p)] in SplitLines(s)
    decreases |s|, 1
  {
    if p == 0 {
      FirstLineAt(s);
    } else {
      LaterLineAt(s, p);
    }
  }

  lemma FirstLineAt(s: string)
    ensures s[0..LineEnd(s, 0)] in SplitLines(s)
  {
    var e := LineEnd(s, 0);
    SplitLinesFirst(s);
    assert s[0..e] == s[..e];
    InCons(s[..e], s[..e], if e < |s| then SplitLines(s[e + 1..]) else []);
  }

  lemma {:induction false} LaterLineAt(s: string, p: nat)
    requires LineStart(s, p) && p != 0
    ensures s[p..LineEnd(s, p)] in SplitLines(s)
    decreases |s|, 0
  {
    var e := LineEnd(s, 0);
    var t := s[e + 1..];
    var q := p - (e + 1);
    LineStartAfterFirst(s, p);
    LineAt(t, q);
    SegmentShift(s, e + 1, q);
    LaterLinesIn(s, t[q..LineEnd(t, q)]);
  }

  /** A line of the text after the first line's terminator is a line of the text. */
  lemma LaterLinesIn(s: string, x: string)
    requires LineEnd(s, 0) < |s| && x in SplitLines(s[LineEnd(s, 0) + 1..])
    ensures x in SplitLines(s)
  {
    var e := LineEnd(s, 0);
    SplitLinesFirst(s);
    InCons(x, s[..e], SplitLines(s[e + 1..]));
  }

  /** A later line start lies past the first line's terminator, and is a line
      start of the text after it. */
  lemma LineStartAfterFirst(s: string, p: nat)
    requires LineStart(s, p) && p != 0
    ensures LineEnd(s, 0) < |s| && LineEnd(s, 0) + 1 <= p
    ensures LineStart(s[LineEnd(s, 0) + 1..], p - (LineEnd(s, 0) + 1))
  {
    var e := LineEnd(s, 0);
    assert IsLineTerminator(s[p - 1]);
    var t := s[e + 1..];
    if p - (e + 1) > 0 {
      assert t[p - (e + 1) - 1] == s[p - 1];
    }
  }

  /** The line of the text after `d` from `q` is the line of the text from `q + d`. */
  lemma SegmentShift(s: string, d: nat, q: nat)
    requires d + q <= |s|
    ensures s[d + q..LineEnd(s, d + q)] == s[d..][q..LineEnd(s[d..], q)]
  {
    LineEndShift(s, d, d + q);
    DropSlice(s, d, q, LineEnd(s[d..], q));
  }

  lemma DropSlice<T>(s: seq<T>, d: nat, i: nat, j: nat)
    requires d <= |s| && i <= j <= |s| - d
    ensures s[d..][i..j] == s[d + i..d + j]
  {
  }

  /** Every line of the text is the segment from some line start to the end
      of its line. */
  lemma {:induction false} LineFrom(s: string, l: string) returns (p: nat)
    requires l in SplitLines(s)
    ensures LineStart(s, p) && l == s[p..LineEnd(s, p)]
    decreases |s|, 1
  {
    var e := LineEnd(s, 0);
    LineCases(s, l);
    if l == s[..e] {
      p := 0;
      assert s[0..e] == s[..e];
    } else {
      p := LaterLineFrom(s, l);
    }
  }

  lemma {:induction false} LaterLineFrom(s: string, l: string) returns (p: nat)
    requires LineEnd(s, 0) < |s| && l in SplitLines(s[LineEnd(s, 0) + 1..])
    ensures LineStart(s, p) && l == s[p..LineEnd(s, p)]
    decreases |s|, 0
  {
    var e := LineEnd(s, 0);
    var t := s[e + 1..];
    var q := LineFrom(t, l);
    p := e + 1 + q;
    ShiftedLine(s, q, l);
  }

  /** A line of the text after the first line's terminator, found at `q`
      there, is found at `q` plus the first line and its terminator in the text. */
  lemma ShiftedLine(s: string, q: nat, l: string)
    requires LineEnd(s, 0) < |s|
    requires LineStart(s[LineEnd(s, 0) + 1..], q)
    requires l == s[LineEnd(s, 0) + 1..][q..LineEnd(s[LineEnd(s, 0) + 1..], q)]
    ensures LineStart(s, LineEnd(s, 0) + 1 + q) && l == s[LineEnd(s, 0) + 1 + q..LineEnd(s, LineEnd(s, 0) + 1 + q)]
  {
    var d := LineEnd(s, 0) + 1;
    assert LineStart(s, d + q) by {
      LineStartBeyondFirst(s, q);
    }
    assert s[d + q..LineEnd(s, d + q)] == s[d..][q..LineEnd(s[d..], q)] by {
      SegmentShift(s, d, q);
    }
  }

  /** A line of the text is its first line or a line of the text after the
      first line's terminator. */
  lemma LineCases(s: string, l: string)
    requires l in SplitLines(s)
    ensures l == s[..LineEnd(s, 0)] || (LineEnd(s, 0) < |s| && l in SplitLines(s[LineEnd(s, 0) + 1..]))
  {
    var e := LineEnd(s, 0);
    SplitLinesFirst(s);
    InCons(l, s[..e], if e < |s| then SplitLines(s[e + 1..]) else []);
  }

  /** A line start of the text after the first line's terminator is a line
      start of the text. */
  lemma LineStartBeyondFirst(s: string, q: nat)
    requires LineEnd(s, 0) < |s| && LineStart(s[LineEnd(s, 0) + 1..], q)
    ensures LineStart(s, LineEnd(s, 0) + 1 + q)
  {
    var e := LineEnd(s, 0);
    if q > 0 {
      assert s[e + 1..][q - 1] == s[q + e];
    }
  }

  /** For text without line terminators, starting at a line start is
      starting its line. */
  lemma StartsAtLine(s: string, p: nat, pre: string)
    requires LineStart(s, p) && NoTerminator(pre)
    ensures StartsWith(s[p..], pre) <==> StartsWith(s[p..LineEnd(s, p)], pre)
    ensures StartsWith(s[p..], pre) && (p + |pre| == |s| || IsLineTerminator(s[p + |pre|]))
      <==> s[p..LineEnd(s, p)] == pre
  {
    var e := LineEnd(s, p);
    if StartsWith(s[p..LineEnd(s, p)], pre) {
      assert s[p..][..|pre|] == s[p..e][..|pre|];
    }
  }

  /** `/^pre/m` holds exactly when some line of the text starts with `pre`. */
  lemma StartsLineIff(s: string, pre: string)
    requires NoTerminator(pre)
    ensures StartsLine(s, pre) <==> exists l :: l in SplitLines(s) && StartsWith(l, pre)
  {
    if StartsLine(s, pre) {
      var p :| 0 <= p <= |s| && LineStart(s, p) && StartsWith(s[p..], pre);
      StartsAtLine(s, p, pre);
      LineAt(s, p);
    }
    if exists l :: l in SplitLines(s) && StartsWith(l, pre) {
      var l :| l in SplitLines(s) && StartsWith(l, pre);
      var p := LineFrom(s, l);
      StartsAtLine(s, p, pre);
    }
  }

  /** `/^line$/m` holds exactly when `line` is one of the lines. */
  lemma IsLineOfIff(s: string, line: string)
    requires NoTerminator(line)
    ensures IsLineOf(s, line) <==> line in SplitLines(s)
  {
    if IsLineOf(s, line) {
      var p :| 0 <= p <= |s| && LineStart(s, p) && StartsWith(s[p..], line) &&
        (p + |line| == |s| || IsLineTerminator(s[p + |line|]));
      StartsAtLine(s, p, line);
      LineAt(s, p);
    }
    if line in SplitLines(s) {
      var p := LineFrom(s, line);
      StartsAtLine(s, p, line);
    }
  }

  // ---------------------------------------------------------------------------
  // check-roadmap
  // ---------------------------------------------------------------------------

  /** The exit code of `check-roadmap` on ROADMAP.md (`None` when it is
      missing): 0 for the current format, 1 otherwise, 2 without a file. */
  function CheckRoadmap(roadmap: Option<string>): (code: nat)
    ensures code <= 2 && (code == 2 <==> roadmap.None?)
  {
    if roadmap.None? then 2
    else
      var content := roadmap.value;
      if StartsLine(content, "## Milestones") && StartsLine(content, "## Current Milestone:")
        && !IsLineOf(content, "## Phases")
      then 0
      else 1
  }

  /** The roadmap passes exactly when a line starts `## Milestones`, a line
      starts `## Current Milestone:`, and no line is exactly `## Phases`. */
  lemma RoadmapByLines(content: string)
    ensures CheckRoadmap(Some(content)) == 0 <==>
      (exists l :: l in SplitLines(content) && StartsWith(l, "## Milestones")) &&
      (exists l :: l in SplitLines(content) && StartsWith(l, "## Current Milestone:")) &&
      "## Phases" !in SplitLines(content)
  {
    assert NoTerminator("## Milestones");
    assert NoTerminator("## Current Milestone:");
    assert NoTerminator("## Phases");
    StartsLineIff(content, "## Milestones");
    StartsLineIff(content, "## Current Milestone:");
    IsLineOfIff(content, "## Phases");
  }

  // ---------------------------------------------------------------------------
  // checkFieldPresence
  // ---------------------------------------------------------------------------

  /** The first `\n---` at or after `j`. */
  function CloseAt(s: string, j: nat): (r: Option<nat>)
    requires j <= |s|
    ensures r.Some? ==> j <= r.value <= |s| && StartsWith(s[r.value..], "\n---")
    ensures forall m :: j <= m <= |s| && (r.None? || m < r.value) ==> !StartsWith(s[m..], "\n---")
    decreases |s| - j
  {
    if StartsWith(s[j..], "\n---") then Some(j)
    else if j == |s| then None
    else CloseAt(s, j + 1)
  }

  /** `content.replace(/^---\n[\s\S]*?\n---\n?/, '')`: a leading block
      between `---` lines is removed up to the first closing `\n---`, with
      one line break after it. */
  function StripFrontmatter(content: string): (body: string)
    ensures body == content || (StartsWith(content, "---\n") && EndsWith(content, body))
    ensures !StartsWith(content, "---\n") || CloseAt(content, 4).None? ==> body == content
    ensures StartsWith(content, "---\n") && CloseAt(content, 4).Some? ==>
      var j := CloseAt(content, 4).value;
      j + 4 <= |content| && content[j..j + 4] == "\n---" &&
      if j + 4 < |content| && content[j + 4] == '\n' then content == content[..j + 5] + body
      else content == content[..j + 4] + body
  {
    if !StartsWith(content, "---\n") then content
    else
      match CloseAt(content, 4)
      case None => content
      case Some(j) =>
        var k := j + 4;
        var body := if k < |content| && content[k] == '\n' then content[k + 1..] else content[k..];
        assert content[|content| - |body|..] == body;
        body
  }

  /** `/^<field>\s*:/m` for the escaped, hence literal, field name. */
  predicate FieldPresent(body: string, field: string) {
    exists p :: 0 <= p <= |body| && LineStart(body, p) && StartsWith(body[p..], field) &&
      var k := SpaceRunEnd(body, p + |field|); k < |body| && body[k] == ':'
  }

  /** `x` matches at `r`, ignoring the case of ASCII letters. */
  predicate FoldedAt(body: string, r: nat, x: string) {
    r + |x| <= |body| && Lower(body[r..r + |x|]) == Lower(x)
  }

  /** The end of the run of `#` from `p`. */
  function HashRunEnd(s: string, p: nat): (k: nat)
    requires p <= |s|
    ensures p <= k <= |s| && (forall i :: p <= i < k ==> s[i] == '#') && (k < |s| ==> s[k] != '#')
    decreases |s| - p
  {
    if p < |s| && s[p] == '#' then HashRunEnd(s, p + 1) else p
  }

  /** `/^#+\s+<section>/mi`: a line of `#`s, white space, then the section. */
  predicate HeadingPresent(body: string, section: string) {
    exists p :: 0 <= p <= |body| && LineStart(body, p) &&
      var q := HashRunEnd(body, p);
      q > p && exists r :: q < r <= SpaceRunEnd(body, q) && FoldedAt(body, r, section)
  }

  /** `/<section[>\s]/i`: the section as a tag name. */
  predicate TagPresent(body: string, section: string) {
    exists p :: 0 <= p < |body| && body[p] == '<' && FoldedAt(body, p + 1, section) &&
      var k := p + 1 + |section|; k < |body| && (body[k] == '>' || IsSpace(body[k]))
  }

  /** A body section is present as a heading, as a tag, or anywhere as text. */
  predicate SectionPresent(body: string, section: string) {
    HeadingPresent(body, section) || TagPresent(body, section) || Contains(body, section)
  }

  function FieldMissing(body: string): string -> bool {
    f => !FieldPresent(body, f)
  }

  function SectionMissing(body: string): string -> bool {
    x => !SectionPresent(body, x)
  }

  /** What `checkFieldPresence` reports: the missing frontmatter fields, then
      the missing body sections, each in the order they are required. */
  function MissingOf(content: string, frontmatter: seq<string>, sections: seq<string>): seq<string> {
    var body := StripFrontmatter(content);
    Filter(FieldMissing(body), frontmatter) + Filter(SectionMissing(body), sections)
  }

  /** `checkFieldPresence(content, {frontmatter, body})` */
  method CheckFieldPresence(content: string, frontmatter: seq<string>, sections: seq<string>)
    returns (missing: seq<string>)
    ensures missing == MissingOf(content, frontmatter, sections)
  {
    var body := StripFrontmatter(content);
    var fieldMissing := FieldMissing(body);
    var sectionMissing := SectionMissing(body);
    missing := [];
    for i := 0 to |frontmatter|
      invariant missing == Filter(fieldMissing, frontmatter[..i])
    {
      FilterSnoc(fieldMissing, frontmatter, i);
      if fieldMissing(frontmatter[i]) {
        missing := missing + [frontmatter[i]];
      }
    }
    TakeAll(frontmatter);
    var fields := missing;
    for i := 0 to |sections|
      invariant missing == fields + Filter(sectionMissing, sections[..i])
    {
      FilterSnoc(sectionMissing, sections, i);
      if sectionMissing(sections[i]) {
        missing := missing + [sections[i]];
      }
    }
    TakeAll(sections);
  }

  /** `a` is `b` with some elements left out, the rest in order. */
  ghost predicate SubList(a: seq<string>, b: seq<string>) {
    exists idx: seq<nat> :: |idx| == |a| &&
      (forall i :: 0 <= i < |idx| ==> idx[i] < |b| && a[i] == b[idx[i]]) &&
      (forall i, j :: 0 <= i < j < |idx| ==> idx[i] < idx[j])
  }

  lemma {:induction false} FilterSubList(keep: string -> bool, xs: seq<string>) returns (idx: seq<nat>)
    ensures |idx| == |Filter(keep, xs)|
    ensures forall i :: 0 <= i < |idx| ==> idx[i] < |xs| && Filter(keep, xs)[i] == xs[idx[i]]
    ensures forall i, j :: 0 <= i < j < |idx| ==> idx[i] < idx[j]
    decreases |xs|
  {
    if xs == [] {
      idx := [];
    } else {
      var n := |xs| - 1;
      var init := xs[..n];
      var head := FilterSubList(keep, init);
      var f := Filter(keep, init);
      assert Filter(keep, xs) == f + (if keep(xs[n]) then [xs[n]] else []);
      if keep(xs[n]) {
        idx := head + [n];
        forall i | 0 <= i < |idx| ensures idx[i] < |xs| && Filter(keep, xs)[i] == xs[idx[i]] {
          if i < |head| {
            assert idx[i] == head[i] && Filter(keep, xs)[i] == f[i] && init[head[i]] == xs[head[i]];
          }
        }
      } else {
        idx := head;
        forall i | 0 <= i < |idx| ensures idx[i] < |xs| && Filter(keep, xs)[i] == xs[idx[i]] {
          assert Filter(keep, xs)[i] == f[i] && init[head[i]] == xs[head[i]];
        }
      }
    }
  }

  /** The report names exactly the required fields and sections that are
      absent, and keeps the order of both lists. */
  lemma MissingMembers(content: string, frontmatter: seq<string>, sections: seq<string>)
    ensures var body := StripFrontmatter(content);
      var m := MissingOf(content, frontmatter, sections);
      exists k :: 0 <= k <= |m| &&
        SubList(m[..k], frontmatter) && SubList(m[k..], sections) &&
        (forall f :: f in m[..k] <==> f in frontmatter && !FieldPresent(body, f)) &&
        (forall x :: x in m[k..] <==> x in sections && !SectionPresent(body, x))
  {
    var body := StripFrontmatter(content);
    var a := Filter(FieldMissing(body), frontmatter);
    var b := Filter(SectionMissing(body), sections);
    var m := a + b;
    assert m[..|a|] == a && m[|a|..] == b;
    var ia := FilterSubList(FieldMissing(body), frontmatter);
    var ib := FilterSubList(SectionMissing(body), sections);
    assert SubList(a, frontmatter);
    assert SubList(b, sections);
    forall f ensures f in a <==> f in frontmatter && !FieldPresent(body, f) {
      FilterMembers(FieldMissing(body), frontmatter, f);
    }
    forall x ensures x in b <==> x in sections && !SectionPresent(body, x) {
      FilterMembers(SectionMissing(body), sections, x);
    }
    assert m == MissingOf(content, frontmatter, sections);
    assert SubList(m[..|a|], frontmatter) && SubList(m[|a|..], sections);
  }

}
