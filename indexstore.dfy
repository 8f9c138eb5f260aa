/**
 * The scanner's file index: the record built for one file, the incremental
 * merge of freshly scanned records into an earlier index, and the statistics
 * stored beside the files in `index.json`.
 */
module IndexStore {
  import opened Strings
  import opened Dicts
  import opened Paths
  import opened Classify
  import opened Extract
  import opened Exports

  /** One entry of the index's `files` object, as `scanFile` builds it. */
  datatype FileRecord = FileRecord(
    exports: seq<string>,
    imports: Imports,
    fileType: FileType,
    layer: Layer,
    lastIndexed: string,
    indexedAt: string)

  /** The index's `files` object: paths to records, in insertion order. */
  type FileIndex = Dict<string, FileRecord>

  // ---------------------------------------------------------------------------
  // scanFile
  // ---------------------------------------------------------------------------

  /** `scanFile`: `source` is the file's text, or `None` when it cannot be
      read. Unreadable, generated and unsupported files give no record. */
  method ScanFile(filePath: string, source: Option<string>, commitHash: string, now: string, scan: Scanner)
    returns (r: Option<FileRecord>)
    ensures r.None? <==>
      source.None? || IsGeneratedFile(filePath, source.value) || GetLanguage(filePath).None?
    ensures r.Some? ==>
      r.value.fileType == ClassifyType(filePath) && r.value.layer == ClassifyLayer(filePath) &&
      r.value.lastIndexed == commitHash && r.value.indexedAt == now &&
      StrictlySorted(r.value.exports) && Normalized(r.value.imports)
    ensures r.Some? ==>
      r.value.exports == ExportsOf(source.value, GetLanguage(filePath).value, scan) &&
      r.value.imports == ImportsOf(source.value, GetLanguage(filePath).value, scan)
  {
    if source.None? {
      return None;
    }
    if IsGeneratedFile(filePath, source.value) {
      return None;
    }
    var lang := GetLanguage(filePath);
    if lang.None? {
      return None;
    }
    var imports := ExtractImports(source.value, lang, scan);
    var exports := ExtractExports(source.value, lang, scan);
    r := Some(FileRecord(exports, imports, ClassifyType(filePath), ClassifyLayer(filePath), commitHash, now));
  }

  // ---------------------------------------------------------------------------
  // mergeIndex
  // ---------------------------------------------------------------------------

  /** `delete merged[f]` for every deleted path, in order. */
  function RemoveAll<V>(d: Dict<string, V>, deleted: seq<string>): (r: Dict<string, V>)
    requires Valid(d)
    ensures Valid(r)
  {
    if deleted == [] then d
    else Remove(RemoveAll(d, deleted[..|deleted| - 1]), deleted[|deleted| - 1])
  }

  lemma {:induction false} RemoveAllEntries<V>(d: Dict<string, V>, deleted: seq<string>, k: string)
    requires Valid(d)
    ensures k in RemoveAll(d, deleted).vals <==> k in d.vals && k !in deleted
    ensures k in RemoveAll(d, deleted).vals ==> RemoveAll(d, deleted).vals[k] == d.vals[k]
    decreases |deleted|
  {
    if deleted != [] {
      RemoveAllEntries(d, deleted[..|deleted| - 1], k);
      InitLast(deleted);
    }
  }

  /** `merged[k] = vals[k]` for every key of `keys`, in order. */
  function PutAll<K(==), V>(d: Dict<K, V>, keys: seq<K>, vals: map<K, V>): (r: Dict<K, V>)
    requires Valid(d)
    requires forall i :: 0 <= i < |keys| ==> keys[i] in vals
    ensures Valid(r)
  {
    if keys == [] then d
    else
      var k := keys[|keys| - 1];
      Put(PutAll(d, keys[..|keys| - 1], vals), k, vals[k])
  }

  lemma {:induction false} PutAllEntries<K, V>(d: Dict<K, V>, keys: seq<K>, vals: map<K, V>, k: K)
    requires Valid(d)
    requires forall i :: 0 <= i < |keys| ==> keys[i] in vals
    ensures k in PutAll(d, keys, vals).vals <==> k in d.vals || k in keys
    ensures k in keys ==> PutAll(d, keys, vals).vals[k] == vals[k]
    ensures k in d.vals && k !in keys ==> PutAll(d, keys, vals).vals[k] == d.vals[k]
    decreases |keys|
  {
    if keys != [] {
      PutAllEntries(d, keys[..|keys| - 1], vals, k);
      InitLast(keys);
    }
  }

  /** What `mergeIndex` returns: the earlier entries (none when the earlier
      index has no `files`), minus the deleted paths, then every scanned entry. */
  function Merge<V>(existing: Option<Dict<string, V>>, scanned: Dict<string, V>, deleted: seq<string>): (r: Dict<string, V>)
    requires existing.Some? ==> Valid(existing.value)
    requires Valid(scanned)
    ensures Valid(r)
  {
    var base := if existing.Some? then existing.value else Empty();
    PutAll(RemoveAll(base, deleted), scanned.keys, scanned.vals)
  }

  /** The merged keys are the earlier keys minus the deleted ones, plus the
      scanned ones; a scanned entry wins even when its path was also deleted;
      every other surviving entry is the earlier one, unchanged. */
  lemma MergeEntries<V>(existing: Option<Dict<string, V>>, scanned: Dict<string, V>, deleted: seq<string>, k: string)
    requires existing.Some? ==> Valid(existing.value)
    requires Valid(scanned)
    ensures var r := Merge(existing, scanned, deleted);
      (k in r.vals <==> (existing.Some? && k in existing.value.vals && k !in deleted) || k in scanned.vals) &&
      (k in scanned.vals ==> r.vals[k] == scanned.vals[k]) &&
      (k in r.vals && k !in scanned.vals ==> existing.Some? && r.vals[k] == existing.value.vals[k])
  {
    var base := if existing.Some? then existing.value else Empty();
    RemoveAllEntries(base, deleted, k);
    PutAllEntries(RemoveAll(base, deleted), scanned.keys, scanned.vals, k);
  }

  /** The copy loop: `merged[k] = v` for every entry of `src`. */
  method CopyEntries<V>(src: Dict<string, V>) returns (d: Dict<string, V>)
    requires Valid(src)
    ensures d == src
  {
    d := PutEach(Empty(), src);
    PutAllCopies(src);
  }

  /** The deletion loop. */
  method RemoveEach<V>(d0: Dict<string, V>, deleted: seq<string>) returns (d: Dict<string, V>)
    requires Valid(d0)
    ensures d == RemoveAll(d0, deleted)
  {
    d := d0;
    for i := 0 to |deleted|
      invariant d == RemoveAll(d0, deleted[..i])
    {
      RemoveAllStep(d0, deleted, i);
      d := Remove(d, deleted[i]);
    }
    TakeAll(deleted);
  }

  lemma RemoveAllStep<V>(d0: Dict<string, V>, deleted: seq<string>, i: nat)
    requires Valid(d0) && i < |deleted|
    ensures RemoveAll(d0, deleted[..i + 1]) == Remove(RemoveAll(d0, deleted[..i]), deleted[i])
  {
    assert deleted[..i + 1][..i] == deleted[..i];
  }

  /** The overwrite loop, and the copy loop with an empty start. */
  method PutEach<V>(d0: Dict<string, V>, src: Dict<string, V>) returns (d: Dict<string, V>)
    requires Valid(d0) && Valid(src)
    ensures d == PutAll(d0, src.keys, src.vals)
  {
    d := d0;
    for i := 0 to |src.keys|
      invariant d == PutAll(d0, src.keys[..i], src.vals)
    {
      PutAllStep(d0, src, i);
      d := Put(d, src.keys[i], src.vals[src.keys[i]]);
    }
    TakeAll(src.keys);
  }

  lemma PutAllStep<V>(d0: Dict<string, V>, src: Dict<string, V>, i: nat)
    requires Valid(d0) && Valid(src) && i < |src.keys|
    ensures PutAll(d0, src.keys[..i + 1], src.vals) ==
            Put(PutAll(d0, src.keys[..i], src.vals), src.keys[i], src.vals[src.keys[i]])
  {
    assert src.keys[..i + 1][..i] == src.keys[..i];
  }

  /** `mergeIndex`: copy, delete, then overwrite. */
  method MergeIndex<V>(existing: Option<Dict<string, V>>, scanned: Dict<string, V>, deleted: seq<string>)
    returns (merged: Dict<string, V>)
    requires existing.Some? ==> Valid(existing.value)
    requires Valid(scanned)
    ensures merged == Merge(existing, scanned, deleted)
  {
    merged := Empty();
    if existing.Some? {
      merged := CopyEntries(existing.value);
    }
    merged := RemoveEach(merged, deleted);
    merged := PutEach(merged, scanned);
  }

  /** Copying every entry of a dictionary into an empty one rebuilds it,
      key order included. */
  lemma PutAllCopies<K, V>(d: Dict<K, V>)
    requires Valid(d)
    ensures PutAll(Empty(), d.keys, d.vals) == d
  {
    var r := PutAll(Empty(), d.keys, d.vals);
    PutAllKeys(d.keys, d.vals);
    forall k ensures (k in r.vals <==> k in d.vals) && (k in r.vals ==> r.vals[k] == d.vals[k]) {
      PutAllEntries(Empty(), d.keys, d.vals, k);
    }
    SameEntries(r, d);
  }

  /** Putting distinct keys into an empty dictionary lists them in order. */
  lemma {:induction false} PutAllKeys<K, V>(keys: seq<K>, vals: map<K, V>)
    requires NoDup(keys)
    requires forall i :: 0 <= i < |keys| ==> keys[i] in vals
    ensures PutAll(Empty(), keys, vals).keys == keys
    decreases |keys|
  {
    if keys != [] {
      var init, last := keys[..|keys| - 1], keys[|keys| - 1];
      assert NoDup(init) && last !in init && forall i :: 0 <= i < |init| ==> init[i] in vals by {
        NoDupInit(keys);
        assert forall i :: 0 <= i < |init| ==> init[i] == keys[i];
      }
      PutAllKeys(init, vals);
      var before := PutAll(Empty(), init, vals);
      assert last !in before.vals by {
        PutAllEntries(Empty(), init, vals, last);
      }
      InitLast(keys);
    }
  }

  /** Merging the result again with the same scanned entries and deleted
      paths gives the same entries. */
  lemma MergeValuesIdempotent<V>(existing: Option<Dict<string, V>>, scanned: Dict<string, V>, deleted: seq<string>)
    requires existing.Some? ==> Valid(existing.value)
    requires Valid(scanned)
    ensures Merge(Some(Merge(existing, scanned, deleted)), scanned, deleted).vals ==
            Merge(existing, scanned, deleted).vals
  {
    var once := Merge(existing, scanned, deleted);
    var twice := Merge(Some(once), scanned, deleted);
    forall k ensures k in twice.vals <==> k in once.vals {
      MergeEntries(existing, scanned, deleted, k);
      MergeEntries(Some(once), scanned, deleted, k);
    }
    forall k | k in twice.vals ensures twice.vals[k] == once.vals[k] {
      MergeEntries(existing, scanned, deleted, k);
      MergeEntries(Some(once), scanned, deleted, k);
    }
  }

  lemma MergeOnceKeys()
    ensures Merge(None, Dict(["a", "b"], map["a" := 0, "b" := 0]), ["a"]).keys == ["a", "b"]
  {
    var scanned := Dict(["a", "b"], map["a" := 0, "b" := 0]);
    assert RemoveAll(Empty<string, int>(), ["a"]) == Empty() by {
      assert ["a"][..0] == [];
    }
    PutAllKeys(scanned.keys, scanned.vals);
  }

  lemma MergeTwiceKeys()
    ensures Merge(Some(Dict(["a", "b"], map["a" := 0, "b" := 0])),
                  Dict(["a", "b"], map["a" := 0, "b" := 0]), ["a"]).keys == ["b", "a"]
  {
    var d := Dict(["a", "b"], map["a" := 0, "b" := 0]);
    assert ["a"][..0] == [];
    var removed := RemoveAll(d, ["a"]);
    assert removed == Dict(["b"], map["b" := 0]);
    assert ["a", "b"][..1] == ["a"];
    var r1 := PutAll(removed, ["a"], d.vals);
    assert r1.keys == ["b", "a"];
  }

  /** The key order is not idempotent: a path that is both scanned and
      deleted moves behind the other scanned paths on a second merge. */
  lemma MergeOrderNotIdempotent()
    ensures var scanned := Dict(["a", "b"], map["a" := 0, "b" := 0]);
      var once := Merge(None, scanned, ["a"]);
      var twice := Merge(Some(once), scanned, ["a"]);
      once.keys == ["a", "b"] && twice.keys == ["b", "a"]
  {
    var scanned := Dict(["a", "b"], map["a" := 0, "b" := 0]);
    MergeOnceKeys();
    var once := Merge(None, scanned, ["a"]);
    MergeEntries(None, scanned, ["a"], "a");
    MergeEntries(None, scanned, ["a"], "b");
    forall k ensures k in once.vals <==> k in scanned.vals {
      MergeEntries(None, scanned, ["a"], k);
    }
    assert once.vals == scanned.vals;
    assert once == scanned;
    MergeTwiceKeys();
  }

  // ---------------------------------------------------------------------------
  // computeStats
  // ---------------------------------------------------------------------------

  datatype Stats = Stats(
    totalFiles: nat,
    byType: Dict<FileType, nat>,
    byLayer: Dict<Layer, nat>,
    byExtension: Dict<string, nat>)

  /** The types of the records of `paths`, in order. */
  function TypesOf(index: FileIndex, paths: seq<string>): (r: seq<FileType>)
    requires forall i :: 0 <= i < |paths| ==> paths[i] in index.vals
    ensures |r| == |paths|
  {
    if paths == [] then []
    else TypesOf(index, paths[..|paths| - 1]) + [index.vals[paths[|paths| - 1]].fileType]
  }

  function LayersOf(index: FileIndex, paths: seq<string>): (r: seq<Layer>)
    requires forall i :: 0 <= i < |paths| ==> paths[i] in index.vals
    ensures |r| == |paths|
  {
    if paths == [] then []
    else LayersOf(index, paths[..|paths| - 1]) + [index.vals[paths[|paths| - 1]].layer]
  }

  /** The non-empty `path.extname` of each path, in order. */
  function ExtensionsOf(paths: seq<string>): seq<string> {
    if paths == [] then []
    else
      var e := Extname(paths[|paths| - 1]);
      ExtensionsOf(paths[..|paths| - 1]) + (if e != "" then [e] else [])
  }

  /** The statistics `computeStats` derives from an index. */
  function StatsOf(index: FileIndex): Stats
    requires Valid(index)
  {
    Stats(|index.keys|, Tally(TypesOf(index, index.keys)), Tally(LayersOf(index, index.keys)),
          Tally(ExtensionsOf(index.keys)))
  }

  /** One more path extends the type and layer lists by that path's entry. */
  lemma TypesSnoc(index: FileIndex, paths: seq<string>, i: nat)
    requires i < |paths|
    requires forall j :: 0 <= j < |paths| ==> paths[j] in index.vals
    ensures TypesOf(index, paths[..i + 1]) == TypesOf(index, paths[..i]) + [index.vals[paths[i]].fileType]
  {
    assert paths[..i + 1][..i] == paths[..i];
  }

  lemma LayersSnoc(index: FileIndex, paths: seq<string>, i: nat)
    requires i < |paths|
    requires forall j :: 0 <= j < |paths| ==> paths[j] in index.vals
    ensures LayersOf(index, paths[..i + 1]) == LayersOf(index, paths[..i]) + [index.vals[paths[i]].layer]
  {
    assert paths[..i + 1][..i] == paths[..i];
  }

  /** `counter[x] = (counter[x] || 0) + 1` on a counter that tallies `xs`. */
  method Bump<K>(counter: Dict<K, nat>, ghost xs: seq<K>, x: K) returns (r: Dict<K, nat>)
    requires counter == Tally(xs)
    ensures r == Tally(xs + [x])
  {
    TallySnoc(xs, x);
    r := Inc(counter, x);
  }

  lemma ExtensionsSnoc(paths: seq<string>, i: nat)
    requires i < |paths|
    ensures ExtensionsOf(paths[..i + 1]) ==
      ExtensionsOf(paths[..i]) + (if Extname(paths[i]) != "" then [Extname(paths[i])] else [])
  {
    assert paths[..i + 1][..i] == paths[..i];
  }

  /** `if (ext) byExtension[ext] = (byExtension[ext] || 0) + 1` for the
      `i`-th path. */
  method CountExtension(counter: Dict<string, nat>, paths: seq<string>, i: nat) returns (r: Dict<string, nat>)
    requires i < |paths|
    requires counter == Tally(ExtensionsOf(paths[..i]))
    ensures r == Tally(ExtensionsOf(paths[..i + 1]))
  {
    ExtensionsSnoc(paths, i);
    ghost var before := ExtensionsOf(paths[..i]);
    ghost var after := ExtensionsOf(paths[..i + 1]);
    var ext := Extname(paths[i]);
    if ext != "" {
      assert after == before + [ext];
      r := Bump(counter, before, ext);
    } else {
      assert after == before + [];
      assert after == before;
      r := counter;
    }
  }

  /** The counters after the first `i` paths of the index. */
  ghost predicate CountsUpTo(index: FileIndex, i: nat, byType: Dict<FileType, nat>,
                             byLayer: Dict<Layer, nat>, byExtension: Dict<string, nat>)
    requires Valid(index) && i <= |index.keys|
  {
    byType == Tally(TypesOf(index, index.keys[..i])) &&
    byLayer == Tally(LayersOf(index, index.keys[..i])) &&
    byExtension == Tally(ExtensionsOf(index.keys[..i]))
  }

  /** `byType[entry.type] = (byType[entry.type] || 0) + 1` for the `i`-th path. */
  method CountType(counter: Dict<FileType, nat>, index: FileIndex, i: nat) returns (r: Dict<FileType, nat>)
    requires Valid(index) && i < |index.keys|
    requires counter == Tally(TypesOf(index, index.keys[..i]))
    ensures r == Tally(TypesOf(index, index.keys[..i + 1]))
  {
    TypesSnoc(index, index.keys, i);
    ghost var before := TypesOf(index, index.keys[..i]);
    var t := index.vals[index.keys[i]].fileType;
    assert TypesOf(index, index.keys[..i + 1]) == before + [t];
    r := Bump(counter, before, t);
  }

  /** `byLayer[entry.layer] = (byLayer[entry.layer] || 0) + 1` for the `i`-th path. */
  method CountLayer(counter: Dict<Layer, nat>, index: FileIndex, i: nat) returns (r: Dict<Layer, nat>)
    requires Valid(index) && i < |index.keys|
    requires counter == Tally(LayersOf(index, index.keys[..i]))
    ensures r == Tally(LayersOf(index, index.keys[..i + 1]))
  {
    LayersSnoc(index, index.keys, i);
    ghost var before := LayersOf(index, index.keys[..i]);
    var l := index.vals[index.keys[i]].layer;
    assert LayersOf(index, index.keys[..i + 1]) == before + [l];
    r := Bump(counter, before, l);
  }

  /** One iteration of the `computeStats` loop. */
  method CountEntry(index: FileIndex, i: nat, byType: Dict<FileType, nat>,
                    byLayer: Dict<Layer, nat>, byExtension: Dict<string, nat>)
    returns (byType': Dict<FileType, nat>, byLayer': Dict<Layer, nat>, byExtension': Dict<string, nat>)
    requires Valid(index) && i < |index.keys|
    requires CountsUpTo(index, i, byType, byLayer, byExtension)
    ensures CountsUpTo(index, i + 1, byType', byLayer', byExtension')
  {
    byType' := CountType(byType, index, i);
    byLayer' := CountLayer(byLayer, index, i);
    byExtension' := CountExtension(byExtension, index.keys, i);
  }

  /** `computeStats` */
  method ComputeStats(index: FileIndex) returns (stats: Stats)
    requires Valid(index)
    ensures stats == StatsOf(index)
  {
    var byType, byLayer, byExtension := Empty(), Empty(), Empty();
    CountsStart(index);
    for i := 0 to |index.keys|
      invariant CountsUpTo(index, i, byType, byLayer, byExtension)
    {
      byType, byLayer, byExtension := CountEntry(index, i, byType, byLayer, byExtension);
    }
    stats := Stats(|index.keys|, byType, byLayer, byExtension);
    CountsEnd(index, byType, byLayer, byExtension);
  }

  lemma CountsStart(index: FileIndex)
    requires Valid(index)
    ensures CountsUpTo(index, 0, Empty(), Empty(), Empty())
  {
    assert index.keys[..0] == [];
  }

  lemma CountsEnd(index: FileIndex, byType: Dict<FileType, nat>, byLayer: Dict<Layer, nat>,
                  byExtension: Dict<string, nat>)
    requires Valid(index)
    requires CountsUpTo(index, |index.keys|, byType, byLayer, byExtension)
    ensures Stats(|index.keys|, byType, byLayer, byExtension) == StatsOf(index)
  {
    TakeAll(index.keys);
  }

  /** The type and layer counts each add up to the number of files, and the
      extension counts to the number of paths with an extension. */
  lemma StatsTotals(index: FileIndex)
    requires Valid(index)
    ensures var s := StatsOf(index);
      Total(s.byType) == s.totalFiles && Total(s.byLayer) == s.totalFiles &&
      Total(s.byExtension) == |ExtensionsOf(index.keys)| <= s.totalFiles
  {
    TallyTotal(TypesOf(index, index.keys));
    TallyTotal(LayersOf(index, index.keys));
    TallyTotal(ExtensionsOf(index.keys));
    ExtensionsAtMostPaths(index.keys);
  }

  lemma {:induction false} ExtensionsAtMostPaths(paths: seq<string>)
    ensures |ExtensionsOf(paths)| <= |paths|
    decreases |paths|
  {
    if paths != [] {
      ExtensionsAtMostPaths(paths[..|paths| - 1]);
    }
  }

  /** An empty index has zero files and empty counters. */
  lemma EmptyStats()
    ensures StatsOf(Empty()) == Stats(0, Empty(), Empty(), Empty())
  {
  }

  // ---------------------------------------------------------------------------
  // index.json
  // ---------------------------------------------------------------------------

  datatype IndexJson = IndexJson(
    version: nat,
    generated: string,
    source: string,
    generatedBy: string,
    commitHash: string,
    files: FileIndex,
    stats: Stats)

  /** The index object the scanner writes: version 2, produced by the code
      scan, with the statistics of exactly the files it holds. */
  method BuildIndex(files: FileIndex, commitHash: string, now: string) returns (r: IndexJson)
    requires Valid(files)
    ensures r.files == files && r.stats == StatsOf(files)
    ensures r.version == 2 && r.source == "code-scan" && r.generatedBy == "scan-codebase"
    ensures r.commitHash == commitHash && r.generated == now
  {
    var stats := ComputeStats(files);
    r := IndexJson(2, now, "code-scan", "scan-codebase", commitHash, files, stats);
  }
}
