/** JavaScript plain objects used as dictionaries. Besides the key/value map,
    a `Dict` remembers the order in which keys were first inserted, which is the
    order `Object.entries` and `Object.keys` report them in; the scripts break
    ties and choose group order by that order. Counters (`counts[k] =
    (counts[k] || 0) + 1`) are dictionaries of natural numbers. */
module Dicts {
  import opened Strings

  datatype Dict<K(==), V> = Dict(keys: seq<K>, vals: map<K, V>)

  /** The keys are listed once each, and exactly the keys of the map are listed. */
  ghost predicate Valid<K, V>(d: Dict<K, V>) {
    NoDup(d.keys) &&
    (forall i :: 0 <= i < |d.keys| ==> d.keys[i] in d.vals) &&
    (forall k :: k in d.vals ==> k in d.keys)
  }

  function Empty<K(==), V>(): (d: Dict<K, V>)
    ensures Valid(d) && d.vals == map[]
  {
    Dict([], map[])
  }

  /** `d[k] || dflt` for the values used here (none of which is falsy). */
  function Get<K(==), V>(d: Dict<K, V>, k: K, dflt: V): V {
    if k in d.vals then d.vals[k] else dflt
  }

  /** `d[k] = v`: a new key goes to the end, an existing key keeps its place. */
  function Put<K(==), V>(d: Dict<K, V>, k: K, v: V): (r: Dict<K, V>)
    requires Valid(d)
    ensures Valid(r)
    ensures r.vals == d.vals[k := v]
    ensures k in d.vals ==> r.keys == d.keys
    ensures k !in d.vals ==> r.keys == d.keys + [k]
  {
    if k in d.vals then Dict(d.keys, d.vals[k := v])
    else
      var r := Dict(d.keys + [k], d.vals[k := v]);
      assert forall i :: 0 <= i < |d.keys| ==> d.keys[i] != k;
      r
  }

  /** Two dictionaries with the same key order and the same entries are equal. */
  lemma SameEntries<K, V>(a: Dict<K, V>, b: Dict<K, V>)
    requires a.keys == b.keys
    requires forall k :: (k in a.vals <==> k in b.vals) && (k in a.vals ==> a.vals[k] == b.vals[k])
    ensures a == b
  {
    assert a.vals == b.vals;
  }

  /** Assigning a key twice leaves the second value, in the first one's place. */
  lemma PutTwice<K, V>(d: Dict<K, V>, k: K, v: V, w: V)
    requires Valid(d)
    ensures Put(Put(d, k, v), k, w) == Put(d, k, w)
  {
  }

  /** The list `s` without the element `k`. */
  function Without<K(==)>(s: seq<K>, k: K): (r: seq<K>)
    ensures k !in r
    ensures forall i :: 0 <= i < |r| ==> r[i] in s && r[i] != k
    ensures forall i :: 0 <= i < |s| && s[i] != k ==> s[i] in r
    ensures NoDup(s) ==> NoDup(r)
  {
    if s == [] then []
    else if s[0] == k then Without(s[1..], k)
    else
      var t := Without(s[1..], k);
      assert NoDup(s) ==> s[0] !in s[1..];
      [s[0]] + t
  }

  /** `delete d[k]`: the other keys keep their order. */
  function Remove<K(==), V>(d: Dict<K, V>, k: K): (r: Dict<K, V>)
    requires Valid(d)
    ensures Valid(r)
    ensures r.vals == d.vals - {k}
    ensures r.keys == Without(d.keys, k)
  {
    Dict(Without(d.keys, k), d.vals - {k})
  }

  // ---------------------------------------------------------------------------
  // Counters
  // ---------------------------------------------------------------------------

  /** `d[k] = (d[k] || 0) + 1` */
  function Inc<K(==)>(d: Dict<K, nat>, k: K): (r: Dict<K, nat>)
    requires Valid(d)
    ensures Valid(r)
  {
    Put(d, k, Get(d, k, 0) + 1)
  }

  /** The counter obtained by incrementing once per element of `xs`, in order. */
  function Tally<K(==)>(xs: seq<K>): (d: Dict<K, nat>)
    ensures Valid(d)
    ensures |xs| > 0 ==> |d.keys| > 0
  {
    if xs == [] then Empty() else Inc(Tally(xs[..|xs| - 1]), xs[|xs| - 1])
  }

  lemma TallySnoc<K>(xs: seq<K>, x: K)
    ensures Tally(xs + [x]) == Inc(Tally(xs), x)
  {
    assert (xs + [x])[..|xs|] == xs;
  }

  function SumOver<K(==)>(keys: seq<K>, vals: map<K, nat>): nat
    requires forall i :: 0 <= i < |keys| ==> keys[i] in vals
  {
    if keys == [] then 0 else vals[keys[0]] + SumOver(keys[1..], vals)
  }

  /** The sum of all counts. */
  function Total<K(==)>(d: Dict<K, nat>): nat
    requires Valid(d)
  {
    SumOver(d.keys, d.vals)
  }

  /** Each count of a tally is the number of occurrences of its key, and a key is
      present exactly when it occurs. */
  lemma {:induction false} TallyCounts<K>(xs: seq<K>, k: K)
    ensures Get(Tally(xs), k, 0) == multiset(xs)[k]
    ensures k in Tally(xs).vals <==> k in xs
    decreases |xs|
  {
    if xs != [] {
      var init := xs[..|xs| - 1];
      InitLast(xs);
      TallyCounts(init, k);
    }
  }

  /** The keys of a tally are the distinct elements in order of first occurrence. */
  lemma {:induction false} TallyKeys<K>(xs: seq<K>)
    ensures Tally(xs).keys == Unique(xs)
    decreases |xs|
  {
    if xs != [] {
      var init := xs[..|xs| - 1];
      var x := xs[|xs| - 1];
      TallyKeys(init);
      TallyCounts(init, x);
      UniqueMembers(init, x);
      assert Tally(xs) == Inc(Tally(init), x);
      assert Unique(xs) == if x in Unique(init) then Unique(init) else Unique(init) + [x];
    }
  }

  lemma {:induction false} SumOverFrame<K>(keys: seq<K>, vals: map<K, nat>, k: K, v: nat)
    requires forall i :: 0 <= i < |keys| ==> keys[i] in vals
    requires k !in keys
    ensures SumOver(keys, vals[k := v]) == SumOver(keys, vals)
  {
    if keys != [] {
      SumOverFrame(keys[1..], vals, k, v);
    }
  }

  lemma {:induction false} SumOverAppend<K>(keys: seq<K>, vals: map<K, nat>, k: K)
    requires forall i :: 0 <= i < |keys| ==> keys[i] in vals
    requires k in vals
    ensures SumOver(keys + [k], vals) == SumOver(keys, vals) + vals[k]
  {
    if keys == [] {
      assert keys + [k] == [k];
    } else {
      assert (keys + [k])[1..] == keys[1..] + [k];
      SumOverAppend(keys[1..], vals, k);
    }
  }

  lemma {:induction false} SumOverUpdate<K>(keys: seq<K>, vals: map<K, nat>, k: K, v: nat)
    requires forall i :: 0 <= i < |keys| ==> keys[i] in vals
    requires NoDup(keys) && k in keys
    ensures SumOver(keys, vals[k := v]) + vals[k] == SumOver(keys, vals) + v
  {
    if keys[0] == k {
      assert k !in keys[1..];
      SumOverFrame(keys[1..], vals, k, v);
    } else {
      SumOverUpdate(keys[1..], vals, k, v);
    }
  }

  /** Incrementing a counter adds one to its total. */
  lemma IncTotal<K>(d: Dict<K, nat>, k: K)
    requires Valid(d)
    ensures Total(Inc(d, k)) == Total(d) + 1
  {
    var v := Get(d, k, 0) + 1;
    if k in d.vals {
      SumOverUpdate(d.keys, d.vals, k, v);
    } else {
      SumOverFrame(d.keys, d.vals, k, v);
      SumOverAppend(d.keys, d.vals[k := v], k);
    }
  }

  /** The counts of a tally add up to the number of elements tallied. */
  lemma {:induction false} TallyTotal<K>(xs: seq<K>)
    ensures Total(Tally(xs)) == |xs|
    decreases |xs|
  {
    if xs != [] {
      var init := xs[..|xs| - 1];
      TallyTotal(init);
      IncTotal(Tally(init), xs[|xs| - 1]);
    }
  }

  // ---------------------------------------------------------------------------
  // The entry a stable descending sort puts first
  // ---------------------------------------------------------------------------

  /** Index of the first key holding the largest value: what
      `Object.entries(d).sort((a, b) => b[1] - a[1])[0]` picks, since the sort
      is stable and so keeps insertion order among equal counts. */
  function TopIndex<K(==)>(keys: seq<K>, vals: map<K, nat>): (t: nat)
    requires |keys| > 0
    requires forall i :: 0 <= i < |keys| ==> keys[i] in vals
    ensures t < |keys|
    ensures forall j :: 0 <= j < |keys| ==> vals[keys[j]] <= vals[keys[t]]
    ensures forall j :: 0 <= j < t ==> vals[keys[j]] < vals[keys[t]]
  {
    if |keys| == 1 then 0
    else
      var t := TopIndex(keys[1..], vals) + 1;
      if vals[keys[0]] >= vals[keys[t]] then 0 else t
  }

  /** The first key, in insertion order, whose count is the largest. */
  function TopKey<K(==)>(d: Dict<K, nat>): (top: K)
    requires Valid(d) && |d.keys| > 0
    ensures top in d.vals
    ensures forall k :: k in d.vals ==> d.vals[k] <= d.vals[top]
  {
    d.keys[TopIndex(d.keys, d.vals)]
  }

  /** The element occurring strictly more often than every other is the top
      key of the tally, with its number of occurrences as its count. */
  lemma TallyStrictTop<K>(xs: seq<K>, k: K)
    requires multiset(xs)[k] > 0
    requires forall j :: j != k ==> multiset(xs)[j] < multiset(xs)[k]
    ensures |Tally(xs).keys| > 0 && TopKey(Tally(xs)) == k && Tally(xs).vals[k] == multiset(xs)[k]
  {
    var counts := Tally(xs);
    forall j | j in counts.vals ensures counts.vals[j] == multiset(xs)[j] {
      TallyCounts(xs, j);
    }
    TallyCounts(xs, k);
    TopKeyStrict(counts, k);
  }

  /** When one key's count is strictly larger than every other count, that key
      is the one picked, whatever the insertion order. */
  lemma TopKeyStrict<K>(d: Dict<K, nat>, k: K)
    requires Valid(d) && k in d.vals
    requires forall j :: j in d.vals && j != k ==> d.vals[j] < d.vals[k]
    ensures |d.keys| > 0 && TopKey(d) == k
  {
    assert k in d.keys;
  }
  /** Counting one more of a most frequent key makes it the only top key. */
  lemma IncTop<K>(d: Dict<K, nat>, k: K)
    requires Valid(d) && k in d.vals
    requires forall j :: j in d.vals ==> d.vals[j] <= d.vals[k]
    ensures |d.keys| > 0 && d.vals[TopKey(d)] == d.vals[k]
    ensures |Inc(d, k).keys| > 0 && TopKey(Inc(d, k)) == k && Inc(d, k).vals[k] == d.vals[k] + 1
  {
    assert k in d.keys;
    var e := Inc(d, k);
    TopKeyStrict(e, k);
  }
}
