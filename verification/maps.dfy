/**
 * Hash maps as the engine uses them: filled by inserting pairs in order, and
 * walked in an iteration order the program does not control, modelled as any
 * sequence listing every key once. Also the "least free id" search the
 * server and the world use to hand out user and entity ids.
 */
module Maps {

  /** Insert pairs into a map in order, as `HashMap::insert` in a loop: a later key overwrites. */
  function UpdateAll<K, V>(acc: map<K, V>, kvs: seq<(K, V)>): (r: map<K, V>)
    ensures acc.Keys <= r.Keys
    decreases |kvs|
  {
    if |kvs| == 0 then acc else UpdateAll(acc[kvs[0].0 := kvs[0].1], kvs[1..])
  }

  /** The entries of `m` under the keys `ks`, in the order of `ks`. */
  function PairsOf<K, V>(m: map<K, V>, ks: seq<K>): (kvs: seq<(K, V)>)
    requires forall i :: 0 <= i < |ks| ==> ks[i] in m
    ensures |kvs| == |ks| && forall i :: 0 <= i < |ks| ==> kvs[i] == (ks[i], m[ks[i]])
  {
    seq(|ks|, i requires 0 <= i < |ks| => (ks[i], m[ks[i]]))
  }

  /** `ks` lists every key of `m` exactly once: one iteration order of a hash map. */
  predicate Enumerates<K, V>(ks: seq<K>, m: map<K, V>) {
    && (forall i :: 0 <= i < |ks| ==> ks[i] in m)
    && (forall k :: k in m ==> k in ks)
    && (forall i, j :: 0 <= i < j < |ks| ==> ks[i] != ks[j])
  }

  /** The entries of `m` whose keys occur in `ks`. */
  function Part<K, V>(m: map<K, V>, ks: seq<K>): map<K, V> {
    map k | k in m && k in ks :: m[k]
  }

  lemma InTail<K>(ks: seq<K>, k: K)
    requires k in ks
    ensures k == ks[0] || k in ks[1..]
  {
    var i :| 0 <= i < |ks| && ks[i] == k;
    if i > 0 {
      assert ks[1..][i - 1] == k;
    }
  }

  /** Inserting the first entry and then the rest is inserting all of them. */
  lemma PartStep<K, V>(acc: map<K, V>, m: map<K, V>, ks: seq<K>)
    requires |ks| > 0 && ks[0] in m
    ensures acc[ks[0] := m[ks[0]]] + Part(m, ks[1..]) == acc + Part(m, ks)
  {
    var lhs := acc[ks[0] := m[ks[0]]] + Part(m, ks[1..]);
    var rhs := acc + Part(m, ks);
    forall k | k in ks
      ensures k == ks[0] || k in ks[1..]
    {
      InTail(ks, k);
    }
    assert lhs.Keys == rhs.Keys;
    forall k | k in rhs
      ensures lhs[k] == rhs[k]
    {
    }
  }

  /**
   * Inserting the entries of `m` under `ks` into `acc` adds exactly those
   * entries, whatever the order and even when a key repeats.
   */
  lemma {:induction false} UpdateAllPairs<K, V>(acc: map<K, V>, m: map<K, V>, ks: seq<K>)
    requires forall i :: 0 <= i < |ks| ==> ks[i] in m
    ensures UpdateAll(acc, PairsOf(m, ks)) == acc + Part(m, ks)
    decreases |ks|
  {
    if |ks| == 0 {
      assert Part(m, ks) == map[];
    } else {
      assert PairsOf(m, ks)[1..] == PairsOf(m, ks[1..]);
      UpdateAllPairs(acc[ks[0] := m[ks[0]]], m, ks[1..]);
      PartStep(acc, m, ks);
    }
  }

  /** A full enumeration of `m` inserted into an empty map gives `m` back. */
  lemma UpdateAllEnumerates<K, V>(m: map<K, V>, ks: seq<K>)
    requires Enumerates(ks, m)
    ensures UpdateAll(map[], PairsOf(m, ks)) == m
  {
    UpdateAllPairs(map[], m, ks);
    assert map[] + Part(m, ks) == m;
  }

  /** Distinct keys listing every key: the count written in the header is the map's size. */
  lemma {:induction false} EnumerationSize<K, V>(ks: seq<K>, m: map<K, V>)
    requires Enumerates(ks, m)
    ensures |ks| == |m|
    decreases |ks|
  {
    if |ks| == 0 {
      assert m.Keys == {};
    } else {
      var m1 := map k | k in m && k != ks[0] :: m[k];
      var ks1 := ks[1..];
      forall k | k in m1
        ensures k in ks1
      {
        var i :| 0 <= i < |ks| && ks[i] == k;
        assert i != 0;
        assert ks1[i - 1] == k;
      }
      assert forall i :: 0 <= i < |ks1| ==> ks1[i] == ks[i + 1];
      EnumerationSize(ks1, m1);
      assert m.Keys == m1.Keys + {ks[0]};
    }
  }

  // ---------------------------------------------------------------------------
  // The least free id
  // ---------------------------------------------------------------------------

  /** The ids of `m` from `id` upwards. */
  function KeysFrom<V>(m: map<nat, V>, id: nat): set<nat> {
    set k | k in m.Keys && k >= id
  }

  /**
   * `let mut id = start; while m.contains_key(&id) { id += 1 }`: the first id
   * from `start` that is not a key. Every id skipped is a key at or above the
   * current one, so the keys from `id` upwards shrink at each step.
   */
  function LeastFreeFrom<V>(m: map<nat, V>, id: nat): (r: nat)
    ensures r >= id && r !in m
    ensures forall k :: id <= k < r ==> k in m
    decreases |KeysFrom(m, id)|
  {
    if id in m then
      assert KeysFrom(m, id) == KeysFrom(m, id + 1) + {id};
      LeastFreeFrom(m, id + 1)
    else id
  }

  /** The least positive integer that is not a key. */
  function LeastFreeId<V>(m: map<nat, V>): (r: nat)
    ensures r >= 1 && r !in m
    ensures forall k :: 1 <= k < r ==> k in m
  {
    LeastFreeFrom(m, 1)
  }

  /** The integers lo, lo + 1, ..., hi - 1. */
  function Range(lo: nat, hi: nat): (r: set<nat>)
    ensures |r| == if lo <= hi then hi - lo else 0
    ensures forall k :: k in r <==> lo <= k < hi
    decreases hi - lo
  {
    if lo >= hi then {} else {lo} + Range(lo + 1, hi)
  }

  /** The least free id is at most one more than the number of keys. */
  lemma LeastFreeIdBound<V>(m: map<nat, V>)
    ensures LeastFreeId(m) <= |m| + 1
  {
    var r := LeastFreeId(m);
    SubsetSize(Range(1, r), m.Keys);
  }

  lemma {:induction false} SubsetSize<T>(a: set<T>, b: set<T>)
    requires a <= b
    ensures |a| <= |b|
    decreases a
  {
    if a != {} {
      var x :| x in a;
      SubsetSize(a - {x}, b - {x});
    }
  }
}
