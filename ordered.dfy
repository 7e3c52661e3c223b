/**
 * PHP's ordered array: a sequence of (key, value) pairs in insertion order.
 * Assigning to an existing key replaces its value in place; assigning to a
 * new key appends; `$a[] = v` appends under the next integer key; unset
 * removes the pair and keeps the order of the others.
 */
module OrderedMaps {
  import opened Text

  /** An array key: PHP keys are strings or integers. */
  datatype Key = Name(text: string) | Index(n: int)

  type OMap<K, V> = seq<(K, V)>

  function Keys<K, V>(m: OMap<K, V>): (ks: seq<K>)
    ensures |ks| == |m|
    ensures forall i :: 0 <= i < |m| ==> ks[i] == m[i].0
  {
    if m == [] then [] else [m[0].0] + Keys(m[1..])
  }

  predicate Has<K(==), V>(m: OMap<K, V>, k: K) {
    k in Keys(m)
  }

  /** No key appears twice: the shape every PHP array has. */
  predicate DistinctKeys<K(==), V>(m: OMap<K, V>) {
    forall i, j :: 0 <= i < j < |m| ==> m[i].0 != m[j].0
  }

  /** The position of the first pair with key `k`. */
  function IndexOf<K(==), V>(m: OMap<K, V>, k: K): (i: nat)
    requires Has(m, k)
    ensures i < |m| && m[i].0 == k
    ensures forall j :: 0 <= j < i ==> m[j].0 != k
  {
    if m[0].0 == k then 0 else IndexOf(m[1..], k) + 1
  }

  /** `$m[$k]` */
  function Get<K(==), V>(m: OMap<K, V>, k: K): V
    requires Has(m, k)
  {
    m[IndexOf(m, k)].1
  }

  /** `$m[$k] = $v`: replace in place when the key exists, append otherwise. */
  function Put<K(==), V>(m: OMap<K, V>, k: K, v: V): (r: OMap<K, V>)
    ensures Has(m, k) ==> |r| == |m|
    ensures !Has(m, k) ==> r == m + [(k, v)]
  {
    if Has(m, k) then m[IndexOf(m, k) := (k, v)] else m + [(k, v)]
  }

  /** After `$m[$k] = $v`, reading `$m[$k]` gives `$v`. */
  lemma PutGet<K, V>(m: OMap<K, V>, k: K, v: V)
    ensures Has(Put(m, k, v), k) && Get(Put(m, k, v), k) == v
  {
    var r := Put(m, k, v);
    if Has(m, k) {
      var i := IndexOf(m, k);
      HasAt(r, i);
      assert IndexOf(r, k) == i;
    } else {
      HasAt(r, |m|);
      assert IndexOf(r, k) == |m|;
    }
  }

  /** Keys absent from a map are absent from every position. */
  lemma NotHas<K, V>(m: OMap<K, V>, k: K)
    requires forall i :: 0 <= i < |m| ==> m[i].0 != k
    ensures !Has(m, k)
  {
  }

  /** `unset($m[$k])`: the first pair with key `k` goes, the others keep their order. */
  function Remove<K(==), V>(m: OMap<K, V>, k: K): (r: OMap<K, V>)
    ensures Has(m, k) ==> |r| == |m| - 1
    ensures !Has(m, k) ==> r == m
  {
    if m == [] then []
    else if m[0].0 == k then m[1..]
    else [m[0]] + Remove(m[1..], k)
  }

  lemma HasAt<K, V>(m: OMap<K, V>, i: nat)
    requires i < |m|
    ensures Has(m, m[i].0)
  {
    assert Keys(m)[i] == m[i].0;
  }

  lemma HasWitness<K, V>(m: OMap<K, V>, k: K) returns (i: nat)
    requires Has(m, k)
    ensures i < |m| && m[i].0 == k
  {
    i := IndexOf(m, k);
  }

  lemma IndexOfDistinct<K, V>(m: OMap<K, V>, i: nat)
    requires DistinctKeys(m) && i < |m|
    ensures Has(m, m[i].0) && IndexOf(m, m[i].0) == i
  {
    HasAt(m, i);
  }

  /** Put writes one key and leaves every other key's value alone. */
  lemma PutOther<K, V>(m: OMap<K, V>, k: K, v: V, k2: K)
    requires k2 != k
    ensures Has(Put(m, k, v), k2) <==> Has(m, k2)
    ensures Has(m, k2) ==> Get(Put(m, k, v), k2) == Get(m, k2)
  {
    var r := Put(m, k, v);
    if Has(m, k2) {
      var i := IndexOf(m, k2);
      assert r[i] == m[i];
      HasAt(r, i);
      assert IndexOf(r, k2) == i;
    }
    if Has(r, k2) {
      var j := IndexOf(r, k2);
      assert j < |m| && m[j].0 == k2;
      HasAt(m, j);
    }
  }

  lemma PutKeepsDistinct<K, V>(m: OMap<K, V>, k: K, v: V)
    requires DistinctKeys(m)
    ensures DistinctKeys(Put(m, k, v))
  {
    if !Has(m, k) {
      forall i | 0 <= i < |m| ensures m[i].0 != k {
        HasAt(m, i);
      }
    }
  }

  /** Replacing the value at a position keeps the keys, so keeps them distinct. */
  lemma ReplaceKeepsDistinct<K, V>(m: OMap<K, V>, i: nat, v: V)
    requires DistinctKeys(m) && i < |m|
    ensures DistinctKeys(m[i := (m[i].0, v)])
  {
  }

  /** A key other than the first one is found, with its value, in the tail. */
  lemma TailGet<K, V>(m: OMap<K, V>, k: K)
    requires m != [] && m[0].0 != k
    ensures Has(m, k) <==> Has(m[1..], k)
    ensures Has(m, k) ==> Get(m, k) == Get(m[1..], k)
  {
    assert Keys(m) == [m[0].0] + Keys(m[1..]);
  }

  /** After `unset`, the pairs before the removed one keep their positions and the rest move up by one. */
  lemma {:induction false} RemovedIndex<K, V>(m: OMap<K, V>, k: K, j: nat)
    requires Has(m, k) && j < |m| - 1
    ensures var p := IndexOf(m, k); |Remove(m, k)| == |m| - 1 && Remove(m, k)[j] == m[if j < p then j else j + 1]
  {
    if m[0].0 != k {
      TailGet(m, k);
      var r := Remove(m, k);
      assert r == [m[0]] + Remove(m[1..], k);
      assert IndexOf(m, k) == IndexOf(m[1..], k) + 1;
      if j > 0 {
        RemovedIndex(m[1..], k, j - 1);
        assert r[j] == Remove(m[1..], k)[j - 1];
      }
    }
  }

  lemma RemoveOther<K, V>(m: OMap<K, V>, k: K, k2: K)
    requires DistinctKeys(m) && k2 != k
    ensures Has(Remove(m, k), k2) <==> Has(m, k2)
    ensures Has(m, k2) ==> Get(Remove(m, k), k2) == Get(m, k2)
  {
    if Has(m, k) {
      if Has(m, k2) {
        RemoveKeeps(m, k, k2);
      }
      if Has(Remove(m, k), k2) {
        RemoveInvents(m, k, k2);
      }
    }
  }

  /** A key other than the removed one survives `unset` with its value. */
  lemma {:induction false} RemoveKeeps<K, V>(m: OMap<K, V>, k: K, k2: K)
    requires k2 != k && Has(m, k2)
    ensures Has(Remove(m, k), k2) && Get(Remove(m, k), k2) == Get(m, k2)
  {
    var r := Remove(m, k);
    if m[0].0 == k {
      TailGet(m, k2);
    } else if m[0].0 == k2 {
      HasAt(r, 0);
    } else {
      TailGet(m, k2);
      RemoveKeeps(m[1..], k, k2);
      assert r[1..] == Remove(m[1..], k);
      TailGet(r, k2);
    }
  }

  /** `unset` adds no key. */
  lemma RemoveInvents<K, V>(m: OMap<K, V>, k: K, k2: K)
    requires Has(m, k) && Has(Remove(m, k), k2)
    ensures Has(m, k2)
  {
    var r := Remove(m, k);
    var p := IndexOf(m, k);
    var j := IndexOf(r, k2);
    RemovedIndex(m, k, j);
    HasAt(m, if j < p then j else j + 1);
  }

  /** Two `unset`s in a row: both keys are gone and a third key is untouched. */
  lemma RemoveTwo<K, V>(m: OMap<K, V>, a: K, b: K, k: K)
    requires DistinctKeys(m) && a != b && k != a && k != b
    ensures var r := Remove(Remove(m, a), b);
      && !Has(r, a) && !Has(r, b) && DistinctKeys(r)
      && (Has(r, k) <==> Has(m, k))
      && (Has(m, k) ==> Get(r, k) == Get(m, k))
  {
    var q := Remove(m, a);
    RemoveGone(m, a);
    RemoveOther(m, a, k);
    RemoveGone(q, b);
    RemoveOther(q, b, k);
    RemoveOther(q, b, a);
  }

  lemma RemoveGone<K, V>(m: OMap<K, V>, k: K)
    requires DistinctKeys(m)
    ensures !Has(Remove(m, k), k)
    ensures DistinctKeys(Remove(m, k))
  {
    if Has(m, k) {
      var p := IndexOf(m, k);
      var r := Remove(m, k);
      forall j | 0 <= j < |r|
        ensures r[j].0 != k
      {
        RemovedIndex(m, k, j);
      }
      forall a, b | 0 <= a < b < |r|
        ensures r[a].0 != r[b].0
      {
        RemovedIndex(m, k, a);
        RemovedIndex(m, k, b);
      }
      NotHas(r, k);
    }
  }

  /** Assigning to a key whose first pair follows `a` replaces that pair's value in place. */
  lemma PutAt<K, V>(a: OMap<K, V>, k: K, v: V, w: V, b: OMap<K, V>)
    requires forall j :: 0 <= j < |a| ==> a[j].0 != k
    ensures Put(a + [(k, v)] + b, k, w) == a + [(k, w)] + b
  {
    var m := a + [(k, v)] + b;
    HasAt(m, |a|);
    assert forall j :: 0 <= j < |a| ==> m[j] == a[j];
    var i := IndexOf(m, k);
    assert i == |a|;
    var r := a + [(k, w)] + b;
    assert forall j :: 0 <= j < |m| ==> m[i := (k, w)][j] == r[j];
  }

  /** Unsetting a key whose first pair follows `a` drops exactly that pair. */
  lemma {:induction false} RemoveAt<K, V>(a: OMap<K, V>, k: K, v: V, b: OMap<K, V>)
    requires forall j :: 0 <= j < |a| ==> a[j].0 != k
    ensures Remove(a + [(k, v)] + b, k) == a + b
    decreases |a|
  {
    var m := a + [(k, v)] + b;
    if a == [] {
      assert m[1..] == b;
    } else {
      RemoveAt(a[1..], k, v, b);
      HeadShape(a, (k, v), b);
    }
  }

  /** How the first element splits off a concatenation. */
  lemma HeadShape<T>(a: seq<T>, x: T, b: seq<T>)
    requires a != []
    ensures (a + [x] + b)[0] == a[0] && (a + [x] + b)[1..] == a[1..] + [x] + b
    ensures [a[0]] + (a[1..] + b) == a + b
  {
    assert (a + [x] + b)[1..] == a[1..] + [x] + b;
    assert [a[0]] + (a[1..] + b) == a + b;
  }

  lemma Regroup<T>(a: seq<T>, b: seq<T>, c: seq<T>, d: seq<T>)
    ensures a + b + c + d == a + (b + c + d)
    ensures a + b + c == a + (b + c)
  {
  }

  /** Pairs appended under other keys leave a key and its value alone. */
  lemma AppendOther<K, V>(a: OMap<K, V>, b: OMap<K, V>, k: K)
    requires forall t :: 0 <= t < |b| ==> b[t].0 != k
    ensures Has(a + b, k) <==> Has(a, k)
    ensures Has(a, k) ==> Get(a + b, k) == Get(a, k)
  {
    var r := a + b;
    if Has(a, k) {
      var p := IndexOf(a, k);
      HasAt(r, p);
      assert forall q :: 0 <= q <= p ==> r[q] == a[q];
      assert IndexOf(r, k) == p;
    } else {
      forall q | 0 <= q < |r|
        ensures r[q].0 != k
      {
        if q < |a| {
          HasAt(a, q);
        } else {
          assert r[q] == b[q - |a|];
        }
      }
      NotHas(r, k);
    }
  }

  /** A pair appended under a new key is found with its value. */
  lemma AppendNew<K, V>(a: OMap<K, V>, k: K, v: V)
    requires forall t :: 0 <= t < |a| ==> a[t].0 != k
    ensures Has(a + [(k, v)], k) && Get(a + [(k, v)], k) == v
  {
    NotHas(a, k);
    PutGet(a, k, v);
  }

  /** Assigning to a key already present keeps every key at its position. */
  lemma PutInPlace<K, V>(m: OMap<K, V>, k: K, v: V)
    requires DistinctKeys(m) && Has(m, k)
    ensures var r := Put(m, k, v);
      DistinctKeys(r) && |r| == |m| && Has(r, k) && IndexOf(r, k) == IndexOf(m, k) && Get(r, k) == v
  {
    IndexOfDistinct(Put(m, k, v), IndexOf(m, k));
  }

  /** Unsetting another key keeps a key and its value, and moves it up by at most one place. */
  lemma RemoveShift<K, V>(m: OMap<K, V>, k0: K, k: K)
    requires DistinctKeys(m) && Has(m, k0) && Has(m, k) && k != k0
    ensures var r := Remove(m, k0);
      DistinctKeys(r) && Has(r, k) && Get(r, k) == Get(m, k) && |r| - IndexOf(r, k) <= |m| - IndexOf(m, k)
  {
    RemoveGone(m, k0);
    RemoveOther(m, k0, k);
    RemoveIndexBound(m, k0, k);
  }

  lemma {:induction false} RemoveIndexBound<K, V>(m: OMap<K, V>, k0: K, k: K)
    requires Has(m, k) && k != k0
    ensures Has(Remove(m, k0), k) && IndexOf(Remove(m, k0), k) + 1 >= IndexOf(m, k)
    decreases |m|
  {
    var r := Remove(m, k0);
    if m[0].0 == k {
      assert r[0] == m[0];
      HasAt(r, 0);
    } else {
      TailGet(m, k);
      if m[0].0 != k0 {
        RemoveIndexBound(m[1..], k0, k);
        assert r[1..] == Remove(m[1..], k0);
        TailGet(r, k);
      }
    }
  }

  /** Pairs appended after a key's first pair leave it and its value alone. */
  lemma AppendKeeps<K, V>(a: OMap<K, V>, b: OMap<K, V>, k: K)
    requires Has(a, k)
    ensures Has(a + b, k) && Get(a + b, k) == Get(a, k) && IndexOf(a + b, k) == IndexOf(a, k)
  {
    var p := IndexOf(a, k);
    HasAt(a + b, p);
    assert forall q :: 0 <= q <= p ==> (a + b)[q] == a[q];
  }

  /** Unsetting a key already in `a` leaves the pairs appended after `a` alone. */
  lemma {:induction false} RemoveAppend<K, V>(a: OMap<K, V>, b: OMap<K, V>, k: K)
    requires Has(a, k)
    ensures Remove(a + b, k) == Remove(a, k) + b
    decreases |a|
  {
    if a[0].0 == k {
      assert (a + b)[1..] == a[1..] + b;
    } else {
      TailGet(a, k);
      RemoveAppend(a[1..], b, k);
      assert (a + b)[1..] == a[1..] + b;
      assert [a[0]] + (Remove(a[1..], k) + b) == [a[0]] + Remove(a[1..], k) + b;
    }
  }

  /** The largest integer key, or -1 when there is none. */
  function MaxIndex<V>(m: OMap<Key, V>): (r: int)
    ensures r >= -1
    ensures forall i :: 0 <= i < |m| && m[i].0.Index? ==> m[i].0.n <= r
  {
    if m == [] then -1
    else
      var rest := MaxIndex(m[1..]);
      if m[0].0.Index? && m[0].0.n > rest then m[0].0.n else rest
  }

  /** `$m[] = $v`: append under one more than the largest integer key. */
  function Push<V>(m: OMap<Key, V>, v: V): (r: OMap<Key, V>)
    ensures |r| == |m| + 1 && r[..|m|] == m && r[|m|].1 == v
  {
    m + [(Index(MaxIndex(m) + 1), v)]
  }

  /** The key Push uses is not in use. */
  lemma PushFresh<V>(m: OMap<Key, V>, v: V)
    ensures !Has(m, Push(m, v)[|m|].0)
    ensures DistinctKeys(m) ==> DistinctKeys(Push(m, v))
  {
    var k := Index(MaxIndex(m) + 1);
    NotHas(m, k);
  }

  /** The key/value pairs as a map, ignoring order (PHP's `==` on arrays). */
  function ToMap<K, V>(m: OMap<K, V>): map<K, V> {
    if m == [] then map[] else ToMap(m[..|m| - 1])[m[|m| - 1].0 := m[|m| - 1].1]
  }

  /** The last key (`end($m); key($m)`), if any. */
  function LastKey<K, V>(m: OMap<K, V>): (r: K)
    requires |m| > 0
  {
    m[|m| - 1].0
  }

  // ------------------------------------------------------------ fresh keys

  /** The length of the longest name key. */
  function MaxNameLength<V>(m: OMap<Key, V>): (n: nat)
    ensures forall i :: 0 <= i < |m| && m[i].0.Name? ==> |m[i].0.text| <= n
  {
    if m == [] then 0
    else
      var rest := MaxNameLength(m[1..]);
      assert forall i :: 1 <= i < |m| ==> m[i] == m[1..][i - 1];
      if m[0].0.Name? && |m[0].0.text| > rest then |m[0].0.text| else rest
  }

  /** A name in use is no longer than the longest name key. */
  lemma NameLengthBound<V>(m: OMap<Key, V>, s: string)
    requires Has(m, Name(s))
    ensures |s| <= MaxNameLength(m)
  {
    var i := HasWitness(m, Name(s));
  }

  /** `$name . str_repeat(' ', j)`: the j-th key the space-appending loops probe. */
  function Probe(base: string, j: nat): Key {
    Name(base + Spaces(j))
  }

  /** Appending one more space gives the next probed name. */
  lemma ProbeNext(base: string, n: nat)
    ensures base + Spaces(n) + " " == base + Spaces(n + 1)
  {
    assert Spaces(n + 1) == Spaces(n) + " ";
  }

  /**
   * How many spaces, from `n` on, `while (isset($m[$name])) $name .= ' ';`
   * appends to `base`: the fewest that make the key unused.
   */
  function FreshSpaces<V>(m: OMap<Key, V>, base: string, n: nat): (k: nat)
    ensures n <= k && !Has(m, Probe(base, k))
    ensures forall j :: n <= j < k ==> Has(m, Probe(base, j))
    decreases MaxNameLength(m) + 1 - |base| - n
  {
    if !Has(m, Probe(base, n)) then n
    else
      NameLengthBound(m, base + Spaces(n));
      FreshSpaces(m, base, n + 1)
  }

  /** The key the space-appending loop settles on. */
  function FreshName<V>(m: OMap<Key, V>, base: string): (k: Key)
    ensures !Has(m, k)
  {
    Probe(base, FreshSpaces(m, base, 0))
  }

  /** A base name not in use is taken as it is. */
  lemma FreshNameUnused<V>(m: OMap<Key, V>, base: string)
    requires !Has(m, Name(base))
    ensures FreshName(m, base) == Name(base)
  {
    assert base + Spaces(0) == base;
  }

  /** Storing under the fresh key appends one pair and keeps every earlier pair. */
  lemma PutFresh<V>(m: OMap<Key, V>, base: string, v: V)
    ensures Put(m, FreshName(m, base), v) == m + [(FreshName(m, base), v)]
    ensures DistinctKeys(m) ==> DistinctKeys(Put(m, FreshName(m, base), v))
  {
    if DistinctKeys(m) {
      PutKeepsDistinct(m, FreshName(m, base), v);
    }
  }

  /** The loop stops at the first unused key, so the count of spaces it appends is FreshSpaces. */
  lemma FreshSpacesLeast<V>(m: OMap<Key, V>, base: string, n: nat)
    requires forall j :: 0 <= j < n ==> Has(m, Probe(base, j))
    requires !Has(m, Probe(base, n))
    ensures FreshSpaces(m, base, 0) == n
  {
    var k := FreshSpaces(m, base, 0);
    if k < n {
      assert false;
    } else if k > n {
      assert false;
    }
  }
}
