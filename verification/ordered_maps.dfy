/** Python dictionaries: a map plus the order in which the
    keys were first inserted, which is the order `list(d)` and iteration
    report. Assigning to a key already present keeps its position. */
module OrderedMaps {
  import opened Wrappers

  datatype ODict<K, V> = ODict(keys: seq<K>, m: map<K, V>)

  /** The keys are distinct and are exactly the map's domain. */
  predicate Valid<K, V>(d: ODict<K, V>) {
    && (forall i, j :: 0 <= i < j < |d.keys| ==> d.keys[i] != d.keys[j])
    && d.m.Keys == (set k | k in d.keys)
  }

  function Empty<K, V>(): (r: ODict<K, V>)
    ensures Valid(r) && |r.keys| == 0 && r.m == map[]
  {
    ODict([], map[])
  }

  /** `d[k] = v`. */
  function Put<K, V>(d: ODict<K, V>, k: K, v: V): (r: ODict<K, V>)
    requires Valid(d)
    ensures Valid(r)
    ensures r.m == d.m[k := v]
    ensures k in d.m ==> r.keys == d.keys
    ensures k !in d.m ==> r.keys == d.keys + [k]
  {
    if k in d.m then ODict(d.keys, d.m[k := v])
    else ODict(d.keys + [k], d.m[k := v])
  }

  /** The loop `for x in xs: if pick(x) is not None: d[pick(x)] = val(x)`,
      starting from an empty dictionary. */
  function PutAll<X, K, V>(xs: seq<X>, pick: X -> Option<K>, val: X -> V): (d: ODict<K, V>)
    ensures Valid(d)
    decreases |xs|
  {
    if |xs| == 0 then Empty()
    else
      var d := PutAll(xs[..|xs| - 1], pick, val);
      var x := xs[|xs| - 1];
      if pick(x).Some? then Put(d, pick(x).value, val(x)) else d
  }

  /** A key is present exactly when some element picks it. */
  lemma {:induction false} PutAllKeys<X, K, V>(xs: seq<X>, pick: X -> Option<K>, val: X -> V, k: K)
    ensures k in PutAll(xs, pick, val).m <==> exists i :: 0 <= i < |xs| && pick(xs[i]) == Some(k)
    decreases |xs|
  {
    if |xs| > 0 {
      var n := |xs| - 1;
      var front := xs[..n];
      PutAllKeys(front, pick, val, k);
      if exists i :: 0 <= i < |front| && pick(front[i]) == Some(k) {
        var i :| 0 <= i < |front| && pick(front[i]) == Some(k);
        assert xs[i] == front[i];
      }
      if exists i :: 0 <= i < |xs| && pick(xs[i]) == Some(k) {
        var i :| 0 <= i < |xs| && pick(xs[i]) == Some(k);
        if i < n {
          assert front[i] == xs[i];
        }
      }
    }
  }

  /** A key holds the value of the last element that picks it. */
  lemma {:induction false} PutAllLast<X, K, V>(xs: seq<X>, pick: X -> Option<K>, val: X -> V, i: nat, k: K)
    requires i < |xs| && pick(xs[i]) == Some(k)
    requires forall j :: i < j < |xs| ==> pick(xs[j]) != Some(k)
    ensures k in PutAll(xs, pick, val).m && PutAll(xs, pick, val).m[k] == val(xs[i])
    decreases |xs|
  {
    var n := |xs| - 1;
    if i < n {
      var front := xs[..n];
      assert front[i] == xs[i];
      forall j | i < j < |front|
        ensures pick(front[j]) != Some(k)
      {
        assert front[j] == xs[j];
      }
      PutAllLast(front, pick, val, i, k);
    }
  }

  /** A present key holds the value of an element that picks it. */
  lemma {:induction false} PutAllFrom<X, K, V>(xs: seq<X>, pick: X -> Option<K>, val: X -> V, k: K) returns (i: nat)
    requires k in PutAll(xs, pick, val).m
    ensures i < |xs| && pick(xs[i]) == Some(k) && PutAll(xs, pick, val).m[k] == val(xs[i])
    decreases |xs|
  {
    var n := |xs| - 1;
    if pick(xs[n]) == Some(k) {
      i := n;
    } else {
      var front := xs[..n];
      i := PutAllFrom(front, pick, val, k);
      assert front[i] == xs[i];
    }
  }

  /** Keys keep the position of their first insertion: the keys after a
      prefix of the loop start the keys after all of it. */
  lemma {:induction false} PutAllOrder<X, K, V>(xs: seq<X>, pick: X -> Option<K>, val: X -> V, m: nat)
    requires m <= |xs|
    ensures PutAll(xs[..m], pick, val).keys <= PutAll(xs, pick, val).keys
    decreases |xs|
  {
    if m < |xs| {
      var n := |xs| - 1;
      assert xs[..m] == xs[..n][..m];
      PutAllOrder(xs[..n], pick, val, m);
    } else {
      assert xs[..m] == xs;
    }
  }

  /** When every element picks a key and no two pick the same one, the keys
      are the picks in order. */
  lemma {:induction false} PutAllDistinct<X, K, V>(xs: seq<X>, pick: X -> Option<K>, val: X -> V)
    requires forall i :: 0 <= i < |xs| ==> pick(xs[i]).Some?
    requires forall i, j :: 0 <= i < j < |xs| ==> pick(xs[i]) != pick(xs[j])
    ensures |PutAll(xs, pick, val).keys| == |xs|
    ensures forall i :: 0 <= i < |xs| ==> PutAll(xs, pick, val).keys[i] == pick(xs[i]).value
    decreases |xs|
  {
    if |xs| > 0 {
      var n := |xs| - 1;
      var front := xs[..n];
      PutAllDistinct(front, pick, val);
      PutAllKeys(front, pick, val, pick(xs[n]).value);
    }
  }

  /** Python's `zip(a, b)`: pairs up to the shorter length. */
  function Zip<A, B>(a: seq<A>, b: seq<B>): (r: seq<(A, B)>)
    ensures |r| == (if |a| < |b| then |a| else |b|)
    ensures forall i :: 0 <= i < |r| ==> r[i] == (a[i], b[i])
  {
    seq(if |a| < |b| then |a| else |b|, i requires 0 <= i < |a| && 0 <= i < |b| => (a[i], b[i]))
  }

  function First<A, B>(p: (A, B)): Option<A> { Some(p.0) }

  function Second<A, B>(p: (A, B)): B { p.1 }

  /** `dict(zip(ks, vs))`. */
  function DictZip<K, V>(ks: seq<K>, vs: seq<V>): ODict<K, V> {
    PutAll(Zip(ks, vs), First, Second)
  }

  /** Names paired positionally with as many values: with no name repeated,
      the dictionary lists the names in order and each holds the value at
      its own position. */
  lemma DictZipPositional<K, V>(ks: seq<K>, vs: seq<V>)
    requires |ks| == |vs|
    requires forall i, j :: 0 <= i < j < |ks| ==> ks[i] != ks[j]
    ensures DictZip(ks, vs).keys == ks
    ensures forall i :: 0 <= i < |ks| ==> ks[i] in DictZip(ks, vs).m && DictZip(ks, vs).m[ks[i]] == vs[i]
  {
    var xs := Zip(ks, vs);
    PutAllDistinct(xs, First, Second);
    forall i | 0 <= i < |ks|
      ensures ks[i] in DictZip(ks, vs).m && DictZip(ks, vs).m[ks[i]] == vs[i]
    {
      PutAllLast(xs, First, Second, i, ks[i]);
    }
  }
}
