/**
 * A Python `dict` as the game uses it for `previos_answers`: an association
 * list in insertion order.  Assigning to a key that is already present
 * replaces its value in place; a new key goes to the end.
 */
module Dict {
  import opened Wrappers

  function Keys<K, V>(d: seq<(K, V)>): (ks: seq<K>)
    ensures |ks| == |d| && forall i :: 0 <= i < |d| ==> ks[i] == d[i].0
  {
    seq(|d|, i requires 0 <= i < |d| => d[i].0)
  }

  predicate UniqueKeys<K(==), V>(d: seq<(K, V)>) {
    forall i, j :: 0 <= i < j < |d| ==> d[i].0 != d[j].0
  }

  /** `d.get(k)`. */
  function Get<K(==), V>(d: seq<(K, V)>, k: K): (r: Option<V>)
    ensures r.Some? <==> k in Keys(d)
  {
    if d == [] then None
    else if d[0].0 == k then Some(d[0].1)
    else
      assert Keys(d) == [d[0].0] + Keys(d[1..]);
      Get(d[1..], k)
  }

  /** `d[k] = v`: an existing key keeps its position, a new key goes last. */
  function Put<K(==), V>(d: seq<(K, V)>, k: K, v: V): (r: seq<(K, V)>)
    ensures k in Keys(d) ==> Keys(r) == Keys(d)
    ensures k !in Keys(d) ==> Keys(r) == Keys(d) + [k]
  {
    if d == [] then [(k, v)]
    else if d[0].0 == k then [(k, v)] + d[1..]
    else
      var r := [d[0]] + Put(d[1..], k, v);
      assert Keys(d) == [d[0].0] + Keys(d[1..]);
      assert Keys(r) == [d[0].0] + Keys(Put(d[1..], k, v));
      r
  }

  /** After `d[k] = v`, `d.get(k)` is `v` and every other key reads as before. */
  lemma {:induction false} GetPut<K, V>(d: seq<(K, V)>, k: K, v: V, k': K)
    ensures Get(Put(d, k, v), k') == if k' == k then Some(v) else Get(d, k')
  {
    if d != [] && d[0].0 != k {
      GetPut(d[1..], k, v, k');
    }
  }

  /** `d[k] = v` keeps the keys unique. */
  lemma PutUnique<K, V>(d: seq<(K, V)>, k: K, v: V)
    requires UniqueKeys(d)
    ensures UniqueKeys(Put(d, k, v))
  {
  }

  /**
   * `for k, v in zip(ks, vs): d[k] = v`, as the sequence of assignments the
   * game's recording loop performs.
   */
  function PutAll<K(==), V>(d: seq<(K, V)>, ks: seq<K>, vs: seq<V>): (r: seq<(K, V)>)
    requires |ks| == |vs|
    ensures |d| <= |r| <= |d| + |ks|
    decreases |ks|
  {
    if ks == [] then d
    else Put(PutAll(d, ks[..|ks| - 1], vs[..|vs| - 1]), ks[|ks| - 1], vs[|vs| - 1])
  }

  /** One more assignment extends the sequence of assignments by one. */
  lemma PutAllStep<K, V>(d: seq<(K, V)>, ks: seq<K>, vs: seq<V>, i: nat)
    requires |ks| == |vs| && i < |ks|
    ensures PutAll(d, ks[..i + 1], vs[..i + 1]) == Put(PutAll(d, ks[..i], vs[..i]), ks[i], vs[i])
  {
    assert ks[..i + 1][..i] == ks[..i];
    assert vs[..i + 1][..i] == vs[..i];
  }

  /**
   * After the assignments, a key holds the value of its LAST assignment; a key
   * that was not assigned keeps its old entry.
   */
  lemma {:induction false} GetPutAll<K, V>(d: seq<(K, V)>, ks: seq<K>, vs: seq<V>, k: K)
    requires |ks| == |vs|
    ensures k !in ks ==> Get(PutAll(d, ks, vs), k) == Get(d, k)
    ensures forall i :: 0 <= i < |ks| && ks[i] == k && (forall j :: i < j < |ks| ==> ks[j] != k) ==>
              Get(PutAll(d, ks, vs), k) == Some(vs[i])
    decreases |ks|
  {
    if ks != [] {
      var n := |ks| - 1;
      var ks', vs' := ks[..n], vs[..n];
      GetPutAll(d, ks', vs', k);
      GetPut(PutAll(d, ks', vs'), ks[n], vs[n], k);
      assert ks == ks' + [ks[n]];
      if ks[n] != k {
        forall i | 0 <= i < |ks| && ks[i] == k && (forall j :: i < j < |ks| ==> ks[j] != k)
          ensures Get(PutAll(d, ks, vs), k) == Some(vs[i])
        {
          assert i < n && ks'[i] == k && vs'[i] == vs[i];
          assert forall j :: i < j < n ==> ks'[j] == ks[j];
        }
      }
    }
  }

  /**
   * The assignments keep every key unique, and the keys already present keep
   * their positions: new keys only ever go to the end.
   */
  lemma {:induction false} PutAllKeys<K, V>(d: seq<(K, V)>, ks: seq<K>, vs: seq<V>)
    requires |ks| == |vs|
    ensures UniqueKeys(d) ==> UniqueKeys(PutAll(d, ks, vs))
    ensures |Keys(PutAll(d, ks, vs))| >= |Keys(d)|
    ensures Keys(PutAll(d, ks, vs))[..|d|] == Keys(d)
    ensures forall k :: k in Keys(PutAll(d, ks, vs)) <==> k in Keys(d) || k in ks
    decreases |ks|
  {
    if ks != [] {
      var n := |ks| - 1;
      PutAllKeys(d, ks[..n], vs[..n]);
      var prev := PutAll(d, ks[..n], vs[..n]);
      assert Keys(prev)[..|d|] == Keys(d);
      if UniqueKeys(prev) {
        PutUnique(prev, ks[n], vs[n]);
      }
      if ks[n] !in Keys(prev) {
        assert Keys(Put(prev, ks[n], vs[n]))[..|d|] == Keys(prev)[..|d|];
      }
      assert ks == ks[..n] + [ks[n]];
    }
  }
}
