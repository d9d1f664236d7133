/**
 * An ordered keyed table with the key semantics of a plain JavaScript object
 * (and of a PHP array with string keys): assigning to a new key appends it,
 * assigning to an existing key replaces its value in place and keeps its
 * position.
 */
module AssocList {
  import opened Wrappers

  type Table<K, V> = seq<(K, V)>

  function Keys<K(==), V>(t: Table<K, V>): (ks: seq<K>)
    ensures |ks| == |t| && forall i :: 0 <= i < |t| ==> ks[i] == t[i].0
  {
    if t == [] then [] else [t[0].0] + Keys(t[1..])
  }

  /** No key appears twice. */
  predicate UniqueKeys<K(==), V>(t: Table<K, V>) {
    forall i, j :: 0 <= i < j < |t| ==> t[i].0 != t[j].0
  }

  /** `t[k]`: the value stored under the first entry with key `k`. */
  function Get<K(==), V>(t: Table<K, V>, k: K): Option<V> {
    if t == [] then None
    else if t[0].0 == k then Some(t[0].1)
    else Get(t[1..], k)
  }

  /** A key is missing exactly when no entry has it; otherwise the value is the first entry's. */
  lemma {:induction false} GetSpec<K, V>(t: Table<K, V>, k: K)
    ensures Get(t, k).None? <==> k !in Keys(t)
    ensures Get(t, k).Some? ==>
      exists i :: 0 <= i < |t| && t[i] == (k, Get(t, k).value) && (forall j :: 0 <= j < i ==> t[j].0 != k)
  {
    if t != [] && t[0].0 != k {
      GetSpec(t[1..], k);
      assert Keys(t) == [t[0].0] + Keys(t[1..]);
      if Get(t, k).Some? {
        var i :| 0 <= i < |t| - 1 && t[1..][i] == (k, Get(t, k).value) &&
          forall j :: 0 <= j < i ==> t[1..][j].0 != k;
        assert t[i + 1] == (k, Get(t, k).value);
        assert forall j :: 0 <= j < i + 1 ==> t[j].0 != k by {
          forall j | 0 <= j < i + 1 ensures t[j].0 != k {
            if j > 0 { assert t[j] == t[1..][j - 1]; }
          }
        }
      }
    }
  }

  /** `t[k] = v`. */
  function Put<K(==), V>(t: Table<K, V>, k: K, v: V): Table<K, V> {
    if t == [] then [(k, v)]
    else if t[0].0 == k then [(k, v)] + t[1..]
    else [t[0]] + Put(t[1..], k, v)
  }

  /** A new key is appended; an existing key keeps its place, and other entries are untouched. */
  lemma {:induction false} PutShape<K, V>(t: Table<K, V>, k: K, v: V)
    ensures k !in Keys(t) ==> Put(t, k, v) == t + [(k, v)]
    ensures k in Keys(t) ==> |Put(t, k, v)| == |t| && Keys(Put(t, k, v)) == Keys(t)
    ensures forall i :: 0 <= i < |t| && t[i].0 != k ==> Put(t, k, v)[i] == t[i]
  {
    if t != [] && t[0].0 != k {
      PutShape(t[1..], k, v);
      assert Keys(t) == [t[0].0] + Keys(t[1..]);
      assert Keys(Put(t, k, v)) == [t[0].0] + Keys(Put(t[1..], k, v));
    }
  }

  /** After `t[k] = v`, reading `k` gives `v` and every other key reads as before. */
  lemma {:induction false} GetPut<K, V>(t: Table<K, V>, k: K, v: V, k': K)
    ensures Get(Put(t, k, v), k') == if k' == k then Some(v) else Get(t, k')
  {
    if t != [] && t[0].0 != k {
      GetPut(t[1..], k, v, k');
      assert Put(t, k, v)[1..] == Put(t[1..], k, v);
    }
  }

  /** A table built only by `Put` never holds a key twice. */
  lemma {:induction false} PutKeepsUnique<K, V>(t: Table<K, V>, k: K, v: V)
    requires UniqueKeys(t)
    ensures UniqueKeys(Put(t, k, v))
  {
    var r := Put(t, k, v);
    PutShape(t, k, v);
    if k in Keys(t) {
      assert Keys(r) == Keys(t);
      forall i, j | 0 <= i < j < |r| ensures r[i].0 != r[j].0 {
        assert r[i].0 == Keys(r)[i] == Keys(t)[i] == t[i].0;
        assert r[j].0 == Keys(r)[j] == Keys(t)[j] == t[j].0;
      }
    } else {
      forall i | 0 <= i < |t| ensures t[i].0 != k {
        assert Keys(t)[i] == t[i].0;
      }
    }
  }

  /** `t[k] = v` for each entry `(k, v)` in turn. */
  function PutAll<K(==), V>(t: Table<K, V>, es: seq<(K, V)>): Table<K, V> {
    if es == [] then t
    else Put(PutAll(t, es[..|es| - 1]), es[|es| - 1].0, es[|es| - 1].1)
  }

  /** Reading a `PutAll` table: the last entry if it has the key, otherwise the table without it. */
  lemma GetPutAllLast<K, V>(t: Table<K, V>, es: seq<(K, V)>, key: K)
    requires es != []
    ensures Get(PutAll(t, es), key)
         == if key == es[|es| - 1].0 then Some(es[|es| - 1].1) else Get(PutAll(t, es[..|es| - 1]), key)
  {
    GetPut(PutAll(t, es[..|es| - 1]), es[|es| - 1].0, es[|es| - 1].1, key);
  }

  /** An entry's value is the one stored under its key unless a later entry has the same key. */
  lemma {:induction false} PutAllLastWins<K, V>(t: Table<K, V>, es: seq<(K, V)>, k: nat)
    requires k < |es|
    requires forall m :: k < m < |es| ==> es[m].0 != es[k].0
    ensures Get(PutAll(t, es), es[k].0) == Some(es[k].1)
  {
    var n := |es| - 1;
    GetPutAllLast(t, es, es[k].0);
    if k < n {
      assert es[..n][k] == es[k];
      PutAllLastWins(t, es[..n], k);
    }
  }

  /** The keys stored are exactly the table's keys and the entries' keys. */
  lemma {:induction false} PutAllKeys<K, V>(t: Table<K, V>, es: seq<(K, V)>, key: K)
    ensures Get(PutAll(t, es), key).Some? <==>
      Get(t, key).Some? || exists k :: 0 <= k < |es| && es[k].0 == key
  {
    if es != [] {
      var n := |es| - 1;
      GetPutAllLast(t, es, key);
      PutAllKeys(t, es[..n], key);
      if exists k :: 0 <= k < |es| && es[k].0 == key {
        var k :| 0 <= k < |es| && es[k].0 == key;
        if k < n {
          assert es[..n][k] == es[k];
        }
      }
      if exists k :: 0 <= k < n && es[..n][k].0 == key {
        var k :| 0 <= k < n && es[..n][k].0 == key;
        assert es[k] == es[..n][k];
      }
    }
  }

  /** A table built by `PutAll` from one without repeated keys has none either. */
  lemma {:induction false} PutAllUnique<K, V>(t: Table<K, V>, es: seq<(K, V)>)
    requires UniqueKeys(t)
    ensures UniqueKeys(PutAll(t, es))
  {
    if es != [] {
      var n := |es| - 1;
      PutAllUnique(t, es[..n]);
      PutKeepsUnique(PutAll(t, es[..n]), es[n].0, es[n].1);
    }
  }

  /** Every value read from a `PutAll` table was in the table before or is one of the entries. */
  lemma {:induction false} PutAllFrom<K, V>(t: Table<K, V>, es: seq<(K, V)>, key: K, v: V)
    requires Get(PutAll(t, es), key) == Some(v)
    ensures Get(t, key) == Some(v) || (key, v) in es
  {
    if es != [] {
      var n := |es| - 1;
      GetPutAllLast(t, es, key);
      if key != es[n].0 {
        PutAllFrom(t, es[..n], key, v);
        if (key, v) in es[..n] {
          var m :| 0 <= m < n && es[..n][m] == (key, v);
          assert es[m] == (key, v);
        }
      } else {
        assert es[n] == (key, v);
      }
    }
  }
}
