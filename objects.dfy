/**
 * A JavaScript plain object with string keys, as an association list in insertion order.
 * Writing a property keeps the position of an existing key and replaces its value, and
 * appends a new key at the end. (Integer-like keys, which JavaScript enumerates first,
 * are not treated specially.)
 */
module Objects {
  import opened JsHost

  type Dict<V> = seq<(string, V)>

  /** The keys in insertion order. */
  function Keys<V>(d: Dict<V>): (ks: seq<string>)
    ensures |ks| == |d|
    ensures forall i :: 0 <= i < |d| ==> ks[i] == d[i].0
  {
    if d == [] then [] else [d[0].0] + Keys(d[1..])
  }

  predicate DistinctKeys<V>(d: Dict<V>) {
    forall i, j :: 0 <= i < j < |d| ==> d[i].0 != d[j].0
  }

  predicate HasKey<V>(d: Dict<V>, k: string) {
    exists i :: 0 <= i < |d| && d[i].0 == k
  }

  /** Reading a property, with None standing for `undefined` (the key is absent). */
  function Get<V>(d: Dict<V>, k: string): (r: Option<V>)
    ensures r.None? <==> !HasKey(d, k)
  {
    if d == [] then None
    else if d[0].0 == k then Some(d[0].1)
    else Get(d[1..], k)
  }

  /** Writing a property. */
  function Put<V>(d: Dict<V>, k: string, v: V): Dict<V> {
    if d == [] then [(k, v)]
    else if d[0].0 == k then [(k, v)] + d[1..]
    else [d[0]] + Put(d[1..], k, v)
  }

  /** Assignment semantics of a plain object: the written key reads back the new value and
      every other key reads as before. */
  lemma {:induction false} GetPut<V>(d: Dict<V>, k: string, v: V)
    ensures Get(Put(d, k, v), k) == Some(v)
    ensures forall k' :: k' != k ==> Get(Put(d, k, v), k') == Get(d, k')
  {
    if d != [] && d[0].0 != k {
      GetPut(d[1..], k, v);
    }
  }

  lemma HasKeyTail<V>(d: Dict<V>, k: string)
    requires d != [] && d[0].0 != k
    ensures HasKey(d, k) <==> HasKey(d[1..], k)
  {
    if HasKey(d, k) {
      var i :| 0 <= i < |d| && d[i].0 == k;
      assert d[1..][i - 1] == d[i];
    }
    if HasKey(d[1..], k) {
      var i :| 0 <= i < |d[1..]| && d[1..][i].0 == k;
      assert d[i + 1] == d[1..][i];
    }
  }

  /** An existing key keeps its position, a new key goes last. */
  lemma {:induction false} PutPlacement<V>(d: Dict<V>, k: string, v: V)
    ensures HasKey(d, k) ==> Keys(Put(d, k, v)) == Keys(d)
    ensures !HasKey(d, k) ==> Put(d, k, v) == d + [(k, v)]
  {
    if d != [] && d[0].0 != k {
      HasKeyTail(d, k);
      PutPlacement(d[1..], k, v);
      assert d == [d[0]] + d[1..];
    }
  }

  /** Writing never repeats a key. */
  lemma {:induction false} PutDistinct<V>(d: Dict<V>, k: string, v: V)
    requires DistinctKeys(d)
    ensures DistinctKeys(Put(d, k, v))
  {
    var r := Put(d, k, v);
    PutPlacement(d, k, v);
    if HasKey(d, k) {
      forall i, j | 0 <= i < j < |r| ensures r[i].0 != r[j].0 {
        assert Keys(r)[i] == Keys(d)[i] && Keys(r)[j] == Keys(d)[j];
      }
    } else {
      forall i, j | 0 <= i < j < |r| ensures r[i].0 != r[j].0 {
        if j == |d| {
          assert r[i] == d[i];
        } else {
          assert r[i] == d[i] && r[j] == d[j];
        }
      }
    }
  }

  lemma {:induction false} HasKeyIsInKeys<V>(d: Dict<V>, k: string)
    ensures HasKey(d, k) <==> k in Keys(d)
  {
    if HasKey(d, k) {
      var i :| 0 <= i < |d| && d[i].0 == k;
      assert Keys(d)[i] == k;
    }
    if k in Keys(d) {
      var i :| 0 <= i < |Keys(d)| && Keys(d)[i] == k;
      assert d[i].0 == k;
    }
  }

  /** `ks` with `k` appended unless already present: the first-seen order of keys. */
  function AppendNew(ks: seq<string>, k: string): seq<string> {
    if k in ks then ks else ks + [k]
  }

  lemma KeysPut<V>(d: Dict<V>, k: string, v: V)
    ensures Keys(Put(d, k, v)) == AppendNew(Keys(d), k)
  {
    PutPlacement(d, k, v);
    HasKeyIsInKeys(d, k);
    if !HasKey(d, k) {
      assert Keys(d + [(k, v)]) == Keys(d) + [k];
    }
  }

  /** `KeysPut` for a dictionary whose keys are already known to be `ks`. */
  lemma KeysOfPut<V>(d: Dict<V>, k: string, v: V, ks: seq<string>)
    requires Keys(d) == ks
    ensures Keys(Put(d, k, v)) == AppendNew(ks, k)
  {
    KeysPut(d, k, v);
  }

  /** Looking a key up in a record with distinct keys finds the entry that holds it. */
  lemma {:induction false} GetAt<V>(d: Dict<V>, i: nat)
    requires DistinctKeys(d) && i < |d|
    ensures Get(d, d[i].0) == Some(d[i].1)
  {
    if i > 0 {
      assert d[0].0 != d[i].0;
      assert d[1..][i - 1] == d[i];
      GetAt(d[1..], i - 1);
    }
  }
}
