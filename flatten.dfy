/**
 * Flattening a nested record: the walk visits the keys of a plain object, descends
 * into every value that is a non-null, non-array object, and writes every other value (scalar,
 * null or array) into the shared accumulator `res` under the joined key `parent_child`.
 */
module Flatten {
  import opened JsHost
  import opened Objects

  /** The key of a child: the parent's key, `_` and the child's key; just the child's key at the
      top level, where the parent key is empty. */
  function JoinKey(parent: string, key: string): string {
    if parent == "" then key else parent + "_" + key
  }

  /** The accumulator `res` that every level of the recursion writes into. */
  class Accumulator {
    var entries: Dict<Raw>

    constructor ()
      ensures entries == []
    {
      entries := [];
    }

    /** A property write on the accumulator. */
    method Put(key: string, val: Raw)
      modifies this
      ensures entries == Objects.Put(old(entries), key, val)
    {
      entries := Objects.Put(entries, key, val);
    }
  }

  /** The accumulator after the first `n` keys of the object `obj` have been visited, starting
      from `acc`. */
  function FlattenPrefix(obj: Raw, n: nat, parent: string, acc: Dict<Raw>): Dict<Raw>
    requires obj.Obj? && n <= |obj.fields|
    decreases obj, n
  {
    if n == 0 then acc
    else
      var before := FlattenPrefix(obj, n - 1, parent, acc);
      var field := obj.fields[n - 1];
      assert field in obj.fields;
      var newKey := JoinKey(parent, field.0);
      if field.1.Obj? then FlattenPrefix(field.1, |field.1.fields|, newKey, before)
      else Objects.Put(before, newKey, field.1)
  }

  /** The flattened form of a plain object: its walk from an empty accumulator. */
  function Flattened(obj: Raw): Dict<Raw>
    requires obj.Obj?
  {
    FlattenPrefix(obj, |obj.fields|, "", [])
  }

  /** No value of the dictionary is a plain object. */
  predicate IsFlat(d: Dict<Raw>) {
    forall i :: 0 <= i < |d| ==> !d[i].1.Obj?
  }

  method FlattenInto(record: Raw, parentKey: string, res: Accumulator)
    requires record.Obj?
    modifies res
    ensures res.entries == FlattenPrefix(record, |record.fields|, parentKey, old(res.entries))
    decreases record
  {
    var i := 0;
    while i < |record.fields|
      invariant 0 <= i <= |record.fields|
      invariant res.entries == FlattenPrefix(record, i, parentKey, old(res.entries))
    {
      var field := record.fields[i];
      assert field in record.fields;
      var newKey := JoinKey(parentKey, field.0);
      ghost var before := res.entries;
      if field.1.Obj? {
        FlattenInto(field.1, newKey, res);
      } else {
        res.Put(newKey, field.1);
      }
      assert res.entries == FlattenPrefix(record, i + 1, parentKey, old(res.entries)) by {
        assert before == FlattenPrefix(record, i, parentKey, old(res.entries));
      }
      i := i + 1;
    }
  }

  /** Flattening a record: a fresh accumulator filled by the recursive walk. The result has
      no nested object left and no key twice. */
  method FlattenRecord(record: Raw) returns (flat: Dict<Raw>)
    requires record.Obj?
    ensures flat == Flattened(record)
    ensures IsFlat(flat) && DistinctKeys(flat)
  {
    var res := new Accumulator();
    FlattenInto(record, "", res);
    flat := res.entries;
    FlattenIsFlat(record, |record.fields|, "", []);
  }

  /** Flattening writes no nested object and keeps the keys distinct. */
  lemma {:induction false} FlattenIsFlat(obj: Raw, n: nat, parent: string, acc: Dict<Raw>)
    requires obj.Obj? && n <= |obj.fields|
    requires IsFlat(acc) && DistinctKeys(acc)
    ensures IsFlat(FlattenPrefix(obj, n, parent, acc)) && DistinctKeys(FlattenPrefix(obj, n, parent, acc))
    decreases obj, n
  {
    if n > 0 {
      FlattenIsFlat(obj, n - 1, parent, acc);
      var before := FlattenPrefix(obj, n - 1, parent, acc);
      var field := obj.fields[n - 1];
      assert field in obj.fields;
      var newKey := JoinKey(parent, field.0);
      if field.1.Obj? {
        FlattenIsFlat(field.1, |field.1.fields|, newKey, before);
      } else {
        PutKeepsFlat(before, newKey, field.1);
        PutDistinct(before, newKey, field.1);
      }
    }
  }

  lemma {:induction false} PutKeepsFlat(d: Dict<Raw>, k: string, v: Raw)
    requires IsFlat(d) && !v.Obj?
    ensures IsFlat(Objects.Put(d, k, v))
  {
    if d != [] && d[0].0 != k {
      PutKeepsFlat(d[1..], k, v);
    }
  }

  /** `k` has the form `parent_child`. */
  predicate IsChildKey(k: string, parent: string) {
    |k| > |parent| && k[..|parent| + 1] == parent + "_"
  }

  lemma ChildOfChild(k: string, parent: string, key: string)
    requires parent != "" && IsChildKey(k, JoinKey(parent, key))
    ensures IsChildKey(k, parent)
  {
    var nk := JoinKey(parent, key);
    assert nk[..|parent| + 1] == parent + "_";
    assert k[..|parent| + 1] == k[..|nk| + 1][..|parent| + 1];
  }

  /** Every key written below a non-empty parent key is named `parent_child`. */
  lemma {:induction false} FlattenKeysArePrefixed(obj: Raw, n: nat, parent: string, acc: Dict<Raw>)
    requires obj.Obj? && n <= |obj.fields| && parent != ""
    ensures forall k :: HasKey(FlattenPrefix(obj, n, parent, acc), k) ==> HasKey(acc, k) || IsChildKey(k, parent)
    decreases obj, n
  {
    if n > 0 {
      FlattenKeysArePrefixed(obj, n - 1, parent, acc);
      var before := FlattenPrefix(obj, n - 1, parent, acc);
      var field := obj.fields[n - 1];
      assert field in obj.fields;
      var newKey := JoinKey(parent, field.0);
      var after := FlattenPrefix(obj, n, parent, acc);
      if field.1.Obj? {
        assert after == FlattenPrefix(field.1, |field.1.fields|, newKey, before);
        FlattenKeysArePrefixed(field.1, |field.1.fields|, newKey, before);
        forall k | HasKey(after, k) && !HasKey(before, k) ensures IsChildKey(k, parent) {
          ChildOfChild(k, parent, field.0);
        }
      } else {
        assert after == Objects.Put(before, newKey, field.1);
        GetPut(before, newKey, field.1);
        assert IsChildKey(newKey, parent);
        forall k | HasKey(after, k) && k != newKey ensures HasKey(before, k) {
          assert Get(after, k).Some?;
        }
      }
    }
  }

  /** Flattening an object that is already flat (no nested object, no repeated key) gives back
      its own entries: flattening is idempotent. */
  lemma {:induction false} FlattenFlatIsIdentity(obj: Raw, n: nat)
    requires obj.Obj? && n <= |obj.fields|
    requires IsFlat(obj.fields) && DistinctKeys(obj.fields)
    ensures FlattenPrefix(obj, n, "", []) == obj.fields[..n]
  {
    if n > 0 {
      FlattenFlatIsIdentity(obj, n - 1);
      var field := obj.fields[n - 1];
      var pre := obj.fields[..n - 1];
      forall i | 0 <= i < |pre| ensures pre[i].0 != field.0 {
        assert pre[i] == obj.fields[i];
      }
      PutPlacement(pre, field.0, field.1);
      assert obj.fields[..n] == pre + [field];
    }
  }

  lemma FlattenIdempotent(obj: Raw)
    requires obj.Obj?
    ensures Flattened(Obj(Flattened(obj))) == Flattened(obj)
  {
    FlattenIsFlat(obj, |obj.fields|, "", []);
    var flat := Flattened(obj);
    FlattenFlatIsIdentity(Obj(flat), |flat|);
    assert flat[..|flat|] == flat;
  }
}
