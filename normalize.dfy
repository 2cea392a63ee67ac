/**
 * The record normalisers that run after parsing. The web server sanitises every key of a
 * flattened record and turns every array value into one string (elements joined by ", ",
 * object and array elements JSON-stringified first); the command-line tool only sanitises
 * the keys. Both write each value under its sanitised key, so two keys that sanitise alike end
 * up as one entry: in the position of the first, with the value of the last.
 */
module Normalize {
  import opened JsHost
  import opened Objects
  import opened Names
  import Flatten

  /** How joining an array renders one element once objects have been turned into text. */
  function ElementText(host: Host, e: Raw): string {
    match e
    case Leaf(v) => if v == Null || v == Undefined then "" else StringOf(host, v)
    case _ => host.stringify(e)
  }

  function ElementTexts(host: Host, items: seq<Raw>): (ts: seq<string>)
    ensures |ts| == |items|
    ensures forall i :: 0 <= i < |items| ==> ts[i] == ElementText(host, items[i])
  {
    if items == [] then [] else [ElementText(host, items[0])] + ElementTexts(host, items[1..])
  }

  /** An array value as text: object elements are JSON-encoded, then all elements are joined
      with a comma and a space. */
  function ArrayText(host: Host, items: seq<Raw>): string {
    Join(ElementTexts(host, items), ", ")
  }

  /** The value the web server stores for one flattened value (never a nested object). */
  function NormalValue(host: Host, v: Raw): Scalar
    requires !v.Obj?
  {
    if v.Arr? then Str(ArrayText(host, v.items)) else v.v
  }

  /** The record with its values converted and its keys still as they were. */
  function Converted(host: Host, rec: Dict<Raw>): (r: Dict<Scalar>)
    requires Flatten.IsFlat(rec)
    ensures |r| == |rec|
    ensures forall i :: 0 <= i < |rec| ==> r[i] == (rec[i].0, NormalValue(host, rec[i].1))
  {
    if rec == [] then []
    else
      assert Flatten.IsFlat(rec[1..]) by {
        forall i | 0 <= i < |rec[1..]| ensures !rec[1..][i].1.Obj? { assert rec[1..][i] == rec[i + 1]; }
      }
      [(rec[0].0, NormalValue(host, rec[0].1))] + Converted(host, rec[1..])
  }

  /** The object after the first `n` entries have been written under their sanitised keys. */
  function RekeyPrefix<V>(rec: Dict<V>, n: nat): Dict<V>
    requires n <= |rec|
  {
    if n == 0 then [] else Objects.Put(RekeyPrefix(rec, n - 1), SanitizeKey(rec[n - 1].0), rec[n - 1].1)
  }

  function Rekeyed<V>(rec: Dict<V>): Dict<V> {
    RekeyPrefix(rec, |rec|)
  }

  /** The web server's normalised record. */
  function Normalized(host: Host, rec: Dict<Raw>): Dict<Scalar>
    requires Flatten.IsFlat(rec)
  {
    Rekeyed(Converted(host, rec))
  }

  /** The normalise step of the web server, for one flattened record. */
  method NormalizeRecord(host: Host, record: Dict<Raw>) returns (newRecord: Dict<Scalar>)
    requires Flatten.IsFlat(record)
    ensures newRecord == Normalized(host, record)
  {
    ghost var converted := Converted(host, record);
    newRecord := [];
    var i := 0;
    while i < |record|
      invariant 0 <= i <= |record|
      invariant newRecord == RekeyPrefix(converted, i)
    {
      var sanitizedKey := SanitizeKey(record[i].0);
      var value := record[i].1;
      var text: Scalar;
      if value.Arr? {
        text := Str(ArrayText(host, value.items));
      } else {
        text := value.v;
      }
      newRecord := Objects.Put(newRecord, sanitizedKey, text);
      i := i + 1;
    }
  }

  /** The key normaliser of the command-line tool, for one record. */
  method SanitizeRecordKeys<V>(record: Dict<V>) returns (newRecord: Dict<V>)
    ensures newRecord == Rekeyed(record)
  {
    newRecord := [];
    var i := 0;
    while i < |record|
      invariant 0 <= i <= |record|
      invariant newRecord == RekeyPrefix(record, i)
    {
      newRecord := Objects.Put(newRecord, SanitizeKey(record[i].0), record[i].1);
      i := i + 1;
    }
  }

  /** The value of the last entry whose key sanitises to `k`, if any. */
  function LastWriter<V>(rec: Dict<V>, n: nat, k: string): Option<V>
    requires n <= |rec|
  {
    if n == 0 then None
    else if SanitizeKey(rec[n - 1].0) == k then Some(rec[n - 1].1)
    else LastWriter(rec, n - 1, k)
  }

  /** Colliding keys: the entry under a sanitised name holds the value of the last original key
      that sanitises to it, and names no original key sanitises to are absent. */
  lemma {:induction false} RekeyedLastWriteWins<V>(rec: Dict<V>, n: nat, k: string)
    requires n <= |rec|
    ensures Get(RekeyPrefix(rec, n), k) == LastWriter(rec, n, k)
  {
    if n > 0 {
      RekeyedLastWriteWins(rec, n - 1, k);
      GetPut(RekeyPrefix(rec, n - 1), SanitizeKey(rec[n - 1].0), rec[n - 1].1);
    }
  }

  /** The sanitised names in first-seen order. */
  function FirstSeenNames<V>(rec: Dict<V>, n: nat): seq<string>
    requires n <= |rec|
  {
    if n == 0 then [] else AppendNew(FirstSeenNames(rec, n - 1), SanitizeKey(rec[n - 1].0))
  }

  /** The keys of the result are the sanitised names in order of first occurrence. */
  lemma {:induction false} RekeyedKeys<V>(rec: Dict<V>, n: nat)
    requires n <= |rec|
    ensures Keys(RekeyPrefix(rec, n)) == FirstSeenNames(rec, n)
  {
    if n > 0 {
      RekeyedKeys(rec, n - 1);
      KeysOfPut(RekeyPrefix(rec, n - 1), SanitizeKey(rec[n - 1].0), rec[n - 1].1, FirstSeenNames(rec, n - 1));
    }
  }

  /** No key appears twice in the result. */
  lemma {:induction false} RekeyedDistinct<V>(rec: Dict<V>, n: nat)
    requires n <= |rec|
    ensures DistinctKeys(RekeyPrefix(rec, n))
  {
    if n > 0 {
      RekeyedDistinct(rec, n - 1);
      PutDistinct(RekeyPrefix(rec, n - 1), SanitizeKey(rec[n - 1].0), rec[n - 1].1);
    }
  }

  /** Every first-seen name is a sanitised name. */
  lemma {:induction false} FirstSeenNamesSanitized<V>(rec: Dict<V>, n: nat)
    requires n <= |rec|
    ensures forall k :: k in FirstSeenNames(rec, n) ==> IsSanitized(k)
  {
    if n > 0 {
      FirstSeenNamesSanitized(rec, n - 1);
      SanitizeKeyMeaning(rec[n - 1].0);
    }
  }

  /** Every key of the result is a sanitised name, and no name appears twice. */
  lemma RekeyedClean<V>(rec: Dict<V>)
    ensures DistinctKeys(Rekeyed(rec))
    ensures forall i :: 0 <= i < |Rekeyed(rec)| ==> IsSanitized(Rekeyed(rec)[i].0)
  {
    var r := Rekeyed(rec);
    RekeyedKeys(rec, |rec|);
    RekeyedDistinct(rec, |rec|);
    FirstSeenNamesSanitized(rec, |rec|);
    forall i | 0 <= i < |r| ensures IsSanitized(r[i].0) {
      assert Keys(r)[i] == r[i].0;
    }
  }

  /** A record whose keys are already distinct sanitised names is left unchanged: normalising
      is idempotent. */
  lemma {:induction false} RekeyedCleanIsIdentity<V>(rec: Dict<V>, n: nat)
    requires n <= |rec| && DistinctKeys(rec)
    requires forall i :: 0 <= i < |rec| ==> IsSanitized(rec[i].0)
    ensures RekeyPrefix(rec, n) == rec[..n]
  {
    if n > 0 {
      RekeyedCleanIsIdentity(rec, n - 1);
      var pre := rec[..n - 1];
      SanitizeKeyFixesSanitized(rec[n - 1].0);
      forall i | 0 <= i < |pre| ensures pre[i].0 != rec[n - 1].0 {
        assert pre[i] == rec[i];
      }
      PutPlacement(pre, rec[n - 1].0, rec[n - 1].1);
      assert rec[..n] == pre + [rec[n - 1]];
    }
  }

  /** A normalised record, read back as parsed values. */
  function AsRaw(rec: Dict<Scalar>): (r: Dict<Raw>)
    ensures |r| == |rec| && Flatten.IsFlat(r)
    ensures forall i :: 0 <= i < |rec| ==> r[i] == (rec[i].0, Leaf(rec[i].1))
  {
    if rec == [] then [] else [(rec[0].0, Leaf(rec[0].1))] + AsRaw(rec[1..])
  }

  /** Normalising a normalised record changes nothing. */
  lemma NormalizeIdempotent(host: Host, rec: Dict<Raw>)
    requires Flatten.IsFlat(rec)
    ensures Normalized(host, AsRaw(Normalized(host, rec))) == Normalized(host, rec)
  {
    var once := Normalized(host, rec);
    RekeyedClean(Converted(host, rec));
    assert Converted(host, AsRaw(once)) == once;
    RekeyedCleanIsIdentity(once, |once|);
    assert once[..|once|] == once;
  }
}
