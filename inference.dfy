/**
 * Type inference for one column: the type a single value suggests, the branch table that
 * merges it into the column's current type, and the column profile (type and longest string
 * length) that the scan keeps per column.
 *
 * Both engines create a column with the type VARCHAR(255); since the merge keeps VARCHAR
 * whenever the current type is VARCHAR, a column seeded that way can never become anything
 * else. `SeedAsWritten` is that seed. The model's engine uses `Unset` instead: no type until
 * the first non-empty value, whose inferred type becomes the column's type.
 */
module Inference {
  import opened JsHost

  datatype SqlType = Varchar | Text | Int | BigInt | Decimal | DateTime {
    /** The type as it is written into the DDL. */
    function Name(): string {
      match this
      case Varchar => "VARCHAR(255)"
      case Text => "TEXT"
      case Int => "INT"
      case BigInt => "BIGINT"
      case Decimal => "DECIMAL(10, 2)"
      case DateTime => "DATETIME"
    }

    /** The type's name begins with the three letters INT. */
    predicate StartsWithInt() {
      |Name()| >= 3 && Name()[..3] == "INT"
    }
  }

  /** The engines compare type names as strings; the names are pairwise distinct, so comparing
      the datatype values is the same test. */
  lemma NameInjective(a: SqlType, b: SqlType)
    ensures a.Name() == b.Name() <==> a == b
  {
    if a != b {
      assert |a.Name()| != |b.Name()|;
    }
  }

  /** Among the six names only `INT` starts with "INT". */
  lemma StartsWithIntOnlyInt(t: SqlType)
    ensures t.StartsWithInt() <==> t == Int
  {
    if t != Int && |t.Name()| >= 3 {
      assert t.Name()[..3][0] == t.Name()[0];
    }
  }

  /** The two engines: the web server (`node.js`) and the command-line tool
      (`trash/migration_tool.mjs`), which takes its unique columns from the migration plan and
      stamps the DDL with the current time. */
  datatype Variant = WebServer | MigrationCli(uniqueColumns: seq<string>, now: string)

  /** A value that parses as a valid date and is shorter than 25 code units: the web server
      measures the value's text, the command-line tool the value itself, so there only a
      string qualifies. */
  predicate DateShaped(host: Host, variant: Variant, v: Scalar) {
    host.date(v).Some? &&
    match variant
    case WebServer => JsLength(StringOf(host, v)) < 25
    case MigrationCli(_, _) => v.Str? && JsLength(v.s) < 25
  }

  /** The type of a finite number: integers up to 2147483647 are INT, larger ones BIGINT, the
      rest DECIMAL. */
  function NumericType(x: real): SqlType {
    if IsIntegral(x) then (if x > 2147483647.0 then BigInt else Int) else Decimal
  }

  /** The type one non-empty value suggests: VARCHAR, overridden by the numeric type when the
      value reads as a finite number, overridden in turn by DATETIME when the value is
      date-shaped. */
  function InstantaneousType(host: Host, variant: Variant, v: Scalar): SqlType
    requires !IsEmpty(v)
  {
    if DateShaped(host, variant, v) then DateTime
    else match host.number(v)
      case Finite(x) => NumericType(x)
      case _ => Varchar
  }

  /** The classes a value falls into: DATETIME exactly for the date-shaped values (numeric or
      not), the numeric types exactly for the other finite numbers, VARCHAR for the rest; TEXT
      is never inferred. */
  lemma InstantaneousTypeClasses(host: Host, variant: Variant, v: Scalar)
    requires !IsEmpty(v)
    ensures var t := InstantaneousType(host, variant, v);
      t != Text &&
      (t == DateTime <==> DateShaped(host, variant, v)) &&
      (t == Varchar <==> !DateShaped(host, variant, v) && !host.number(v).Finite?) &&
      (t in {Int, BigInt, Decimal} <==> !DateShaped(host, variant, v) && host.number(v).Finite?) &&
      (t == Int ==> IsIntegral(host.number(v).x) && host.number(v).x <= 2147483647.0) &&
      (t == BigInt ==> IsIntegral(host.number(v).x) && host.number(v).x > 2147483647.0) &&
      (t == Decimal ==> !IsIntegral(host.number(v).x))
  {
  }

  /** The promotion branch table: the column's new type from the value's type and its current one. */
  function MergeType(inferred: SqlType, current: SqlType): SqlType {
    if inferred == Varchar || current == Varchar then Varchar
    else if inferred == Decimal && current.StartsWithInt() then Decimal
    else if inferred == BigInt && current == Int then BigInt
    else if inferred != current then inferred
    else current
  }

  /** VARCHAR absorbs: the merge gives VARCHAR exactly when one side is VARCHAR. */
  lemma MergeVarcharAbsorbing(inferred: SqlType, current: SqlType)
    ensures MergeType(inferred, current) == Varchar <==> inferred == Varchar || current == Varchar
  {
  }

  /** Between two non-VARCHAR types the inferred one always wins: the widening branches
      (DECIMAL over INT, BIGINT over INT) agree with the final overwrite, and a narrower value
      after a wider one narrows the column (INT after BIGINT gives INT), so the result depends
      on the order of the values. */
  lemma MergeTakesInferred(inferred: SqlType, current: SqlType)
    requires inferred != Varchar && current != Varchar
    ensures MergeType(inferred, current) == inferred
  {
    StartsWithIntOnlyInt(current);
  }

  /** What the scan remembers of a column: its type so far (none before its first non-empty
      value) and the longest string seen, in UTF-16 code units. */
  datatype Profile = Profile(dataType: Option<SqlType>, maxLength: nat)

  /** The profile of a new column in the model's engine. */
  const Unset := Profile(None, 0)

  /** The profile of a new column as both engines write it. */
  const SeedAsWritten := Profile(Some(Varchar), 0)

  /** The profile after one more value: empty values change nothing; a string can raise the
      maximum length; the inferred type is merged into the current one, or becomes the type
      if there is none yet. */
  function Observe(host: Host, variant: Variant, p: Profile, v: Scalar): Profile {
    if IsEmpty(v) then p
    else
      var inferred := InstantaneousType(host, variant, v);
      var len := if v.Str? && JsLength(v.s) > p.maxLength then JsLength(v.s) else p.maxLength;
      Profile(Some(if p.dataType.None? then inferred else MergeType(inferred, p.dataType.value)), len)
  }

  /** The profile after the values `vs`, in order. */
  function ObserveAll(host: Host, variant: Variant, p: Profile, vs: seq<Scalar>): Profile {
    if vs == [] then p else Observe(host, variant, ObserveAll(host, variant, p, vs[..|vs| - 1]), vs[|vs| - 1])
  }

  lemma ObserveAllAppend(host: Host, variant: Variant, p: Profile, vs: seq<Scalar>, v: Scalar)
    ensures ObserveAll(host, variant, p, vs + [v]) == Observe(host, variant, ObserveAll(host, variant, p, vs), v)
  {
    assert (vs + [v])[..|vs|] == vs;
  }

  lemma {:induction false} ObserveAllConcat(host: Host, variant: Variant, p: Profile, a: seq<Scalar>, b: seq<Scalar>)
    ensures ObserveAll(host, variant, p, a + b) == ObserveAll(host, variant, ObserveAll(host, variant, p, a), b)
    decreases |b|
  {
    if b == [] {
      assert a + b == a;
    } else {
      var b' := b[..|b| - 1];
      ObserveAllConcat(host, variant, p, a, b');
      assert a + b == (a + b') + [b[|b| - 1]];
      ObserveAllAppend(host, variant, p, a + b', b[|b| - 1]);
    }
  }

  /** Once a column is VARCHAR, no later value changes its type. */
  lemma {:induction false} VarcharIsPermanent(host: Host, variant: Variant, p: Profile, vs: seq<Scalar>)
    requires p.dataType == Some(Varchar)
    ensures ObserveAll(host, variant, p, vs).dataType == Some(Varchar)
  {
    if vs != [] {
      VarcharIsPermanent(host, variant, p, vs[..|vs| - 1]);
    }
  }

  /** As written, every column stays VARCHAR(255) whatever its values. */
  lemma AsWrittenStaysVarchar(host: Host, variant: Variant, vs: seq<Scalar>)
    ensures ObserveAll(host, variant, SeedAsWritten, vs).dataType == Some(Varchar)
  {
    VarcharIsPermanent(host, variant, SeedAsWritten, vs);
  }

  /** A column holding only the string "1" (a finite integer, not a date): as written it is
      VARCHAR(255), where the inference rules call for INT. */
  lemma AsWrittenCounterexample(host: Host, variant: Variant)
    requires host.number(Str("1")) == Finite(1.0) && host.date(Str("1")).None?
    ensures ObserveAll(host, variant, SeedAsWritten, [Str("1")]).dataType == Some(Varchar)
    ensures ObserveAll(host, variant, Unset, [Str("1")]).dataType == Some(Int)
  {
    assert [Str("1")][..0] == [];
    assert IsIntegral(1.0);
  }

  /** The index of the last non-empty value among the first `n`, if any. */
  function LastNonEmpty(vs: seq<Scalar>, n: nat): (r: Option<nat>)
    requires n <= |vs|
    ensures r.Some? ==> r.value < n && !IsEmpty(vs[r.value]) && forall j :: r.value < j < n ==> IsEmpty(vs[j])
    ensures r.None? ==> forall j :: 0 <= j < n ==> IsEmpty(vs[j])
  {
    if n == 0 then None else if !IsEmpty(vs[n - 1]) then Some(n - 1) else LastNonEmpty(vs, n - 1)
  }

  /** Starting from an unset profile: the column has no type iff all its values are empty; it
      is VARCHAR iff some non-empty value is inferred VARCHAR; otherwise its type is the type
      of its last non-empty value. */
  lemma {:induction false} CorrectedColumnType(host: Host, variant: Variant, vs: seq<Scalar>)
    ensures var t := ObserveAll(host, variant, Unset, vs).dataType;
      (t.None? <==> LastNonEmpty(vs, |vs|).None?) &&
      (t == Some(Varchar) <==> exists i :: 0 <= i < |vs| && !IsEmpty(vs[i]) && InstantaneousType(host, variant, vs[i]) == Varchar) &&
      (t.Some? && t != Some(Varchar) ==> t == Some(InstantaneousType(host, variant, vs[LastNonEmpty(vs, |vs|).value])))
  {
    if vs != [] {
      var pre := vs[..|vs| - 1];
      var v := vs[|vs| - 1];
      CorrectedColumnType(host, variant, pre);
      var before := ObserveAll(host, variant, Unset, pre);
      assert forall i :: 0 <= i < |pre| ==> pre[i] == vs[i];
      if before.dataType.Some? && !IsEmpty(v) {
        MergeVarcharAbsorbing(InstantaneousType(host, variant, v), before.dataType.value);
        if before.dataType != Some(Varchar) && InstantaneousType(host, variant, v) != Varchar {
          MergeTakesInferred(InstantaneousType(host, variant, v), before.dataType.value);
        }
      }
      if IsEmpty(v) {
        assert LastNonEmpty(vs, |vs|) == LastNonEmpty(pre, |pre|) by {
          LastNonEmptyPrefix(vs, |vs| - 1);
        }
      }
    }
  }

  lemma {:induction false} LastNonEmptyPrefix(vs: seq<Scalar>, n: nat)
    requires n <= |vs|
    ensures LastNonEmpty(vs, n) == LastNonEmpty(vs[..n], n)
    decreases n
  {
    if n > 0 {
      LastNonEmptyPrefix(vs, n - 1);
      assert vs[..n][..n - 1] == vs[..n - 1];
      LastNonEmptyPrefix(vs[..n], n - 1);
    }
  }

  /** The maximum length is the longest string among the values (or the starting maximum). */
  lemma {:induction false} MaxLengthIsLongest(host: Host, variant: Variant, p: Profile, vs: seq<Scalar>)
    ensures var m := ObserveAll(host, variant, p, vs).maxLength;
      m >= p.maxLength &&
      (forall i :: 0 <= i < |vs| && vs[i].Str? ==> m >= JsLength(vs[i].s)) &&
      (m == p.maxLength || exists i :: 0 <= i < |vs| && vs[i].Str? && m == JsLength(vs[i].s))
  {
    if vs != [] {
      var pre := vs[..|vs| - 1];
      MaxLengthIsLongest(host, variant, p, pre);
      assert forall i :: 0 <= i < |pre| ==> pre[i] == vs[i];
      var v := vs[|vs| - 1];
      if v == Str("") {
        assert JsLength(v.s) == 0;
      }
    }
  }
}
