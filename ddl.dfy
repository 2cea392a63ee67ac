/**
 * The `CREATE TABLE` script built from the column profiles. Each column becomes one line:
 * its name, its type (VARCHAR(255) promoted to TEXT past 255 characters), `NOT NULL` when
 * every record holds a non-empty value for it, and the primary-key and unique markers.
 *
 * The web server promotes inside the loop over the columns, marks the first column equal to
 * its primary-key candidate, and falls back to appending ` PRIMARY KEY` to the first line when
 * none matched. The command-line tool promotes in a separate pass first, marks the first
 * column whose name is `id` or equals the first column's name (so always the first column),
 * and appends ` UNIQUE` to the columns its plan lists as unique.
 */
module Ddl {
  import opened JsHost
  import opened Objects
  import opened Inference
  import opened Validation

  // ----- promotion to TEXT -----

  /** The type a column is declared with before promotion: a column that never held a
      non-empty value has no inferred type and is declared VARCHAR(255). */
  function ColumnType(p: Profile): SqlType {
    p.dataType.GetOr(Varchar)
  }

  /** A VARCHAR column whose longest string exceeds 255 characters becomes TEXT. */
  function Promote(p: Profile): Profile {
    if p.dataType == Some(Varchar) && p.maxLength > 255 then Profile(Some(Text), p.maxLength) else p
  }

  /** Promotion turns exactly the VARCHAR columns longer than 255 into TEXT, leaves every other
      type and every maximum length alone, and is idempotent. */
  lemma PromoteMeaning(p: Profile)
    ensures Promote(p).maxLength == p.maxLength
    ensures Promote(p).dataType == Some(Text) <==>
      p.dataType == Some(Text) || (p.dataType == Some(Varchar) && p.maxLength > 255)
    ensures Promote(p).dataType != Some(Text) ==> Promote(p) == p
    ensures Promote(Promote(p)) == Promote(p)
  {
  }

  /** The profiles after the promotion pass. */
  function Promoted(defs: Dict<Profile>): Dict<Profile> {
    if defs == [] then [] else Promoted(defs[..|defs| - 1]) + [(defs[|defs| - 1].0, Promote(defs[|defs| - 1].1))]
  }

  /** The pass renames nothing and moves nothing: entry `i` keeps its name and has its profile
      promoted. */
  lemma {:induction false} PromotedEntries(defs: Dict<Profile>)
    ensures |Promoted(defs)| == |defs|
    ensures forall i :: 0 <= i < |defs| ==> Promoted(defs)[i] == (defs[i].0, Promote(defs[i].1))
  {
    if defs != [] {
      var init := defs[..|defs| - 1];
      PromotedEntries(init);
      forall i | 0 <= i < |init| ensures init[i] == defs[i] {
      }
    }
  }

  /** The promotion pass of the command-line tool, which rewrites the profiles in place. */
  method PromoteLongVarchars(defs: Dict<Profile>) returns (promoted: Dict<Profile>)
    ensures promoted == Promoted(defs)
  {
    promoted := defs;
    var i := 0;
    while i < |promoted|
      invariant 0 <= i <= |promoted| == |defs|
      invariant forall j :: 0 <= j < i ==> promoted[j] == (defs[j].0, Promote(defs[j].1))
      invariant forall j :: i <= j < |defs| ==> promoted[j] == defs[j]
    {
      var def := promoted[i].1;
      if def.dataType == Some(Varchar) && def.maxLength > 255 {
        promoted := promoted[i := (promoted[i].0, Profile(Some(Text), def.maxLength))];
      }
      i := i + 1;
    }
    PromotedEntries(defs);
  }

  /** The pass keeps the column names, and so keeps them distinct. */
  lemma PromotedKeys(defs: Dict<Profile>)
    ensures Keys(Promoted(defs)) == Keys(defs)
    ensures DistinctKeys(defs) ==> DistinctKeys(Promoted(defs))
  {
    PromotedEntries(defs);
    assert Keys(Promoted(defs)) == Keys(defs);
  }

  /** A second pass changes nothing. */
  lemma PromotedIdempotent(defs: Dict<Profile>)
    ensures Promoted(Promoted(defs)) == Promoted(defs)
  {
    var once := Promoted(defs);
    PromotedEntries(defs);
    PromotedEntries(once);
    forall i | 0 <= i < |once| ensures Promoted(once)[i] == once[i] {
      PromoteMeaning(defs[i].1);
    }
  }

  // ----- the column lines -----

  /** Some record lacks the column or holds null or the empty string in it: the column is
      nullable. */
  predicate HasEmptyValue(records: seq<Dict<Scalar>>, name: string) {
    exists r :: r in records && IsEmpty(ValueAt(r, name))
  }

  /** A type that earns a primary key AUTO_INCREMENT: its name starts with INT or it is BIGINT,
      which among the six names holds for INT and BIGINT only (`StartsWithIntOnlyInt`). */
  predicate IsNumericType(t: SqlType) {
    t == Int || t == BigInt
  }

  /** The type written for column `p`: the web server promotes it on the spot, the
      command-line tool has promoted it before. */
  function DeclaredType(variant: Variant, p: Profile): SqlType {
    if variant.WebServer? then ColumnType(Promote(p)) else ColumnType(p)
  }

  /** The name test of the primary-key branch, for the column at position `i`. */
  predicate PkCondition(variant: Variant, candidate: Option<string>, cols: seq<string>, i: nat)
    requires i < |cols|
  {
    match variant
    case WebServer => candidate == Some(cols[i])
    case MigrationCli(_, _) => cols[i] == "id" || cols[i] == cols[0]
  }

  /** The first position from `i` on that passes the name test. */
  function FirstPkFrom(variant: Variant, candidate: Option<string>, cols: seq<string>, i: nat): (r: Option<nat>)
    requires i <= |cols|
    ensures r.Some? ==> (i <= r.value < |cols| && PkCondition(variant, candidate, cols, r.value) &&
      forall j :: i <= j < r.value ==> !PkCondition(variant, candidate, cols, j))
    ensures r.None? ==> forall j :: i <= j < |cols| ==> !PkCondition(variant, candidate, cols, j)
    decreases |cols| - i
  {
    if i == |cols| then None
    else if PkCondition(variant, candidate, cols, i) then Some(i)
    else FirstPkFrom(variant, candidate, cols, i + 1)
  }

  /** The column the loop marks as primary key, if any. */
  function PkMatch(variant: Variant, candidate: Option<string>, cols: seq<string>): Option<nat> {
    FirstPkFrom(variant, candidate, cols, 0)
  }

  /** What one line of the table declares. */
  datatype ColumnDecl = ColumnDecl(
    name: string,
    sqlType: SqlType,
    notNull: bool,
    autoIncrement: bool,
    primaryKey: bool,
    unique: bool)

  /** The text of a column line. */
  function Line(d: ColumnDecl): string {
    "  `" + d.name + "` " + d.sqlType.Name()
      + (if d.notNull then " NOT NULL" else "")
      + (if d.autoIncrement then " AUTO_INCREMENT" else "")
      + (if d.primaryKey then " PRIMARY KEY" else "")
      + (if d.unique then " UNIQUE" else "")
  }

  /** The declaration the loop builds for column `i`, before the web server's fallback. */
  function LoopDecl(variant: Variant, candidate: Option<string>, defs: Dict<Profile>, records: seq<Dict<Scalar>>, i: nat): ColumnDecl
    requires i < |defs|
  {
    var name := defs[i].0;
    var t := DeclaredType(variant, defs[i].1);
    var marked := PkMatch(variant, candidate, Keys(defs)) == Some(i);
    ColumnDecl(name, t, !HasEmptyValue(records, name), marked && IsNumericType(t), marked,
      variant.MigrationCli? && name in variant.uniqueColumns)
  }

  /** The web server's fallback applies: no column passed the name test. */
  predicate FallbackApplies(variant: Variant, candidate: Option<string>, defs: Dict<Profile>) {
    variant.WebServer? && PkMatch(variant, candidate, Keys(defs)).None? && |defs| > 0
  }

  /** The declaration of column `i` in the finished table. */
  function Decl(variant: Variant, candidate: Option<string>, defs: Dict<Profile>, records: seq<Dict<Scalar>>, i: nat): ColumnDecl
    requires i < |defs|
  {
    var d := LoopDecl(variant, candidate, defs, records, i);
    if i == 0 && FallbackApplies(variant, candidate, defs) then d.(primaryKey := true) else d
  }

  /** Appending ` PRIMARY KEY` to a line without key markers is the line of the same column
      declared as primary key. */
  lemma FallbackLine(d: ColumnDecl)
    requires !d.primaryKey && !d.unique
    ensures Line(d.(primaryKey := true)) == Line(d) + " PRIMARY KEY"
  {
  }

  /** The body of the loop over the columns, for column `i`: its line appended to the lines so
      far, and whether the primary key is set afterwards. `pk` is the position the name test
      marks, if any. */
  method ColumnLine(variant: Variant, candidate: Option<string>, defs: Dict<Profile>, records: seq<Dict<Scalar>>,
                    i: nat, primaryKeySet: bool, ghost pk: Option<nat>, columnDDLs: seq<string>)
    returns (newLines: seq<string>, pkSet: bool)
    requires i < |defs| && pk == PkMatch(variant, candidate, Keys(defs))
    requires primaryKeySet <==> pk.Some? && pk.value < i
    requires columnDDLs == LinesBefore(variant, candidate, defs, records, i)
    ensures newLines == LinesBefore(variant, candidate, defs, records, i + 1)
    ensures pkSet <==> pk.Some? && pk.value <= i
  {
    var columnName := defs[i].0;
    var def := defs[i].1;
    if variant.WebServer? {
      def := Promote(def);
    }
    var dataType := ColumnType(def);
    var isNumericPKCandidate := dataType.StartsWithInt() || dataType == BigInt;
    StartsWithIntOnlyInt(dataType);
    var hasNulls := HasEmptyValue(records, columnName);
    var marked := !primaryKeySet && PkCondition(variant, candidate, Keys(defs), i);
    var unique := variant.MigrationCli? && columnName in variant.uniqueColumns;
    var decl := ColumnDecl(columnName, dataType, !hasNulls, marked && isNumericPKCandidate, marked, unique);
    assert decl == LoopDecl(variant, candidate, defs, records, i);
    AppendLine(variant, candidate, defs, records, i, columnDDLs);
    newLines := columnDDLs + [Line(decl)];
    pkSet := primaryKeySet || marked;
  }

  /** `f(0)`, ..., `f(n - 1)`. */
  function Prefix<T>(f: nat -> T, n: nat): (s: seq<T>)
    ensures |s| == n
  {
    if n == 0 then [] else Prefix(f, n - 1) + [f(n - 1)]
  }

  lemma {:induction false} PrefixAt<T>(f: nat -> T, n: nat, i: nat)
    requires i < n
    ensures Prefix(f, n)[i] == f(i)
  {
    if i < n - 1 {
      PrefixAt(f, n - 1, i);
    }
  }

  /** The line the loop builds for column `j`. */
  function LineOf(variant: Variant, candidate: Option<string>, defs: Dict<Profile>, records: seq<Dict<Scalar>>): nat -> string {
    (j: nat) => if j < |defs| then Line(LoopDecl(variant, candidate, defs, records, j)) else ""
  }

  /** The lines the loop has built after its first `n` rounds. */
  function LinesBefore(variant: Variant, candidate: Option<string>, defs: Dict<Profile>, records: seq<Dict<Scalar>>, n: nat)
    : (built: seq<string>)
  {
    Prefix(LineOf(variant, candidate, defs, records), n)
  }

  /** Appending the line of column `n` to the first `n` lines gives the first `n + 1`. */
  lemma AppendLine(variant: Variant, candidate: Option<string>, defs: Dict<Profile>, records: seq<Dict<Scalar>>, n: nat,
                   lines: seq<string>)
    requires n < |defs| && lines == LinesBefore(variant, candidate, defs, records, n)
    ensures lines + [Line(LoopDecl(variant, candidate, defs, records, n))] == LinesBefore(variant, candidate, defs, records, n + 1)
  {
    assert LinesBefore(variant, candidate, defs, records, n + 1)
      == lines + [LineOf(variant, candidate, defs, records)(n)];
  }

  /** The lines the loop builds, one per column. */
  function LoopLines(variant: Variant, candidate: Option<string>, defs: Dict<Profile>, records: seq<Dict<Scalar>>): seq<string> {
    LinesBefore(variant, candidate, defs, records, |defs|)
  }

  /** The lines of the finished table: the loop's lines, with ` PRIMARY KEY` appended to the
      first when the fallback applies. */
  function Lines(variant: Variant, candidate: Option<string>, defs: Dict<Profile>, records: seq<Dict<Scalar>>): seq<string> {
    var built := LoopLines(variant, candidate, defs, records);
    if FallbackApplies(variant, candidate, defs) then built[0 := built[0] + " PRIMARY KEY"] else built
  }

  /** The table has one line per column, in column order, and line `i` declares column `i`. */
  lemma LinesAt(variant: Variant, candidate: Option<string>, defs: Dict<Profile>, records: seq<Dict<Scalar>>, i: nat)
    requires i < |defs|
    ensures |Lines(variant, candidate, defs, records)| == |defs|
    ensures Lines(variant, candidate, defs, records)[i] == Line(Decl(variant, candidate, defs, records, i))
  {
    PrefixAt(LineOf(variant, candidate, defs, records), |defs|, i);
    if i == 0 && FallbackApplies(variant, candidate, defs) {
      FallbackLine(LoopDecl(variant, candidate, defs, records, 0));
    }
  }

  /** The loop over the columns: one line each, and whether some line was marked. */
  method LoopOverColumns(variant: Variant, candidate: Option<string>, defs: Dict<Profile>, records: seq<Dict<Scalar>>)
    returns (columnDDLs: seq<string>, primaryKeySet: bool)
    ensures columnDDLs == LoopLines(variant, candidate, defs, records)
    ensures primaryKeySet <==> PkMatch(variant, candidate, Keys(defs)).Some?
  {
    ghost var pk := PkMatch(variant, candidate, Keys(defs));
    columnDDLs := [];
    primaryKeySet := false;
    var i := 0;
    while i < |defs|
      invariant 0 <= i <= |defs|
      invariant columnDDLs == LinesBefore(variant, candidate, defs, records, i)
      invariant primaryKeySet <==> pk.Some? && pk.value < i
    {
      columnDDLs, primaryKeySet := ColumnLine(variant, candidate, defs, records, i, primaryKeySet, pk, columnDDLs);
      i := i + 1;
    }
  }

  method ColumnLines(variant: Variant, candidate: Option<string>, defs: Dict<Profile>, records: seq<Dict<Scalar>>)
    returns (columnDDLs: seq<string>)
    ensures columnDDLs == Lines(variant, candidate, defs, records)
  {
    var primaryKeySet;
    columnDDLs, primaryKeySet := LoopOverColumns(variant, candidate, defs, records);
    if variant.WebServer? && !primaryKeySet && |columnDDLs| > 0 {
      columnDDLs := columnDDLs[0 := columnDDLs[0] + " PRIMARY KEY"];
    }
  }

  // ----- what the lines declare -----

  /** When the table has columns, exactly one of them is the primary key. */
  lemma ExactlyOnePrimaryKey(variant: Variant, candidate: Option<string>, defs: Dict<Profile>, records: seq<Dict<Scalar>>)
    requires |defs| > 0
    ensures exists i :: 0 <= i < |defs| && Decl(variant, candidate, defs, records, i).primaryKey
    ensures forall i, j :: (0 <= i < |defs| && 0 <= j < |defs| &&
      Decl(variant, candidate, defs, records, i).primaryKey && Decl(variant, candidate, defs, records, j).primaryKey) ==> i == j
  {
    var m := PkMatch(variant, candidate, Keys(defs));
    if variant.MigrationCli? {
      assert PkCondition(variant, candidate, Keys(defs), 0);
    }
    if m.Some? {
      assert Decl(variant, candidate, defs, records, m.value).primaryKey;
    } else {
      assert Decl(variant, candidate, defs, records, 0).primaryKey;
    }
  }

  /** In the command-line tool the primary key is always the first column; the `id` test never
      decides anything. */
  lemma CliPrimaryKeyIsFirst(uniqueColumns: seq<string>, now: string, candidate: Option<string>, defs: Dict<Profile>, records: seq<Dict<Scalar>>, i: nat)
    requires i < |defs|
    ensures Decl(MigrationCli(uniqueColumns, now), candidate, defs, records, i).primaryKey <==> i == 0
  {
    assert PkCondition(MigrationCli(uniqueColumns, now), candidate, Keys(defs), 0);
  }

  /** A column is the primary key when it is the first to pass the name test, or when it is the
      first column and the fallback applies. */
  lemma PrimaryKeyOf(variant: Variant, candidate: Option<string>, defs: Dict<Profile>, records: seq<Dict<Scalar>>, i: nat)
    requires i < |defs|
    ensures Decl(variant, candidate, defs, records, i).primaryKey <==>
      PkMatch(variant, candidate, Keys(defs)) == Some(i) || (i == 0 && FallbackApplies(variant, candidate, defs))
  {
  }

  /** In the web server the name test marks the column named by the candidate, if some column
      has that name. */
  lemma WebServerMatch(candidate: Option<string>, cols: seq<string>, i: nat)
    requires i < |cols| && forall a, b :: 0 <= a < b < |cols| ==> cols[a] != cols[b]
    ensures PkMatch(WebServer, candidate, cols) == Some(i) || (i == 0 && PkMatch(WebServer, candidate, cols).None?) <==>
      if candidate.Some? && candidate.value in cols then cols[i] == candidate.value else i == 0
  {
    var m := PkMatch(WebServer, candidate, cols);
    if candidate.Some? && candidate.value in cols {
      var k :| 0 <= k < |cols| && cols[k] == candidate.value;
      assert PkCondition(WebServer, candidate, cols, k);
      assert m.Some? && cols[m.value] == candidate.value;
      assert m == Some(k);
    } else {
      assert m.None?;
    }
  }

  /** In the web server the primary key is the column named by the candidate when there is
      one, and the first column otherwise. */
  lemma WebServerPrimaryKey(candidate: Option<string>, defs: Dict<Profile>, records: seq<Dict<Scalar>>, i: nat)
    requires i < |defs| && DistinctKeys(defs)
    ensures Decl(WebServer, candidate, defs, records, i).primaryKey <==>
      if candidate.Some? && candidate.value in Keys(defs) then defs[i].0 == candidate.value else i == 0
  {
    PrimaryKeyOf(WebServer, candidate, defs, records, i);
    WebServerMatch(candidate, Keys(defs), i);
  }

  /** AUTO_INCREMENT is declared only on the primary key, and there exactly when the key passed
      the name test and is INT or BIGINT; a fallback key never gets it. */
  lemma AutoIncrementRule(variant: Variant, candidate: Option<string>, defs: Dict<Profile>, records: seq<Dict<Scalar>>, i: nat)
    requires i < |defs|
    ensures var d := Decl(variant, candidate, defs, records, i);
      d.autoIncrement <==> d.primaryKey && !FallbackApplies(variant, candidate, defs) && (d.sqlType.StartsWithInt() || d.sqlType == BigInt)
    ensures var d := Decl(variant, candidate, defs, records, i);
      d.autoIncrement ==> d.sqlType in {Int, BigInt}
  {
    StartsWithIntOnlyInt(DeclaredType(variant, defs[i].1));
  }

  /** NOT NULL is declared exactly when every record, valid or not, holds a non-empty value
      under the column's name. */
  lemma NotNullRule(variant: Variant, candidate: Option<string>, defs: Dict<Profile>, records: seq<Dict<Scalar>>, i: nat)
    requires i < |defs|
    ensures Decl(variant, candidate, defs, records, i).notNull <==>
      forall r :: r in records ==> HasKey(r, defs[i].0) && !IsEmpty(Get(r, defs[i].0).value)
  {
  }

  /** UNIQUE is declared only by the command-line tool, exactly on the columns of its plan,
      the primary key included. */
  lemma UniqueRule(variant: Variant, candidate: Option<string>, defs: Dict<Profile>, records: seq<Dict<Scalar>>, i: nat)
    requires i < |defs|
    ensures Decl(variant, candidate, defs, records, i).unique <==>
      variant.MigrationCli? && defs[i].0 in variant.uniqueColumns
  {
  }

  /** The declared type is the promoted type in both engines once the command-line tool has
      run its promotion pass. */
  lemma DeclaredTypeAfterPass(uniqueColumns: seq<string>, now: string, p: Profile)
    ensures DeclaredType(MigrationCli(uniqueColumns, now), Promote(p)) == DeclaredType(WebServer, p)
  {
  }

  // ----- the script -----

  /** The script the web server returns. */
  function WebServerScript(tableName: string, lines: seq<string>): string {
    "\n        DROP TABLE IF EXISTS `" + tableName + "`;\n        \n        CREATE TABLE `" + tableName + "` (\n            "
      + Join(lines, ",\n") + "\n        ) ENGINE=InnoDB DEFAULT CHARSET=utf8mb4;\n    "
  }

  /** The script the command-line tool returns, stamped with the time `now`. */
  function CliScript(tableName: string, now: string, lines: seq<string>): string {
    "\n-- Script SQL generado por DataMigrator CLI\n-- Tabla: " + tableName + "\n-- Fecha: " + now
      + "\n\nDROP TABLE IF EXISTS `" + tableName + "`;\n\nCREATE TABLE `" + tableName + "` (\n"
      + Join(lines, ",\n") + "\n) ENGINE=InnoDB DEFAULT CHARSET=utf8mb4;\n"
  }

  function Script(variant: Variant, tableName: string, lines: seq<string>): string {
    match variant
    case WebServer => WebServerScript(tableName, lines)
    case MigrationCli(_, now) => CliScript(tableName, now, lines)
  }
}
