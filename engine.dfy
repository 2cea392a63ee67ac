/**
 * Inference and validation of one table: one pass over the records (profiles, validation,
 * duplicates), then the DDL script. The result holds the script, the valid records, the
 * number of rejected records and the error log.
 *
 * The web server is only called with at least one record (it reads the keys of the first);
 * the command-line tool returns an empty result for no records.
 */
module Engine {
  import opened JsHost
  import opened Objects
  import opened Inference
  import opened Validation
  import opened Scan
  import opened Ddl

  datatype Outcome = Outcome(
    ddl: string,
    validRecords: seq<Dict<Scalar>>,
    errorCount: nat,
    errorDetails: seq<ErrorEntry>)

  /** The column profiles the DDL is built from: the command-line tool's promotion pass has
      run over them, the web server's promotion happens line by line. */
  function FinalDefs(host: Host, variant: Variant, records: seq<Dict<Scalar>>): Dict<Profile> {
    var defs := ScanAll(host, variant, records).defs;
    if variant.MigrationCli? then Promoted(defs) else defs
  }

  /** The result of `inferAndValidate`. */
  function Result(host: Host, variant: Variant, tableName: string, records: seq<Dict<Scalar>>): Outcome
    requires variant.WebServer? ==> |records| > 0
  {
    if variant.MigrationCli? && records == [] then Outcome("", [], 0, [])
    else
      var st := ScanAll(host, variant, records);
      var lines := Lines(variant, PkCandidate(records), FinalDefs(host, variant, records), records);
      Outcome(Script(variant, tableName, lines), st.valid, |st.errors|, st.errors)
  }

  method InferAndValidate(host: Host, variant: Variant, tableName: string, records: seq<Dict<Scalar>>)
    returns (out: Outcome)
    requires variant.WebServer? ==> |records| > 0
    ensures out == Result(host, variant, tableName, records)
  {
    if variant.MigrationCli? && |records| == 0 {
      return Outcome("", [], 0, []);
    }
    var primaryKeyCandidate := PkCandidate(records);
    var st := ScanRecords(host, variant, records);
    var columnDefinitions := st.defs;
    if variant.MigrationCli? {
      columnDefinitions := PromoteLongVarchars(columnDefinitions);
    }
    var columnDDLs := ColumnLines(variant, primaryKeyCandidate, columnDefinitions, records);
    var ddlScript := Script(variant, tableName, columnDDLs);
    out := Outcome(ddlScript, st.valid, |st.errors|, st.errors);
  }

  // ----- the records -----

  /** The reasons of every record, in input order. */
  function AllVerdicts(host: Host, variant: Variant, records: seq<Dict<Scalar>>): (vs: seq<seq<Reason>>)
    ensures |vs| == |records|
    ensures forall j :: 0 <= j < |records| ==> vs[j] == RowReasons(host, variant, UniqueColumns(variant, records), records, j)
  {
    Verdicts(host, variant, UniqueColumns(variant, records), records, |records|)
  }

  /** Every record is either valid or logged: the valid records are, in input order, exactly the
      records without a reason; the log holds one entry per rejected record, in input order,
      with its 1-based row and all its reasons; the error count is the length of the log. */
  lemma RecordsArePartitioned(host: Host, variant: Variant, tableName: string, records: seq<Dict<Scalar>>)
    requires variant.WebServer? ==> |records| > 0
    ensures |Result(host, variant, tableName, records).validRecords| + Result(host, variant, tableName, records).errorCount == |records|
    ensures Result(host, variant, tableName, records).errorCount == |Result(host, variant, tableName, records).errorDetails|
    ensures |Result(host, variant, tableName, records).validRecords| == |CleanIndexes(AllVerdicts(host, variant, records), |records|)|
    ensures forall i :: 0 <= i < |Result(host, variant, tableName, records).validRecords| ==>
      Result(host, variant, tableName, records).validRecords[i] == records[CleanIndexes(AllVerdicts(host, variant, records), |records|)[i]]
    ensures WellFormedLog(records, AllVerdicts(host, variant, records), Result(host, variant, tableName, records).errorDetails, |records|)
    ensures forall j :: 0 <= j < |records| && AllVerdicts(host, variant, records)[j] != [] ==>
      Logged(Result(host, variant, tableName, records).errorDetails, j + 1)
  {
    var vs := AllVerdicts(host, variant, records);
    if records != [] {
      SplitSizes(records, vs, |records|);
      SplitKeepsClean(records, vs, |records|);
      SplitErrorEntries(records, vs, |records|);
      forall j | 0 <= j < |records| && vs[j] != [] ensures Logged(Split(records, vs, |records|).1, j + 1) {
        SplitLogsRejected(records, vs, |records|, j);
      }
    }
  }

  // ----- the columns -----

  /** A key is a column exactly when some record has it. */
  lemma {:induction false} KeysAfterMembers(ks: seq<string>, record: Dict<Scalar>, n: nat, k: string)
    requires n <= |record|
    ensures k in KeysAfter(ks, record, n) <==> k in ks || exists m :: 0 <= m < n && record[m].0 == k
  {
    if n > 0 {
      KeysAfterMembers(ks, record, n - 1, k);
    }
  }

  lemma {:induction false} FirstSeenColumnsMembers(records: seq<Dict<Scalar>>, n: nat, k: string)
    requires n <= |records|
    ensures k in FirstSeenColumns(records, n) <==> exists j :: 0 <= j < n && HasKey(records[j], k)
  {
    if n > 0 {
      FirstSeenColumnsMembers(records, n - 1, k);
      KeysAfterMembers(FirstSeenColumns(records, n - 1), records[n - 1], |records[n - 1]|, k);
      if exists j :: 0 <= j < n && HasKey(records[j], k) {
        var j :| 0 <= j < n && HasKey(records[j], k);
        if j == n - 1 {
          var m :| 0 <= m < |records[j]| && records[j][m].0 == k;
        }
      }
    }
  }

  /** The table's columns are the keys of the records, each once, in order of first appearance;
      each column is declared with the promoted type of the fold of its values, in order, from
      an unset profile. */
  lemma ColumnsOfTheTable(host: Host, variant: Variant, records: seq<Dict<Scalar>>, i: nat)
    requires i < |FinalDefs(host, variant, records)|
    ensures Keys(FinalDefs(host, variant, records)) == FirstSeenColumns(records, |records|)
    ensures DistinctKeys(FinalDefs(host, variant, records))
    ensures var name := FinalDefs(host, variant, records)[i].0;
      Decl(variant, PkCandidate(records), FinalDefs(host, variant, records), records, i).sqlType
        == ColumnType(Promote(ObserveAll(host, variant, Unset, ColumnValues(records, name, |records|))))
  {
    var defs := ScanAll(host, variant, records).defs;
    var final := FinalDefs(host, variant, records);
    ColumnsInFirstSeenOrder(host, variant, records, |records|);
    PromotedEntries(defs);
    assert |final| == |defs|;
    var name := defs[i].0;
    GetAt(defs, i);
    ProfileIsColumnFold(host, variant, records, |records|, name);
    if variant.MigrationCli? {
      PromotedKeys(defs);
      assert final[i] == (name, Promote(defs[i].1));
    }
  }

  /** In the web server the primary key is the first key of the first record; when that record
      has no key, it is the first column. */
  lemma WebServerKeyIsFirstKey(host: Host, records: seq<Dict<Scalar>>, i: nat)
    requires |records| > 0 && i < |FinalDefs(host, WebServer, records)|
    ensures Decl(WebServer, PkCandidate(records), FinalDefs(host, WebServer, records), records, i).primaryKey <==>
      if |records[0]| > 0 then FinalDefs(host, WebServer, records)[i].0 == records[0][0].0 else i == 0
  {
    var defs := FinalDefs(host, WebServer, records);
    ColumnsOfTheTable(host, WebServer, records, i);
    if |records[0]| > 0 {
      FirstSeenColumnsMembers(records, |records|, records[0][0].0);
      assert HasKey(records[0], records[0][0].0);
    }
    WebServerPrimaryKey(PkCandidate(records), defs, records, i);
  }
}
