/**
 * The single pass of `inferAndValidate` over the records. For every record it walks the fields
 * in order, updating the column profiles and collecting the field reasons; it then runs the
 * duplicate check over the unique columns; a record with no reason is kept, any other goes to
 * the error log with its 1-based row index and its reasons.
 *
 * The web server checks one column for duplicates, the first key of the first record (the
 * primary-key candidate); when that record has no key the candidate is `undefined`, which
 * as an object key reads `"undefined"`. The command-line tool checks the plan's unique columns.
 */
module Scan {
  import opened JsHost
  import opened Objects
  import opened Inference
  import opened Validation

  datatype ErrorEntry = ErrorEntry(rowIndex: nat, record: Dict<Scalar>, reasons: seq<Reason>)

  /** The column profiles, the values seen per unique column, the valid records and the log. */
  datatype ScanState = ScanState(
    defs: Dict<Profile>,
    seen: map<string, set<Scalar>>,
    valid: seq<Dict<Scalar>>,
    errors: seq<ErrorEntry>)

  /** The first key of the first record, if it has one. */
  function PkCandidate(records: seq<Dict<Scalar>>): Option<string> {
    if |records| > 0 && |records[0]| > 0 then Some(records[0][0].0) else None
  }

  /** The columns the duplicate check runs over, in order. */
  function UniqueColumns(variant: Variant, records: seq<Dict<Scalar>>): seq<string> {
    match variant
    case WebServer => [PkCandidate(records).GetOr("undefined")]
    case MigrationCli(cols, _) => cols
  }

  /** The column profiles after the first `n` fields of `record`: a missing column is created
      unset, then the value is observed. */
  function ObserveFields(host: Host, variant: Variant, defs: Dict<Profile>, record: Dict<Scalar>, n: nat): Dict<Profile>
    requires n <= |record|
  {
    if n == 0 then defs
    else
      var before := ObserveFields(host, variant, defs, record, n - 1);
      var k := record[n - 1].0;
      Objects.Put(before, k, Observe(host, variant, Get(before, k).GetOr(Unset), record[n - 1].1))
  }

  /** The field reasons of the first `n` fields of `record`, in order. */
  function RecordReasons(host: Host, variant: Variant, record: Dict<Scalar>, n: nat): seq<Reason>
    requires n <= |record|
  {
    if n == 0 then [] else RecordReasons(host, variant, record, n - 1) + FieldReasons(host, variant, record[n - 1].0, record[n - 1].1)
  }

  /** The column profiles after the first `n` records. */
  function DefsPrefix(host: Host, variant: Variant, records: seq<Dict<Scalar>>, n: nat): Dict<Profile>
    requires n <= |records|
  {
    if n == 0 then [] else ObserveFields(host, variant, DefsPrefix(host, variant, records, n - 1), records[n - 1], |records[n - 1]|)
  }

  /** The duplicate tracker after the first `n` records. */
  function SeenPrefix(cols: seq<string>, records: seq<Dict<Scalar>>, n: nat): map<string, set<Scalar>>
    requires n <= |records|
  {
    if n == 0 then map[] else UniquePrefix(SeenPrefix(cols, records, n - 1), records[n - 1], cols, |cols|).0
  }

  /** All the reasons record `j` collects: its field reasons, then its duplicate reasons. */
  function RowReasons(host: Host, variant: Variant, cols: seq<string>, records: seq<Dict<Scalar>>, j: nat): seq<Reason>
    requires j < |records|
  {
    RecordReasons(host, variant, records[j], |records[j]|)
      + UniquePrefix(SeenPrefix(cols, records, j), records[j], cols, |cols|).1
  }

  /** The reasons of every record, in order. */
  function Verdicts(host: Host, variant: Variant, cols: seq<string>, records: seq<Dict<Scalar>>, n: nat): (vs: seq<seq<Reason>>)
    requires n <= |records|
    ensures |vs| == n
    ensures forall j :: 0 <= j < n ==> vs[j] == RowReasons(host, variant, cols, records, j)
  {
    if n == 0 then [] else Verdicts(host, variant, cols, records, n - 1) + [RowReasons(host, variant, cols, records, n - 1)]
  }

  /** Sorting the first `n` records by their verdicts: a record with no reason is kept, any other
      is logged with its 1-based row index and its reasons. */
  function Split(records: seq<Dict<Scalar>>, verdicts: seq<seq<Reason>>, n: nat): (seq<Dict<Scalar>>, seq<ErrorEntry>)
    requires |verdicts| == |records| && n <= |records|
  {
    if n == 0 then ([], [])
    else
      var prev := Split(records, verdicts, n - 1);
      if verdicts[n - 1] == [] then (prev.0 + [records[n - 1]], prev.1)
      else (prev.0, prev.1 + [ErrorEntry(n, records[n - 1], verdicts[n - 1])])
  }

  /** The state after the first `n` records. */
  function ScanPrefix(host: Host, variant: Variant, cols: seq<string>, records: seq<Dict<Scalar>>, n: nat): ScanState
    requires n <= |records|
  {
    var split := Split(records, Verdicts(host, variant, cols, records, |records|), n);
    ScanState(DefsPrefix(host, variant, records, n), SeenPrefix(cols, records, n), split.0, split.1)
  }

  /** One iteration of the loop over the records, for record `r` at 1-based row `row`. */
  function Step(host: Host, variant: Variant, cols: seq<string>, st: ScanState, r: Dict<Scalar>, row: nat): ScanState {
    var defs := ObserveFields(host, variant, st.defs, r, |r|);
    var unique := UniquePrefix(st.seen, r, cols, |cols|);
    var reasons := RecordReasons(host, variant, r, |r|) + unique.1;
    if reasons == [] then ScanState(defs, unique.0, st.valid + [r], st.errors)
    else ScanState(defs, unique.0, st.valid, st.errors + [ErrorEntry(row, r, reasons)])
  }

  /** The loop over the records advances the state one record at a time. */
  lemma ScanPrefixStep(host: Host, variant: Variant, cols: seq<string>, records: seq<Dict<Scalar>>, n: nat)
    requires 0 < n <= |records|
    ensures ScanPrefix(host, variant, cols, records, n)
      == Step(host, variant, cols, ScanPrefix(host, variant, cols, records, n - 1), records[n - 1], n)
  {
    var v := Verdicts(host, variant, cols, records, |records|);
    assert v[n - 1] == RowReasons(host, variant, cols, records, n - 1);
  }

  function ScanAll(host: Host, variant: Variant, records: seq<Dict<Scalar>>): ScanState {
    ScanPrefix(host, variant, UniqueColumns(variant, records), records, |records|)
  }

  // ----- the loops -----

  /** The body of the loop over the keys: the updated profile of the value's column and the
      reasons the value adds. */
  method ObserveValue(host: Host, variant: Variant, key: string, def: Profile, value: Scalar)
    returns (newDef: Profile, reasons: seq<Reason>)
    ensures newDef == Observe(host, variant, def, value)
    ensures reasons == FieldReasons(host, variant, key, value)
  {
    newDef := def;
    reasons := [];
    if !IsEmpty(value) {
      var inferredType := Varchar;
      var numValue := host.number(value);
      var maxLength := def.maxLength;
      if value.Str? && JsLength(value.s) > maxLength {
        maxLength := JsLength(value.s);
      }
      if numValue.Finite? {
        inferredType := NumericType(numValue.x);
        if numValue.x < 0.0 && key != "price" && key != "amount" {
          reasons := reasons + [NegativeNumber(key, numValue.x)];
        }
      }
      if DateShaped(host, variant, value) {
        inferredType := DateTime;
        if value.Str? && FebruaryFlag(host, value.s) {
          reasons := reasons + [ImpossibleFebruary(value.s)];
        }
      }
      var dataType := if def.dataType.None? then inferredType else MergeType(inferredType, def.dataType.value);
      newDef := Profile(Some(dataType), maxLength);
    }
  }

  /** The body of the loop over the keys, for field `i` of `record`. */
  method ObserveField(host: Host, variant: Variant, defs: Dict<Profile>, record: Dict<Scalar>, i: nat,
                      curDefs: Dict<Profile>, curReasons: seq<Reason>)
    returns (newDefs: Dict<Profile>, reasons: seq<Reason>)
    requires i < |record|
    requires curDefs == ObserveFields(host, variant, defs, record, i)
    requires curReasons == RecordReasons(host, variant, record, i)
    ensures newDefs == ObserveFields(host, variant, defs, record, i + 1)
    ensures reasons == RecordReasons(host, variant, record, i + 1)
  {
    var (key, value) := record[i];
    var def := Get(curDefs, key).GetOr(Unset);
    var valueReasons;
    def, valueReasons := ObserveValue(host, variant, key, def, value);
    newDefs := Objects.Put(curDefs, key, def);
    reasons := curReasons + valueReasons;
  }

  /** The loop over the keys of one record. */
  method ObserveRecord(host: Host, variant: Variant, defs: Dict<Profile>, record: Dict<Scalar>)
    returns (newDefs: Dict<Profile>, reasons: seq<Reason>)
    ensures newDefs == ObserveFields(host, variant, defs, record, |record|)
    ensures reasons == RecordReasons(host, variant, record, |record|)
  {
    newDefs := defs;
    reasons := [];
    var i := 0;
    while i < |record|
      invariant 0 <= i <= |record|
      invariant newDefs == ObserveFields(host, variant, defs, record, i)
      invariant reasons == RecordReasons(host, variant, record, i)
    {
      newDefs, reasons := ObserveField(host, variant, defs, record, i, newDefs, reasons);
      i := i + 1;
    }
  }

  /** The loop over the unique columns for one record. */
  method CheckUnique(seen: map<string, set<Scalar>>, record: Dict<Scalar>, cols: seq<string>)
    returns (newSeen: map<string, set<Scalar>>, reasons: seq<Reason>)
    ensures newSeen == UniquePrefix(seen, record, cols, |cols|).0
    ensures reasons == UniquePrefix(seen, record, cols, |cols|).1
  {
    newSeen := seen;
    reasons := [];
    var i := 0;
    while i < |cols|
      invariant 0 <= i <= |cols|
      invariant newSeen == UniquePrefix(seen, record, cols, i).0
      invariant reasons == UniquePrefix(seen, record, cols, i).1
    {
      var col := cols[i];
      var val := ValueAt(record, col);
      if !IsEmpty(val) {
        if col !in newSeen {
          newSeen := newSeen[col := {}];
        }
        if val in newSeen[col] {
          reasons := reasons + [DuplicateValue(col, val)];
        } else {
          newSeen := newSeen[col := newSeen[col] + {val}];
        }
      }
      i := i + 1;
    }
  }

  /** The body of the loop over the records, for the record at 0-based `rowIndex`. */
  method ProcessRecord(host: Host, variant: Variant, uniqueColumns: seq<string>, st: ScanState, record: Dict<Scalar>, rowIndex: nat)
    returns (next: ScanState)
    ensures next == Step(host, variant, uniqueColumns, st, record, rowIndex + 1)
  {
    var columnDefinitions, fieldReasons := ObserveRecord(host, variant, st.defs, record);
    var uniqueValueTracker, duplicateReasons := CheckUnique(st.seen, record, uniqueColumns);
    var recordErrors := fieldReasons + duplicateReasons;
    if recordErrors == [] {
      next := ScanState(columnDefinitions, uniqueValueTracker, st.valid + [record], st.errors);
    } else {
      next := ScanState(columnDefinitions, uniqueValueTracker, st.valid, st.errors + [ErrorEntry(rowIndex + 1, record, recordErrors)]);
    }
  }

  /** The loop over the records. */
  method ScanRecords(host: Host, variant: Variant, records: seq<Dict<Scalar>>) returns (st: ScanState)
    ensures st == ScanAll(host, variant, records)
  {
    var uniqueColumns := UniqueColumns(variant, records);
    st := ScanState([], map[], [], []);
    var rowIndex := 0;
    assert st == ScanPrefix(host, variant, uniqueColumns, records, 0);
    while rowIndex < |records|
      invariant 0 <= rowIndex <= |records|
      invariant st == ScanPrefix(host, variant, uniqueColumns, records, rowIndex)
    {
      st := ProcessRecord(host, variant, uniqueColumns, st, records[rowIndex], rowIndex);
      ScanPrefixStep(host, variant, uniqueColumns, records, rowIndex + 1);
      rowIndex := rowIndex + 1;
    }
  }

  // ----- partition -----

  /** The positions among the first `n` whose verdict is empty, in increasing order. */
  function CleanIndexes(verdicts: seq<seq<Reason>>, n: nat): (idx: seq<nat>)
    requires n <= |verdicts|
    ensures forall i :: 0 <= i < |idx| ==> idx[i] < n && verdicts[idx[i]] == []
    ensures forall i, j :: 0 <= i < j < |idx| ==> idx[i] < idx[j]
    ensures forall j :: 0 <= j < n && verdicts[j] == [] ==> j in idx
  {
    if n == 0 then []
    else CleanIndexes(verdicts, n - 1) + (if verdicts[n - 1] == [] then [n - 1] else [])
  }

  /** Every record ends up in exactly one of the two lists. */
  lemma {:induction false} SplitSizes(records: seq<Dict<Scalar>>, verdicts: seq<seq<Reason>>, n: nat)
    requires |verdicts| == |records| && n <= |records|
    ensures |Split(records, verdicts, n).0| + |Split(records, verdicts, n).1| == n
  {
    if n > 0 {
      SplitSizes(records, verdicts, n - 1);
    }
  }

  /** The kept records are, in input order, exactly the records with no reason. */
  lemma {:induction false} SplitKeepsClean(records: seq<Dict<Scalar>>, verdicts: seq<seq<Reason>>, n: nat)
    requires |verdicts| == |records| && n <= |records|
    ensures var valid := Split(records, verdicts, n).0;
      var idx := CleanIndexes(verdicts, n);
      |valid| == |idx| && forall i :: 0 <= i < |valid| ==> valid[i] == records[idx[i]]
  {
    if n > 0 {
      SplitKeepsClean(records, verdicts, n - 1);
      var idx0 := CleanIndexes(verdicts, n - 1);
      var idx := CleanIndexes(verdicts, n);
      if verdicts[n - 1] == [] {
        assert idx == idx0 + [n - 1];
      } else {
        assert idx == idx0;
      }
    }
  }

  /** Each entry names a rejected record among the first `n` by its 1-based position and carries
      all of its reasons, and the row indexes rise strictly. */
  predicate WellFormedLog(records: seq<Dict<Scalar>>, verdicts: seq<seq<Reason>>, errors: seq<ErrorEntry>, n: nat)
    requires |verdicts| == |records| && n <= |records|
  {
    (forall k :: 0 <= k < |errors| ==>
      1 <= errors[k].rowIndex <= n &&
      errors[k].record == records[errors[k].rowIndex - 1] &&
      errors[k].reasons == verdicts[errors[k].rowIndex - 1] &&
      errors[k].reasons != []) &&
    (forall k, l :: 0 <= k < l < |errors| ==> errors[k].rowIndex < errors[l].rowIndex)
  }

  lemma {:induction false} SplitErrorEntries(records: seq<Dict<Scalar>>, verdicts: seq<seq<Reason>>, n: nat)
    requires |verdicts| == |records| && n <= |records|
    ensures WellFormedLog(records, verdicts, Split(records, verdicts, n).1, n)
  {
    if n > 0 {
      SplitErrorEntries(records, verdicts, n - 1);
      var errors0 := Split(records, verdicts, n - 1).1;
      var errors := Split(records, verdicts, n).1;
      assert WellFormedLog(records, verdicts, errors0, n - 1);
      if verdicts[n - 1] != [] {
        var e := ErrorEntry(n, records[n - 1], verdicts[n - 1]);
        assert errors == errors0 + [e];
        forall k | 0 <= k < |errors|
          ensures 1 <= errors[k].rowIndex <= n
          ensures errors[k].record == records[errors[k].rowIndex - 1]
          ensures errors[k].reasons == verdicts[errors[k].rowIndex - 1]
          ensures errors[k].reasons != []
        {
          if k < |errors0| {
            assert errors[k] == errors0[k];
          } else {
            assert errors[k] == e;
          }
        }
        forall k, l | 0 <= k < l < |errors| ensures errors[k].rowIndex < errors[l].rowIndex {
          assert errors[k] == errors0[k];
          if l < |errors0| {
            assert errors[l] == errors0[l];
          } else {
            assert errors[l] == e;
          }
        }
      } else {
        assert errors == errors0;
      }
    }
  }

  /** Some entry of the log carries the 1-based row `row`. */
  predicate Logged(errors: seq<ErrorEntry>, row: nat) {
    exists k :: 0 <= k < |errors| && errors[k].rowIndex == row
  }

  /** Every record with a reason has an error entry. */
  lemma {:induction false} SplitLogsRejected(records: seq<Dict<Scalar>>, verdicts: seq<seq<Reason>>, n: nat, j: nat)
    requires |verdicts| == |records| && j < n <= |records| && verdicts[j] != []
    ensures Logged(Split(records, verdicts, n).1, j + 1)
  {
    var errors0 := Split(records, verdicts, n - 1).1;
    var errors := Split(records, verdicts, n).1;
    if j == n - 1 {
      assert errors == errors0 + [ErrorEntry(n, records[n - 1], verdicts[n - 1])];
      assert errors[|errors0|].rowIndex == j + 1;
    } else {
      SplitLogsRejected(records, verdicts, n - 1, j);
      var k :| 0 <= k < |errors0| && errors0[k].rowIndex == j + 1;
      assert errors == errors0 || errors == errors0 + [ErrorEntry(n, records[n - 1], verdicts[n - 1])];
      assert errors[k] == errors0[k];
    }
  }

  // ----- the duplicate rule -----

  /** The non-empty values of column `c` among the first `n` records. */
  function ColumnSeen(records: seq<Dict<Scalar>>, c: string, n: nat): set<Scalar>
    requires n <= |records|
  {
    if n == 0 then {}
    else ColumnSeen(records, c, n - 1) + (if IsEmpty(ValueAt(records[n - 1], c)) then {} else {ValueAt(records[n - 1], c)})
  }

  lemma {:induction false} ColumnSeenMeaning(records: seq<Dict<Scalar>>, c: string, n: nat, v: Scalar)
    requires n <= |records|
    ensures v in ColumnSeen(records, c, n) <==>
      !IsEmpty(v) && exists j :: 0 <= j < n && ValueAt(records[j], c) == v
  {
    if n > 0 {
      ColumnSeenMeaning(records, c, n - 1, v);
    }
  }

  /** The duplicate tracker holds, for each unique column, exactly the non-empty values the
      column has had so far, and nothing for any other column. */
  lemma {:induction false} SeenIsEarlierValues(cols: seq<string>, records: seq<Dict<Scalar>>, n: nat, c: string)
    requires n <= |records|
    ensures SeenIn(SeenPrefix(cols, records, n), c) == if c in cols then ColumnSeen(records, c, n) else {}
  {
    if n > 0 {
      SeenIsEarlierValues(cols, records, n - 1, c);
      UniquePrefixSeen(SeenPrefix(cols, records, n - 1), records[n - 1], cols, |cols|, c);
      assert cols[..|cols|] == cols;
    }
  }

  /** The field reasons never include a duplicate. */
  lemma {:induction false} RecordReasonsNoDuplicate(host: Host, variant: Variant, record: Dict<Scalar>, n: nat, c: string, v: Scalar)
    requires n <= |record|
    ensures DuplicateValue(c, v) !in RecordReasons(host, variant, record, n)
  {
    if n > 0 {
      RecordReasonsNoDuplicate(host, variant, record, n - 1, c, v);
      FieldReasonsExact(host, variant, record[n - 1].0, record[n - 1].1, DuplicateValue(c, v));
    }
  }

  /** For a unique column listed once, record `j` is flagged as a duplicate in that column
      exactly when its value there is non-empty and an earlier record has the same value. */
  lemma DuplicateIffEarlier(host: Host, variant: Variant, cols: seq<string>, records: seq<Dict<Scalar>>, j: nat, c: string, v: Scalar)
    requires j < |records| && c in cols
    requires forall a, b :: 0 <= a < b < |cols| ==> cols[a] != cols[b]
    ensures DuplicateValue(c, v) in RowReasons(host, variant, cols, records, j) <==>
      v == ValueAt(records[j], c) && !IsEmpty(v) && exists i :: 0 <= i < j && ValueAt(records[i], c) == v
  {
    RecordReasonsNoDuplicate(host, variant, records[j], |records[j]|, c, v);
    UniquePrefixFlags(SeenPrefix(cols, records, j), records[j], cols, |cols|, c, v);
    assert cols[..|cols|] == cols;
    SeenIsEarlierValues(cols, records, j, c);
    ColumnSeenMeaning(records, c, j, v);
  }

  /** In the web server, the first record holding a value of the primary-key candidate is never
      flagged as a duplicate. */
  lemma FirstOccurrenceNotFlagged(host: Host, records: seq<Dict<Scalar>>, j: nat, v: Scalar)
    requires j < |records|
    requires forall i :: 0 <= i < j ==> ValueAt(records[i], UniqueColumns(WebServer, records)[0]) != v
    ensures DuplicateValue(UniqueColumns(WebServer, records)[0], v)
      !in RowReasons(host, WebServer, UniqueColumns(WebServer, records), records, j)
  {
    var cols := UniqueColumns(WebServer, records);
    DuplicateIffEarlier(host, WebServer, cols, records, j, cols[0], v);
  }

  // ----- the field rules -----

  /** The parts joined in order. */
  function Concat<T>(parts: seq<seq<T>>): seq<T> {
    if parts == [] then [] else Concat(parts[..|parts| - 1]) + parts[|parts| - 1]
  }

  lemma {:induction false} ConcatMembers<T>(parts: seq<seq<T>>, x: T)
    ensures x in Concat(parts) <==> exists i :: 0 <= i < |parts| && x in parts[i]
  {
    if parts != [] {
      var init := parts[..|parts| - 1];
      ConcatMembers(init, x);
      if exists i :: 0 <= i < |parts| && x in parts[i] {
        var i :| 0 <= i < |parts| && x in parts[i];
        if i < |init| {
          assert init[i] == parts[i];
        }
      }
      if exists i :: 0 <= i < |init| && x in init[i] {
        var i :| 0 <= i < |init| && x in init[i];
        assert parts[i] == init[i];
      }
    }
  }

  /** The reasons of each field of `record`, one list per field. */
  function FieldReasonLists(host: Host, variant: Variant, record: Dict<Scalar>, n: nat): (parts: seq<seq<Reason>>)
    requires n <= |record|
    ensures |parts| == n
    ensures forall i :: 0 <= i < n ==> parts[i] == FieldReasons(host, variant, record[i].0, record[i].1)
  {
    if n == 0 then [] else FieldReasonLists(host, variant, record, n - 1) + [FieldReasons(host, variant, record[n - 1].0, record[n - 1].1)]
  }

  lemma {:induction false} RecordReasonsConcat(host: Host, variant: Variant, record: Dict<Scalar>, n: nat)
    requires n <= |record|
    ensures RecordReasons(host, variant, record, n) == Concat(FieldReasonLists(host, variant, record, n))
  {
    if n > 0 {
      RecordReasonsConcat(host, variant, record, n - 1);
      var parts := FieldReasonLists(host, variant, record, n);
      assert parts[..n - 1] == FieldReasonLists(host, variant, record, n - 1);
    }
  }

  /** A reason is among a record's field reasons exactly when one of its fields gives it. */
  lemma RecordReasonsMembers(host: Host, variant: Variant, record: Dict<Scalar>, r: Reason)
    ensures r in RecordReasons(host, variant, record, |record|) <==>
      exists i :: 0 <= i < |record| && r in FieldReasons(host, variant, record[i].0, record[i].1)
  {
    var parts := FieldReasonLists(host, variant, record, |record|);
    RecordReasonsConcat(host, variant, record, |record|);
    ConcatMembers(parts, r);
    if exists i :: 0 <= i < |parts| && r in parts[i] {
      var i :| 0 <= i < |parts| && r in parts[i];
      assert r in FieldReasons(host, variant, record[i].0, record[i].1);
    }
    if exists i :: 0 <= i < |record| && r in FieldReasons(host, variant, record[i].0, record[i].1) {
      var i :| 0 <= i < |record| && r in FieldReasons(host, variant, record[i].0, record[i].1);
      assert r in parts[i];
    }
  }

  /** A finite negative number outside `price` and `amount` sends its record to the error log
      with a negative-number reason; a negative-number reason names such a field, so the
      `price` and `amount` columns never cause one. */
  lemma NegativeNumberRule(host: Host, variant: Variant, cols: seq<string>, records: seq<Dict<Scalar>>, j: nat, key: string, x: real)
    requires j < |records|
    ensures NegativeNumber(key, x) in RowReasons(host, variant, cols, records, j) <==>
      key != "price" && key != "amount" && x < 0.0 &&
      exists i :: 0 <= i < |records[j]| && records[j][i].0 == key && !IsEmpty(records[j][i].1) &&
        host.number(records[j][i].1) == Finite(x)
  {
    var r := NegativeNumber(key, x);
    var record := records[j];
    RecordReasonsMembers(host, variant, record, r);
    UniqueReasonsAreDuplicates(SeenPrefix(cols, records, j), record, cols, |cols|, r);
    forall i | 0 <= i < |record| {
      FieldReasonsExact(host, variant, record[i].0, record[i].1, r);
    }
  }

  /** A date-shaped string the February check flags sends its record to the error log. */
  lemma FebruaryRule(host: Host, variant: Variant, cols: seq<string>, records: seq<Dict<Scalar>>, j: nat, s: string)
    requires j < |records|
    ensures ImpossibleFebruary(s) in RowReasons(host, variant, cols, records, j) <==>
      s != "" && DateShaped(host, variant, Str(s)) && FebruaryFlag(host, s) &&
      exists i :: 0 <= i < |records[j]| && records[j][i].1 == Str(s)
  {
    var r := ImpossibleFebruary(s);
    var record := records[j];
    RecordReasonsMembers(host, variant, record, r);
    UniqueReasonsAreDuplicates(SeenPrefix(cols, records, j), record, cols, |cols|, r);
    forall i | 0 <= i < |record| {
      FieldReasonsExact(host, variant, record[i].0, record[i].1, r);
    }
  }

  lemma {:induction false} UniqueReasonsAreDuplicates(seen: map<string, set<Scalar>>, record: Dict<Scalar>, cols: seq<string>, n: nat, r: Reason)
    requires n <= |cols| && !r.DuplicateValue?
    ensures r !in UniquePrefix(seen, record, cols, n).1
  {
    if n > 0 {
      UniqueReasonsAreDuplicates(seen, record, cols, n - 1, r);
    }
  }

  // ----- the column profiles -----

  /** The values written under `k` by the first `n` fields of `record`. */
  function EntryValues(record: Dict<Scalar>, k: string, n: nat): seq<Scalar>
    requires n <= |record|
  {
    if n == 0 then []
    else EntryValues(record, k, n - 1) + (if record[n - 1].0 == k then [record[n - 1].1] else [])
  }

  /** The values of column `k` in the first `n` records, in order (records without the key
      contribute nothing). */
  function ColumnValues(records: seq<Dict<Scalar>>, k: string, n: nat): seq<Scalar>
    requires n <= |records|
  {
    if n == 0 then [] else ColumnValues(records, k, n - 1) + EntryValues(records[n - 1], k, |records[n - 1]|)
  }

  lemma {:induction false} ObserveFieldsGet(host: Host, variant: Variant, defs: Dict<Profile>, record: Dict<Scalar>, n: nat, k: string)
    requires n <= |record|
    ensures Get(ObserveFields(host, variant, defs, record, n), k) ==
      if Get(defs, k).None? && EntryValues(record, k, n) == [] then None
      else Some(ObserveAll(host, variant, Get(defs, k).GetOr(Unset), EntryValues(record, k, n)))
  {
    if n > 0 {
      ObserveFieldsGet(host, variant, defs, record, n - 1, k);
      var before := ObserveFields(host, variant, defs, record, n - 1);
      var key := record[n - 1].0;
      var v := record[n - 1].1;
      var p := Observe(host, variant, Get(before, key).GetOr(Unset), v);
      assert ObserveFields(host, variant, defs, record, n) == Objects.Put(before, key, p);
      GetPut(before, key, p);
      if key == k {
        var earlier := EntryValues(record, k, n - 1);
        assert EntryValues(record, k, n) == earlier + [v];
        assert Get(before, k).GetOr(Unset) == ObserveAll(host, variant, Get(defs, k).GetOr(Unset), earlier);
        ObserveAllAppend(host, variant, Get(defs, k).GetOr(Unset), earlier, v);
      } else {
        assert EntryValues(record, k, n) == EntryValues(record, k, n - 1);
      }
    }
  }

  /** Each column's profile is the unset profile after all of the column's values in order, and
      a column exists exactly when some record has its key. */
  lemma {:induction false} ProfileIsColumnFold(host: Host, variant: Variant, records: seq<Dict<Scalar>>, n: nat, k: string)
    requires n <= |records|
    ensures Get(DefsPrefix(host, variant, records, n), k) ==
      if ColumnValues(records, k, n) == [] then None
      else Some(ObserveAll(host, variant, Unset, ColumnValues(records, k, n)))
  {
    if n > 0 {
      ProfileIsColumnFold(host, variant, records, n - 1, k);
      var r := records[n - 1];
      ObserveFieldsGet(host, variant, DefsPrefix(host, variant, records, n - 1), r, |r|, k);
      ObserveAllConcat(host, variant, Unset, ColumnValues(records, k, n - 1), EntryValues(r, k, |r|));
    }
  }

  /** `ks` extended by the keys of the first `n` fields of `record`, each new key appended. */
  function KeysAfter(ks: seq<string>, record: Dict<Scalar>, n: nat): seq<string>
    requires n <= |record|
  {
    if n == 0 then ks else AppendNew(KeysAfter(ks, record, n - 1), record[n - 1].0)
  }

  /** The column keys of the first `n` records, in order of first appearance. */
  function FirstSeenColumns(records: seq<Dict<Scalar>>, n: nat): seq<string>
    requires n <= |records|
  {
    if n == 0 then [] else KeysAfter(FirstSeenColumns(records, n - 1), records[n - 1], |records[n - 1]|)
  }

  lemma {:induction false} ObserveFieldsKeys(host: Host, variant: Variant, defs: Dict<Profile>, record: Dict<Scalar>, n: nat)
    requires n <= |record|
    ensures Keys(ObserveFields(host, variant, defs, record, n)) == KeysAfter(Keys(defs), record, n)
  {
    if n > 0 {
      ObserveFieldsKeys(host, variant, defs, record, n - 1);
      var before := ObserveFields(host, variant, defs, record, n - 1);
      var key := record[n - 1].0;
      var p := Observe(host, variant, Get(before, key).GetOr(Unset), record[n - 1].1);
      KeysOfPut(before, key, p, KeysAfter(Keys(defs), record, n - 1));
    }
  }

  lemma {:induction false} ObserveFieldsDistinct(host: Host, variant: Variant, defs: Dict<Profile>, record: Dict<Scalar>, n: nat)
    requires n <= |record| && DistinctKeys(defs)
    ensures DistinctKeys(ObserveFields(host, variant, defs, record, n))
  {
    if n > 0 {
      ObserveFieldsDistinct(host, variant, defs, record, n - 1);
      var before := ObserveFields(host, variant, defs, record, n - 1);
      var key := record[n - 1].0;
      var p := Observe(host, variant, Get(before, key).GetOr(Unset), record[n - 1].1);
      assert ObserveFields(host, variant, defs, record, n) == Objects.Put(before, key, p);
      PutDistinct(before, key, p);
    }
  }

  /** The columns appear in the order of their first occurrence, each once. */
  lemma {:induction false} ColumnsInFirstSeenOrder(host: Host, variant: Variant, records: seq<Dict<Scalar>>, n: nat)
    requires n <= |records|
    ensures Keys(DefsPrefix(host, variant, records, n)) == FirstSeenColumns(records, n)
    ensures DistinctKeys(DefsPrefix(host, variant, records, n))
  {
    if n > 0 {
      ColumnsInFirstSeenOrder(host, variant, records, n - 1);
      var before := DefsPrefix(host, variant, records, n - 1);
      ObserveFieldsKeys(host, variant, before, records[n - 1], |records[n - 1]|);
      ObserveFieldsDistinct(host, variant, before, records[n - 1], |records[n - 1]|);
    }
  }
}
