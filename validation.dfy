/**
 * The record validation rules: a negative number outside the `price` and `amount` columns, a
 * February date with a day above 29, and a non-empty value repeated in a column that must be
 * unique. Each violation is one reason, kept as a value rather than as message text.
 */
module Validation {
  import opened JsHost
  import opened Objects
  import opened Inference

  datatype Reason =
    | NegativeNumber(column: string, number: real)
    | ImpossibleFebruary(text: string)
    | DuplicateValue(column: string, value: Scalar)

  /** A dash, a slash or a whitespace character. */
  predicate IsDateSeparator(c: char) {
    c == '-' || c == '/' || IsJsSpace(c)
  }

  /** The fields of a date text: every separator character ends a field, so two separators in a row
      give an empty field. */
  function SplitDate(s: string): (parts: seq<string>)
    ensures |parts| >= 1
  {
    if s == [] then [""]
    else if IsDateSeparator(s[0]) then [""] + SplitDate(s[1..])
    else
      var rest := SplitDate(s[1..]);
      [[s[0]] + rest[0]] + rest[1..]
  }

  /** A day field whose number exceeds 29: NaN never does, +Infinity always does. */
  predicate AboveTwentyNine(n: Number) {
    match n
    case Finite(x) => x > 29.0
    case PlusInfinity => true
    case _ => false
  }

  /** The February check of a date-shaped string, as the command-line tool writes it and as
      the model's engines use it: the text is split into `[year, month, day]` and each field is
      read as a number (a missing field reads as NaN). The value is flagged when the month
      field is 2 and the day field exceeds 29. */
  predicate FebruaryFlag(host: Host, s: string) {
    var parts := SplitDate(s);
    |parts| >= 3 && host.number(Str(parts[1])) == Finite(2.0) && AboveTwentyNine(host.number(Str(parts[2])))
  }

  /** The web server's February check as written: it asks the parsed date for its month and day
      and flags month 2 with a day above 29. */
  predicate DateFebruaryFlag(host: Host, s: string) {
    host.date(Str(s)).Some? && host.date(Str(s)).value.month == 2 && host.date(Str(s)).value.day > 29
  }

  /** A valid date never has a February day above 29, so the web server's check as written
      never flags anything. */
  lemma DateFebruaryFlagNeverFires(host: Host, s: string)
    requires HasCalendarDates(host)
    ensures !DateFebruaryFlag(host, s)
  {
    if host.date(Str(s)).Some? {
      assert IsCalendarDate(host.date(Str(s)).value);
    }
  }

  /** `2023-02-30` is a date the host moves to a day in March. The web server's check as written
      accepts it; the textual check flags it. */
  lemma FebruaryThirtiethAsWritten(host: Host)
    requires HasCalendarDates(host)
    requires host.number(Str("02")) == Finite(2.0) && host.number(Str("30")) == Finite(30.0)
    ensures !DateFebruaryFlag(host, "2023-02-30")
    ensures FebruaryFlag(host, "2023-02-30")
  {
    DateFebruaryFlagNeverFires(host, "2023-02-30");
    assert "2023-02-30" == "2023" + "-" + "02" + "-" + "30";
    FebruaryFlagOfDashedDate(host, "2023", "02", "30");
  }

  /** The reasons one field adds to its record, in the order the engine pushes them. */
  function FieldReasons(host: Host, variant: Variant, key: string, v: Scalar): seq<Reason> {
    if IsEmpty(v) then []
    else
      (match host.number(v)
       case Finite(x) => if x < 0.0 && key != "price" && key != "amount" then [NegativeNumber(key, x)] else []
       case _ => [])
      +
      (if DateShaped(host, variant, v) && v.Str? && FebruaryFlag(host, v.s)
       then [ImpossibleFebruary(v.s)] else [])
  }

  /** A field rejects its record with a negative-number reason exactly when it holds a finite
      negative number outside the `price` and `amount` columns; with an impossible-February
      reason exactly when it holds a date-shaped string the February check flags; and with
      nothing else. */
  lemma FieldReasonsExact(host: Host, variant: Variant, key: string, v: Scalar, r: Reason)
    ensures r.NegativeNumber? ==>
      (r in FieldReasons(host, variant, key, v) <==>
        !IsEmpty(v) && host.number(v) == Finite(r.number) && r.number < 0.0 &&
        r.column == key && key != "price" && key != "amount")
    ensures r.ImpossibleFebruary? ==>
      (r in FieldReasons(host, variant, key, v) <==>
        v == Str(r.text) && v != Str("") && DateShaped(host, variant, v) && FebruaryFlag(host, r.text))
    ensures !r.DuplicateValue?
      || r !in FieldReasons(host, variant, key, v)
  {
  }

  // ----- the textual February check -----

  predicate NoDateSeparator(s: string) {
    forall i :: 0 <= i < |s| ==> !IsDateSeparator(s[i])
  }

  lemma {:induction false} SplitDateField(s: string)
    requires NoDateSeparator(s)
    ensures SplitDate(s) == [s]
  {
    if s != [] {
      SplitDateField(s[1..]);
      assert [s[0]] + s[1..] == s;
    }
  }

  lemma {:induction false} SplitDateBefore(p: string, t: string)
    requires NoDateSeparator(p) && t != [] && IsDateSeparator(t[0])
    ensures SplitDate(p + t) == [p] + SplitDate(t[1..])
    decreases |p|
  {
    if p != [] {
      SplitDateBefore(p[1..], t);
      assert (p + t)[1..] == p[1..] + t;
      assert [p[0]] + p[1..] == p;
    } else {
      assert p + t == t;
    }
  }

  /** Splitting fields joined by '-' gives them back. */
  lemma {:induction false} SplitDateJoin(parts: seq<string>)
    requires |parts| >= 1 && forall i :: 0 <= i < |parts| ==> NoDateSeparator(parts[i])
    ensures SplitDate(Join(parts, "-")) == parts
  {
    if |parts| == 1 {
      SplitDateField(parts[0]);
    } else {
      var rest := Join(parts[1..], "-");
      assert Join(parts, "-") == parts[0] + ("-" + rest);
      SplitDateBefore(parts[0], "-" + rest);
      assert ("-" + rest)[1..] == rest;
      SplitDateJoin(parts[1..]);
      assert [parts[0]] + parts[1..] == parts;
    }
  }

  /** For a date written `year-month-day` the check flags the value exactly when
      the month field reads as the number 2 and the day field as a number above 29: no other
      month or day is ever flagged. */
  lemma FebruaryFlagOfDashedDate(host: Host, year: string, month: string, day: string)
    requires NoDateSeparator(year) && NoDateSeparator(month) && NoDateSeparator(day)
    ensures FebruaryFlag(host, year + "-" + month + "-" + day) <==>
      host.number(Str(month)) == Finite(2.0) && AboveTwentyNine(host.number(Str(day)))
  {
    var parts := [year, month, day];
    SplitDateJoin(parts);
    assert Join(parts, "-") == year + "-" + month + "-" + day by {
      assert parts[1..] == [month, day];
      assert parts[1..][1..] == [day];
      assert Join([day], "-") == day;
      assert Join([month, day], "-") == month + "-" + day;
    }
  }

  /** `2024-02-30`, read by a `Number` that gives 2 for "02" and 30 for "30", is flagged. */
  lemma FebruaryThirtiethFlagged(host: Host)
    requires host.number(Str("02")) == Finite(2.0) && host.number(Str("30")) == Finite(30.0)
    ensures FebruaryFlag(host, "2024-02-30")
  {
    assert "2024-02-30" == "2024" + "-" + "02" + "-" + "30";
    FebruaryFlagOfDashedDate(host, "2024", "02", "30");
  }

  // ----- the duplicate check -----

  /** The value a record holds under `k`; `undefined` when it has no such key. */
  function ValueAt(record: Dict<Scalar>, k: string): Scalar {
    Get(record, k).GetOr(Undefined)
  }

  /** The values seen so far in column `c` (the set is created on first use). */
  function SeenIn(seen: map<string, set<Scalar>>, c: string): set<Scalar> {
    if c in seen then seen[c] else {}
  }

  /** The unique-column checks of one record over the first `n` listed columns: a non-empty
      value already seen in its column adds a reason; otherwise it is added to the column's set. */
  function UniquePrefix(seen: map<string, set<Scalar>>, record: Dict<Scalar>, cols: seq<string>, n: nat)
    : (map<string, set<Scalar>>, seq<Reason>)
    requires n <= |cols|
  {
    if n == 0 then (seen, [])
    else
      var prev := UniquePrefix(seen, record, cols, n - 1);
      var s := prev.0;
      var reasons := prev.1;
      var c := cols[n - 1];
      var v := ValueAt(record, c);
      if IsEmpty(v) then (s, reasons)
      else if v in SeenIn(s, c) then (s, reasons + [DuplicateValue(c, v)])
      else (s[c := SeenIn(s, c) + {v}], reasons)
  }

  /** After the checks, each listed column's set has gained the record's non-empty value, and
      every other set is unchanged. */
  lemma {:induction false} UniquePrefixSeen(seen: map<string, set<Scalar>>, record: Dict<Scalar>, cols: seq<string>, n: nat, c: string)
    requires n <= |cols|
    ensures SeenIn(UniquePrefix(seen, record, cols, n).0, c) ==
      SeenIn(seen, c) + (if c in cols[..n] && !IsEmpty(ValueAt(record, c)) then {ValueAt(record, c)} else {})
    ensures forall k :: k in UniquePrefix(seen, record, cols, n).0 ==> k in seen || k in cols
  {
    if n > 0 {
      UniquePrefixSeen(seen, record, cols, n - 1, c);
      assert cols[..n] == cols[..n - 1] + [cols[n - 1]];
    }
  }

  /** For a column listed once, the checks flag the record with a duplicate reason for that
      column exactly when its value is non-empty and already in the column's set. */
  lemma {:induction false} UniquePrefixFlags(seen: map<string, set<Scalar>>, record: Dict<Scalar>, cols: seq<string>, n: nat, c: string, v: Scalar)
    requires n <= |cols|
    requires forall i, j :: 0 <= i < j < |cols| ==> cols[i] != cols[j]
    ensures DuplicateValue(c, v) in UniquePrefix(seen, record, cols, n).1 <==>
      c in cols[..n] && v == ValueAt(record, c) && !IsEmpty(v) && v in SeenIn(seen, c)
  {
    if n > 0 {
      UniquePrefixFlags(seen, record, cols, n - 1, c, v);
      assert cols[..n] == cols[..n - 1] + [cols[n - 1]];
      if cols[n - 1] == c {
        assert c !in cols[..n - 1];
        UniquePrefixSeen(seen, record, cols, n - 1, c);
      }
    }
  }

  /** A column listed twice flags every non-empty value: the second check finds the value the
      first one has just added. */
  lemma ColumnListedTwiceFlagsEverything(seen: map<string, set<Scalar>>, record: Dict<Scalar>, c: string)
    requires !IsEmpty(ValueAt(record, c))
    ensures DuplicateValue(c, ValueAt(record, c)) in UniquePrefix(seen, record, [c, c], 2).1
  {
  }
}
