/**
 * The command-line tool's last resort for a CSV file that no delimiter parses: the columns are
 * taken to be separated by runs of two or more whitespace characters. The content is trimmed
 * and split into lines at each line feed (with an optional carriage return before it); the first line gives the headers (trimmed and sanitised),
 * every further line gives one record whose i-th header receives the i-th value, values past
 * the last header are dropped, and records with no key are filtered out.
 */
module SpaceCsv {
  import opened JsHost
  import opened Objects
  import opened Names

  function TrimStart(s: string): (r: string)
    ensures |r| <= |s|
    ensures r != [] ==> !IsJsSpace(r[0])
  {
    if s != [] && IsJsSpace(s[0]) then TrimStart(s[1..]) else s
  }

  function TrimEnd(s: string): (r: string)
    ensures |r| <= |s|
    ensures r != [] ==> !IsJsSpace(r[|r| - 1]) && r[0] == s[0]
  {
    if s != [] && IsJsSpace(s[|s| - 1]) then TrimEnd(s[..|s| - 1]) else s
  }

  /** The text without leading or trailing whitespace. */
  function Trim(s: string): (r: string)
    ensures r != [] ==> !IsJsSpace(r[0]) && !IsJsSpace(r[|r| - 1])
  {
    TrimEnd(TrimStart(s))
  }

  /** The lines of the text: every line feed ends a line, and a carriage return just before it
      is dropped. */
  function SplitLines(s: string): (lines: seq<string>)
    ensures |lines| >= 1
  {
    if s == [] then [""]
    else if s[0] == '\n' then [""] + SplitLines(s[1..])
    else if |s| >= 2 && s[0] == '\r' && s[1] == '\n' then [""] + SplitLines(s[2..])
    else
      var rest := SplitLines(s[1..]);
      [[s[0]] + rest[0]] + rest[1..]
  }

  /** Drops the whitespace run at the start of `s`. */
  function DropSpaces(s: string): (r: string)
    ensures |r| <= |s|
  {
    if s != [] && IsJsSpace(s[0]) then DropSpaces(s[1..]) else s
  }

  /** The fields between runs of two or more whitespace characters: the leftmost run of two or more whitespace characters is taken whole
      as a separator, and the text between separators is kept (possibly empty). */
  function SplitRuns(s: string): (parts: seq<string>)
    ensures |parts| >= 1
    decreases |s|
  {
    if s == [] then [""]
    else if |s| >= 2 && IsJsSpace(s[0]) && IsJsSpace(s[1]) then [""] + SplitRuns(DropSpaces(s))
    else
      var rest := SplitRuns(s[1..]);
      [[s[0]] + rest[0]] + rest[1..]
  }

  /** Every part trimmed. */
  function TrimAll(parts: seq<string>): (r: seq<string>)
    ensures |r| == |parts|
    ensures forall i :: 0 <= i < |parts| ==> r[i] == Trim(parts[i])
  {
    if parts == [] then [] else [Trim(parts[0])] + TrimAll(parts[1..])
  }

  /** Every header trimmed and then sanitised like a key. */
  function CleanHeaders(parts: seq<string>): (r: seq<string>)
    ensures |r| == |parts|
    ensures forall i :: 0 <= i < |parts| ==> r[i] == SanitizeKey(Trim(parts[i]))
  {
    if parts == [] then [] else [SanitizeKey(Trim(parts[0]))] + CleanHeaders(parts[1..])
  }

  function Headers(line: string): seq<string> {
    CleanHeaders(SplitRuns(Trim(line)))
  }

  function RowValues(line: string): seq<string> {
    TrimAll(SplitRuns(Trim(line)))
  }

  /** The record after the first `n` headers: each header that has a value at its position is
      written with that value, a later duplicate header overwriting an earlier one. */
  function RowPrefix(headers: seq<string>, values: seq<string>, n: nat): Dict<Scalar>
    requires n <= |headers|
  {
    if n == 0 then []
    else
      var before := RowPrefix(headers, values, n - 1);
      if n - 1 < |values| then Objects.Put(before, headers[n - 1], Str(values[n - 1])) else before
  }

  function RowRecord(headers: seq<string>, line: string): Dict<Scalar> {
    RowPrefix(headers, RowValues(line), |headers|)
  }

  function RowRecords(headers: seq<string>, lines: seq<string>): (rs: seq<Dict<Scalar>>)
    ensures |rs| == |lines|
    ensures forall i :: 0 <= i < |lines| ==> rs[i] == RowRecord(headers, lines[i])
  {
    if lines == [] then [] else [RowRecord(headers, lines[0])] + RowRecords(headers, lines[1..])
  }

  /** The records that have at least one key. */
  function WithKeys(rs: seq<Dict<Scalar>>): seq<Dict<Scalar>> {
    if rs == [] then []
    else if |rs[0]| > 0 then [rs[0]] + WithKeys(rs[1..])
    else WithKeys(rs[1..])
  }

  /** The records the fallback produces; none when the trimmed content has fewer than two lines
      (the caller then reports that the file holds no records). */
  function SpaceSeparatedRecords(content: string): seq<Dict<Scalar>> {
    var lines := SplitLines(Trim(content));
    if |lines| > 1 then WithKeys(RowRecords(Headers(lines[0]), lines[1..])) else []
  }

  // ----- properties -----

  /** No two adjacent whitespace characters. */
  predicate NoSpaceRun(p: string) {
    forall i :: 0 <= i < |p| - 1 ==> !(IsJsSpace(p[i]) && IsJsSpace(p[i + 1]))
  }

  /** A field the splitter can give back: non-empty, trimmed, without a whitespace run. */
  predicate IsCleanField(p: string) {
    p != [] && !IsJsSpace(p[0]) && !IsJsSpace(p[|p| - 1]) && NoSpaceRun(p)
  }

  lemma {:induction false} SplitRunsNoRun(p: string)
    requires NoSpaceRun(p)
    ensures SplitRuns(p) == [p]
    decreases |p|
  {
    if p != [] {
      assert NoSpaceRun(p[1..]) by {
        forall i | 0 <= i < |p[1..]| - 1 ensures !(IsJsSpace(p[1..][i]) && IsJsSpace(p[1..][i + 1])) {
          assert p[1..][i] == p[i + 1] && p[1..][i + 1] == p[i + 2];
        }
      }
      SplitRunsNoRun(p[1..]);
      assert [p[0]] + p[1..] == p;
    }
  }

  lemma {:induction false} SplitRunsBeforeRun(p: string, t: string)
    requires NoSpaceRun(p) && (p != [] ==> !IsJsSpace(p[|p| - 1]))
    requires |t| >= 2 && IsJsSpace(t[0]) && IsJsSpace(t[1])
    ensures SplitRuns(p + t) == [p] + SplitRuns(DropSpaces(t))
    decreases |p|
  {
    if p != [] {
      var s := p + t;
      assert s[0] == p[0];
      assert |p| >= 2 ==> s[1] == p[1];
      assert !(|s| >= 2 && IsJsSpace(s[0]) && IsJsSpace(s[1]));
      assert NoSpaceRun(p[1..]) by {
        forall i | 0 <= i < |p[1..]| - 1 ensures !(IsJsSpace(p[1..][i]) && IsJsSpace(p[1..][i + 1])) {
          assert p[1..][i] == p[i + 1] && p[1..][i + 1] == p[i + 2];
        }
      }
      assert p[1..] != [] ==> p[1..][|p[1..]| - 1] == p[|p| - 1];
      SplitRunsBeforeRun(p[1..], t);
      assert s[1..] == p[1..] + t;
      assert [p[0]] + p[1..] == p;
    } else {
      assert p + t == t;
    }
  }

  lemma {:induction false} JoinStartsWithFirst(parts: seq<string>, sep: string)
    requires |parts| >= 1 && parts[0] != []
    ensures Join(parts, sep) != [] && Join(parts, sep)[0] == parts[0][0]
  {
  }

  lemma DropTwoSpaces(rest: string)
    requires rest != [] && !IsJsSpace(rest[0])
    ensures DropSpaces("  " + rest) == rest
  {
    var t := "  " + rest;
    assert t[0] == ' ' && IsJsSpace(t[0]);
    assert t[1..] == " " + rest;
    assert t[1..][0] == ' ' && IsJsSpace(t[1..][0]);
    assert t[1..][1..] == rest;
    assert DropSpaces(rest) == rest;
  }

  /** Splitting clean fields joined by two spaces gives the fields back. */
  lemma {:induction false} SplitRunsJoin(parts: seq<string>)
    requires |parts| >= 1
    requires forall i :: 0 <= i < |parts| ==> IsCleanField(parts[i])
    ensures SplitRuns(Join(parts, "  ")) == parts
  {
    if |parts| == 1 {
      SplitRunsNoRun(parts[0]);
    } else {
      var rest := Join(parts[1..], "  ");
      JoinStartsWithFirst(parts[1..], "  ");
      var t := "  " + rest;
      assert Join(parts, "  ") == parts[0] + t;
      SplitRunsBeforeRun(parts[0], t);
      assert parts[1][0] == rest[0] && IsCleanField(parts[1]);
      DropTwoSpaces(rest);
      SplitRunsJoin(parts[1..]);
      assert [parts[0]] + parts[1..] == parts;
    }
  }

  /** Header `headers[i]` holds value `values[i]` when there is such a value and no later header
      of the same name overwrites it; headers with no value are absent, and values past the
      last header are dropped. */
  lemma {:induction false} RowPrefixGet(headers: seq<string>, values: seq<string>, n: nat, h: string)
    requires n <= |headers|
    ensures Get(RowPrefix(headers, values, n), h) ==
      (if exists i :: 0 <= i < n && i < |values| && headers[i] == h
       then Some(Str(values[LastIndexOf(headers, values, n, h)]))
       else None)
  {
    if n > 0 {
      RowPrefixGet(headers, values, n - 1, h);
      if n - 1 < |values| {
        GetPut(RowPrefix(headers, values, n - 1), headers[n - 1], Str(values[n - 1]));
      }
    }
  }

  /** The last index below `n` (and below the value count) whose header is `h`. */
  function LastIndexOf(headers: seq<string>, values: seq<string>, n: nat, h: string): (i: nat)
    requires n <= |headers|
    requires exists i :: 0 <= i < n && i < |values| && headers[i] == h
    ensures i < n && i < |values| && headers[i] == h
    ensures forall j :: i < j < n && j < |values| ==> headers[j] != h
  {
    if n - 1 < |values| && headers[n - 1] == h then n - 1
    else LastIndexOf(headers, values, n - 1, h)
  }

  lemma {:induction false} RowPrefixNonEmpty(headers: seq<string>, values: seq<string>, n: nat)
    requires 1 <= n <= |headers| && |values| >= 1
    ensures |RowPrefix(headers, values, n)| >= 1
  {
    var before := RowPrefix(headers, values, n - 1);
    if n - 1 < |values| {
      PutPlacement(before, headers[n - 1], Str(values[n - 1]));
      if HasKey(before, headers[n - 1]) {
        assert |Keys(Objects.Put(before, headers[n - 1], Str(values[n - 1])))| == |Keys(before)|;
      }
    } else {
      RowPrefixNonEmpty(headers, values, n - 1);
    }
  }

  lemma {:induction false} WithKeysKeepsAll(rs: seq<Dict<Scalar>>)
    requires forall i :: 0 <= i < |rs| ==> |rs[i]| > 0
    ensures WithKeys(rs) == rs
  {
    if rs != [] {
      WithKeysKeepsAll(rs[1..]);
    }
  }

  /** Every line after the header line yields a record with at least one key (the split of a
      line always has a first field, and so does the header line), so the filter drops nothing:
      there is exactly one record per data line. */
  lemma OneRecordPerDataLine(content: string)
    ensures var lines := SplitLines(Trim(content));
      |SpaceSeparatedRecords(content)| == if |lines| > 1 then |lines| - 1 else 0
  {
    var lines := SplitLines(Trim(content));
    if |lines| > 1 {
      var headers := Headers(lines[0]);
      var rows := RowRecords(headers, lines[1..]);
      forall i | 0 <= i < |rows| ensures |rows[i]| > 0 {
        RowPrefixNonEmpty(headers, RowValues(lines[1..][i]), |headers|);
      }
      WithKeysKeepsAll(rows);
    }
  }

  /** Every header is a sanitised name. */
  lemma HeadersAreSanitized(line: string)
    ensures forall i :: 0 <= i < |Headers(line)| ==> IsSanitized(Headers(line)[i])
  {
    forall i | 0 <= i < |Headers(line)| ensures IsSanitized(Headers(line)[i]) {
      SanitizeKeyMeaning(Trim(SplitRuns(Trim(line))[i]));
    }
  }
}
