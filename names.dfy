/**
 * Column and table names. A record key loses every character outside the ASCII letters, digits
 * and `_` and is then lower-cased; a table name has each such character replaced by `_` instead.
 * The character class matches ASCII only, so both results are plain ASCII and lower-casing them
 * is ASCII lower-casing. The replacement works on UTF-16 code units, so a character outside the
 * Basic Multilingual Plane, two code units long, is replaced twice.
 */
module Names {
  import opened JsHost

  /** An ASCII letter of either case, a digit or `_`. */
  predicate IsWordChar(c: char) {
    'a' <= c <= 'z' || 'A' <= c <= 'Z' || '0' <= c <= '9' || c == '_'
  }

  /** A character a sanitised name may contain. */
  predicate IsNameChar(c: char) {
    'a' <= c <= 'z' || '0' <= c <= '9' || c == '_'
  }

  predicate IsSanitized(s: string) {
    forall i :: 0 <= i < |s| ==> IsNameChar(s[i])
  }

  function Lower(c: char): (d: char)
    ensures IsWordChar(c) ==> IsNameChar(d)
    ensures IsNameChar(c) ==> d == c
  {
    if 'A' <= c <= 'Z' then (c as int - 'A' as int + 'a' as int) as char else c
  }

  /** The text without the characters that are not word characters. */
  function StripNonWord(s: string): string {
    if s == [] then []
    else if IsWordChar(s[0]) then [s[0]] + StripNonWord(s[1..])
    else StripNonWord(s[1..])
  }

  /** ASCII lower-casing of every character. */
  function LowerAll(s: string): string {
    if s == [] then [] else [Lower(s[0])] + LowerAll(s[1..])
  }

  /** The key sanitiser of both normalisers. */
  function SanitizeKey(s: string): string {
    LowerAll(StripNonWord(s))
  }

  /** Number of characters of `s` the class keeps. */
  function WordCount(s: string): nat {
    if s == [] then 0 else (if IsWordChar(s[0]) then 1 else 0) + WordCount(s[1..])
  }

  /** What the sanitiser keeps: every character outside `[A-Za-z0-9_]` is dropped, every
      kept character is lower-cased, and the result is a valid column name. */
  lemma {:induction false} SanitizeKeyMeaning(s: string)
    ensures IsSanitized(SanitizeKey(s))
    ensures |SanitizeKey(s)| == WordCount(s)
    ensures forall c :: c in SanitizeKey(s) <==> exists i :: 0 <= i < |s| && IsWordChar(s[i]) && Lower(s[i]) == c
  {
    if s != [] {
      SanitizeKeyMeaning(s[1..]);
      var t := SanitizeKey(s[1..]);
      if IsWordChar(s[0]) {
        assert SanitizeKey(s) == [Lower(s[0])] + t;
      } else {
        assert SanitizeKey(s) == t;
      }
      forall c | c in SanitizeKey(s) ensures exists i :: 0 <= i < |s| && IsWordChar(s[i]) && Lower(s[i]) == c {
        if IsWordChar(s[0]) && c == Lower(s[0]) {
        } else {
          assert c in t;
          var i :| 0 <= i < |s[1..]| && IsWordChar(s[1..][i]) && Lower(s[1..][i]) == c;
          assert s[i + 1] == s[1..][i];
        }
      }
      forall c | exists i :: 0 <= i < |s| && IsWordChar(s[i]) && Lower(s[i]) == c ensures c in SanitizeKey(s) {
        var i :| 0 <= i < |s| && IsWordChar(s[i]) && Lower(s[i]) == c;
        if i > 0 {
          assert s[1..][i - 1] == s[i];
          assert c in t;
        }
      }
    }
  }

  /** A name that is already sanitised is left as it is. */
  lemma {:induction false} SanitizeKeyFixesSanitized(s: string)
    requires IsSanitized(s)
    ensures SanitizeKey(s) == s
  {
    if s != [] {
      assert IsSanitized(s[1..]) by {
        forall i | 0 <= i < |s[1..]| ensures IsNameChar(s[1..][i]) { assert s[1..][i] == s[i + 1]; }
      }
      SanitizeKeyFixesSanitized(s[1..]);
      assert IsNameChar(s[0]);
      assert SanitizeKey(s) == [Lower(s[0])] + SanitizeKey(s[1..]);
    }
  }

  /** Sanitising twice is sanitising once. */
  lemma SanitizeKeyIdempotent(s: string)
    ensures SanitizeKey(SanitizeKey(s)) == SanitizeKey(s)
  {
    SanitizeKeyMeaning(s);
    SanitizeKeyFixesSanitized(SanitizeKey(s));
  }

  /** What the table-name sanitiser writes for one character: a word character lower-cased, any
      other character one `_` per UTF-16 code unit. */
  function TableNameUnits(c: char): string {
    if IsWordChar(c) then [Lower(c)] else if c as int > 0xFFFF then "__" else "_"
  }

  /** The table-name sanitiser of the command-line tool. The result has one character per
      UTF-16 code unit of the file name. */
  function SanitizeTableName(s: string): (r: string)
    ensures |r| == JsLength(s)
    ensures IsSanitized(r)
  {
    if s == [] then []
    else TableNameUnits(s[0]) + SanitizeTableName(s[1..])
  }

  /** The sanitiser works character by character: a name split in two is sanitised part by part. */
  lemma {:induction false} SanitizeTableNameConcat(a: string, b: string)
    ensures SanitizeTableName(a + b) == SanitizeTableName(a) + SanitizeTableName(b)
  {
    if a != [] {
      assert (a + b)[1..] == a[1..] + b;
      SanitizeTableNameConcat(a[1..], b);
    } else {
      assert a + b == b;
    }
  }

  /** Character `i` of the file name starts at code unit `JsLength(s[..i])` of the table name.
      There it is lower-cased when it is a word character and becomes `_` otherwise; a character
      outside the Basic Multilingual Plane, two code units long, becomes `__`. */
  lemma SanitizeTableNameAt(s: string, i: nat)
    requires i < |s|
    ensures var r := SanitizeTableName(s); var k := JsLength(s[..i]);
      k < |r| && r[k] == (if IsWordChar(s[i]) then Lower(s[i]) else '_') &&
      (!IsWordChar(s[i]) && s[i] as int > 0xFFFF ==> k + 1 < |r| && r[k + 1] == '_')
  {
    assert s == s[..i] + ([s[i]] + s[i + 1..]);
    SanitizeTableNameConcat(s[..i], [s[i]] + s[i + 1..]);
    SanitizeTableNameConcat([s[i]], s[i + 1..]);
    assert SanitizeTableName([s[i]]) == TableNameUnits(s[i]) by { assert [s[i]][1..] == []; }
  }

  /** An emoji is two UTF-16 code units, so it becomes two underscores. */
  lemma SanitizeTableNameEmoji()
    ensures SanitizeTableName("A\U{1F600}") == "a__"
  {
    assert "A\U{1F600}" == "A" + "\U{1F600}";
    SanitizeTableNameConcat("A", "\U{1F600}");
    assert SanitizeTableName("\U{1F600}") == "__" by { assert "\U{1F600}"[1..] == []; }
    assert SanitizeTableName("A") == "a" by { assert "A"[1..] == []; }
  }

  /** A sanitised table name passes the key sanitiser unchanged, and the two sanitisers agree
      exactly on names made only of `[A-Za-z0-9_]`. */
  lemma TableNameVersusKey(s: string)
    ensures SanitizeKey(SanitizeTableName(s)) == SanitizeTableName(s)
    ensures (forall i :: 0 <= i < |s| ==> IsWordChar(s[i])) ==> SanitizeKey(s) == SanitizeTableName(s)
  {
    SanitizeKeyFixesSanitized(SanitizeTableName(s));
    if forall i :: 0 <= i < |s| ==> IsWordChar(s[i]) {
      AllWordKeyIsTableName(s);
    }
  }

  lemma {:induction false} AllWordKeyIsTableName(s: string)
    requires forall i :: 0 <= i < |s| ==> IsWordChar(s[i])
    ensures SanitizeKey(s) == SanitizeTableName(s)
  {
    if s != [] {
      assert forall i :: 0 <= i < |s[1..]| ==> IsWordChar(s[1..][i]) by {
        forall i | 0 <= i < |s[1..]| ensures IsWordChar(s[1..][i]) { assert s[1..][i] == s[i + 1]; }
      }
      AllWordKeyIsTableName(s[1..]);
      assert SanitizeKey(s) == [Lower(s[0])] + SanitizeKey(s[1..]);
    }
  }

  /** A key with an upper-case letter, a space, a symbol and a digit: "Id #1" becomes "id1". */
  lemma SanitizeKeyExample()
    ensures SanitizeKey("Id #1") == "id1"
  {
    assert StripNonWord("1") == "1" by { assert "1"[1..] == ""; }
    assert StripNonWord("#1") == "1" by { assert "#1"[1..] == "1"; }
    assert StripNonWord(" #1") == "1" by { assert " #1"[1..] == "#1"; }
    assert StripNonWord("d #1") == "d1" by { assert "d #1"[1..] == " #1"; }
    assert StripNonWord("Id #1") == "Id1" by { assert "Id #1"[1..] == "d #1"; }
    assert LowerAll("1") == "1" by { assert "1"[1..] == ""; }
    assert LowerAll("d1") == "d1" by { assert "d1"[1..] == "1"; }
    assert LowerAll("Id1") == "id1" by { assert "Id1"[1..] == "d1"; }
  }
}
