# DataMigrator core, modelled in Dafny

DataMigrator takes a file of records (CSV, JSON or XML) and prepares it for a MySQL table.
It infers a column type for every key and validates each record. It then splits the records
into valid ones and an error log, and writes a `DROP TABLE` / `CREATE TABLE` script. Two copies
of this engine exist and this project models both:

- the web server (`node.js`): it flattens nested objects, sanitises and normalises keys, then
  calls `inferAndValidate(tableName, records)`;
- the command-line migration tool (`trash/migration_tool.mjs`): it sanitises the file name into
  a table name, falls back to a multi-space CSV reader, and sanitises keys. Its own
  `inferAndValidate(tableName, records, migrationTarget)` takes a list of unique columns from the
  migration plan.

`Inference.Variant` tells the two engines apart. Every place where they differ branches on it:
- how the date length is measured;
- which columns are unique;
- the primary-key rule;
- the `UNIQUE` clause;
- the script header;
- the empty input.

JavaScript itself is not modelled; its oracles are the fields of `JsHost.Host`:
- `Number(v)` is `host.number`, an extended number: finite, NaN or an infinity;
- `new Date(v)` is `host.date`, which gives the month and day of a valid date. `JsHost.HasCalendarDates`
  says that such a date is a real calendar date, because a `Date` moves an out-of-range day into the
  next month;
- number-to-text is `host.numberText`;
- `JSON.stringify` is `host.stringify`.

Every operation takes the host as a parameter, so every property holds for any behaviour of
these primitives. A JavaScript object is an insertion-ordered association list (`Objects.Dict`).
Writing an existing key keeps its position and replaces its value. Writing a new key appends it.

Modules:
- `JsHost`: scalar values, the host oracles, JavaScript string length.
- `Objects`: ordered dictionaries.
- `Names`: the key and table-name sanitisers.
- `Flatten`: `flattenRecord`.
- `Normalize`: the web server's normalise map and the tool's key map.
- `SpaceCsv`: the multi-space CSV fallback.
- `Inference`: SQL types, the per-value type and the merge.
- `Validation`: the reasons a record is rejected.
- `Scan`: the record loop.
- `Ddl`: the column lines and the script.
- `Engine`: `inferAndValidate` as a whole.

Loops are methods whose `ensures` ties their result to a specification function. The
properties are lemmas about those functions.

Three behaviours of the code that the model keeps as they are:
- When a value is both numeric and date-shaped, the later date test overwrites the numeric type,
  so such a value is `DATETIME`.
- The command-line tool appends ` UNIQUE` to a unique column even when it is the primary key.
- The command-line tool's primary key is always the first column: the test "`id` or the first
  column" meets the first column before any other.

The engine model corrects the two defects listed under "## Findings": the seed type of a new
column and the web server's February check.

## Model

| member | source | states |
|---|---|---|
| Objects.GetPut | node.js:47 | After a property write, reading that key gives the written value and every other key reads as before. |
| Objects.PutPlacement | node.js:325 | Writing a key that is present keeps the key order. Writing a new key appends exactly that entry at the end. |
| Objects.PutDistinct | trash/migration_tool.mjs:145 | A property write never creates a second entry for a key. |
| Names.SanitizeKeyMeaning | node.js:317 | A sanitised key uses only `[a-z0-9_]`. Its length is the number of word characters in the input. Its characters are exactly the lower-cased word characters of the input. |
| Names.SanitizeKeyFixesSanitized | trash/migration_tool.mjs:144 | A key already made of `[a-z0-9_]` comes back unchanged. |
| Names.SanitizeKeyIdempotent | node.js:317 | Sanitising a key twice is the same as sanitising it once. |
| Names.SanitizeKeyExample | trash/migration_tool.mjs:144 | `Id #1` becomes `id1`. |
| Names.SanitizeTableName | trash/migration_tool.mjs:61 | The table name has one character per UTF-16 code unit of the file name and uses only `[a-z0-9_]`. |
| Names.SanitizeTableNameConcat | trash/migration_tool.mjs:61 | The replacement works piece by piece: sanitising two joined texts joins their sanitised forms. |
| Names.SanitizeTableNameAt | trash/migration_tool.mjs:61 | Character i of the file name starts at code unit `JsLength(s[..i])` of the table name. A word character appears there lower-cased. Any other character becomes `_`, and a character outside the Basic Multilingual Plane becomes `__`. |
| Names.SanitizeTableNameEmoji | trash/migration_tool.mjs:61 | `A😀` becomes `a__`. |
| Names.TableNameVersusKey | trash/migration_tool.mjs:61 | A table name is left unchanged by the key sanitiser. On a name made only of word characters, both sanitisers give the same result. |
| Flatten.Accumulator.constructor | node.js:39 | The accumulator `res` starts empty. |
| Flatten.Accumulator.Put | node.js:47 | Storing a value in the accumulator is a property write on its entries. |
| Flatten.FlattenInto | node.js:40-49 | The recursive walk leaves the accumulator equal to the `FlattenPrefix` fold of its old contents over the object's fields. |
| Flatten.FlattenRecord | node.js:39-51 | The result is `Flattened(record)`. It holds no nested object and no key twice. |
| Flatten.FlattenIsFlat | node.js:44-48 | Nested plain objects are always descended into, never stored. Starting from a flat accumulator with distinct keys, the result stays flat with distinct keys. |
| Flatten.FlattenKeysArePrefixed | node.js:42 | Under a non-empty parent key, every key the walk adds is the parent followed by `_` and more. |
| Flatten.FlattenFlatIsIdentity | node.js:39-51 | Flattening an object that is already flat, with distinct keys, returns its fields unchanged and in order. |
| Flatten.FlattenIdempotent | node.js:313 | Flattening a flattened record changes nothing. |
| Normalize.NormalizeRecord | node.js:314-328 | The key loop builds exactly `Normalized(record)`: arrays become text joined with `, `, objects inside arrays become `JSON.stringify` text, and keys are sanitised. |
| Normalize.SanitizeRecordKeys | trash/migration_tool.mjs:141-148 | The key loop builds exactly `Rekeyed(record)`: the same values under sanitised keys. |
| Normalize.RekeyedLastWriteWins | trash/migration_tool.mjs:143-146 | Reading a sanitised key gives the value of the last original key that sanitises to it. |
| Normalize.RekeyedKeys | node.js:316-325 | The keys of the result are the sanitised names in order of their first appearance. |
| Normalize.RekeyedClean | node.js:317 | The result has distinct keys, all within `[a-z0-9_]`. |
| Normalize.RekeyedCleanIsIdentity | trash/migration_tool.mjs:141-148 | A record whose keys are already sanitised and distinct is unchanged. |
| Normalize.NormalizeIdempotent | node.js:314-328 | Normalising a normalised record changes nothing. |
| SpaceCsv.SplitRunsJoin | trash/migration_tool.mjs:88 | Splitting on runs of two or more spaces undoes joining with two spaces. This holds for fields that are trimmed and have no whitespace run inside. |
| SpaceCsv.RowPrefixGet | trash/migration_tool.mjs:90-94 | A header gets the value of the last position that carries that header and has a value. Headers past the last value are absent. |
| SpaceCsv.RowPrefixNonEmpty | trash/migration_tool.mjs:90-96 | A line with at least one value yields a record with at least one key. |
| SpaceCsv.WithKeysKeepsAll | trash/migration_tool.mjs:96 | The empty-record filter keeps every record that has a key. |
| SpaceCsv.OneRecordPerDataLine | trash/migration_tool.mjs:84-96 | The fallback yields one record per line after the header line, and none when the trimmed text has a single line. |
| SpaceCsv.HeadersAreSanitized | trash/migration_tool.mjs:86 | Every header uses only `[a-z0-9_]`. |
| Inference.NameInjective | node.js:139-149 | Two types have the same SQL name exactly when they are the same type. So the merge's string comparisons compare types. |
| Inference.StartsWithIntOnlyInt | node.js:188 | The only type whose name starts with `INT` is `INT`. |
| Inference.InstantaneousTypeClasses | node.js:94-136 | A non-empty value is `DATETIME` exactly when it is date-shaped. Otherwise it is numeric exactly when `Number` gives a finite value, and `VARCHAR` otherwise. `INT` and `BIGINT` are the integers on either side of 2147483647. `DECIMAL` is the non-integral numbers. The per-value type is never `TEXT`. |
| Inference.MergeVarcharAbsorbing | node.js:139-149 | The merge gives `VARCHAR` exactly when the new type or the running type is `VARCHAR`. |
| Inference.MergeTakesInferred | node.js:139-149 | When neither type is `VARCHAR`, the merge takes the new type. The widening branches coincide with plain overwrite. |
| Inference.VarcharIsPermanent | node.js:139-142 | Once a column is `VARCHAR`, no later value changes its type. |
| Inference.ObserveAllConcat | node.js:82-151 | Profiling values in two batches gives the same profile as profiling them all at once. |
| Inference.AsWrittenStaysVarchar | node.js:90-92 | With the seed as written, every column's type is `VARCHAR` whatever its values. |
| Inference.AsWrittenCounterexample | trash/migration_tool.mjs:174-180 | For a host where `Number("1")` is 1 and `new Date("1")` is invalid, take a column holding only `"1"`. With the seed as written it is `VARCHAR`; with the corrected seed it is `INT`. A host that reads `"1"` as a date makes the corrected column `DATETIME` instead. |
| Inference.CorrectedColumnType | node.js:139-149 | A column has no type exactly when it has no non-empty value. It is `VARCHAR` exactly when some non-empty value is `VARCHAR`-shaped. Otherwise it has the type of its last non-empty value. |
| Inference.MaxLengthIsLongest | node.js:99-104 | The recorded maximum length is at least the JavaScript length of every string value. It is the initial maximum or the length of one of those strings. |
| Validation.FieldReasonsExact | node.js:114-136 | A field gives a negative-number reason exactly when it holds a finite negative number outside `price` and `amount`. It gives an impossible-February reason exactly when it holds a date-shaped string that the February check flags. It gives no other reason. |
| Validation.SplitDateJoin | trash/migration_tool.mjs:220 | Splitting on `[-/\s]` undoes joining separator-free fields with `-`. |
| Validation.FebruaryFlagOfDashedDate | trash/migration_tool.mjs:219-225 | The textual check flags `year-month-day` exactly when the month field reads as the number 2 and the day field as a number above 29. |
| Validation.DateFebruaryFlagNeverFires | node.js:127-135 | When the host gives only calendar dates, the web server's check as written flags nothing. |
| Validation.FebruaryThirtiethAsWritten | node.js:129-131 | `2023-02-30` is flagged by the textual check but accepted by the web server's check as written. |
| Validation.FebruaryThirtiethFlagged | trash/migration_tool.mjs:221 | `2024-02-30` is flagged. |
| Validation.UniquePrefixSeen | trash/migration_tool.mjs:247-260 | Each listed column's seen set gains the record's non-empty value in that column. Every other set is unchanged. |
| Validation.UniquePrefixFlags | trash/migration_tool.mjs:253-255 | A column listed once flags the record exactly when the record's value there is non-empty and already in that column's set. |
| Validation.ColumnListedTwiceFlagsEverything | trash/migration_tool.mjs:246-260 | A column listed twice flags every non-empty value, because the second check finds the value the first check just added. |
| Scan.ObserveValue | node.js:94-150 | Observing one value updates the column profile to `Observe(...)` and returns exactly the field's reasons. |
| Scan.ObserveField | node.js:87-92 | One turn of the key loop extends both the profile fold and the reason list by one field. |
| Scan.ObserveRecord | node.js:87-151 | The key loop gives the profiles folded over every field of the record, plus the record's field reasons in order. |
| Scan.CheckUnique | trash/migration_tool.mjs:246-260 | The unique-column loop gives exactly the seen sets and the duplicate reasons of `UniquePrefix`. |
| Scan.ProcessRecord | node.js:83-171 | One turn of the row loop is `Step`: profiles, reasons, duplicates, then either the valid list or the error log. |
| Scan.ScanRecords | node.js:82-172 | The row loop ends in `ScanAll(records)`. |
| Scan.CleanIndexes | node.js:167-168 | It lists, in increasing order, exactly the rows that have no reason. |
| Scan.SplitSizes | node.js:167-171 | Valid records plus log entries account for every record. |
| Scan.SplitKeepsClean | node.js:167-168 | The valid records are the records at the clean rows, in input order. |
| Scan.SplitErrorEntries | node.js:170 | Each log entry carries a rejected record, its 1-based row and all of its reasons, in input order. |
| Scan.SplitLogsRejected | trash/migration_tool.mjs:264-269 | Every record with a reason appears in the log under its 1-based row. |
| Scan.ColumnSeenMeaning | node.js:156-164 | A value is in a column's seen set exactly when it is non-empty and some earlier record holds it in that column. |
| Scan.SeenIsEarlierValues | node.js:153-165 | After n records, a unique column's seen set is the set of its non-empty values in those records. Any other column has no set. |
| Scan.RecordReasonsNoDuplicate | node.js:87-151 | The key loop never gives a duplicate reason. |
| Scan.DuplicateIffEarlier | node.js:153-165 | A record is flagged as a duplicate in a unique column exactly when its value there is non-empty and an earlier record holds the same value there. |
| Scan.FirstOccurrenceNotFlagged | node.js:159-164 | The first record holding a value in the key column is not flagged for it. |
| Scan.RecordReasonsMembers | node.js:85-151 | A record's field reasons are exactly the reasons of its fields taken together. |
| Scan.NegativeNumberRule | node.js:114-118 | A record has a negative-number reason for a key exactly when one of its fields with that key holds a finite negative number, and the key is not `price` or `amount`. |
| Scan.FebruaryRule | node.js:121-136 | A record has an impossible-February reason exactly when one of its fields holds a non-empty date-shaped string that the February check flags. |
| Scan.UniqueReasonsAreDuplicates | trash/migration_tool.mjs:247-260 | The unique-column check gives only duplicate reasons. |
| Scan.ObserveFieldsGet | node.js:87-150 | After the key loop, a column's profile is the fold of its values in this record, starting from its earlier profile or an unset one. |
| Scan.ProfileIsColumnFold | node.js:82-151 | After n records, a column's profile is the fold of all its values, in order, from an unset profile. A column with no values has no profile. |
| Scan.ObserveFieldsKeys | node.js:90-92 | The key loop adds each new key once, in field order, after the columns already known. |
| Scan.ColumnsInFirstSeenOrder | node.js:87-92 | The columns are the keys of the records in order of first appearance, each once. |
| Ddl.PromoteMeaning | node.js:183-185 | Promotion turns `VARCHAR` into `TEXT` exactly when the maximum length exceeds 255. It changes nothing else and is idempotent. |
| Ddl.PromotedEntries | trash/migration_tool.mjs:274-280 | The promotion pass promotes each column in place and keeps its name and position. |
| Ddl.PromoteLongVarchars | trash/migration_tool.mjs:273-280 | The loop gives exactly `Promoted(defs)`. |
| Ddl.PromotedKeys | trash/migration_tool.mjs:274-279 | The promotion pass keeps the column list, and so keeps the keys distinct. |
| Ddl.PromotedIdempotent | trash/migration_tool.mjs:273-280 | A second promotion pass changes nothing. |
| Ddl.FirstPkFrom | trash/migration_tool.mjs:299 | It returns the first column from a given index that meets the primary-key test, or nothing when no column does. |
| Ddl.FallbackLine | node.js:209-211 | The fallback appends ` PRIMARY KEY` to the first line. |
| Ddl.ColumnLine | node.js:179-205 | One turn of the DDL loop appends the column's line and sets `primaryKeySet` once the matching column is reached. |
| Ddl.LoopOverColumns | node.js:175-206 | The DDL loop gives one line per column. `primaryKeySet` ends true exactly when some column matched. |
| Ddl.ColumnLines | node.js:175-211 | The loop plus the fallback give exactly `Lines(...)`. |
| Ddl.LinesAt | node.js:175-211 | There is one line per column, and line i renders column i's declaration. |
| Ddl.ExactlyOnePrimaryKey | node.js:196-211 | Exactly one column is the primary key. |
| Ddl.CliPrimaryKeyIsFirst | trash/migration_tool.mjs:299-307 | In the command-line tool, the primary key is the first column. |
| Ddl.PrimaryKeyOf | node.js:197-211 | A column is the primary key exactly when it is the first match, or when it is the first column and the fallback applies. |
| Ddl.WebServerMatch | node.js:197 | For distinct column names: if the candidate is a column, it is the only match. Otherwise the first column is the primary key. |
| Ddl.WebServerPrimaryKey | node.js:196-211 | In the web server, the primary key is the candidate column when it exists, and the first column otherwise. |
| Ddl.AutoIncrementRule | node.js:188-203 | `AUTO_INCREMENT` appears exactly on a matched primary key whose type is `INT` or `BIGINT`. The fallback never adds it. |
| Ddl.NotNullRule | node.js:191-194 | `NOT NULL` appears exactly when every record holds a non-empty value for the column. |
| Ddl.UniqueRule | trash/migration_tool.mjs:309-312 | `UNIQUE` appears exactly in the command-line tool, on columns listed as unique. |
| Ddl.DeclaredTypeAfterPass | trash/migration_tool.mjs:273-290 | A column promoted in a separate pass gets the type the web server gives it by promoting inline. |
| Engine.InferAndValidate | node.js:73-223 | The engine returns exactly `Result(...)`: the script, the valid records, the error count and the log of the single pass. It uses the corrected seed and the textual February check from "## Findings". The command-line tool returns an empty result for no records. |
| Engine.RecordsArePartitioned | trash/migration_tool.mjs:262-270 | The valid records are the clean ones in order. The log has one well-formed entry per rejected record. The error count is the log's length. Valid plus rejected is every record. |
| Engine.FirstSeenColumnsMembers | node.js:87-92 | A name is a column exactly when some record has that key. |
| Engine.ColumnsOfTheTable | node.js:178-186 | The table's columns are the record keys, each once, in order of first appearance. Each column is declared with the promoted type of the fold of its values. |
| Engine.WebServerKeyIsFirstKey | node.js:80 | In the web server, the primary key is the first key of the first record. When that record has no key, it is the first column. |

## Left out

- Reading the uploaded file, and the HTTP routes, responses and status codes: I/O.
- Parsing CSV, JSON and XML, and delimiter detection: these are outside this model.
- Opening the database connection, running the script and inserting the records: I/O. The MySQL
  semantics of the generated script are not modelled either.
- The bodies of `Number`, `new Date`, `Date.prototype.toString`, number-to-text and
  `JSON.stringify`: they are host parameters. The model holds for any behaviour of them.
- Floating point: numbers are reals, so `Number.isInteger` and the `2147483647` bound are exact.
- The key order of JavaScript objects puts integer-like keys first. The model keeps plain
  insertion order.
- Keys inherited through the prototype (for example `constructor`) make `!columnDefinitions[key]`
  false in the source. They are not modelled.
- An own key named `__proto__`, which `JSON.parse` can produce, is an ordinary entry in
  `Objects.Put`. In the source, writing it into the flattened record (node.js:47), the normalised
  record (node.js:325, trash/migration_tool.mjs:145) or the unique-value tracker (node.js:156,
  trash/migration_tool.mjs:250) sets the object's prototype or is ignored. This is not modelled.
- Console logging and the `[INFO]` messages are left out.
- The command-line tool's records hold scalars only, because that tool does not flatten nested
  JSON or XML values.
- The script's timestamp `new Date().toISOString()` is the parameter `now` of
  `Inference.MigrationCli`.
- Flatten.FlattenRecord: requires a plain object at the top level. A JSON array of scalars, or XML
  items that hold only text, reach `flattenRecord` as scalars; `for…in` over them gives no key or
  index keys. Such records come from parsing, which is outside this model.
- Engine.InferAndValidate: requires at least one record for the web server. The web server
  rejects empty input before calling it (node.js:308–310); the engine itself would fail reading
  the keys of `records[0]`.
- Ddl.ColumnLine: builds the line from a column declaration (`Ddl.Line`), not by successive `+=`.
  The text is the same.
- Engine.InferAndValidate: uses the corrected seed of the node.js:90-92 finding and the textual
  February check of the node.js:129-131 finding, not the code as written. Under the code as written,
  `[{"id":"1"}]` declares `id VARCHAR(255) NOT NULL PRIMARY KEY`. For a host where `Number("1")` is
  1 and `new Date("1")` is invalid, the model declares `id INT NOT NULL AUTO_INCREMENT PRIMARY KEY`;
  a host that reads `"1"` as a date makes `id` a `DATETIME` column instead. Also under the code as written, the web server never
  flags a February date.
- The Spanish message texts of the log are left out: a log entry holds its reasons
  (`Validation.Reason`), not the rendered strings.
- Ddl.ColumnType: a column with no non-empty value has no inferred type under the corrected seed.
  It is declared `VARCHAR(255)`, the source's seed type.

## Findings

| source | as written | input that shows it | evidently intended | confidence | as-written member | corrected member |
|---|---|---|---|---|---|---|
| node.js:90-92 | A new column is seeded with `VARCHAR(255)` (so is `trash/migration_tool.mjs:174-180`). The merge keeps `VARCHAR` whenever the running type is `VARCHAR`, so every column stays `VARCHAR(255)` or `TEXT` and `AUTO_INCREMENT` is never emitted. | a column whose only value is `"1"`, on a host where `Number("1")` is 1 and `new Date("1")` is invalid | The first non-empty value sets the column's type, so the column is `INT` on such a host (`DATETIME` on a host that reads `"1"` as a date). | not executed | Inference.AsWrittenCounterexample | Inference.CorrectedColumnType |
| node.js:129-131 | The web server reads the month and day back from the parsed `Date`. A `Date` moves February 30 into March, so the month is never 2 with a day above 29, and the check never fires. | `"2023-02-30"`, which the web server accepts as a valid date | February 30 and 31 are rejected. The command-line tool's textual check (trash/migration_tool.mjs:219-225) does this. | not executed | Validation.FebruaryThirtiethAsWritten | Validation.FebruaryFlagOfDashedDate |
