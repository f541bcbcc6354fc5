# Commie CSV accessor: column resolution and row access, in Dafny

This project models the core of Commie, a small PHP library that presents a
delimited text file as rows addressable by header label or position. It has
four parts:

- **Column mapper** (`ColMapper`, after `Commie/CSVColMapper.php`). Built from
  the first record. It keeps the record's positions as `indexes`. With a
  header it also keeps a `labels` dictionary from label to offset. A label
  that is already taken gets `2` appended until the key is free. The counter
  meant to make that `2`, `3`, ... is never incremented, so the keys are
  `a`, `a2`, `a22`, ..., and the model does the same. `Resolve` tries a label,
  then a positional index, and otherwise answers `None`.
- **Row** (`Rows`, after `Commie/CSVRow.php`). One record's fields, its
  record offset and the shared mapper. `IsCol`/`Lookup`/`Col` go through
  `Resolve`; an unresolvable key is an `OutOfRange` error. `IsEmpty` caches
  PHP's "the fields concatenate to a falsy string" answer.
- **File accessor** (`Files`, after `Commie/CSVFile.php`). A class over a
  record source with a cursor. `Row(idx)` saves, seeks and restores the
  cursor; `GetMapper` builds the mapper once from record 0 and restores the
  cursor; `Read` skips the header and returns `None` as the end-of-data
  sentinel; `Reset` rewinds. `ReadStep` is a pure state machine over the
  cursor and `lastRow`; `Read` is proved to follow it. `Drain` lists what
  repeated reads return.
- **Column value** (`Columns` after `src/Commie/CSVCol.php`, `LegacyColumns`
  after `Commie/CSVCol.php`). A get/set holder with optional trimming on
  construction. The newer revision refuses non-scalar values in `Set`.

Supporting modules: `Php` holds the PHP semantics the core relies on
(dynamic values, `is_scalar`, `trim`, `implode`, string truthiness, the
exception kinds as an `Error` datatype). `RecordSource` models PHP's built-in
`SplFileObject` as an already-tokenised `seq<seq<string>>` with a cursor
`key` and `Seek`, `Next`, `Rewind`, `Current`, `Eof`, `SetCsvControl`.
It also records whether the line under the cursor has been read from the
stream: `Current` reads it; `Seek` rewinds and reads lines while the line
counter is below its target, so the target counts as read unless it is
line 0; `Next` and `Rewind` leave it
unread.
`Eof` holds once the last record has been read, so a source that was just
opened or rewound is not at its end.
`Scenarios` replays the end-of-file test and the documented examples.

Points where the code is followed to the letter:
- `mapLabel` sets `$i = 2` and never increments it, so duplicate labels
  become `a2`, `a22`, ...;
- `isEmpty` tests the concatenation of the fields, so a row is empty when
  its fields concatenate to `""` or `"0"`.

The one place the code is not followed: `setDelimiter` passes and stores an
undefined variable (see Findings). `Files.CsvFile.SetDelimiter` passes and
stores the validated argument, and `Files.CsvFile.SetDelimiterAsWritten`
models the code as it stands.

Behaviour of the code that the proofs make visible:
- `row()` stores the cursor in `lastRow` and seeks back to it, which reads
  that line unless it is line 0; called when the cursor has just moved onto the last record, it
  makes the next `read()` return the sentinel, and that record is never returned
  (`Files.RowBeforeLastRead`). This relies on `seek($k)` reading line `$k`,
  as `SplFileObject::seek` did before PHP 8.0.1.

## Model

| member | source | states |
|---|---|---|
| `ColMapper.CsvColMapper.constructor` | Commie/CSVColMapper.php:15-26 | `indexes` is exactly `0..n-1` for an `n`-field first record; `labels` is the header dictionary with a header and empty without one |
| `ColMapper.CsvColMapper.MapLabel` | Commie/CSVColMapper.php:45-59 | the collision loop terminates and registers the mapping under `FreeKey` of the (trimmed when trimming is on) label, leaving every other entry as it was |
| `ColMapper.FreeKey` | Commie/CSVColMapper.php:52-56 | the key the collision loop stops at: the first of the label, the label plus `2`, plus `22`, ... that is not yet a key; its properties are `FreeKeyShape` and `FreeKeyBare` |
| `ColMapper.HeaderLabels` | Commie/CSVColMapper.php:20-25 | the dictionary the constructor's `foreach` builds: every header field registered in order under its offset; its properties are `HeaderLabelsBijective`, `HeaderLabelsPrefix`, `HeaderLabelAt` and `HeaderLabelsTrimmed` |
| `ColMapper.FreeKeyShape` | Commie/CSVColMapper.php:52-56 | the registered key is not yet a key, and is the requested label followed by zero or more `'2'` characters |
| `ColMapper.FreeKeyBare` | Commie/CSVColMapper.php:54-58 | the first registrant of a label keeps the bare label |
| `ColMapper.MapLabelGrows` | Commie/CSVColMapper.php:54-58 | registering grows the dictionary by exactly one fresh key with the new mapping; all earlier entries are unchanged |
| `ColMapper.HeaderLabelsBijective` | Commie/CSVColMapper.php:20-25 | with a header there are exactly as many labels as fields, every label maps into `0..n-1`, and no two labels share an offset |
| `ColMapper.HeaderLabelsPrefix` | Commie/CSVColMapper.php:22-24 | labels registered for earlier header fields survive the registration of later ones |
| `ColMapper.HeaderLabelAt` | Commie/CSVColMapper.php:22-24 | each header position `p` is the value of its own key, computed from the labels of the fields before it (order of appearance); that key is the field plus `'2'`s, and the bare field when it was still free |
| `ColMapper.HeaderLabelsTrimmed` | Commie/CSVColMapper.php:47-50 | with trimming on, every stored label is a trimmed header field followed by `'2'`s |
| `ColMapper.CsvColMapper.Resolve` | Commie/CSVColMapper.php:28-43 | a registered label resolves to its offset (labels first), else an index in `indexes` resolves to itself, else `None`; any answer is an offset of a label or an index |
| `ColMapper.ResolveWithoutHeader` | Commie/CSVColMapper.php:34-42 | with no labels registered only the positions `0..n-1` resolve, each to itself |
| `ColMapper.ResolveIgnoresPadding` | Commie/CSVColMapper.php:30-32 | with trimming on, a padded label resolves exactly as its trim does |
| `Rows.CsvRow.constructor` | Commie/CSVRow.php:18-24 | `Offset()` is the given index, the fields and the mapper are the given ones, and nothing is cached yet; fields and offset are constants afterwards |
| `Rows.CsvRow.Offset` | Commie/CSVRow.php:26-28 | returns the index given to the constructor |
| `Rows.CsvRow.IsEmpty` | Commie/CSVRow.php:30-36 | the answer is "the fields concatenate to a falsy string", and it is cached, so every later call agrees |
| `Rows.BlankFields` | Commie/CSVRow.php:33 | a row is empty exactly when all fields are `""`, or one is `"0"` and the rest are `""` |
| `Php.ConcatEmpty` | Commie/CSVRow.php:33 | `implode` of the fields is `""` exactly when every field is `""` |
| `Php.ConcatZero` | Commie/CSVRow.php:33 | `implode` of the fields is `"0"` exactly when one field is `"0"` and all others are `""` |
| `Php.TrimIdempotent` | Commie/CSVColMapper.php:47-50 | trimming a trimmed label changes nothing, so normalising is stable |
| `Rows.CsvRow.IsCol` | Commie/CSVRow.php:57-63 | true exactly when the mapper has the (normalised) label or the key is one of its indexes, i.e. when `Resolve` answers |
| `Rows.ResolvedInRange` | Commie/CSVRow.php:52-54 | for a record as long as the mapper's first record, with or without a header, every key that resolves lands on an offset below the record's length, so `col` wraps that field and never PHP's null for a missing offset |
| `Rows.CsvRow.Lookup` | Commie/CSVRow.php:44-55 | fails with `OutOfRange` exactly when `IsCol` is false; otherwise yields the field at the resolved offset |
| `Rows.CsvRow.Col` | Commie/CSVRow.php:44-55 | fails with `OutOfRange` exactly when `IsCol` is false; otherwise returns a fresh column holding the looked-up field |
| `Columns.CsvCol.Value` | src/Commie/CSVCol.php:55-57 | the stored value, as the constructor and `Set` contracts describe it; reading it changes nothing |
| `LegacyColumns.CsvCol.Value` | Commie/CSVCol.php:21-23 | the stored value, as the constructor and `Set` contracts describe it; reading it changes nothing |
| `Columns.InitialValue` | src/Commie/CSVCol.php:43-45 | without trimming the value is kept; with trimming it becomes a string with nothing left to trim |
| `Columns.CsvCol.constructor` | src/Commie/CSVCol.php:39-48 | the stored value is the given value, or its trim when trimming is on |
| `Columns.CsvCol.Set` | src/Commie/CSVCol.php:66-73 | a non-scalar value is refused with `UnexpectedValue` and the old value kept; a scalar is stored |
| `LegacyColumns.CsvCol.constructor` | Commie/CSVCol.php:11-19 | the stored value is the given value, or its trim when trimming is on |
| `LegacyColumns.CsvCol.Set` | Commie/CSVCol.php:25-27 | any value is stored, with no type check |
| `Files.CsvFile.constructor` | Commie/CSVFile.php:33-40 | `HasHeaders()` is the flag given; `lastRow` is 0, no mapper is cached, the dialect has its defaults |
| `Files.CsvFile.HasHeaders` | Commie/CSVFile.php:46-48 | returns the header flag given to the constructor |
| `Files.CsvFile.SetMapper` | Commie/CSVFile.php:42-44 | the given mapper is cached |
| `Files.CsvFile.SetDelimiter` | Commie/CSVFile.php:50-63 | a delimiter longer than one character is refused with `InvalidArgument`, the empty one by the source with `ValueError`, and then nothing changes; a single character is stored and passed to the source, whose other two settings return to their defaults |
| `Files.CsvFile.SetDelimiterAsWritten` | Commie/CSVFile.php:50-63 | as written: a delimiter longer than one character is refused with `InvalidArgument`, and every other one with `ValueError`, because the source receives the undefined variable as an empty string; nothing ever changes |
| `Files.CsvFile.SetEnclosing` | Commie/CSVFile.php:65-77 | an enclosure longer than one character is refused with `InvalidArgument`; the source refuses with `ValueError` unless the stored delimiter and the enclosure are single characters; on refusal nothing changes, otherwise the enclosure is stored and passed, and the source's escape returns to its default |
| `Files.CsvFile.SetEscape` | Commie/CSVFile.php:79-91 | the same check for the escape character; the source refuses with `ValueError` unless the stored delimiter and enclosure are single characters; on refusal nothing changes, otherwise all three stored settings are passed |
| `Files.CsvFile.GetMapper` | Commie/CSVFile.php:100-116 | a cached mapper is returned as is and nothing moves; otherwise a fresh mapper is built from record 0 with the header flag and cached, and the cursor ends where it was, its line read unless it is line 0 |
| `Files.CsvFile.Row` | Commie/CSVFile.php:124-143 | a non-integer index is refused with `InvalidArgument` and nothing in the accessor or its source changes; otherwise a fresh row with offset `idx` and record `idx`, the cursor back where it was with its line read unless it is line 0, and `lastRow` set to that line |
| `Files.CsvFile.Reset` | Commie/CSVFile.php:145-147 | the cursor is back on line 0, not yet read, so the source is not at its end |
| `Files.CsvFile.Read` | Commie/CSVFile.php:149-173 | cursor, read flag, `lastRow` and the returned row are those `ReadStep` gives, and the next read again stays within the file; the row is fresh, holds that record and shares the cached mapper |
| `Files.ReadStep` | Commie/CSVFile.php:149-173 | the sentinel exactly when the last record has been read and `lastRow` is its line, and then nothing moves; with a header the header record is never returned; `lastRow` becomes the returned offset, which has now been read, and the cursor advances to the unread next line unless that offset is the last |
| `Files.DrainFrom` | Commie/CSVFile.php:166-170 | from past the header, unless the sentinel is due, repeated reads return every record to the end of the file in order |
| `Files.DrainFromStart` | Commie/CSVFile.php:145-158 | from line 0 of a source just opened or rewound, repeated reads return every data record once in order, skipping the header; a headerless single-record file yields its record |
| `Files.RowBeforeLastRead` | Commie/CSVFile.php:130-140 | with the cursor just moved onto the last record that record is still due, but after `row()` has set `lastRow` and re-read the line the next read is the sentinel; an unread line would still be returned |
| `Files.RowKeepsNextRead` | Commie/CSVFile.php:130-140 | away from the end of data, a `row()` call, which leaves `lastRow` on the cursor and its line read unless it is line 0, does not change what the next read returns |
| `Files.FourDataRows` | tests/Commie/CSVFileTest.php:12-31 | a header plus four data rows read to the end yields the offsets 1, 2, 3, 4 |
| `Scenarios.CollectFirsts` | tests/Commie/CSVFileTest.php:20-25 | the test's `read()` loop on any file with header `id,first,last` collects the `first` column of every data row, in order |
| `Scenarios.EofWithHeaders` | tests/Commie/CSVFileTest.php:12-31 | on a pipe-delimited file with a header and four data rows, the loop yields exactly four values; this uses the corrected `setDelimiter`, since as written the test stops there (`Scenarios.PipeDelimiterAsWritten`) |
| `Scenarios.DuplicateHeader` | Commie/CSVColMapper.php:52-58 | header `a,a,b` registers `a -> 0`, `a2 -> 1`, `b -> 2` |
| `Scenarios.TripledHeader` | Commie/CSVColMapper.php:52-58 | header `a,a,a` registers `a`, `a2`, `a22` (never `a3`) |
| `Scenarios.DuplicateHeaderLookups` | Commie/CSVColMapper.php:28-43 | against header `a,a,b`, `a` resolves to 0, `a2` to 1, index 2 to 2, and `a3` to nothing |
| `Scenarios.PipeDelimiterAsWritten` | Commie/CSVFile.php:60-61 | as written, the test's `setDelimiter` with a pipe character is refused with `ValueError`, and both the accessor's and the source's delimiter stay `,` |
| `Scenarios.SingleRecordRowThenRead` | Commie/CSVFile.php:124-173 | on a headerless one-record file, `row(0)` then `read()` still returns record 0, and only the next `read()` returns the sentinel |
| `Scenarios.ColumnSet` | src/Commie/CSVCol.php:66-73 | `set(42)` succeeds and `value()` then returns 42; `set([1,2])` is refused with `UnexpectedValue` |

## Left out

- `SplFileObject` itself: opening the file, `READ_CSV` tokenising, quoting and escaping. Records are given as field sequences; the dialect settings are recorded on the source but do not re-tokenise it.
- `SplFile.Seek` needs a line below the record count, so `Files.CsvFile.Row` needs `0 <= idx < |records|`. What the real source does for a negative index or for an index past the end is its own behaviour.
- `Files.CsvFile.GetMapper` needs a non-empty file. On an empty file `current()` in `READ_CSV` mode returns `[null]`, a null field that the model's string records cannot hold; this is not modelled.
- `Files.CsvFile.Read` needs `Readable`: the line it would return exists. On an empty file the first `read()` reaches `current()`, which returns `[null]` as above, and on a file holding only a header it seeks to line 1, past the end; what `SplFileObject` does there is not modelled. `Files.DrainFromStart` therefore starts from a file with at least one data record.
- `Eof` holds once the last record has been read. A trailing newline, after which the real source reads one more, empty, line before it is at its end, is not modelled.
- `RecordSource.SplFile.Seek` leaves its target read unless it is line 0, as `SplFileObject::seek` did before PHP 8.0.1. From PHP 8.0.1 the target is left unread; then `row()` on the last record does not end `read()` early, the third case of `Files.RowBeforeLastRead`.
- `RecordSource.SplFile.SetCsvControl` follows PHP 8, which throws a `ValueError` for a delimiter or enclosure that is not one character, or an escape longer than one. PHP 7 instead warns, returns false and keeps its settings, and the accessor's setters then store the argument anyway; that variant is not modelled.
- The record source is therefore PHP 8.0.0's `SplFileObject` only: `seek` as before PHP 8.0.1, and `setCsvControl` as from PHP 8.0.
- PHP reference aliasing (`&$val` in both column constructors, `=&` on the file): values are copied.
- The static `TRIM_ALL` flags are parameters: `trimAll` of the mapper, `trimLabels` of the file, `trimAll` of each column constructor, and `trimValues` of `Rows.CsvRow.Col`.
- Keys are `Index(int) | Label(string)` with exact equality. PHP's loose comparison in `in_array` and numeric-string array keys (a header field `"3"` becoming key `3`) are not modelled. Trimming an integer key is modelled as doing nothing. The mapping of `mapLabel` stays an integer under trimming; PHP turns it into a numeric string that indexes the same field.
- Floats and objects are not among the `Mixed` values (`is_scalar` of a float is true). Exception messages are not modelled, only their classes.
- `Columns.CsvCol.constructor` and `LegacyColumns.CsvCol.constructor`: with trimming on they need a non-array value, because PHP's `trim` rejects arrays.
- The "not bound to an `SplFileObject`" branches of the three dialect setters cannot be reached: the constructor's type hint guarantees the binding.
- `strlen` counts bytes; the model counts characters.
- `Rows.CsvRow.Col` builds the column of the older revision (`Commie/CSVCol.php`, the same directory as the row). Which class PHP autoloads is not part of this model.
- The commented-out `read`, `write` and `len` stubs of `Commie/CSVColMapper.php`; `file()` is modelled as the constant field `file`.

## Findings

| source | as written | input that shows it | evidently intended | confidence | as-written member | corrected member |
|---|---|---|---|---|---|---|
| Commie/CSVFile.php:60-61 | after checking `$delim`, `setDelimiter` passes the undefined `$delimiter` to `setCsvControl` and stores it; PHP reads it as null, which becomes the empty string that `setCsvControl` refuses | `setDelimiter` with a pipe character, as in tests/Commie/CSVFileTest.php:18 (`Scenarios.PipeDelimiterAsWritten`) | pass `$delim` to `setCsvControl` and store it | high; not executed | `Files.CsvFile.SetDelimiterAsWritten` | `Files.CsvFile.SetDelimiter` |
