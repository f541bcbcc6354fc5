/** The file accessor (Commie/CSVFile.php): sequential and random access to
    the rows of a record source, with a column mapper built lazily from the
    first record. The cursor bookkeeping of `read()` is specified by the pure
    state machine `ReadStep`; the class methods are proved to follow it. */
module Files {
  import opened Php
  import opened ColMapper
  import opened Rows
  import opened RecordSource

  /** What `read()` depends on: the source's current line, whether that line
      has been read from the stream, and the accessor's `lastRow`. */
  datatype Cursor = Cursor(key: nat, lastRow: nat, loaded: bool)

  /** The outcome of one `read()`: the offset of the record returned (none for
      the end-of-data sentinel) and the cursor afterwards. */
  datatype Step = Step(row: Option<nat>, next: Cursor)

  /** Both positions stay on a line of the file (line 0 when it is empty). */
  predicate CursorValid(n: nat, c: Cursor) {
    c.key < Bound(n) && c.lastRow < Bound(n)
  }

  /** The sentinel is due: the source is at its end and `lastRow` is its line. */
  predicate Sentinel(n: nat, c: Cursor) {
    c.loaded && AtEof(n, c.key) && c.lastRow == c.key
  }

  /** The line a `read()` returns unless the sentinel is due: the header is
      skipped from line 0. */
  function Target(headers: bool, c: Cursor): nat {
    if c.key == 0 && headers then 1 else c.key
  }

  /** The next `read()` stays within the file: it returns the sentinel, or
      the line it would seek to and read exists. */
  predicate Readable(n: nat, headers: bool, c: Cursor) {
    CursorValid(n, c) && (Sentinel(n, c) || Target(headers, c) < n)
  }

  /** One `read()` on a file of `n` records. */
  function ReadStep(n: nat, headers: bool, c: Cursor): (s: Step)
    requires Readable(n, headers, c)
    ensures Readable(n, headers, s.next)
    ensures s.row.None? <==> c.loaded && AtEof(n, c.key) && c.lastRow == c.key
    ensures s.row.None? ==> s.next == c
    ensures s.row.Some? ==> s.row.value < n && s.next.lastRow == s.row.value
    ensures s.row.Some? ==> s.next.key == if AtEof(n, s.row.value) then s.row.value else s.row.value + 1
    ensures s.row.Some? ==> s.next.loaded == AtEof(n, s.row.value)
    ensures s.row.Some? && headers ==> s.row.value >= 1
    ensures s.row.Some? && c.key > 0 ==> s.row.value == c.key
  {
    if Sentinel(n, c) then Step(None, c)
    else
      var k := Target(headers, c);
      Step(Some(k), Cursor(if AtEof(n, k) then k else k + 1, k, AtEof(n, k)))
  }

  /** The offsets that repeated `read()` calls return, up to the sentinel. */
  function Drain(n: nat, headers: bool, c: Cursor): seq<nat>
    requires Readable(n, headers, c)
    decreases 2 * (Bound(n) - c.key) + (if Sentinel(n, c) then 0 else 1)
  {
    var s := ReadStep(n, headers, c);
    if s.row.None? then [] else [s.row.value] + Drain(n, headers, s.next)
  }

  /** The offsets `a`, `a + 1`, ..., `b - 1`. */
  function Interval(a: nat, b: nat): (r: seq<nat>)
    ensures |r| == if a <= b then b - a else 0
    ensures forall k :: 0 <= k < |r| ==> r[k] == a + k
    decreases b - a
  {
    if a >= b then [] else [a] + Interval(a + 1, b)
  }

  /** Once past the header, and unless the sentinel is already due, reading
      returns every record from the cursor to the end of the file, in order. */
  lemma {:induction false} DrainFrom(n: nat, headers: bool, c: Cursor)
    requires Readable(n, headers, c)
    requires c.key > 0 || !headers
    requires !Sentinel(n, c)
    ensures Drain(n, headers, c) == Interval(c.key, n)
    decreases n - c.key
  {
    var s := ReadStep(n, headers, c);
    if AtEof(n, c.key) {
      assert s.next == Cursor(c.key, c.key, true);
      assert Drain(n, headers, s.next) == [];
    } else {
      DrainFrom(n, headers, s.next);
    }
  }

  /** From line 0 of a source just opened or rewound, reading returns every
      data record once, in order, never the header. A headerless file needs
      one record and a file with a header two, or the first `read()` would
      go past the end. */
  lemma DrainFromStart(n: nat, headers: bool, lastRow: nat)
    requires lastRow < Bound(n)
    requires n >= if headers then 2 else 1
    ensures Drain(n, headers, Cursor(0, lastRow, false)) == Interval(if headers then 1 else 0, n)
  {
    var c := Cursor(0, lastRow, false);
    if headers {
      var s := ReadStep(n, headers, c);
      if n == 2 {
        assert Drain(n, headers, s.next) == [];
      } else {
        DrainFrom(n, headers, s.next);
      }
    } else {
      DrainFrom(n, headers, c);
    }
  }

  /** The file of tests/Commie/CSVFileTest.php: a header and four data rows
      read to the end yield exactly four rows. */
  lemma FourDataRows()
    ensures Drain(5, true, Cursor(0, 0, false)) == [1, 2, 3, 4]
  {
    DrainFromStart(5, true, 0);
  }

  /** `row()` stores the current line in `lastRow` and seeks back to it,
      which reads that line. When the cursor has just moved onto the last
      record, that record is still due; after a `row()` call the next
      `read()` returns the sentinel instead. Had the line been left unread,
      the record would still be returned. */
  lemma RowBeforeLastRead(n: nat, headers: bool)
    requires n >= 2
    ensures Drain(n, headers, Cursor(n - 1, n - 2, false)) == [n - 1]
    ensures Drain(n, headers, Cursor(n - 1, n - 1, true)) == []
    ensures Drain(n, headers, Cursor(n - 1, n - 1, false)) == [n - 1]
  {
    var s := ReadStep(n, headers, Cursor(n - 1, n - 2, false));
    assert Drain(n, headers, s.next) == [];
    var t := ReadStep(n, headers, Cursor(n - 1, n - 1, false));
    assert Drain(n, headers, t.next) == [];
  }

  /** Away from the end of the file, a `row()` call, which leaves `lastRow`
      on the cursor and the cursor's line read unless it is line 0, does not
      change what the next `read()` returns. */
  lemma RowKeepsNextRead(n: nat, headers: bool, c: Cursor)
    requires Readable(n, headers, c) && !AtEof(n, c.key)
    ensures ReadStep(n, headers, Cursor(c.key, c.key, c.key > 0)).row == ReadStep(n, headers, c).row
  {
  }

  class CsvFile {
    const file: SplFile
    var delimiter: string
    var enclosure: string
    var escape: string
    const headersPresent: bool
    var lastRow: nat
    var mapper: CsvColMapper?
    /** Models the static `CSVColMapper::$TRIM_ALL` flag for the mapper this file builds. */
    const trimLabels: bool

    ghost predicate Valid()
      reads this, file
    {
      file.Valid() && lastRow < Bound(|file.records|)
    }

    constructor (file: SplFile, headersPresent: bool, trimLabels: bool)
      requires file.Valid()
      ensures Valid()
      ensures this.file == file && HasHeaders() == headersPresent && this.trimLabels == trimLabels
      ensures lastRow == 0 && mapper == null
      ensures delimiter == DefaultDelimiter && enclosure == DefaultEnclosure && escape == DefaultEscape
    {
      this.file := file;
      this.headersPresent := headersPresent;
      this.trimLabels := trimLabels;
      delimiter, enclosure, escape := DefaultDelimiter, DefaultEnclosure, DefaultEscape;
      lastRow := 0;
      mapper := null;
    }

    method SetMapper(m: CsvColMapper)
      modifies this`mapper
      ensures mapper == m
    {
      mapper := m;
    }

    function HasHeaders(): bool {
      headersPresent
    }

    /** Accepts a delimiter of at most one character and passes it to the
        source; `setCsvControl` with one argument resets the other two
        settings of the source to their defaults. The empty string passes
        the length check, and the source then refuses it with a `ValueError`,
        which escapes before anything is stored. */
    method SetDelimiter(delim: string) returns (r: Outcome<Error>)
      modifies this`delimiter, file`delimiter, file`enclosure, file`escape
      ensures r == if |delim| > 1 then Fail(InvalidArgument) else if |delim| == 0 then Fail(ValueError) else Pass
      ensures r.Fail? ==> unchanged(this) && unchanged(file)
      ensures r.Pass? ==> delimiter == delim
      ensures r.Pass? ==> file.delimiter == delim && file.enclosure == DefaultEnclosure && file.escape == DefaultEscape
    {
      if |delim| > 1 {
        return Fail(InvalidArgument);
      }
      r := file.SetCsvControl(delim, DefaultEnclosure, DefaultEscape);
      if r.Fail? {
        return r;
      }
      delimiter := delim;
    }

    /** `setDelimiter` as written: once `$delim` passes the length check, the
        undefined variable `$delimiter` is passed instead, which PHP reads
        as null and converts to the empty string; `setCsvControl` refuses
        it, so no argument is ever accepted. */
    method SetDelimiterAsWritten(delim: string) returns (r: Outcome<Error>)
      modifies this`delimiter, file`delimiter, file`enclosure, file`escape
      ensures r == if |delim| > 1 then Fail(InvalidArgument) else Fail(ValueError)
      ensures unchanged(this) && unchanged(file)
    {
      if |delim| > 1 {
        return Fail(InvalidArgument);
      }
      var undefined := "";
      r := file.SetCsvControl(undefined, DefaultEnclosure, DefaultEscape);
      // The refusal escapes as an exception: the assignment that follows
      // `setCsvControl` in the source is never reached.
    }

    /** Accepts an enclosure character of at most one character, which the
        source accepts together with the stored delimiter only when both are
        single characters; the source's escape setting returns to its
        default. */
    method SetEnclosing(enclosure: string) returns (r: Outcome<Error>)
      modifies this`enclosure, file`delimiter, file`enclosure, file`escape
      ensures r == if |enclosure| > 1 then Fail(InvalidArgument)
                   else if |delimiter| != 1 || |enclosure| != 1 then Fail(ValueError) else Pass
      ensures r.Fail? ==> unchanged(this) && unchanged(file)
      ensures r.Pass? ==> this.enclosure == enclosure
      ensures r.Pass? ==> file.delimiter == delimiter && file.enclosure == enclosure && file.escape == DefaultEscape
    {
      if |enclosure| > 1 {
        return Fail(InvalidArgument);
      }
      r := file.SetCsvControl(delimiter, enclosure, DefaultEscape);
      if r.Fail? {
        return r;
      }
      this.enclosure := enclosure;
    }

    /** Accepts an escape character of at most one character; the source
        also needs the stored delimiter and enclosure to be single characters. */
    method SetEscape(escape: string) returns (r: Outcome<Error>)
      modifies this`escape, file`delimiter, file`enclosure, file`escape
      ensures r == if |escape| > 1 then Fail(InvalidArgument)
                   else if |delimiter| != 1 || |enclosure| != 1 then Fail(ValueError) else Pass
      ensures r.Fail? ==> unchanged(this) && unchanged(file)
      ensures r.Pass? ==> this.escape == escape
      ensures r.Pass? ==> file.delimiter == delimiter && file.enclosure == enclosure && file.escape == escape
    {
      if |escape| > 1 {
        return Fail(InvalidArgument);
      }
      r := file.SetCsvControl(delimiter, enclosure, escape);
      if r.Fail? {
        return r;
      }
      this.escape := escape;
    }

    /** The cached mapper, built from record 0 on first use with the cursor
        put back where it was. */
    method GetMapper() returns (m: CsvColMapper)
      requires Valid() && |file.records| > 0
      modifies this`mapper, file`key, file`loaded
      ensures Valid()
      ensures file.key == old(file.key)
      ensures mapper == m
      ensures old(mapper) != null ==> m == old(mapper) && file.loaded == old(file.loaded)
      ensures old(mapper) == null ==> fresh(m) && BuiltFrom(m, file.records[0], headersPresent, trimLabels)
      ensures old(mapper) == null ==> file.loaded == (file.key > 0)
    {
      if mapper == null {
        var curIdx := file.Key();
        file.Seek(0);
        var header := file.Current();
        var built := new CsvColMapper(header, HasHeaders(), trimLabels);
        SetMapper(built);
        file.Seek(curIdx);
      }
      m := mapper;
    }

    /** Random access to record `idx`; a non-integer index is refused with
        `InvalidArgumentException`. The cursor ends where it was, and
        `lastRow` holds that line; seeking back has read it unless it is
        line 0. */
    method Row(idx: Mixed) returns (r: Result<CsvRow, Error>)
      requires Valid()
      requires idx.Int? ==> 0 <= idx.i < |file.records|
      modifies this`lastRow, this`mapper, file`key, file`loaded
      ensures Valid()
      ensures file.key == old(file.key)
      ensures idx.Int? ==> file.loaded == (file.key > 0)
      ensures !idx.Int? ==> r == Failure(InvalidArgument) && unchanged(this) && unchanged(file)
      ensures idx.Int? ==> r.Success? && fresh(r.value) && r.value.Valid()
      ensures idx.Int? ==> r.value.Offset() == idx.i && r.value.rowData == file.records[idx.i]
      ensures idx.Int? ==> r.value.mapper == mapper && lastRow == old(file.key)
      ensures idx.Int? && old(mapper) != null ==> mapper == old(mapper)
      ensures idx.Int? && old(mapper) == null ==> fresh(mapper) && BuiltFrom(mapper, file.records[0], headersPresent, trimLabels)
    {
      if !idx.Int? {
        return Failure(InvalidArgument);
      }
      lastRow := file.Key();
      file.Seek(idx.i);
      var m := GetMapper();
      var fields := file.Current();
      var row := new CsvRow(m, idx.i, fields);
      file.Seek(lastRow);
      return Success(row);
    }

    /** Rewinds the source to line 0, not yet read; `lastRow` is kept. */
    method Reset()
      requires Valid()
      modifies file`key, file`loaded
      ensures Valid()
      ensures file.key == 0 && !file.loaded
    {
      file.Rewind();
    }

    /** The next row, or the end-of-data sentinel, as `ReadStep` says. */
    method Read() returns (r: Option<CsvRow>)
      requires Valid() && Readable(|file.records|, headersPresent, Cursor(file.key, lastRow, file.loaded))
      modifies this`lastRow, this`mapper, file`key, file`loaded
      ensures Valid() && Readable(|file.records|, headersPresent, Cursor(file.key, lastRow, file.loaded))
      ensures var s := ReadStep(|file.records|, headersPresent, Cursor(old(file.key), old(lastRow), old(file.loaded)));
        && file.key == s.next.key && lastRow == s.next.lastRow && file.loaded == s.next.loaded
        && (r.Some? <==> s.row.Some?)
        && (r.Some? ==> fresh(r.value) && r.value.Valid() && r.value.Offset() == s.row.value &&
                        r.value.rowData == file.records[s.row.value] && r.value.mapper == mapper)
      ensures r.None? || old(mapper) != null ==> mapper == old(mapper)
      ensures r.Some? && old(mapper) == null ==> fresh(mapper) && BuiltFrom(mapper, file.records[0], headersPresent, trimLabels)
    {
      if file.Eof() && lastRow == file.Key() {
        return None;
      }
      if file.Key() == 0 && HasHeaders() {
        file.Seek(1);
      }
      var m := GetMapper();
      var fields := file.Current();
      var row := new CsvRow(m, file.Key(), fields);
      lastRow := file.Key();
      if !file.Eof() {
        file.Next();
      }
      return Some(row);
    }
  }
}
