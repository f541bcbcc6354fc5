/** The record source the file accessor reads from: PHP's `SplFileObject` in
    `READ_CSV` mode, reduced to an already-tokenised sequence of records and a
    line cursor, together with whether the line under the cursor has been
    read from the stream. Opening the file and splitting lines into fields are
    not modelled; the records are given. */
module RecordSource {
  import opened Php

  /** The default `setCsvControl` arguments. */
  const DefaultDelimiter: string := ","
  const DefaultEnclosure: string := "\""
  const DefaultEscape: string := "\\"

  /** The largest cursor position plus one: an empty file still has line 0. */
  function Bound(n: nat): (b: nat)
    ensures b >= 1 && b >= n
  {
    if n == 0 then 1 else n
  }

  /** The cursor is on the last record (or there is none). */
  predicate AtEof(n: nat, key: nat) {
    key + 1 >= n
  }

  class SplFile {
    const records: seq<seq<string>>
    /** The current line, `key()`. */
    var key: nat
    /** Whether the line under the cursor has been read from the stream. */
    var loaded: bool
    /** The dialect last passed to `setCsvControl`. */
    var delimiter: string
    var enclosure: string
    var escape: string

    ghost predicate Valid()
      reads this
    {
      key < Bound(|records|)
    }

    constructor (records: seq<seq<string>>)
      ensures Valid()
      ensures this.records == records && key == 0 && !loaded
      ensures delimiter == DefaultDelimiter && enclosure == DefaultEnclosure && escape == DefaultEscape
    {
      this.records := records;
      key := 0;
      loaded := false;
      delimiter, enclosure, escape := DefaultDelimiter, DefaultEnclosure, DefaultEscape;
    }

    function Key(): nat
      reads this
    {
      key
    }

    /** `eof()`: the stream has been read to its end, that is, the last
        record has been read. A source that was just opened or rewound is
        not at its end, whatever its length. */
    function Eof(): bool
      reads this
    {
      loaded && AtEof(|records|, key)
    }

    /** `current()`: the fields of the record under the cursor, which are
        read from the stream if they have not been yet. */
    method Current() returns (fields: seq<string>)
      requires key < |records|
      modifies this`loaded
      ensures fields == records[key] && loaded
    {
      loaded := true;
      fields := records[key];
    }

    /** `seek($line)`: rewinds, then reads lines while the line counter is
        below `line`, so a line other than 0 counts as read and line 0 does
        not. Seeking past the last record is left to the real source. */
    method Seek(line: nat)
      requires line < |records|
      modifies this`key, this`loaded
      ensures key == line && loaded == (line > 0)
    {
      key := line;
      loaded := line > 0;
    }

    /** `next()`, only used when not at end of data: the next line is not
        read until it is asked for. */
    method Next()
      requires key + 1 < |records|
      modifies this`key, this`loaded
      ensures key == old(key) + 1 && !loaded
    {
      key := key + 1;
      loaded := false;
    }

    /** `rewind()`: back to line 0, which is not read yet. */
    method Rewind()
      modifies this`key, this`loaded
      ensures key == 0 && !loaded
    {
      key := 0;
      loaded := false;
    }

    /** `setCsvControl($delimiter, $enclosure, $escape)`: the delimiter and
        the enclosure must be single characters and the escape at most one;
        otherwise a `ValueError` is thrown and the settings are kept. */
    method SetCsvControl(delimiter: string, enclosure: string, escape: string) returns (r: Outcome<Error>)
      modifies this`delimiter, this`enclosure, this`escape
      ensures r == if |delimiter| != 1 || |enclosure| != 1 || |escape| > 1 then Fail(ValueError) else Pass
      ensures r.Fail? ==> unchanged(this)
      ensures r.Pass? ==> this.delimiter == delimiter && this.enclosure == enclosure && this.escape == escape
    {
      if |delimiter| != 1 || |enclosure| != 1 || |escape| > 1 {
        return Fail(ValueError);
      }
      this.delimiter, this.enclosure, this.escape := delimiter, enclosure, escape;
      return Pass;
    }
  }
}
