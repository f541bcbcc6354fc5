/** A row (Commie/CSVRow.php): the fields of one record, the record's offset
    in the file, and the file's shared column mapper. */
module Rows {
  import opened Php
  import opened ColMapper
  import LegacyColumns
  import Columns

  /** PHP's `!(bool)implode('', $fields)`: the row counts as empty when its
      fields concatenate to "" or "0". */
  predicate Blank(fields: seq<string>) {
    IsFalsy(Concat(fields))
  }

  /** A row is blank exactly when all its fields are empty, or one is "0" and
      the others are empty. */
  lemma BlankFields(fields: seq<string>)
    ensures Blank(fields) <==> AllEmpty(fields) || exists z :: OnlyZeroAt(fields, z)
  {
    ConcatEmpty(fields);
    ConcatZero(fields);
  }

  /** A record as long as the first record its mapper was built from never
      falls back to null: every key that resolves lands on one of its fields. */
  lemma ResolvedInRange(row: CsvRow, header: seq<string>, hasHeader: bool, key: Key)
    requires BuiltFrom(row.mapper, header, hasHeader, row.mapper.trimAll)
    requires |row.rowData| == |header|
    ensures row.Lookup(key).Success? ==>
      var p := row.mapper.Resolve(key).value;
      0 <= p < |row.rowData| && row.Lookup(key).value == Str(row.rowData[p])
  {
    if hasHeader {
      HeaderLabelsBijective(header, row.mapper.trimAll);
      if key.Index? && key.i in row.mapper.indexes {
        var j :| 0 <= j < |row.mapper.indexes| && row.mapper.indexes[j] == key.i;
      }
    } else {
      ResolveWithoutHeader(row.mapper, key);
    }
  }

  class CsvRow {
    const rowData: seq<string>
    const rowIdx: int
    const mapper: CsvColMapper
    /** The memoised answer of `isEmpty`, `None` until first asked. */
    var empty: Option<bool>

    ghost predicate Valid()
      reads this
    {
      empty.Some? ==> empty.value == Blank(rowData)
    }

    constructor (mapper: CsvColMapper, idx: int, rowData: seq<string>)
      ensures Valid()
      ensures this.mapper == mapper && this.rowData == rowData
      ensures Offset() == idx
      ensures empty == None
    {
      rowIdx := idx;
      this.rowData := rowData;
      this.mapper := mapper;
      empty := None;
    }

    /** The record offset the row was read from. */
    function Offset(): int {
      rowIdx
    }

    /** Whether the row is empty; computed on the first call and cached. */
    method IsEmpty() returns (b: bool)
      requires Valid()
      modifies this`empty
      ensures Valid()
      ensures b == Blank(rowData)
      ensures empty == Some(b)
    {
      if empty.None? {
        empty := Some(IsFalsy(Concat(rowData)));
      }
      b := empty.value;
    }

    /** Whether the key names a column: the mapper resolves it. */
    function IsCol(key: Key): (r: bool)
      reads this, mapper
      ensures r <==>
        || (key.Label? && Normalize(key.s, mapper.trimAll) in mapper.labels)
        || (key.Index? && key.i in mapper.indexes)
    {
      mapper.Resolve(key).Some?
    }

    /** The field at an offset; PHP yields null for an offset the record does
        not have (a record shorter than the header). */
    function FieldAt(offset: int): Mixed
    {
      if 0 <= offset < |rowData| then Str(rowData[offset]) else Null
    }

    /** The raw value `col` wraps: the field at the resolved offset, or
        `OutOfRangeException` when the key does not resolve. */
    function Lookup(key: Key): (r: Result<Mixed, Error>)
      reads this, mapper
      ensures r.Failure? <==> !IsCol(key)
      ensures r.Failure? ==> r.error == OutOfRange
      ensures r.Success? ==> r.value == FieldAt(mapper.Resolve(key).value)
      ensures r.Success? ==> r.value.Str? || r.value.Null?
    {
      if !IsCol(key) then Failure(OutOfRange)
      else Success(FieldAt(mapper.Resolve(key).value))
    }

    /** A fresh column object for the key; `trimValues` models the column
        class's static trimming flag. */
    method Col(key: Key, trimValues: bool) returns (r: Result<LegacyColumns.CsvCol, Error>)
      ensures r.Failure? <==> !IsCol(key)
      ensures r.Failure? ==> r.error == OutOfRange
      ensures r.Success? ==> fresh(r.value) && r.value.value == Columns.InitialValue(Lookup(key).value, trimValues)
    {
      if !IsCol(key) {
        return Failure(OutOfRange);
      }
      var col := new LegacyColumns.CsvCol(FieldAt(mapper.Resolve(key).value), trimValues);
      return Success(col);
    }
  }
}
