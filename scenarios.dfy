/** Clients of the model that replay the documented usage: the end-of-file
    test of tests/Commie/CSVFileTest.php, duplicate header labels, and the
    column value holder. */
module Scenarios {
  import opened Php
  import opened ColMapper
  import opened Rows
  import opened RecordSource
  import opened Files
  import Columns

  /** A header without duplicates maps each label to its own position. */
  lemma PlainHeader()
    ensures HeaderLabels(["id", "first", "last"], false) == map["id" := 0, "first" := 1, "last" := 2]
  {
    var m1 := HeaderLabels(["id"], false);
    assert ["id", "first"][..1] == ["id"];
    var m2 := HeaderLabels(["id", "first"], false);
    assert FreeKey(m1, "first") == "first";
    assert ["id", "first", "last"][..2] == ["id", "first"];
    assert FreeKey(m2, "last") == "last";
  }

  /** Header `a,a,b`: the second `a` is registered as `a2`. */
  lemma DuplicateHeader()
    ensures HeaderLabels(["a", "a", "b"], false) == map["a" := 0, "a2" := 1, "b" := 2]
  {
    assert ["a", "a"][..1] == ["a"];
    assert ["a", "a", "b"][..2] == ["a", "a"];
    var m1 := HeaderLabels(["a"], false);
    assert m1 == map["a" := 0];
    assert "a" + Suffix == "a2";
    assert FreeKey(m1, "a") == FreeKey(m1, "a2") == "a2";
    var m2 := HeaderLabels(["a", "a"], false);
    assert m2 == map["a" := 0, "a2" := 1];
    assert FreeKey(m2, "b") == "b";
  }

  /** Header `a,a,a`: the counter is never incremented, so the third `a`
      becomes `a22`, not `a3`. */
  lemma TripledHeader()
    ensures HeaderLabels(["a", "a", "a"], false) == map["a" := 0, "a2" := 1, "a22" := 2]
  {
    assert ["a", "a"][..1] == ["a"];
    assert ["a", "a", "a"][..2] == ["a", "a"];
    var m1 := HeaderLabels(["a"], false);
    assert m1 == map["a" := 0];
    assert "a" + Suffix == "a2" && "a2" + Suffix == "a22";
    assert FreeKey(m1, "a") == FreeKey(m1, "a2") == "a2";
    var m2 := HeaderLabels(["a", "a"], false);
    assert m2 == map["a" := 0, "a2" := 1];
    assert FreeKey(m2, "a22") == "a22";
    assert FreeKey(m2, "a2") == "a22";
    assert FreeKey(m2, "a") == "a22";
  }

  /** Resolving against header `a,a,b`: `a` is 0, `a2` is 1, `a3` is absent,
      and the positional index 2 resolves to itself. */
  method DuplicateHeaderLookups() returns (a: Option<int>, a2: Option<int>, a3: Option<int>, i2: Option<int>)
    ensures a == Some(0) && a2 == Some(1) && a3 == None && i2 == Some(2)
  {
    var m := new CsvColMapper(["a", "a", "b"], true, false);
    DuplicateHeader();
    a := m.Resolve(Label("a"));
    a2 := m.Resolve(Label("a2"));
    a3 := m.Resolve(Label("a3"));
    assert m.indexes[2] == 2;
    i2 := m.Resolve(Index(2));
  }

  /** A file of the shape the test reads: a header and four data rows. */
  const Sample: seq<seq<string>> := [
    ["id", "first", "last"],
    ["1", "Ann", "Lee"],
    ["2", "Bob", "Ray"],
    ["3", "Cy", "Fox"],
    ["4", "Di", "Oak"]
  ]

  /** The `first` column of a row whose mapper knows the sample header. */
  method FirstColumn(row: CsvRow) returns (v: Mixed)
    requires row.mapper.labels == map["id" := 0, "first" := 1, "last" := 2] && !row.mapper.trimAll
    requires |row.rowData| == 3
    ensures v == Str(row.rowData[1])
  {
    var col := row.Col(Label("first"), false);
    v := col.value.Value();
  }

  /** The test's loop on any file whose header is `id,first,last` and whose
      records have three fields: read rows until the sentinel and collect the
      `first` column of each. */
  method CollectFirsts(csv: CsvFile) returns (firsts: seq<Mixed>)
    requires csv.Valid() && csv.headersPresent && !csv.trimLabels
    requires csv.file.key == 0 && !csv.file.loaded && csv.lastRow == 0 && csv.mapper == null
    requires |csv.file.records| >= 2 && csv.file.records[0] == ["id", "first", "last"]
    requires forall k :: 0 <= k < |csv.file.records| ==> |csv.file.records[k]| == 3
    modifies csv, csv.file
    ensures |firsts| == |csv.file.records| - 1
    ensures forall j :: 0 <= j < |firsts| ==> firsts[j] == Str(csv.file.records[j + 1][1])
  {
    var f := csv.file;
    var n := |f.records|;
    PlainHeader();
    firsts := [];
    var row := csv.Read();
    while row.Some?
      invariant csv.Valid() && csv.file == f && |f.records| == n
      invariant Readable(n, true, Cursor(f.key, csv.lastRow, f.loaded))
      invariant row.Some? ==> row.value.Offset() == |firsts| + 1 < n && csv.lastRow == |firsts| + 1
      invariant row.Some? ==> f.key == if |firsts| + 2 < n then |firsts| + 2 else |firsts| + 1
      invariant row.Some? ==> f.loaded == (|firsts| + 2 >= n)
      invariant row.None? ==> |firsts| == n - 1
      invariant row.Some? ==> row.value.rowData == f.records[|firsts| + 1] && row.value.mapper == csv.mapper
      invariant csv.mapper != null && !csv.mapper.trimAll
      invariant csv.mapper.labels == map["id" := 0, "first" := 1, "last" := 2]
      invariant |firsts| <= n - 1 && forall j :: 0 <= j < |firsts| ==> firsts[j] == Str(f.records[j + 1][1])
      decreases n - |firsts|
    {
      var v := FirstColumn(row.value);
      firsts := firsts + [v];
      row := csv.Read();
    }
  }

  /** tests/Commie/CSVFileTest.php: a pipe-delimited file with a header and
      four data rows yields exactly four rows. This uses the corrected
      `SetDelimiter`; as written, the test stops at `setDelimiter('|')`
      (`PipeDelimiterAsWritten`). */
  method EofWithHeaders() returns (firsts: seq<Mixed>)
    ensures |firsts| == 4
    ensures firsts == [Str("Ann"), Str("Bob"), Str("Cy"), Str("Di")]
  {
    var f := new SplFile(Sample);
    var csv := new CsvFile(f, true, false);
    var _ := csv.SetDelimiter("|");
    firsts := CollectFirsts(csv);
  }

  /** As written, the test's `setDelimiter('|')` is refused by the source and
      both delimiter settings stay ','. */
  method PipeDelimiterAsWritten() returns (r: Outcome<Error>, stored: string, passed: string)
    ensures r == Fail(ValueError) && stored == "," && passed == ","
  {
    var f := new SplFile(Sample);
    var csv := new CsvFile(f, true, false);
    r := csv.SetDelimiterAsWritten("|");
    stored, passed := csv.delimiter, f.delimiter;
  }

  /** A headerless file with one record: `row(0)` seeks back to line 0
      without reading it, so the following `read()` still returns that
      record, and only the one after it the sentinel. */
  method SingleRecordRowThenRead() returns (offset: int, more: bool)
    ensures offset == 0 && !more
  {
    var f := new SplFile([["x"]]);
    var csv := new CsvFile(f, false, false);
    var _ := csv.Row(Int(0));
    var r := csv.Read();
    offset := if r.Some? then r.value.Offset() else -1;
    var r2 := csv.Read();
    more := r2.Some?;
  }

  /** `set(42)` succeeds and is read back; `set([1,2])` is refused and changes nothing. */
  method ColumnSet() returns (accepted: Outcome<Error>, refused: Outcome<Error>, v: Mixed)
    ensures accepted == Pass && refused == Fail(UnexpectedValue) && v == Int(42)
  {
    var c := new Columns.CsvCol(Str("x"), false);
    accepted := c.Set(Int(42));
    refused := c.Set(Array([Int(1), Int(2)]));
    v := c.Value();
  }
}
