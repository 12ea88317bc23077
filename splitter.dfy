/** The CSV splitter's core, `process_csv`: project the parsed table onto the
    selected columns and write it out as one file, or as several files of
    `rowsPerFile` data rows each. */
module Splitter {
  import opened Projection
  import opened Chunking
  import Decimal

  /** What a buffer holds once its writer has run: the header line written when
      it was opened, then the data lines. */
  datatype Buffer = Buffer(header: Row, rows: seq<Row>)

  /** One output file: its name, its header line and its data lines, before
      CSV rendering. */
  datatype OutputFile = OutputFile(name: string, header: Row, rows: seq<Row>)

  /** The outcome of detecting the upload's encoding, decoding it and reading
      it as CSV: the records the reader yields, why decoding failed, or that
      the reader itself gave up on the text (`csv.Error`, for instance a bare
      carriage return inside an unquoted field, or a field longer than the
      reader's size limit). */
  datatype Decoded = EncodingUndetected | InvalidBytes | ReaderFailure | Records(records: seq<Row>)

  /** The errors that leave the core: the three `ValueError`s it raises, and
      the reader's `csv.Error`, which it does not catch and lets through. */
  datatype Error = DecodeError | EmptyFile | NoData | ReaderError

  datatype Result<T> = Ok(value: T) | Fail(error: Error)

  datatype Option<T> = None | Some(value: T)

  /** Name of the only output when the rows are not split. */
  function SingleName(prefix: string): string {
    prefix + ".csv"
  }

  /** Name of a split output, `f"{prefix}_{number}.csv"`. */
  function PartName(prefix: string, number: nat): string {
    prefix + "_" + Decimal.NatToString(number) + ".csv"
  }

  /** A split name is the prefix, an underscore, the file number in decimal
      and the extension: the number reads back from between the underscore
      and the extension. */
  lemma PartNameReadBack(prefix: string, number: nat)
    ensures var name := PartName(prefix, number);
      && |prefix| + 6 <= |name|
      && name[..|prefix|] == prefix && name[|prefix|] == '_' && name[|name| - 4..] == ".csv"
      && (forall i :: |prefix| + 1 <= i < |name| - 4 ==> Decimal.IsDigit(name[i]))
      && Decimal.ParseNat(name[|prefix| + 1 .. |name| - 4]) == number
  {
    var name := PartName(prefix, number);
    assert name[|prefix| + 1 .. |name| - 4] == Decimal.NatToString(number);
    Decimal.ParseNatToString(number);
  }

  /** Different file numbers give different names. */
  lemma PartNameInjective(prefix: string, a: nat, b: nat)
    ensures PartName(prefix, a) == PartName(prefix, b) ==> a == b
  {
    if PartName(prefix, a) == PartName(prefix, b) {
      var da, db := Decimal.NatToString(a), Decimal.NatToString(b);
      var name := PartName(prefix, a);
      assert |da| == |db|;
      assert da == name[|prefix| + 1 .. |name| - 4];
      assert db == name[|prefix| + 1 .. |name| - 4];
      Decimal.NatToStringInjective(a, b);
    }
  }

  /** `should_split`: the rows are split only when a positive chunk size is
      smaller than the number of data rows. */
  predicate ShouldSplit(rowsPerFile: int, totalRows: nat) {
    rowsPerFile > 0 && rowsPerFile < totalRows
  }

  /** Chunk `j` (from 0) stored under file number `j + 2`: the file number
      starts at 1 and is incremented when a chunk is opened, before that
      chunk is stored. */
  function NumberedFiles(prefix: string, head: Row, chunks: seq<seq<Row>>): (files: seq<OutputFile>)
    ensures |files| == |chunks|
  {
    seq(|chunks|, j requires 0 <= j < |chunks| => OutputFile(PartName(prefix, j + 2), head, chunks[j]))
  }

  lemma NumberedFilesAppend(prefix: string, head: Row, chunks: seq<seq<Row>>, last: seq<Row>)
    ensures NumberedFiles(prefix, head, chunks + [last])
         == NumberedFiles(prefix, head, chunks) + [OutputFile(PartName(prefix, |chunks| + 2), head, last)]
  {
  }

  /** The files `process_csv` produces from a header and its data rows. */
  function Outputs(header: Row, rows: seq<Row>, plan: seq<nat>, rowsPerFile: int, prefix: string): seq<OutputFile>
    requires InBounds(header, plan)
  {
    var head := HeaderRow(header, plan);
    var body := ProjectRows(rows, plan);
    if ShouldSplit(rowsPerFile, |rows|) then
      NumberedFiles(prefix, head, Chunks(body, rowsPerFile))
    else
      [OutputFile(SingleName(prefix), head, body)]
  }

  /** The data rows of a list of outputs, in output order. */
  function AllRows(outs: seq<OutputFile>): seq<Row> {
    if outs == [] then [] else outs[0].rows + AllRows(outs[1..])
  }

  lemma {:induction false} AllRowsIsFlatten(outs: seq<OutputFile>, chunks: seq<seq<Row>>)
    requires |outs| == |chunks|
    requires forall j :: 0 <= j < |outs| ==> outs[j].rows == chunks[j]
    ensures AllRows(outs) == Flatten(chunks)
  {
    if outs != [] {
      AllRowsIsFlatten(outs[1..], chunks[1..]);
    }
  }

  /** Without splitting there is one file, `{prefix}.csv`, holding every
      projected data row; splitting happens exactly when it yields more than
      one file. */
  lemma OutputsSplitDecision(header: Row, rows: seq<Row>, plan: seq<nat>, rowsPerFile: int, prefix: string)
    requires InBounds(header, plan)
    ensures var outs := Outputs(header, rows, plan, rowsPerFile, prefix);
      && (ShouldSplit(rowsPerFile, |rows|) <==> |outs| > 1)
      && (!ShouldSplit(rowsPerFile, |rows|) ==>
            outs == [OutputFile(SingleName(prefix), HeaderRow(header, plan), ProjectRows(rows, plan))])
  {
    if ShouldSplit(rowsPerFile, |rows|) {
      var body := ProjectRows(rows, plan);
      FlattenChunks(body, rowsPerFile);
    }
  }

  /** In split mode there are `ceil(total / rowsPerFile)` files; each but the
      last holds exactly `rowsPerFile` rows, the last between 1 and
      `rowsPerFile`. */
  lemma OutputsCountAndSizes(header: Row, rows: seq<Row>, plan: seq<nat>, rowsPerFile: int, prefix: string)
    requires InBounds(header, plan)
    requires ShouldSplit(rowsPerFile, |rows|)
    ensures var outs := Outputs(header, rows, plan, rowsPerFile, prefix);
      && |outs| == CeilDiv(|rows|, rowsPerFile)
      && (forall j :: 0 <= j < |outs| - 1 ==> |outs[j].rows| == rowsPerFile)
      && 1 <= |outs[|outs| - 1].rows| <= rowsPerFile
  {
    var body := ProjectRows(rows, plan);
    ChunksCount(body, rowsPerFile);
    ChunksFull(body, rowsPerFile);
    DivModUnique(|rows| + rowsPerFile - 1, rowsPerFile, (|rows| + rowsPerFile - 1) / rowsPerFile, (|rows| + rowsPerFile - 1) % rowsPerFile);
  }

  /** In split mode file `j` (from 0) is `{prefix}_{j+2}.csv`, so the names are
      pairwise distinct and numbered in output order. */
  lemma OutputsNames(header: Row, rows: seq<Row>, plan: seq<nat>, rowsPerFile: int, prefix: string)
    requires InBounds(header, plan)
    ensures var outs := Outputs(header, rows, plan, rowsPerFile, prefix);
      && (ShouldSplit(rowsPerFile, |rows|) ==>
            forall j :: 0 <= j < |outs| ==> outs[j].name == PartName(prefix, j + 2))
      && (!ShouldSplit(rowsPerFile, |rows|) ==> outs[0].name == SingleName(prefix))
      && (forall i, j :: 0 <= i < j < |outs| ==> outs[i].name != outs[j].name)
  {
    var outs := Outputs(header, rows, plan, rowsPerFile, prefix);
    forall i, j | 0 <= i < j < |outs|
      ensures outs[i].name != outs[j].name
    {
      PartNameInjective(prefix, i + 2, j + 2);
    }
  }

  /** Every file starts with the projected header, and the data rows of all
      files, in order, are exactly the projected input rows in input order. */
  lemma OutputsRoundTrip(header: Row, rows: seq<Row>, plan: seq<nat>, rowsPerFile: int, prefix: string)
    requires InBounds(header, plan)
    ensures var outs := Outputs(header, rows, plan, rowsPerFile, prefix);
      && 1 <= |outs|
      && (forall j :: 0 <= j < |outs| ==> outs[j].header == HeaderRow(header, plan))
      && AllRows(outs) == ProjectRows(rows, plan)
  {
    var outs := Outputs(header, rows, plan, rowsPerFile, prefix);
    var body := ProjectRows(rows, plan);
    if ShouldSplit(rowsPerFile, |rows|) {
      var chunks := Chunks(body, rowsPerFile);
      OutputsSplitDecision(header, rows, plan, rowsPerFile, prefix);
      AllRowsIsFlatten(outs, chunks);
      FlattenChunks(body, rowsPerFile);
    } else {
      assert outs[1..] == [];
    }
  }

  /** Every data row of every file has one field per planned column. */
  lemma OutputsRowWidth(header: Row, rows: seq<Row>, plan: seq<nat>, rowsPerFile: int, prefix: string)
    requires InBounds(header, plan)
    ensures var outs := Outputs(header, rows, plan, rowsPerFile, prefix);
      forall j, i :: 0 <= j < |outs| && 0 <= i < |outs[j].rows| ==> |outs[j].rows[i]| == |plan|
  {
    var outs := Outputs(header, rows, plan, rowsPerFile, prefix);
    var body := ProjectRows(rows, plan);
    forall j, i | 0 <= j < |outs| && 0 <= i < |outs[j].rows|
      ensures |outs[j].rows[i]| == |plan|
    {
      var x := outs[j].rows[i];
      if ShouldSplit(rowsPerFile, |rows|) {
        ChunkItems(body, rowsPerFile, j);
      }
      assert x in body;
      var k :| 0 <= k < |body| && body[k] == x;
      assert x == ProjectRow(rows[k], plan);
    }
  }

  /** The worked example: columns `name, id` of a three-row table, two rows
      per file. The files come out numbered 2 and 3. */
  lemma ExampleSplit()
    ensures Process(Records([["id", "name", "val"], ["1", "a", "x"], ["2", "b", "y"], ["3", "c", "z"]]),
                    "prefix", 2, ["name", "id"])
         == Ok([OutputFile("prefix_2.csv", ["name", "id"], [["a", "1"], ["b", "2"]]),
                OutputFile("prefix_3.csv", ["name", "id"], [["c", "3"]])])
  {
    var header: Row := ["id", "name", "val"];
    var rows: seq<Row> := [["1", "a", "x"], ["2", "b", "y"], ["3", "c", "z"]];
    assert SelectIndices(header, ["name", "id"]) == [1, 0];
    ExampleOutputs();
    var records := [header] + rows;
    assert records[0] == header && records[1..] == rows;
  }

  lemma ExampleOutputs()
    ensures Outputs(["id", "name", "val"], [["1", "a", "x"], ["2", "b", "y"], ["3", "c", "z"]], [1, 0], 2, "prefix")
         == [OutputFile("prefix_2.csv", ["name", "id"], [["a", "1"], ["b", "2"]]),
             OutputFile("prefix_3.csv", ["name", "id"], [["c", "3"]])]
  {
    var header: Row := ["id", "name", "val"];
    var rows: seq<Row> := [["1", "a", "x"], ["2", "b", "y"], ["3", "c", "z"]];
    var plan := [1, 0];
    var body := ProjectRows(rows, plan);
    ExampleBody();
    assert HeaderRow(header, plan) == ["name", "id"];
    assert Chunks(body, 2) == [body[..2], body[2..]];
    assert body[..2] == [["a", "1"], ["b", "2"]] && body[2..] == [["c", "3"]];
    ExampleNames();
    NumberedFilesAppend("prefix", ["name", "id"], [body[..2]], body[2..]);
    NumberedFilesAppend("prefix", ["name", "id"], [], body[..2]);
    assert [body[..2]] == [] + [body[..2]];
    assert [body[..2], body[2..]] == [body[..2]] + [body[2..]];
  }

  lemma ExampleBody()
    ensures ProjectRows([["1", "a", "x"], ["2", "b", "y"], ["3", "c", "z"]], [1, 0])
         == [["a", "1"], ["b", "2"], ["c", "3"]]
  {
    var rows: seq<Row> := [["1", "a", "x"], ["2", "b", "y"], ["3", "c", "z"]];
    assert ProjectRow(rows[0], [1, 0]) == ["a", "1"];
    assert ProjectRow(rows[1], [1, 0]) == ["b", "2"];
    assert ProjectRow(rows[2], [1, 0]) == ["c", "3"];
  }

  lemma ExampleNames()
    ensures PartName("prefix", 2) == "prefix_2.csv"
    ensures PartName("prefix", 3) == "prefix_3.csv"
  {
    assert Decimal.NatToString(2) == "2";
    assert Decimal.NatToString(3) == "3";
  }

  /** A row shorter than the header gets empty fields where columns are missing. */
  lemma ExampleShortRow()
    ensures ProjectRow(["4"], SelectIndices(["id", "name", "val"], ["id", "val"])) == ["4", ""]
  {
    assert SelectIndices(["id", "name", "val"], ["id", "val"]) == [0, 2];
  }

  /** The chunk writer: `should_split` picks the chunked path or the
      single-file path. */
  method WriteOutputs(header: Row, rows: seq<Row>, plan: seq<nat>, rowsPerFile: int, prefix: string)
    returns (outputFiles: seq<OutputFile>)
    requires InBounds(header, plan)
    ensures outputFiles == Outputs(header, rows, plan, rowsPerFile, prefix)
  {
    var totalRows := |rows|;
    var shouldSplit := rowsPerFile > 0 && rowsPerFile < totalRows;
    if shouldSplit {
      outputFiles := WriteChunks(header, rows, plan, rowsPerFile, prefix);
    } else {
      outputFiles := WriteSingle(header, rows, plan, prefix);
    }
  }

  /** The chunked path: one pass over the data rows that opens a new buffer
      (a `StringIO` with its `csv.writer`, here a `Buffer`) whenever
      `rowCount` is a multiple of `rowsPerFile`, storing the previous one
      under the current file number. */
  method WriteChunks(header: Row, rows: seq<Row>, plan: seq<nat>, rowsPerFile: int, prefix: string)
    returns (outputFiles: seq<OutputFile>)
    requires InBounds(header, plan)
    requires ShouldSplit(rowsPerFile, |rows|)
    ensures outputFiles == Outputs(header, rows, plan, rowsPerFile, prefix)
  {
    outputFiles := [];
    var current: Option<Buffer> := None;
    var rowCount := 0;
    var fileNumber := 1;
    var totalRows := |rows|;
    var head := HeaderRow(header, plan);
    var n: nat := rowsPerFile;
    ghost var body := ProjectRows(rows, plan);
    ghost var start := 0;   // where the open buffer's rows begin
    ghost var done: seq<seq<Row>> := [];   // the rows of the stored files
    while rowCount < totalRows
      invariant 0 <= start <= rowCount <= totalRows && start % n == 0
      invariant rowCount == 0 ==> current == None && fileNumber == 1
      invariant rowCount > 0 ==> start < rowCount <= start + n
      invariant rowCount > 0 ==> current == Some(Buffer(head, body[start .. rowCount]))
      invariant |done| == fileNumber - if rowCount == 0 then 1 else 2
      invariant outputFiles == NumberedFiles(prefix, head, done)
      invariant Chunks(body, n) == done + Chunks(body[start..], n)
    {
      var row := rows[rowCount];
      if rowCount > 0 {
        MultipleAfterStart(rowCount, start, n);
      }
      if rowCount % n == 0 {
        if current.Some? {
          NextChunk(body, n, start, done);
          NumberedFilesAppend(prefix, head, done, current.value.rows);
          outputFiles := outputFiles + [OutputFile(PartName(prefix, fileNumber), current.value.header, current.value.rows)];
          done := done + [current.value.rows];
        }
        current := Some(Buffer(head, []));
        fileNumber := fileNumber + 1;
        start := rowCount;
      }
      var rowData := ProjectRow(row, plan);
      assert body[start .. rowCount + 1] == current.value.rows + [rowData];
      current := Some(Buffer(current.value.header, current.value.rows + [rowData]));
      rowCount := rowCount + 1;
    }
    if current.Some? {
      LastChunk(body, n, start);
      assert body[start .. rowCount] == body[start..];
      NumberedFilesAppend(prefix, head, done, current.value.rows);
      outputFiles := outputFiles + [OutputFile(PartName(prefix, fileNumber), current.value.header, current.value.rows)];
      done := done + [current.value.rows];
    }
    assert done == Chunks(body, n);
  }

  /** The single-file path: the header, then every projected data row. */
  method WriteSingle(header: Row, rows: seq<Row>, plan: seq<nat>, prefix: string)
    returns (outputFiles: seq<OutputFile>)
    requires InBounds(header, plan)
    ensures outputFiles == [OutputFile(SingleName(prefix), HeaderRow(header, plan), ProjectRows(rows, plan))]
  {
    var output := Buffer(HeaderRow(header, plan), []);
    ghost var body := ProjectRows(rows, plan);
    for i := 0 to |rows|
      invariant output == Buffer(HeaderRow(header, plan), body[..i])
    {
      var rowData := ProjectRow(rows[i], plan);
      assert body[..i + 1] == body[..i] + [rowData];
      output := Buffer(output.header, output.rows + [rowData]);
    }
    assert body[..|rows|] == body;
    outputFiles := [OutputFile(SingleName(prefix), output.header, output.rows)];
  }

  /** `process_csv` as a function of the decoded upload and the options. */
  function Process(input: Decoded, prefix: string, rowsPerFile: int, selected: seq<string>): Result<seq<OutputFile>>
  {
    match input
    case EncodingUndetected => Fail(DecodeError)
    case InvalidBytes => Fail(DecodeError)
    case ReaderFailure => Fail(ReaderError)
    case Records(records) =>
      if records == [] then Fail(EmptyFile)
      else
        var header := records[0];
        var outs := Outputs(header, records[1..], SelectIndices(header, selected), rowsPerFile, prefix);
        if outs == [] then Fail(NoData) else Ok(outs)
  }

  /** A failed decode and a file without a header row are the only
      `ValueError`s raised: `NoData` never is, and success always yields at
      least one file. The reader's own failure passes through as itself. */
  lemma ProcessOutcome(input: Decoded, prefix: string, rowsPerFile: int, selected: seq<string>)
    ensures var r := Process(input, prefix, rowsPerFile, selected);
      && (r == Fail(DecodeError) <==> input.EncodingUndetected? || input.InvalidBytes?)
      && (r == Fail(ReaderError) <==> input.ReaderFailure?)
      && (r == Fail(EmptyFile) <==> input.Records? && input.records == [])
      && r != Fail(NoData)
      && (r.Ok? ==>
            && input.Records? && input.records != [] && 1 <= |r.value|
            && r.value == Outputs(input.records[0], input.records[1..],
                                  SelectIndices(input.records[0], selected), rowsPerFile, prefix))
  {
  }

  /** The entry point, step by step as `process_csv` runs, proved to compute
      `Process`: decode errors, a reader failure and an empty file fail;
      otherwise the table is projected and written out. */
  method ProcessCsv(input: Decoded, prefix: string, rowsPerFile: int, selected: seq<string>)
    returns (r: Result<seq<OutputFile>>)
    ensures r == Process(input, prefix, rowsPerFile, selected)
  {
    if input.EncodingUndetected? || input.InvalidBytes? {
      return Fail(DecodeError);
    }
    if input.ReaderFailure? {
      return Fail(ReaderError);
    }
    var records := input.records;
    if records == [] {
      return Fail(EmptyFile);
    }
    var header := records[0];
    var selectedIndices := SelectIndices(header, selected);
    var allRows := records[1..];
    var outputFiles := WriteOutputs(header, allRows, selectedIndices, rowsPerFile, prefix);
    if outputFiles == [] {
      return Fail(NoData);
    }
    return Ok(outputFiles);
  }
}
