# CSV splitter core, modelled in Dafny

This project models the transformation core of the CSV splitter web app: the
function `process_csv`, which takes an uploaded CSV file, keeps only the columns
the user selected, and writes the result as one file or as several files of at
most `rows_per_file` data rows each.

The model starts from the table the CSV reader yields. That table is the header
row plus the data rows, each a sequence of strings. From there it follows the
code step by step:

- **Column projection** (`Projection`). `SelectIndices` turns the caller's
  ordered list of selected names into header positions, like
  `[header.index(col) for col in selected_columns if col in header]`. Names
  missing from the header are dropped. A name that occurs twice in the header
  resolves to its first occurrence, and the caller's order is kept.
  `ProjectRow` picks those positions out of a data row and puts `""` where the
  row is too short. `HeaderRow` builds each output's header line.
- **Chunked writing** (`Splitter.WriteOutputs`). Splitting happens only when
  `0 < rows_per_file < total_rows`. In that case `WriteChunks` is the `for row
  in all_rows` loop, with its counters `row_count` and `file_number` and its
  current buffer. It opens a new buffer whenever `row_count % rows_per_file ==
  0`. Opening a buffer stores the previous one under the current file number
  and then increments that number. Otherwise `WriteSingle` writes one file
  named `{prefix}.csv`. Both methods are proved against the function `Outputs`,
  which is defined from the generic chunking function `Chunking.Chunks`.
- **Entry point** (`Splitter.ProcessCsv`, specified by `Splitter.Process`).
  Decoding failures and an input with no header row are `ValueError`s. A
  `csv.Error` raised by the reader itself is not caught and leaves the core
  unchanged. The "No data found" check is kept as written and proved
  unreachable.
- **File numbers** (`Decimal`). The decimal rendering used in `f"{file_number}"`,
  proved injective through its inverse.

Each output file is a triple of its name, its header row and its data rows, not
rendered text.

Three behaviours of the code are worth stating outright:

- Split files are numbered from 2. `file_number` starts at 1 and is
  incremented when a chunk is opened, before that chunk is stored. So the
  chunks are `{prefix}_2.csv`, `{prefix}_3.csv`, … (`OutputsNames`,
  `ExampleSplit`).
- `rows_per_file` may be negative: the value is parsed with `int(...)`. Zero
  and negative values both give a single file.
- "No data found" is raised only when the list of outputs is empty. That never
  happens: there is always at least one file (`ProcessOutcome`). Zero data rows
  give one header-only file. An empty projection, when no selected name is in
  the header, gives files whose header and rows have no fields. With enough
  rows these are still split into several files.

## Model

| member | source | states |
|---|---|---|
| `Decimal.NatToString` | csv-splitter-webapp-py.py:258 | the file number in a split name is spelled with decimal digits only, with no leading zero |
| `Decimal.ParseNatToString` | csv-splitter-webapp-py.py:258 | reading the decimal spelling back gives the number: rendering loses nothing |
| `Decimal.NatToStringInjective` | csv-splitter-webapp-py.py:271 | different file numbers are spelled differently |
| `Projection.Field` | csv-splitter-webapp-py.py:265 | the conditional `row[i] if i < len(row) else ''`: field `i` of the row, or the empty string past its end |
| `Projection.ProjectRows` | csv-splitter-webapp-py.py:277-280 | every data row projected in input order: one output row per input row, each with one field per index, `row[plan[k]]` or `""` past the row's end |
| `Projection.IndexOf` | csv-splitter-webapp-py.py:239 | `header.index(col)` is a position of `col` in the header, and no earlier position holds `col` |
| `Projection.Known` | csv-splitter-webapp-py.py:239 | the names kept by the `if col in header` filter are exactly the selected names that occur in the header, and there are no more of them than were selected |
| `Projection.KnownAppend` | csv-splitter-webapp-py.py:239 | the filter keeps the caller's order: filtering a concatenation concatenates the filtered parts |
| `Projection.KnownAllPresent` | csv-splitter-webapp-py.py:239 | when every selected name is in the header, nothing is dropped or reordered |
| `Projection.SelectIndices` | csv-splitter-webapp-py.py:239 | one index per kept name, in the caller's order; every index is below `len(header)`, names the kept name, and is that name's first occurrence; at most `len(selected_columns)` indices |
| `Projection.ProjectRow` | csv-splitter-webapp-py.py:265 | a projected row has one field per index; field k is `row[plan[k]]` when the row has it and `""` otherwise, so short rows never fail and an empty plan gives an empty row |
| `Projection.ShortRowIsPadded` | csv-splitter-webapp-py.py:279 | projecting a short row is the same as projecting it after padding it with empty fields to the header's width |
| `Projection.HeaderRow` | csv-splitter-webapp-py.py:276 | the output header has one name per index, `header[i]` for each planned `i` |
| `Projection.ProjectedHeader` | csv-splitter-webapp-py.py:239-261 | the output header is exactly the selected names found in the header, in the caller's order, and equals the header projected like a data row |
| `Chunking.Chunks` | csv-splitter-webapp-py.py:253-271 | every chunk holds between 1 and `n` rows |
| `Chunking.FlattenChunks` | csv-splitter-webapp-py.py:253-271 | concatenating the chunks in order gives back the rows |
| `Chunking.ChunksCount` | csv-splitter-webapp-py.py:253-271 | there are `ceil(len / n)` chunks |
| `Chunking.ChunksFull` | csv-splitter-webapp-py.py:255 | every chunk but the last holds exactly `n` rows |
| `Chunking.ChunkAt` | csv-splitter-webapp-py.py:255 | chunk `j` is the slice of the rows starting at `j * n`, cut at `(j + 1) * n` or at the end |
| `Chunking.ChunkItems` | csv-splitter-webapp-py.py:265-266 | every row of a chunk is a row of the input |
| `Chunking.MultipleAfterStart` | csv-splitter-webapp-py.py:255 | after a buffer opened at a multiple of `n`, the test `row_count % n == 0` next holds exactly `n` rows later |
| `Splitter.ShouldSplit` | csv-splitter-webapp-py.py:251 | `should_split`: a positive `rows_per_file` smaller than the number of data rows |
| `Splitter.SingleName` | csv-splitter-webapp-py.py:282 | the name of the only output when the rows are not split, `{prefix}.csv` |
| `Splitter.PartName` | csv-splitter-webapp-py.py:258 | the name of split file number `k`, `{prefix}_{k}.csv`, with `k` in decimal |
| `Splitter.PartNameReadBack` | csv-splitter-webapp-py.py:258 | a split name is the prefix, an underscore, decimal digits and `.csv`, and the digits read back as the file number |
| `Splitter.Outputs` | csv-splitter-webapp-py.py:241-282 | the files the writer produces: the projected header over consecutive chunks of the projected rows named from `_2` when `should_split`, else one `{prefix}.csv` file with every projected row; its properties are the `Outputs…` lemmas below |
| `Splitter.PartNameInjective` | csv-splitter-webapp-py.py:258 | `f"{prefix}_{k}.csv"` names with different numbers differ |
| `Splitter.OutputsSplitDecision` | csv-splitter-webapp-py.py:247-282 | splitting happens exactly when it gives more than one file; otherwise there is one file `{prefix}.csv` with the projected header and every projected row |
| `Splitter.OutputsCountAndSizes` | csv-splitter-webapp-py.py:253-271 | in split mode there are `ceil(total_rows / rows_per_file)` files; all but the last hold exactly `rows_per_file` rows, the last between 1 and `rows_per_file` |
| `Splitter.OutputsNames` | csv-splitter-webapp-py.py:245-271 | in split mode file `j` (from 0) is named `{prefix}_{j+2}.csv`; otherwise the file is `{prefix}.csv`; names are pairwise distinct |
| `Splitter.OutputsRoundTrip` | csv-splitter-webapp-py.py:253-282 | there is at least one file; every file starts with the projected header; the data rows of all files, in order, are exactly the projected input rows in input order |
| `Splitter.OutputsRowWidth` | csv-splitter-webapp-py.py:265-279 | every data row of every file has exactly `len(selected_indices)` fields |
| `Splitter.ExampleSplit` | csv-splitter-webapp-py.py:239-271 | columns `name, id` of a three-row table at two rows per file give `prefix_2.csv` with rows `a,1` and `b,2` and `prefix_3.csv` with row `c,3` |
| `Splitter.ExampleShortRow` | csv-splitter-webapp-py.py:265 | the row `4` projected onto `id, val` gives `4` and an empty field |
| `Splitter.WriteOutputs` | csv-splitter-webapp-py.py:241-282 | the chunk writer returns exactly `Outputs`: the split path when `should_split`, the single path otherwise |
| `Splitter.WriteChunks` | csv-splitter-webapp-py.py:253-271 | the loop over `all_rows` with `row_count`, `file_number` and the open buffer returns the chunks of the projected rows, chunk `j` stored as `{prefix}_{j+2}.csv` under the projected header |
| `Splitter.WriteSingle` | csv-splitter-webapp-py.py:272-282 | the single path returns one file `{prefix}.csv` with the projected header and every projected row |
| `Splitter.Process` | csv-splitter-webapp-py.py:216-288 | `process_csv` as a function: decode failure, reader failure, missing header row, then `Outputs` of the header, the data rows and `SelectIndices`, with the "No data found" test on the result |
| `Splitter.ProcessOutcome` | csv-splitter-webapp-py.py:219-285 | a decoding failure is the only cause of the decode error; a reader failure passes through as the reader's own error and has no other cause; a file with no header row is the only cause of the empty-file error; "No data found" is never raised; success means at least one file, exactly those `Outputs` gives for the header, the rows and `SelectIndices` |
| `Splitter.ProcessCsv` | csv-splitter-webapp-py.py:216-288 | the entry point decodes, reads the header, projects and writes exactly as `Process` specifies |

## Left out

- Encoding detection (`chardet.detect`) and `bytes.decode`. These are library
  calls with heuristic behaviour. The model takes their combined outcome as a
  `Decoded` value: no encoding found, invalid bytes, a reader failure, or the
  records the CSV reader yields. Both decoding failures become the one decode
  error, as in the code.
- CSV tokenising and rendering by `csv.reader` and `csv.writer`, including
  quoting. These are library code. Outputs are sequences of rows, not rendered
  text.
- Which texts make `csv.reader` raise `csv.Error`. Examples are a bare carriage
  return inside an unquoted field, which a file with old Mac line endings
  produces, and a field longer than `csv.field_size_limit()`. This belongs to
  the library's tokeniser, so the model only records that the reader failed.
  `process_csv` catches nothing at `next(reader)` except `StopIteration`, and
  nothing at `list(reader)`, so the `csv.Error` leaves it unchanged (the
  `ReaderError` case).
- `StringIO` bookkeeping (`seek(0)`, `getvalue()`) and the logging calls. They
  do not affect the result.
- The text of the error messages. Errors are the four cases of `Error`.
- The embedded HTML, CSS and JavaScript page, the HTTP handler and its ad-hoc
  multipart parsing, the shutdown flag, the browser launch, threading and
  signal handling. This is I/O and process lifecycle, not the transformation.
- The runtime `pip install` of `chardet`. It is process set-up.
- Repeatability: running `process_csv` twice on the same input gives the same
  files. This holds in the model because every member is a deterministic
  function or method, so no lemma states it.
