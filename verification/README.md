# vroom: indexing, reading and writing delimited text

vroom turns a delimited file into vectors of byte offsets and reads cells through them only when
they are asked for. The same automaton runs in one thread over a file, in several threads over
chunks of it, and over the buffers of a connection. This project models that reader, the writer
that is its counterpart, the lazy access to columns, the printing and reading of numbers, and the
bounded queue and thread pool of the logging library that vroom ships. It proves that the fast
forms agree with the plain ones, exactly where they do.

A file is a `string` of one-byte characters. `Csv` defines the plain parse: one byte at a time,
records and the open record kept apart. Everything else is compared with it.

| component | modules |
|---|---|
| plain parse and the skipping indexer | `Csv`, `Bytewise`, `RegionIndexer`, `NewlineScan`, `QuoteScan` |
| lines and records | `RegionLines`, `RecordLayout`, `TableLayout` |
| chunks, threads, file constructor, cells | `Chunks`, `LoneCr`, `HiddenCuts`, `ParallelIndex`, `OffsetOrder`, `FileIndex`, `CellAccess`, `CellValue`, `Preamble`, `DelimitedFile` |
| connections | `Buffers`, `ReadBuffers`, `ConnectionTasks`, `Connection`, `FinalNewline` |
| writer and round trip | `Rfc4180`, `Writer`, `WriterPipeline`, `TableOutput`, `SkippedRows`, `TextIndex`, `RoundTrip` |
| columns over several files, subsets | `Collection`, `Subset` |
| numbers | `Digits`, `DiyFp`, `Grisu`, `DecimalText`, `DecimalReader`, `DecimalRoundTrip`, `NumberTexts` |
| queue and thread pool | `CircularQueue`, `BlockingQueue`, `ThreadPool` |
| inputs for which an expected property fails | `Counterexamples` |

Tasks and threads are transition systems: a schedule is any sequence of actors, and each actor's
move is one step of its code. Statements about runs hold for every schedule.

## Main results

- **A region is its lines.** For all options the records and parse errors of a region are those of its
  lines, told by bytes alone: a line ends at its first newline or comment outside quotes, its record is
  its start, its delimiters outside quotes and its end, cut or padded, and between the lines there is
  nothing but comments and skipped blank lines (`RegionLines.RegionIsItsLines`). Through the flat vector
  the cells of such a record joined by the delimiter are its line, and added cells are empty
  (`TableLayout.RowReadsBack`). What a cell stands for is told by its bytes as well
  (`CellValue.BareCell`, `CellValue.QuotedCell`, `CellValue.CrIsDroppedIff`).
- **Chunked, parallel and plain parse.** Under every schedule of the tasks, the chunk indexes side by
  side are the one-thread index and the sorted parse errors are its errors, if and only if no chunk
  after the first starts with a newline that stands for a row to be padded, and no chunk is cut behind
  a lone CR, except where empty rows are skipped, the CR lies inside quotes and only blank lines follow
  it (`ParallelIndex.ParallelIsSequential`, `Chunks.ChunksAgainstWhole`, `HiddenCuts.LoneCrCutShows`).
  With this condition the file constructor, with its retry in one thread, yields the one-thread index
  of every file whose header line and last line end in LF, and its vectors hold whole rows if and only
  if no chunk but the last starts with such a newline (`FileIndex.BuildIndex`,
  `DelimitedFile.DelimitedIndex.constructor`).
- **Streaming parse.** Under every schedule, the index of a connection and the copy that its cells are
  read from are those of the input, if and only if no read is harmed when its buffer grows and no
  buffer starts with the newline of a row of the wrong width (`Connection.EveryScheduleIsInput`,
  `Connection.ConnectionIsInput`). A text without NUL is unharmed if and only if no read is two or more
  bytes longer than the one two before it (`ReadBuffers.TextSurvivesIff`). The index is that of the
  copy in any case, if and only if no buffer starts with such a newline (`Connection.ConnectionIsFile`,
  `Buffers.CutsDoNotMatter`). Without a final newline, header, body and columns are those
  of the same input with a newline put behind it, if and only if the last row, or the single line, does
  not end inside quotes and has the right number of cells (`FinalNewline.WithoutFinalNewline`). No schedule overwrites a buffer in use
  (`ConnectionTasks.NoBufferInUseIsOverwritten`).
- **Write, then read.** What the writer puts out is text in the form of section 2 of RFC 4180, and the
  reader gives back every cell and every name, if and only if the first name does not begin with the
  bytes of a byte order mark (`RoundTrip.WriteThenRead`, `RoundTrip.NamesComeBackIff`, and from call to
  call `RoundTrip.WriteThenReadCell`). Where empty rows are skipped, all rows come back if and only if
  none is written as a line of spaces and tabs (`RoundTrip.BlankRowsAreLost`). Under every schedule the
  writer pipeline emits the connection writer's bytes (`TableOutput.PipelineWritesTable`).
- **Lazy access.** Whatever moved a cached cursor before, it yields what positional access and the
  composed index vectors yield (`Subset.LazyAccessAgrees`); the cursor over several files is a
  position in their concatenation (`Collection.FullIterator`).
- **Numbers.** Digit generation is shortest, and it accepts if and only if a number of that length is
  certainly the closest, which it then yields, without overflow (`Grisu.DigitGen`). A text reads as a
  number if and only if it has the form of one, and as the number that is written, if and only if no
  digit other than zero is cut and the exponent is not clamped (`NumberTexts.ReadsIff`,
  `NumberTexts.NumberReads`). Printing and reading a number undo each other, if and only if the exponent is not
  clamped and no digit other than zero is cut (`DecimalRoundTrip.PrintThenRead`).
- **Queue and shutdown.** No message is lost or made up, messages that were queued are handled before
  the workers stop, and shutdown ends and is complete (`ThreadPool.ShutdownIsComplete`). The ring
  buffer under the mutex does what the pool's transitions do to their queue (`BlockingQueue`).

## Where the code does not keep what one would expect

Each of these is stated with its exact condition; `Counterexamples`, `Subset.WrongRowReported`,
`DecimalRoundTrip.LongFractionIsCut` and `DecimalRoundTrip.SmallExponentIsClamped` give inputs.

- The guards `pos > start` (`src/delimited_index.h:367` and `:408`) skip row repair for a newline at the
  first byte of a region. A blank row at the start of a chunk is then not padded, and a short row whose
  newline is the first byte of a buffer neither.
- A quote inside an unquoted field toggles the bit of `find_next_non_quoted_newline` but not the state
  of the automaton (`src/utils.h:127`, `src/delimited_index.h:216`).
- A read from a connection goes into its vector before the vector is brought to the size of the read
  (`src/delimited_index_connection.cc:222-226`). From the third read on the vector has the size that the
  read two before left, and where it grows, `resize` writes zeroes over bytes that were just read. The
  parse and the copy both see the zeroes (`Counterexamples.GrowingRead`).
- The scan that cuts a file into chunks takes a lone CR for a line end, also inside quotes, and a chunk
  that ends there does not throw (`src/utils.h:203-207`): a chunk that does not throw ends between
  records if and only if it ends in LF (`LoneCr.EndsBetweenRecordsIff`). A cut behind a lone CR shows in
  the offsets, if and only if it is not hidden by skipped blank lines inside quotes
  (`HiddenCuts.LoneCrCutShows`, `Counterexamples.LoneCrHidden`). This is for the options under which CR
  is neither delimiter nor quote and no comments are given; with a comment behind the CR the cut need
  not show either (`Counterexamples.LoneCrBeforeComment`).
- Where empty rows are skipped and the delimiter is a space or a tab, a row of blank cells is written as
  a line that the reader passes over (`src/delimited_index.h:382-386`, `RoundTrip.BlankRowsAreLost`).
- A first column name that begins with the bytes of a byte order mark is written without quotes, and the
  reader takes them for the mark of the file (`src/utils.h:242-292`, `src/vroom_write.cc:79-88`).
- Advancing `full_iterator` by more rows than are left never ends (`src/index_collection.cc:55-64`).
- For a subset, an error found by position is reported for the first row of the file, because
  `index()` is read from a cursor that has not been dereferenced (`src/index.h:53`,
  `src/vroom_vec.h:88-90`).
- `bsd_strtod` counts leading zeros among its 18 digits, so that 0.0012345678901234567 loses two digits
  (`src/vroom_dbl.cc:131-132`), and it clamps exponents to 307, so that 5e-324 reads as 5e-307
  (`src/vroom_dbl.cc:188-189`).
- The comments on `newline_type` name CR as Linux and LF as old macOS (`src/utils.h:86-91`); the code
  uses them in their usual meaning, and so does the model.

## Model

| member | source | states |
|---|---|---|
| RegionIndexer.SkipIsStepping | src/delimited_index.h:436-445 | the bytes that `strcspn` jumps over leave state, offsets and errors as they are, so that the parse from before the jump and from behind it is the same |
| RegionIndexer.ResolveColumns | src/delimited_index.h:273-294 | popping surplus offsets and pushing missing ones yields the repaired record, one parse error in either case, and `num_cols - 1` as the column count |
| RegionIndexer.CloseRecord | src/delimited_index.h:407-415 | the end of a record: repair unless it is the first byte of the region, then the closing offset |
| RegionIndexer.IndexByte | src/delimited_index.h:386-445 | one byte does to the flat variables what a step of the plain automaton does to its records, and throws in the same case |
| RegionIndexer.IndexNext | src/delimited_index.h:349-461 | comments and empty lines are passed over as a whole, otherwise a byte is indexed; it throws exactly when the plain parse does |
| RegionIndexer.IndexRegion | src/delimited_index.h:309-462 | the skipping indexer on flat vectors ends with the offsets, errors, column count and state of the byte-at-a-time parse, and throws exactly when it does |
| Csv.SingleThreadNeverThrows | src/delimited_index.h:397-404 | with one thread no input makes the indexer throw |
| Bytewise.RunIsFold | src/delimited_index.h:349-462 | without comments and skipped rows a region depends only on its bytes, its first offset and the carried state |
| NewlineScan.FindNextNonQuotedNewline | src/utils.h:95-138 | the jumping scan stops where the byte-by-byte scan stops, and the type it reports fits the byte |
| NewlineScan.FindsNextLf | src/utils.h:141-211 | on text without lone CRs the scan finds the next LF, with or without a CR before it |
| QuoteScan.ScanAgreesIffNoStrayQuote | src/utils.h:108-131 | the scan's quote bit means QUOTED_FIELD after every prefix of a text if and only if no quote stands inside an unquoted field |
| QuoteScan.ScanFindsLineEnd | src/utils.h:95-138 | the scan stops at the first line end with an even number of quotes before it, at the LF of a CR LF, or else at the last byte |
| QuoteScan.ScanFindsRecordEnd | src/utils.h:95-138 | on text with no stray quote the scan stops at the newline at which the automaton returns to RECORD_START |
| RecordLayout.RunYieldsRecords | src/delimited_index.h:380-422 | every record is its start, delimiters in order and its end, filled up with copies of the end |
| RegionLines.RegionIsItsLines | src/delimited_index.h:349-461 | for all options, with comments and skipped rows: the records in order are those of the region's lines, each line from its start to its first newline or comment outside quotes, with its delimiters outside quotes and no other offset, cut or padded; an error has the end of its line and its number of delimiters; between the lines there are only lines that are passed over, and what follows the last newline is the open record |
| RegionLines.NextInBytes | src/delimited_index.h:362-386 | a comment outside quotes ends the record that is open, where at least one byte of the region follows it; a blank line is passed over only between records |
| RegionLines.StateInLine | src/delimited_index.h:205-271 | within a line the state of the automaton is told by the bytes of its field: quoted if the field begins with a quote and its quotes do not pair up |
| RegionLines.GivesUpInQuotes | src/delimited_index.h:396-404 | a task throws only at a newline inside the quotes of a line, and the lines before it are indexed |
| RecordLayout.RecordReadsBack | src/delimited_index.h:273-294 | the real cells joined by the delimiter are the line, a long row's last cell included, and padded cells are empty |
| RecordLayout.CloseIsRecord | src/delimited_index.h:407-415 | a repaired record has `num_cols + 1` offsets and keeps as many real cells as fit |
| RecordLayout.RecordsAreFull | src/delimited_index.h:408-411 | all records of a region have `num_cols + 1` offsets if and only if the region does not start with a row to be padded |
| RecordLayout.RunTiles | src/delimited_index.h:380-422 | records lie one behind the other without gaps |
| RecordLayout.LinesAreTheRegion | src/delimited_index.h:380-422 | conservation: the records' lines put back together are the region |
| RecordLayout.FlatTable | src/delimited_index.cc:353-357 | full records side by side are a table stored row by row |
| TableLayout.CellInTable | src/delimited_index.cc:348-389 | in the flat vector of any full records the bounds of a cell are those that its record gives, and there is no cell behind the last row |
| TableLayout.RowReadsBack | src/delimited_index.cc:348-432 | through the flat vector the real cells of a record joined by the delimiter are its line, and a cell that was added to a short row has an empty text |
| TableLayout.RowsAreRecords | src/delimited_index.cc:269-279 | the rows reported are the full records, one less where there is a header; what an incomplete record leaves does not count |
| Chunks.RunSplits | src/delimited_index.cc:206-252 | a parse may be interrupted after any newline and goes on with what it has |
| Chunks.ChunkEndsRecord | src/delimited_index.h:396-404 | a chunk that ends in a newline and does not throw ends in RECORD_START |
| Chunks.StartIrrelevant | src/delimited_index.h:367-411 | behind its first byte a region does not depend on where it starts |
| Chunks.ChunkInContext | src/delimited_index.h:367-411 | a chunk alone and in context yields the same, unless it starts with a bare newline; then it yields fewer offsets |
| Chunks.ChunksAgainstWhole | src/delimited_index.cc:206-262 | when no chunk throws, the chunk indexes and errors side by side are those of one thread, or fall short when a chunk starts with a bare newline |
| ParallelIndex.ParallelFor | src/parallel.h:23-80 | the ranges cover 0 to n without gaps, the last one taking the remainder |
| ParallelIndex.FileCutsAreBoundaries | src/delimited_index.cc:206-226 | moved to the next line ends, the ranges of the threads cut the body behind an LF or a lone CR, from behind the header to the end of the file, and the newline type found in front of a chunk tells which |
| ParallelIndex.EveryScheduleSameChunks | src/delimited_index.cc:206-262 | a finished task has computed its chunk, whatever the order in which the tasks moved |
| ParallelIndex.ErrorsIncrease | src/delimited_index.h:279-289 | parse errors come at increasing positions |
| ParallelIndex.EveryScheduleSameErrors | src/delimited_index.h:279-289 | when all tasks have ended without throwing, the shared log holds the errors of the chunks, in some order |
| ParallelIndex.SomeScheduleFinishes | src/parallel.h:38-71 | where no task throws, every run of the tasks can be brought to its end |
| ParallelIndex.TasksAgainstWhole | src/delimited_index.cc:180-262 | when no task throws, their offsets are those of one thread if and only if no later chunk starts with a bare newline and no chunk starts behind a lone CR that is not hidden; then the errors are too |
| ParallelIndex.ParallelIsSequential | src/delimited_index.cc:148-268 | when all tasks have ended without throwing, under any schedule, offsets and sorted errors are those of one thread, with the same condition |
| LoneCr.EndsBetweenRecordsIff | src/delimited_index.h:396-404 | a chunk that does not throw ends between records if and only if its last byte is LF |
| LoneCr.ChunkBehindCr | src/delimited_index.h:328-415 | the task behind a lone CR, whose newline is CR, records some offset more often than one thread does |
| HiddenCuts.TasksUpTo | src/delimited_index.cc:206-252 | where empty rows are skipped, the tasks before the first cut behind a lone CR have found what one thread has |
| HiddenCuts.LineWithCr | src/delimited_index.h:381-386 | one thread passes over an empty line that holds a CR, and a region that ends at the CR records its start |
| HiddenCuts.LoneCrCutShows | src/utils.h:203-207 | with a cut behind a lone CR the offsets of the tasks are those of one thread if and only if empty rows are skipped, the CR lies inside quotes, it is the only one at a cut, and only blank lines follow; then the errors are too |
| FileIndex.Attempt | src/delimited_index.cc:150-262 | an attempt throws exactly when a newline stands inside quotes in the header line or a chunk; otherwise it holds the header's offsets and each task's offsets in its own vector |
| FileIndex.TaskRanges | src/delimited_index.cc:206-226 | each task's range, moved to line ends, is its chunk, and its newline type is CR exactly behind a lone CR |
| FileIndex.IndexBody | src/delimited_index.cc:180-262 | the vectors of the threads are those of their tasks, and the errors are theirs; it throws exactly when a task does |
| FileIndex.BareChunkShowsBlankRow | src/delimited_index.h:408 | when a chunk starts with a bare newline, the one-thread index of the file has a blank row |
| FileIndex.AlignedIff | src/delimited_index.cc:269-275 | the length of every vector but the last is a multiple of columns + 1, if and only if no chunk before the last starts with a bare newline |
| FileIndex.TasksAgainstBody | src/delimited_index.cc:180-279 | header and body index of several threads are those of one if and only if no task is misled by a lone CR or a bare newline; then the errors are too |
| FileIndex.ErrorsInAnyOrder | src/vroom_errors.h:42-45 | in whatever order the tasks log, the bag of errors is that of the index |
| FileIndex.IndexInOrder | src/delimited_index.cc:148-268 | the offsets of the vectors side by side never decrease and lie in the file |
| FileIndex.WithoutBlankRows | src/delimited_index.cc:148-268 | in a file without a blank row and without a cut behind a lone CR no task is misled |
| FileIndex.PlainTextCuts | src/utils.h:141-211 | in text without lone CRs no cut lies behind one |
| FileIndex.BuildIndex | src/delimited_index.cc:123-279 | with the choice of threads and the retry in one thread: offsets are those of one thread if and only if no task was misled by a lone CR or a bare newline, and then errors are too; the vectors hold whole rows if and only if no chunk before the last starts with a bare newline; header, column and row counts always |
| CellAccess.GetCell | src/delimited_index.cc:348-389 | walking the chunk vectors with unsigned subtraction finds what the flat concatenation holds at row * (columns + 1) + column, and fails exactly beyond its end |
| CellAccess.RowInChunk | src/delimited_index.cc:359-381 | a row lies in one chunk or behind it, so that no cell straddles two chunks and the subtraction does not wrap |
| CellAccess.TrimWhitespace | src/utils.h:232-240 | only spaces are cut off, and what is left neither begins nor ends with one |
| CellAccess.TrimmedIsUnique | src/utils.h:232-240 | there is one such way to trim a cell that holds more than spaces |
| CellAccess.TrimQuotes | src/delimited_index.cc:299-307 | at most one quote comes off at either end, an opening one always does, and the rest of the cell stays as it is |
| CellAccess.QuotesComeOff | src/delimited_index.cc:299-307 | a cell in quotes gives what stands between them, whatever it is; an end without a quote stays |
| CellAccess.GetEscapedString | src/delimited_index.cc:309-346 | copying in pieces yields the cell with the first of every pair of quotes dropped |
| CellAccess.GetTrimmedVal | src/delimited_index.cc:391-426 | computes the text of a cell that `CellValue` tells by bytes: CR of a line end, spaces, quotes and spaces again, then the escapes |
| CellValue.BareCell | src/delimited_index.cc:410-425 | a cell that begins with no quote is all its bytes, or with trimming what lies between its spaces, tabs, CRs and NULs |
| CellValue.QuotedCell | src/delimited_index.cc:410-425 | a cell in quotes, spaces around and inside them aside, is what lies between the quotes, with its doubled quotes undone where that is asked for; a missing closing quote does not matter |
| CellValue.CrIsDroppedIff | src/delimited_index.cc:401-412 | a cell with CR at its end has the value of the cell without it, if and only if it is the last of its line or spaces are trimmed |
| CellValue.NothingToUnescape | src/delimited_index.cc:309-346 | without quotes inside there is nothing to undo |
| Preamble.FindFirstLine | src/utils.h:297-333 | the first line behind the byte order mark that is the last one of the file, or is neither requested to be skipped nor blank nor a comment; all lines before it are |
| Preamble.PassedOverInBytes | src/utils.h:47-80 | passed over are the lines that were requested, lines of spaces and tabs where these are skipped, and lines whose first byte that is no space or tab begins the comment |
| Preamble.SkippedLineEnds | src/utils.h:314-322 | a line that is passed over ends at its first line end outside quotes, and in a comment quotes do not count |
| Preamble.LongestMark | src/utils.h:242-292 | the mark that is skipped is the longest of the five byte order marks that the file begins with |
| Preamble.LineStartsBehindNewline | src/utils.h:314-322 | a line that is reached by skipping starts behind a line end, or a NUL |
| Preamble.NothingSkipped | src/utils.h:242-333 | with nothing to skip the first line starts behind the byte order mark |
| OffsetOrder.RunInOrder | src/delimited_index.h:349-462 | offsets never decrease and stay inside the region |
| DelimitedFile.DelimitedIndex.constructor | src/delimited_index.cc:24-297 | the object holds the index of the file as `FileIndex.BuildIndex` states it, its cells can be read exactly when the vectors hold whole rows, and it is empty for a file without a final newline or with one line end only |
| DelimitedFile.DelimitedIndex.GetName | src/delimited_index.h:123-126 | the name of a column |
| DelimitedFile.DelimitedIndex.Get | src/delimited_index.cc:428-432 | the text of the cell at a row and a column, counted without the header |
| DelimitedFile.CursorReadsCell | src/delimited_index.h:53-92 | a column's cursor, advanced by some rows, reads the cell that access by row and column reads, header counted, and its index is that row |
| Rfc4180.FoldText | src/delimited_index.h:349-462 | text in the form of section 2 of RFC 4180 is indexed at the places its fields start and end |
| Rfc4180.ScanFindsLineEnd | src/utils.h:95-138 | the quote-toggling scan finds the end of a line of such text, whatever its quoted fields hold |
| Rfc4180.UnescapeUndoesEscape | src/delimited_index.cc:326-343 | dropping the first of each pair of quotes undoes doubling them |
| Rfc4180.ValueOfEncoding | src/delimited_index.cc:391-426 | the reader's value of an encoded field is the field |
| Writer.NeedsQuote | src/vroom_write.cc:79-88 | true if and only if the string holds the delimiter, a quote, CR or LF |
| Writer.StrToBuf | src/vroom_write.cc:107-154 | appends the text for a missing string, or the string byte by byte, each quote doubled, behind a backslash or alone, in quotes exactly when all are quoted or it needs them |
| Writer.ProtectedBytes | src/vroom_write.cc:133-149 | escaping byte by byte: what is put before a quote is put before no other byte |
| Writer.FillRow | src/vroom_write.cc:171-233 | appends the row's cells joined by the delimiter |
| Writer.FillBuf | src/vroom_write.cc:156-240 | yields the rows from begin to end, each closed by the line end |
| Writer.GetHeader | src/vroom_write.cc:308-332 | the names joined by the delimiter and closed by the line end; nothing when there are no names |
| WriterPipeline.OutputInOrder | src/vroom_write.cc:378-424 | at every moment the output is the header and the first rows in order, and all rows when the loop has ended |
| WriterPipeline.EachFutureTakenOnce | src/vroom_write.cc:404-412 | a slot is refilled only after its future has been taken, and at the end none is left |
| WriterPipeline.OneWriteTaskAtATime | src/vroom_write.cc:397-412 | no write task is launched while another one runs |
| WriterPipeline.MovesRunOut | src/vroom_write.cc:378-424 | every run ends: each move that changes the state lowers a bound |
| WriterPipeline.SomebodyCanMove | src/vroom_write.cc:378-424 | before the end there is always an actor that can move |
| TableOutput.WriteConnection | src/vroom_write.cc:512-552 | the connection writer puts out the header and all rows |
| TableOutput.FormatBatch | src/vroom_write.cc:524-540 | the futures of a batch are consecutive rows, at least one |
| TableOutput.PipelineWritesTable | src/vroom_write.cc:348-424 | under every schedule the pipeline's output is the byte order mark and what the connection writer puts out |
| RoundTrip.WrittenIsText | src/vroom_write.cc:107-240 | what the writer puts out is text in the form of section 2 of RFC 4180 |
| SkippedRows.EmptyLineIff | src/delimited_index.h:382-386 | a row looks like an empty line if and only if its line consists of spaces and tabs |
| SkippedRows.RunKeeps | src/delimited_index.h:349-462 | such text yields the records of the rows that are not skipped, and nothing else |
| TextIndex.RowsReported | src/delimited_index.cc:269-279 | all rows below the header are reported, if and only if none consists of blanks that are skipped |
| TextIndex.TextReadsBack | src/delimited_index.cc:348-426 | wherever in the file such text begins, every field of it is read back from the one-thread index |
| RoundTrip.MarkInFirstField | src/utils.h:242-292 | a text that begins with a byte order mark begins with a bare field that holds the mark |
| RoundTrip.WriteThenRead | src/vroom_write.cc:107-240 | a table of NUL-free strings with at least two columns is indexed without errors from where the reader starts, with its names, its row count and every cell, with empty rows kept or skipped; a mark is lost from the first name |
| RoundTrip.NamesComeBackIff | src/utils.h:242-311 | all names come back if and only if the text does not begin with a byte order mark |
| RoundTrip.BlankRowsAreLost | src/delimited_index.h:382-386 | all rows are reported if and only if none is written as a line of blanks that the reader skips |
| RoundTrip.WriteThenReadCell | src/delimited_index.cc:139-432 | the same through the writer's methods and the reader's object, for any number of threads, unless a chunk is cut behind a lone CR of a quoted cell |
| Buffers.StreamAgainstWhole | src/delimited_index_connection.cc:171-237 | for what the buffers hold: with state and columns carried over, they end at the same point of the same record as the whole; a ragged row cut before its newline loses an error |
| Buffers.CutsDoNotMatter | src/delimited_index_connection.cc:171-237 | what the buffers hold yields the same in parts and as a whole if and only if no buffer starts with the newline of a ragged row |
| Buffers.RectangularInput | src/delimited_index_connection.cc:171-237 | where what the buffers hold has no parse errors as a whole, every split yields the whole index |
| ReadBuffers.HeldIff | src/delimited_index_connection.cc:222-226 | every buffer holds what was read, if and only if each read has only zeroes behind the size that its vector had |
| ReadBuffers.TextSurvivesIff | src/delimited_index_connection.cc:222-226 | for text without NUL: if and only if no read is two or more bytes longer than the one two before |
| ReadBuffers.CopyIsInputIff | src/delimited_index_connection.cc:210-226 | the text that the buffers have held is the text that was read, with the same condition |
| ConnectionTasks.NoBufferInUseIsOverwritten | src/delimited_index_connection.cc:176-231 | when the loop reads into a buffer, neither the parse nor the write task still uses it |
| ConnectionTasks.EveryScheduleSameIndex | src/delimited_index_connection.cc:176-237 | at the end the index is that of the stream of what the buffers held, resized as the code does it, and the copy is that text, under every schedule |
| ConnectionTasks.CopyIsInput | src/delimited_index_connection.cc:210-226 | under every schedule the copy is the input, if and only if no read is harmed when its buffer grows |
| ConnectionTasks.MovesRunOut | src/delimited_index_connection.cc:176-237 | every run ends |
| ConnectionTasks.SomebodyCanMove | src/delimited_index_connection.cc:176-237 | before the end there is always an actor that can move |
| Connection.IndexBuffers | src/delimited_index_connection.cc:171-237 | for all options the loop over the two vectors yields offsets, errors and copy of what they hold, as the plain parse carried from buffer to buffer finds them |
| Connection.ReadThroughIsStream | src/delimited_index_connection.cc:171-237 | without comments and with empty rows kept, that is the stream which the concurrent tasks parse |
| Connection.IndexConnection | src/delimited_index_connection.cc:73-276 | header, body, columns, rows, errors and copy of what the buffers of a connection hold, a missing final newline and a single line without one included; it throws exactly when the first line does not fit in the buffer and more input follows |
| Connection.ConnectionIsFile | src/delimited_index_connection.cc:171-237 | the body is that of the copy in one region if and only if no buffer starts with the newline of a ragged row |
| Connection.ConnectionIsInput | src/delimited_index_connection.cc:171-237 | body and copy are those of the input if and only if, besides, no read is harmed when its buffer grows |
| Connection.EveryScheduleIsInput | src/delimited_index_connection.cc:171-237 | the same for the tasks, under every schedule |
| Connection.HeaderIsFileHeader | src/delimited_index_connection.cc:140-163 | the header is the same from the first read and from the whole text |
| FinalNewline.WithoutFinalNewline | src/delimited_index_connection.cc:255-264 | header, body and columns of an input without a final newline are those of the input with one put behind it, if and only if the last row, or the single line, does not end inside quotes and has the right number of cells |
| FinalNewline.MissingNewline | src/delimited_index_connection.cc:255-262 | for the body: the end offset is what the newline leaves, with the same condition |
| FinalNewline.SingleLine | src/delimited_index_connection.cc:255-262 | for a single line: the header, and one column more, if and only if the line does not end inside quotes |
| FinalNewline.SameHeaderLine | src/utils.h:297-333 | a newline at the end of the input moves neither the start of the header line nor a newline that ends it |
| Collection.RowArithmetic | src/delimited_index.h:67-77 | stepping, advancing and subtracting cell numbers is counting rows |
| Collection.OnePlacePerPosition | src/index_collection.cc:41-48 | two resting places of the cursor have the same position if and only if they are the same |
| Collection.AdvanceTerminatesIff | src/index_collection.cc:50-70 | the loop ends if and only if no more rows are asked for than are left |
| Collection.FullIterator.constructor | src/index_collection.cc:17-39 | the cursor starts at position 0, behind leading empty files |
| Collection.FullIterator.Next | src/index_collection.cc:41-48 | the position goes up by one, past files without rows |
| Collection.FullIterator.Advance | src/index_collection.cc:50-70 | the position goes up by n; a negative n throws and changes nothing |
| Collection.FullIterator.DistanceTo | src/index_collection.cc:72-105 | the exact signed difference of two positions, in both directions |
| Collection.FullIterator.EqualTo | src/index_collection.h:79-82 | true if and only if the positions agree |
| Collection.Get | src/index_collection.cc:376-385 | the file and the row at a position |
| Collection.CursorAgreesWithGet | src/index_collection.cc:107-117 | the cursor at a position stands on the row that access by position yields |
| Collection.ColumnSize | src/index_collection.h:93-100 | begin and end of a column are as far apart as there are rows |
| Subset.HistoryDoesNotMatter | src/index.h:34-44 | whatever was dereferenced before, the iterator is where its moves alone would have taken it, because the cache stands at start + prev |
| Subset.AtIsComposed | src/index.h:50 | access by position through any nesting of subsets indexes the composed vectors |
| Subset.LazyAccessAgrees | src/index.h:13-87 | after any history, dereferencing at position p, access by position and the composed vectors agree |
| Subset.SubsetIterator.Value | src/index.h:34-44 | dereferencing moves the cache and yields the row, and leaves the iterator what it was to any caller |
| Subset.SubsetIterator.Advance | src/index.h:25 | moving forwards or backwards changes the position only |
| Subset.Materialise | src/parallel.h:38-71 | reading a column slice by slice yields at every position what the composed vectors yield |
| Subset.ParsingAgrees | src/vroom_vec.h:45-98 | parsing by iterator and by position yields the same value, and the same errors if and only if there are none, the column is no subset, or the value lies in row 0 |
| Subset.SubsetReportsItsStart | src/index.h:53 | on a subset, an error found by position is reported for row 0 |
| Subset.WrongRowReported | src/vroom_vec.h:87-94 | a subset of one row for which the row reported is not the row read |
| Subset.GetSubsetIndex | src/vroom_vec.h:149-179 | one-based positions, whole or fractional, become an index vector unless one is missing or too large; a fraction is cut off, and what is negative wraps |
| Subset.RowsComeFromPositions | src/vroom_vec.h:158-174 | an index made from a position lies in the column if and only if the position is positive |
| DiyFp.Multiply | src/grisu3.c:183-196 | the product's high word rounded to nearest, halves up, without overflow |
| DiyFp.Normalize | src/grisu3.c:198-204 | the top bit is set and f * 2^e stays the same |
| Grisu.LargestPow10 | src/grisu3.c:215-224 | the largest power of ten not above n, for every number of bits that occurs |
| Grisu.RoundWeed | src/grisu3.c:226-241 | lowering the last digit never takes it below '0' nor the number out of the interval; it accepts if and only if the number is then certainly closest: no other number of that length is closer to any point within a unit of w |
| Grisu.IntegralStep | src/grisu3.c:256-267 | number and rest keep adding up to the upper bound, and a digit taken from a rest wider than the interval shows that no shorter number fits |
| Grisu.IntegralDigits | src/grisu3.c:256-267 | the loop over the digits before the point keeps all of this in 32 and 64 bits |
| Grisu.FractionalDigits | src/grisu3.c:269-282 | the open-ended loop ends within 18 turns, because the width grows tenfold below a fixed bound |
| Grisu.DigitGen | src/grisu3.c:243-283 | no number with a digit less lies above too_low and at or below too_high; it succeeds if and only if some number of that length is closest to every point within a unit of w, and then the digits are that number, between low + 3 and high - 1 |
| DecimalText.IToStr | src/grisu3.c:314-341 | appends the decimal text of an integer, with the terminator behind it |
| DecimalRoundTrip.WholeDigits | src/grisu3.c:321-338 | the text of a number consists of digits, and its value is the number |
| DecimalText.TurnAround | src/grisu3.c:333-338 | the swaps turn the digits around |
| DecimalText.InsertPoint | src/grisu3.c:403-404 | the decimals move up by one and the point takes the place before them |
| DecimalText.PrefixZeros | src/grisu3.c:392-400 | the digits move up, and "0." and zeros go before them |
| DecimalText.LayOut | src/grisu3.c:380-417 | laying out the digits in place yields one of the four forms |
| DecimalText.ExponentIsWrittenIff | src/grisu3.c:380-417 | an exponent is written exactly for whole numbers of more than 15 digits to which more than two zeros would have to be added, and for others with three or more zeros behind the point; a point exactly for the others of more than one digit or with fewer than three zeros |
| DecimalText.PrintNumber | src/grisu3.c:343-417 | sign, zero, infinity or digits, as text in the buffer |
| DecimalText.TextFits | src/vroom_write.cc:207-208 | a number of at most 17 digits fits the 33 bytes reserved for it |
| DecimalReader.PowerFromTable | src/vroom_dbl.cc:190-193 | one table entry per set bit multiplies up to the power of ten, and nine entries are enough |
| DecimalReader.ScanMantissa | src/vroom_dbl.cc:103-129 | counts the mantissa's digits and finds its mark |
| DecimalReader.ReadFraction | src/vroom_dbl.cc:131-154 | two integers of nine digits each hold the first 18 digits, without overflow |
| DecimalReader.Strtod | src/vroom_dbl.cc:13-204 | a text reads as missing, as a word or as the first 18 digits times a clamped power of ten |
| NumberTexts.NumberReads | src/vroom_dbl.cc:70-204 | for every sign, digits before and behind the mark, mark, exponent letter and sign of the exponent the text reads as a number, and as ±digits * 10^(exponent - decimals), if and only if no digit other than zero is cut and the exponent is not clamped, or all digits are zeros |
| NumberTexts.ReadsIff | src/vroom_dbl.cc:94-204 | a text reads as a number if and only if it has that form; any other byte behind the number makes it missing |
| NumberTexts.WordsRead | src/vroom_dbl.cc:78-92 | NaN and infinity are read from the three letters in any case, behind an optional sign, which counts for infinity |
| NumberTexts.ClampedIsOther | src/vroom_dbl.cc:188-189 | a number other than zero whose exponent is clamped is not the number that is written, whatever is cut |
| DecimalRoundTrip.CutIsExactIff | src/vroom_dbl.cc:131-133 | leaving out digits keeps the value if and only if they are zeros |
| DecimalRoundTrip.PrintThenRead | src/grisu3.c:380-417 | for every sign, every digit string of at most 17 digits and every exponent the text reads back as digits * 10^d_exp, if and only if the exponent lies within 307 and the digits cut in the form "0.00ddd" are zeros, or all digits are zeros |
| DecimalRoundTrip.ZeroReadsBack | src/grisu3.c:358 | zero reads back |
| DecimalRoundTrip.InfinityReadsBack | src/grisu3.c:360 | infinity reads back with its sign |
| DecimalRoundTrip.LongFractionIsCut | src/vroom_dbl.cc:131-132 | 17 digits behind "0.00", the last of which is not zero, do not read back |
| DecimalRoundTrip.SmallExponentIsClamped | src/vroom_dbl.cc:188-189 | 5e-324 does not read back |
| DecimalRoundTrip.PrintAndRead | src/grisu3.c:343-417 | the round trip through the buffer |
| CircularQueue.CircularQ.PushBack | src/spdlog/include/spdlog/details/circular_q.h:49-62 | appends, dropping the oldest item and counting it when there is no room; a disabled queue stays as it is |
| CircularQueue.CircularQ.PopFront | src/spdlog/include/spdlog/details/circular_q.h:99-102 | drops the oldest item |
| CircularQueue.CircularQ.Size | src/spdlog/include/spdlog/details/circular_q.h:77-87 | the number of stored items |
| CircularQueue.CircularQ.Full | src/spdlog/include/spdlog/details/circular_q.h:109-117 | true if and only if as many items are stored as there is room for |
| CircularQueue.CircularQ.CopyMoveable | src/spdlog/include/spdlog/details/circular_q.h:126-138 | takes over contents and counter, and leaves the other queue disabled |
| BlockingQueue.MpmcBlockingQueue.Enqueue | src/spdlog/include/spdlog/details/mpmc_blocking_q.h:32-39 | on the ring buffer, what the pool's poster and its destructor do to the queue; waits exactly when there is no room |
| BlockingQueue.MpmcBlockingQueue.EnqueueNowait | src/spdlog/include/spdlog/details/mpmc_blocking_q.h:42-49 | what a poster that overruns the oldest message does |
| BlockingQueue.MpmcBlockingQueue.DequeueFor | src/spdlog/include/spdlog/details/mpmc_blocking_q.h:53-67 | what a waiting worker does: the oldest message, or none when the queue is empty |
| ThreadPool.NoMessageLost | src/spdlog/include/spdlog/details/thread_pool-inl.h:76-126 | in every run what was pushed is what has left, each message taken or overrun, followed by what is queued, in one order; the numbers add up, and what was taken has been handled or is in hand |
| ThreadPool.PostingIs | src/spdlog/include/spdlog/details/mpmc_blocking_q.h:32-49 | in every run a posted message goes behind the others where there is room; where there is none, a poster that waits changes nothing, and one that overruns drops the oldest message and queues its own |
| ThreadPool.WaitingDropsNothing | src/spdlog/include/spdlog/details/thread_pool-inl.h:76-84 | where every poster waits, no message is ever dropped |
| ThreadPool.BlockedDestructorHasHelp | src/spdlog/include/spdlog/details/thread_pool-inl.h:38-53 | while the destructor waits for room, a worker is still alive and can move |
| ThreadPool.ShutdownNeverStuck | src/spdlog/include/spdlog/details/thread_pool-inl.h:38-53 | until all workers are joined somebody can move |
| ThreadPool.ShutdownIsComplete | src/spdlog/include/spdlog/details/thread_pool-inl.h:38-126 | when all workers are joined each has taken exactly one terminate message and the queue is empty |
| ThreadPool.QueuedMessagesFirst | src/spdlog/include/spdlog/details/mpmc_blocking_q.h:32-67 | messages queued when the destructor starts are taken in their order, before any terminate message |
| ThreadPool.ShutdownRunsOut | src/spdlog/include/spdlog/details/thread_pool-inl.h:38-53 | every shutdown ends |
| Counterexamples.BlankRowAtChunkStart | src/delimited_index.h:408 | two chunks of a file, neither of which throws, hold fewer offsets than one thread finds |
| Counterexamples.BlankFirstRow | src/delimited_index.h:408 | a region that starts with a blank row has a record that is not full |
| Counterexamples.ShortRowCutBeforeItsNewline | src/delimited_index_connection.cc:176-204 | two buffers that do not yield the index of the whole |
| Counterexamples.StrayQuote | src/utils.h:127-129 | a text on which the scan's quote bit and the automaton part |
| Counterexamples.LoneCrInQuotes | src/utils.h:203-207 | a chunk that ends inside quotes without throwing |
| Counterexamples.LoneCrBeforeComment | src/delimited_index.h:362-378 | a cut behind a lone CR that does no harm, because a comment follows |
| Counterexamples.LoneCrHidden | src/delimited_index.h:381-386 | a cut behind a lone CR that blank lines inside quotes hide |
| Counterexamples.GrowingRead | src/delimited_index_connection.cc:222-226 | three reads, the third of which loses its last bytes |
| Counterexamples.MarkInFirstName | src/utils.h:242-292 | a table whose first name loses its first three bytes |
| Counterexamples.AdvancePastTheEnd | src/index_collection.cc:55-64 | advancing two rows in a collection of one row is never done |

## Left out

- Backslash escapes, delimiters of several bytes, NUL bytes and a limit on the number of rows (`n_max`): they change the offsets in ways that the statements would have to list case by case.
- FileIndex.BuildIndex: says nothing about files whose header line or last line ends in CR alone, nor about a cut behind a lone CR where comments are given. The one-thread attempt covers all files that end in LF; several threads cover those without NUL. Whether the vectors hold whole rows is left open where a cut lies behind a lone CR.
- ParallelIndex.ParallelIsSequential: the parse errors are compared after sorting by position; the order in which tasks log them is left open.
- HiddenCuts.LoneCrCutShows: is for inputs without comments, since a comment may hide the cut (Counterexamples.LoneCrBeforeComment), and where empty rows are skipped for a quote that is no blank.
- CellAccess.GetCell: requires that the vectors before the last hold whole rows, and that the position of the cell and the next one fit a 64-bit word; elsewhere the unsigned subtraction of the code may wrap.
- Connection.IndexConnection: a header line that ends in CR alone, one whose quotes are still open for the automaton at its newline, and a first read of a single byte without a newline are not part of the statement.
- FinalNewline.WithoutFinalNewline: is for inputs without comments in which empty rows are kept, and in which a header line begins before the end of the first read; it compares what the buffers hold, with a vector that has fewer offsets than the size type counts.
- RegionLines.StateInLine: is for a quote that is neither the delimiter nor the newline.
- CellValue.CrIsDroppedIff: is for a quote that is not CR.
- RoundTrip.WriteThenRead: missing cells, other column types than strings and line ends other than LF are not part of the statement.
- RoundTrip.WriteThenRead: for a text that begins with a byte order mark it requires that the delimiter is none of the bytes of a mark; otherwise the mark may reach into the second column.
- RoundTrip.BlankRowsAreLost: is for a header line that does not consist of blanks; otherwise the next line is read as the header.
- Subset.GetSubsetIndex: storing a negative double in an unsigned type is undefined in C++; the model wraps it as it does a negative integer.
- RoundTrip.WriteThenReadCell: where a chunk is cut behind a lone CR the index is not that of one thread, and the cell is not read.
- DelimitedFile.DelimitedIndex.Get: requires that the position of the cell and the next one fit a 64-bit word.
- Collection.FullIterator.Advance: requires that no more rows are asked for than are left, since the loop does not end otherwise (Collection.AdvanceTerminatesIff).
- Subset.SubsetIterator.Value: an iterator's copies are deep in the original, so iterators are values here, held by an object whose methods reassign them.
- Grisu.DigitGen: takes w, low and high as they come; the cached powers of ten, the decomposition of a double and the fallback to `snprintf` are not part of this model. The interval is at least two wide, and the upper bound at least 2^62.
- DecimalReader.Strtod: computes over exact reals and unbounded exponents, without the rounding of doubles and without the overflow of an int by an exponent of ten digits or more; the decimal mark is not a digit. Where the text ends after its sign, the byte behind it is not looked at; the result does not depend on it.
- DecimalText.PrintNumber: the texts that `snprintf` makes, of NaN with its bits and of a number that digit generation gives up, are not part of this model.
- WriterPipeline.OutputInOrder: formatting a block is one step; the bytes of a block are those of `fill_buf`.
- ThreadPool.NoMessageLost: queue operations are one step each, as they hold the mutex throughout; waiting with a timeout is a worker that does not move.
- CircularQueue.CircularQ.PushBack: the items of the ring hold values, so that moving from an item and leaving it empty is not visible.
- Row iterators other than for the header, and access by position on a slice: positions there are absolute.
- Guessing the delimiter, fixed-width files, date and time parsing, type guessing, factors and integers.
- R objects, memory mapping, connections, temporary files, progress bars, encodings and log formatting.
