/** The two writers, one to a file through the pipeline, one to a connection batch by batch: they put out the same bytes. */
module TableOutput {
  import opened Seqs
  import opened Writer
  import P = WriterPipeline

  lemma {:induction false} RowsSplit(
    columns: Columns, rows: nat, lo: nat, mid: nat, hi: nat, delim: char, eol: string, naStr: string, opts: WriteOptions)
    requires Rectangular(columns, rows) && lo <= mid <= hi <= rows
    ensures RowsText(columns, rows, lo, mid, delim, eol, naStr, opts) + RowsText(columns, rows, mid, hi, delim, eol, naStr, opts)
         == RowsText(columns, rows, lo, hi, delim, eol, naStr, opts)
    decreases hi
  {
    if mid < hi {
      RowsSplit(columns, rows, lo, mid, hi - 1, delim, eol, naStr, opts);
      hide Join, RowCells;
      var cells := Join(RowCells(columns, rows, hi - 1, delim, naStr, opts, |columns|), Separator(delim));
      var a, b := RowsText(columns, rows, lo, mid, delim, eol, naStr, opts), RowsText(columns, rows, mid, hi - 1, delim, eol, naStr, opts);
      Associative(a, b, cells);
      Associative(a, b + cells, eol);
    }
  }

  ghost function HeaderText(names: seq<string>, delim: char, eol: string, opts: WriteOptions): string
  {
    var line := Join(NameCells(names, delim, opts, |names|), Separator(delim));
    if names == [] || (delim == '\0' && line == "") then "" else line + eol
  }

  /** Everything that is written: the header where it is wanted, then all rows. */
  ghost function TableText(
    names: seq<string>, columns: Columns, rows: nat, delim: char, eol: string, naStr: string, colNames: bool,
    opts: WriteOptions): string
    requires Rectangular(columns, rows)
  {
    (if colNames then HeaderText(names, delim, eol, opts) else "")
    + RowsText(columns, rows, 0, rows, delim, eol, naStr, opts)
  }

  /** The writer to a connection: a batch of blocks is formatted, then written out, before the next one starts. */
  method WriteConnection(
    names: seq<string>, columns: Columns, rows: nat, delim: char, eol: string, naStr: string, colNames: bool,
    opts: WriteOptions, numThreads: nat, bufLines: nat)
    returns (con: string)
    requires Rectangular(columns, rows) && numThreads > 0 && bufLines > 0
    ensures con == TableText(names, columns, rows, delim, eol, naStr, colNames, opts)
  {
    hide RowsText;
    NoRowsNoText(columns, rows, 0, delim, eol, naStr, opts);
    con := WriteHeader(names, delim, eol, colNames, opts);
    ghost var header := con;
    var begin := 0;
    while begin < rows
      invariant 0 <= begin <= rows
      invariant con == header + RowsText(columns, rows, 0, begin, delim, eol, naStr, opts)
    {
      var futures, next := FormatBatch(columns, rows, delim, eol, naStr, opts, numThreads, bufLines, begin);
      RowsSplit(columns, rows, 0, begin, next, delim, eol, naStr, opts);
      ghost var done := RowsText(columns, rows, 0, begin, delim, eol, naStr, opts);
      con := WriteAll(con, futures);
      assert con == header + (done + Flatten(futures));
      begin := next;
    }
  }

  method WriteHeader(names: seq<string>, delim: char, eol: string, colNames: bool, opts: WriteOptions)
    returns (con: string)
    ensures con == if colNames then HeaderText(names, delim, eol, opts) else ""
  {
    con := "";
    if colNames {
      var header := GetHeader(names, delim, eol, opts);
      con := con + header;
    }
  }

  lemma NoRowsNoText(
    columns: Columns, rows: nat, row: nat, delim: char, eol: string, naStr: string, opts: WriteOptions)
    requires Rectangular(columns, rows) && row <= rows
    ensures RowsText(columns, rows, row, row, delim, eol, naStr, opts) == ""
  {
  }

  /** One block of rows per thread, as long as there are rows. */
  method FormatBatch(
    columns: Columns, rows: nat, delim: char, eol: string, naStr: string, opts: WriteOptions, numThreads: nat,
    bufLines: nat, first: nat)
    returns (futures: seq<string>, begin: nat)
    requires Rectangular(columns, rows) && numThreads > 0 && bufLines > 0 && first < rows
    ensures first < begin <= rows
    ensures Flatten(futures) == RowsText(columns, rows, first, begin, delim, eol, naStr, opts)
  {
    hide RowsText;
    NoRowsNoText(columns, rows, first, delim, eol, naStr, opts);
    futures, begin := [], first;
    while |futures| < numThreads && begin < rows
      invariant first <= begin <= rows && (begin == first ==> futures == [])
      invariant Flatten(futures) == RowsText(columns, rows, first, begin, delim, eol, naStr, opts)
      decreases rows - begin
    {
      var numLines := if bufLines < rows - begin then bufLines else rows - begin;
      var block := FillBuf(columns, rows, delim, eol, naStr, opts, begin, begin + numLines);
      FlattenPush(futures, block);
      RowsSplit(columns, rows, first, begin, begin + numLines, delim, eol, naStr, opts);
      futures := futures + [block];
      begin := begin + numLines;
    }
  }

  /** The buffers of a batch are written out in order. */
  method WriteAll(con0: string, futures: seq<string>) returns (con: string)
    ensures con == con0 + Flatten(futures)
  {
    con := con0;
    var i := 0;
    while i < |futures|
      invariant 0 <= i <= |futures|
      invariant con == con0 + Flatten(futures[..i])
    {
      assert futures[..i + 1] == futures[..i] + [futures[i]];
      FlattenPush(futures[..i], futures[i]);
      con := con + futures[i];
      i := i + 1;
    }
    assert futures[..i] == futures;
  }

  /** The pipeline's job for a table: its rows one by one, and what stands before them. */
  ghost function TableJob(
    names: seq<string>, columns: Columns, rows: nat, delim: char, eol: string, naStr: string, colNames: bool, bom: string,
    opts: WriteOptions, numThreads: nat, bufLines: nat): P.Job
    requires Rectangular(columns, rows)
  {
    P.Job(seq(rows, r requires 0 <= r < rows => RowsText(columns, rows, r, r + 1, delim, eol, naStr, opts)),
          bufLines, numThreads, bom + if colNames then HeaderText(names, delim, eol, opts) else "")
  }

  /** A block of the pipeline is what fill_buf yields. */
  lemma {:induction false} BlockIsFillBuf(
    names: seq<string>, columns: Columns, rows: nat, delim: char, eol: string, naStr: string, colNames: bool, bom: string,
    opts: WriteOptions, numThreads: nat, bufLines: nat, lo: nat, hi: nat)
    requires Rectangular(columns, rows) && lo <= hi <= rows
    ensures TableJob(names, columns, rows, delim, eol, naStr, colNames, bom, opts, numThreads, bufLines).Block(lo, hi)
         == RowsText(columns, rows, lo, hi, delim, eol, naStr, opts)
    decreases hi
  {
    var job := TableJob(names, columns, rows, delim, eol, naStr, colNames, bom, opts, numThreads, bufLines);
    OneRow(names, columns, rows, delim, eol, naStr, colNames, bom, opts, numThreads, bufLines, lo, hi);
    hide Join, HeaderText, RowsText, TableJob;
    if lo < hi {
      BlockIsFillBuf(names, columns, rows, delim, eol, naStr, colNames, bom, opts, numThreads, bufLines, lo, hi - 1);
      assert job.lines[lo..hi] == job.lines[lo..hi - 1] + [job.lines[hi - 1]];
      FlattenPush(job.lines[lo..hi - 1], job.lines[hi - 1]);
      RowsSplit(columns, rows, lo, hi - 1, hi, delim, eol, naStr, opts);
    } else {
      NoRowsNoText(columns, rows, lo, delim, eol, naStr, opts);
    }
  }

  lemma OneRow(
    names: seq<string>, columns: Columns, rows: nat, delim: char, eol: string, naStr: string, colNames: bool, bom: string,
    opts: WriteOptions, numThreads: nat, bufLines: nat, lo: nat, hi: nat)
    requires Rectangular(columns, rows) && lo <= hi <= rows
    ensures var lines := TableJob(names, columns, rows, delim, eol, naStr, colNames, bom, opts, numThreads, bufLines).lines;
            |lines| == rows &&
            (lo < hi ==> lines[hi - 1] == RowsText(columns, rows, hi - 1, hi, delim, eol, naStr, opts)) &&
            lines[lo..lo] == []
  {
    hide RowsText, HeaderText;
  }

  /** Under every schedule the pipeline puts out the connection writer's bytes, behind the byte order mark. */
  lemma PipelineWritesTable(
    names: seq<string>, columns: Columns, rows: nat, delim: char, eol: string, naStr: string, colNames: bool, bom: string,
    opts: WriteOptions, numThreads: nat, bufLines: nat, schedule: seq<P.Actor>)
    requires Rectangular(columns, rows) && numThreads > 0 && bufLines > 0
    requires var job := TableJob(names, columns, rows, delim, eol, naStr, colNames, bom, opts, numThreads, bufLines);
             P.After(job, schedule).pc == P.Finished
    ensures var job := TableJob(names, columns, rows, delim, eol, naStr, colNames, bom, opts, numThreads, bufLines);
            P.After(job, schedule).out == bom + TableText(names, columns, rows, delim, eol, naStr, colNames, opts)
  {
    var job := TableJob(names, columns, rows, delim, eol, naStr, colNames, bom, opts, numThreads, bufLines);
    hide P.After, RowsText, HeaderText, Flatten;
    P.OutputInOrder(job, schedule);
    BlockIsFillBuf(names, columns, rows, delim, eol, naStr, colNames, bom, opts, numThreads, bufLines, 0, rows);
    assert job.lines[0..rows] == job.lines;
    Associative(bom, if colNames then HeaderText(names, delim, eol, opts) else "",
                RowsText(columns, rows, 0, rows, delim, eol, naStr, opts));
  }
}
