/** The delimited index as an object: built once from a file, then read cell by cell. */
module DelimitedFile {
  import opened Arith
  import opened Seqs
  import opened Csv
  import opened OffsetOrder
  import opened Preamble
  import opened FileIndex
  import opened CellAccess
  import Collection

  /** The text of cell i, counted row by row, of a table held in a flat offset vector. */
  function CellAt(src: string, opts: Options, flat: seq<nat>, columns: nat, i: nat, isFirst: bool, isLast: bool): Option<string>
    requires InOrder(flat, 0, |src|) && columns > 0
  {
    match BoundsAt(flat, FlatPosition(i, columns), isFirst)
    case Some(bounds) => Some(Value(src, opts, bounds.0, bounds.1, isLast))
    case None => None
  }

  /** The text of the cell at (row, col); row 0 is the header where there is one. */
  function CellOf(src: string, opts: Options, flat: seq<nat>, columns: nat, row: nat, col: nat): Option<string>
    requires InOrder(flat, 0, |src|) && col < columns
  {
    CellAt(src, opts, flat, columns, row * columns + col, col == 0, col == columns - 1)
  }

  /** The position of the cell's offset and the one behind it are numbers of the size type. */
  predicate Reachable(row: nat, col: nat, columns: nat)
    requires columns > 0
  {
    FlatPosition(row * columns + col, columns) + 1 < SIZE_MAX
  }

  /** The vectors hold whole rows of offsets in the file, which the size type can count. */
  ghost predicate IsReadable(src: string, idx: seq<seq<nat>>, columns: nat)
  {
    Aligned(idx, columns + 1) && InOrder(Flatten(idx), 0, |src|) && |Flatten(idx)| < SIZE_MAX
  }

  /** The index of a file; empty for a file that does not end in a newline, or holds a single one. */
  ghost predicate IsFileIndex(
    src: string, opts: Options, skip: nat, numThreads: nat, idx: seq<seq<nat>>, rows: nat, columns: nat, errors: seq<ParseError>)
    requires src != "" && numThreads > 0
  {
    var start := FirstLineFrom(src, SkipBom(src), skip, opts.comment, opts.skipEmptyRows, opts.quote);
    if !EndsInNewline(src) || start >= |src| - 1 then idx == [] && rows == 0 && columns == 0 && errors == []
    else
      var firstNl := FirstNewline(src, start, opts.quote);
      var threads := Threads(src, opts, firstNl, numThreads);
      rows == DataRows(|Flatten(idx)|, columns, opts.hasHeader) &&
      (Regular(src, opts, firstNl) && Cuttable(src, threads) ==>
        columns == Columns(src, opts, start, firstNl) &&
        IsIndex(src, opts, start, firstNl, threads, idx, errors) &&
        (!CutsAtCr(src, opts, start, firstNl, threads) ==>
          (IsReadable(src, idx, columns) <==> !Ragged(src, opts, start, firstNl, threads) && |Flatten(idx)| < SIZE_MAX)))
  }

  method IndexFile(src: string, opts: Options, skip: nat, numThreads: nat)
    returns (idx: seq<seq<nat>>, rows: nat, columns: nat, errors: seq<ParseError>)
    requires src != "" && numThreads > 0
    ensures IsFileIndex(src, opts, skip, numThreads, idx, rows, columns, errors)
  {
    hide FirstLineFrom, FirstNewline, Flatten, InOrder, CutsAtCr, FallsShort, Ragged, Header, Body, Threads, Regular, Columns,
      DataRows, SkipBom;
    idx, rows, columns, errors := [], 0, 0, [];
    if EndsInNewline(src) {
      var start := FindFirstLine(src, skip, opts.comment, opts.skipEmptyRows, opts.quote);
      if start < |src| - 1 {
        idx, rows, columns, errors := BuildIndex(src, opts, start, numThreads);
      }
    }
  }

  class DelimitedIndex {
    const src: string
    const opts: Options
    var idx: seq<seq<nat>>
    var rows: nat
    var columns: nat
    var errors: seq<ParseError>

    ghost predicate Valid()
      reads this
    {
      IsReadable(src, idx, columns)
    }

    /** The file constructor. A file that does not end in a newline, or holds a single one, yields an empty index. */
    constructor (src: string, opts: Options, skip: nat, numThreads: nat)
      requires src != "" && numThreads > 0
      ensures this.src == src && this.opts == opts
      ensures IsFileIndex(src, opts, skip, numThreads, idx, rows, columns, errors)
    {
      this.src, this.opts := src, opts;
      new;
      idx, rows, columns, errors := IndexFile(src, opts, skip, numThreads);
    }

    /** The name of a column. */
    method GetName(col: nat) returns (r: Option<string>)
      requires Valid() && opts.hasHeader && col < columns && Reachable(0, col, columns)
      ensures r == CellOf(src, opts, Flatten(idx), columns, 0, col)
    {
      r := GetAt(0, col);
    }

    /** The text of a cell of the table. */
    method Get(row: nat, col: nat) returns (r: Option<string>)
      requires Valid() && col < columns && Reachable(row + if opts.hasHeader then 1 else 0, col, columns)
      ensures r == CellOf(src, opts, Flatten(idx), columns, row + if opts.hasHeader then 1 else 0, col)
    {
      r := GetAt(row + if opts.hasHeader then 1 else 0, col);
    }

    /** The text of the cell at (row, col), the header being row 0. */
    method GetAt(row: nat, col: nat) returns (r: Option<string>)
      requires Valid() && col < columns && Reachable(row, col, columns)
      ensures r == CellOf(src, opts, Flatten(idx), columns, row, col)
    {
      hide Value, FlatPosition, Flatten;
      var bounds := GetCell(idx, columns, row * columns + col, col == 0);
      match bounds
      case Some(b) =>
        var out := GetTrimmedVal(src, opts, b.0, b.1, col == columns - 1);
        r := Some(out);
      case None =>
        r := None;
    }
  }

  /** The header's offsets lie before those of the body, and all lie in the file. */
  lemma HeaderThenBody(src: string, opts: Options, start: nat, firstNl: nat)
    requires firstNl < |src|
    ensures InOrder(Header(src, opts, start, firstNl).Offsets() + Body(src, opts, start, firstNl).Offsets(), 0, |src|)
  {
    HeaderInOrder(src, opts, start, firstNl);
    var cfg := opts.Region('\n', Columns(src, opts, start, firstNl), true);
    SingleThreadNeverThrows(src, cfg, firstNl + 1, firstNl + 1, |src|, 0, EMPTY);
    RunInOrder(src, cfg, firstNl + 1, firstNl + 1, |src|, EMPTY);
  }

  /** A cursor that starts at the first data row of a column and is advanced by some rows reads what Get reads there. */
  lemma CursorReadsCell(src: string, opts: Options, flat: seq<nat>, l: Collection.Layout, row: nat)
    requires InOrder(flat, 0, |src|) && l.Ok() && (l.header == 1 <==> opts.hasHeader)
    ensures var cursor := Collection.AtRow(l, 0).Advance(l, row);
            cursor == Collection.AtRow(l, row) && cursor.i >= 0 && cursor.i / l.columns == row + l.header &&
            CellAt(src, opts, flat, l.columns, cursor.i, l.column == 0, l.column == l.columns - 1)
            == CellOf(src, opts, flat, l.columns, row + if opts.hasHeader then 1 else 0, l.column)
  {
    hide CellAt, Collection.AtRow, Collection.ColumnIterator.Advance;
    Collection.RowArithmetic(l, 0, row);
    CursorNumber(l, row, row + l.header);
  }

  lemma CursorNumber(l: Collection.Layout, row: nat, n: nat)
    requires l.Ok() && n == row + l.header
    ensures var i := Collection.AtRow(l, row).i;
            i >= 0 && i == n * l.columns + l.column && i / l.columns == n
  {
    DivRest(n, l.column, l.columns);
    MulMonotone(0, n, l.columns);
  }
}
