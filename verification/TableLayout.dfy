/** Records of a file as a table: rows are counted and cells are found in the flat offset vector. */
module TableLayout {
  import opened Arith
  import opened Seqs
  import opened RecordLayout
  import opened OffsetOrder
  import opened FileIndex
  import opened CellAccess
  import opened DelimitedFile

  /** Every record has an offset per column and the one of its end. */
  predicate IsTable(records: seq<seq<nat>>, columns: nat)
  {
    columns > 0 && forall k :: 0 <= k < |records| ==> |records[k]| == columns + 1
  }

  /** The offsets of a cell in the flat vector are those of its record; behind the last record there is no cell. */
  lemma CellInTable(records: seq<seq<nat>>, columns: nat, row: nat, col: nat)
    requires IsTable(records, columns) && col < columns
    ensures BoundsAt(Flatten(records), FlatPosition(row * columns + col, columns), col == 0)
         == if row < |records| then Some(CellBounds(records[row], col)) else None
  {
    hide Flatten, FlatPosition, IsTable;
    PlaceOfCell(row, col, columns);
    if row < |records| {
      OffsetsOfCell(records, columns, row, col);
    } else {
      BehindTable(records, columns, row);
    }
  }

  lemma PlaceOfCell(row: nat, col: nat, columns: nat)
    requires col < columns
    ensures FlatPosition(row * columns + col, columns) == row * (columns + 1) + col
  {
    DivRest(row, col, columns);
  }

  lemma OffsetsOfCell(records: seq<seq<nat>>, columns: nat, row: nat, col: nat)
    requires IsTable(records, columns) && row < |records| && col < columns
    ensures |records[row]| == columns + 1
    ensures var flat, n: nat := Flatten(records), row * (columns + 1) + col;
            n + 1 < |flat| && flat[n] == records[row][col] && flat[n + 1] == records[row][col + 1]
  {
    FlatTable(records, columns + 1, row, col);
    FlatTable(records, columns + 1, row, col + 1);
  }

  lemma BehindTable(records: seq<seq<nat>>, columns: nat, row: nat)
    requires IsTable(records, columns) && row >= |records|
    ensures |Flatten(records)| <= row * (columns + 1)
  {
    TableSize(records, columns);
    MulMonotone(|records|, row, columns + 1);
  }

  lemma TableSize(records: seq<seq<nat>>, columns: nat)
    requires IsTable(records, columns)
    ensures |Flatten(records)| == |records| * (columns + 1)
  {
    if records != [] {
      FlatTable(records, columns + 1, 0, 0);
    }
  }

  /** The reported rows are the records, but for the header; offsets of a record that is not complete do not count. */
  lemma RowsAreRecords(records: seq<seq<nat>>, columns: nat, open: nat, hasHeader: bool)
    requires IsTable(records, columns) && open <= columns
    ensures DataRows(|Flatten(records)| + open, columns, hasHeader)
         == if hasHeader && records != [] then |records| - 1 else |records|
  {
    TableSize(records, columns);
    DivRest(|records|, open, columns + 1);
  }

  /** The first k cells of a record, joined by the delimiter, are the line. */
  ghost predicate LineOf(src: string, delim: char, record: seq<nat>, k: nat)
  {
    k < |record| && record[0] <= record[|record| - 1] <= |src| &&
    (forall j :: 0 <= j < k ==> CellBounds(record, j).0 <= CellBounds(record, j).1 <= |src|) &&
    Join(Cells(src, record, k), [delim]) == src[record[0]..record[|record| - 1]]
  }

  lemma LineReadsBack(src: string, delim: char, record: seq<nat>, k: nat)
    requires RecordWith(src, delim, record, k)
    ensures LineOf(src, delim, record, k)
  {
    hide Join, Cells, CellBounds;
    RecordReadsBack(src, delim, record, k);
  }

  /**
   A record that reads back as its line does so through the flat vector: its real cells joined by the
   delimiter are the line, and the cells that were added to it are empty.
   */
  lemma RowReadsBack(
    src: string, opts: Options, delim: char, records: seq<seq<nat>>, columns: nat, row: nat, k: nat)
    requires IsTable(records, columns) && row < |records| && RecordWith(src, delim, records[row], k)
    requires InOrder(Flatten(records), 0, |src|)
    ensures LineOf(src, delim, records[row], k)
    ensures forall col :: k <= col < columns ==> CellOf(src, opts, Flatten(records), columns, row, col) == Some("")
  {
    hide Flatten, LineOf, RecordWith, CellOf, InOrder;
    LineReadsBack(src, delim, records[row], k);
    forall col | k <= col < columns
      ensures CellOf(src, opts, Flatten(records), columns, row, col) == Some("")
    {
      AddedCell(src, opts, delim, records, columns, row, k, col);
    }
  }

  lemma AddedCell(
    src: string, opts: Options, delim: char, records: seq<seq<nat>>, columns: nat, row: nat, k: nat, col: nat)
    requires IsTable(records, columns) && row < |records| && RecordWith(src, delim, records[row], k)
    requires InOrder(Flatten(records), 0, |src|) && k <= col < columns
    ensures CellOf(src, opts, Flatten(records), columns, row, col) == Some("")
  {
    hide Flatten, FlatPosition, Value, RecordWith, BoundsAt, InOrder, IsTable;
    CellInTable(records, columns, row, col);
    OffsetInFile(src, records, columns, row, col);
    AddedBounds(src, delim, records[row], k, col);
    EmptyCell(src, opts, records[row][col], col == columns - 1);
  }

  lemma AddedBounds(src: string, delim: char, record: seq<nat>, k: nat, col: nat)
    requires RecordWith(src, delim, record, k) && k <= col && col + 1 < |record|
    ensures CellBounds(record, col) == (record[col], record[col])
  {
  }

  lemma OffsetInFile(src: string, records: seq<seq<nat>>, columns: nat, row: nat, col: nat)
    requires IsTable(records, columns) && row < |records| && col < columns && InOrder(Flatten(records), 0, |src|)
    ensures |records[row]| == columns + 1 && records[row][col] < |src|
  {
    hide Flatten, IsTable;
    OffsetsOfCell(records, columns, row, col);
  }

  lemma EmptyCell(src: string, opts: Options, p: nat, isLast: bool)
    requires p < |src|
    ensures Value(src, opts, p, p, isLast) == ""
  {
    hide Unescaped;
    NothingUnescaped(src, p, p, p, opts.quote);
  }
}
