/**
 The index of a file that is text in the form of RFC 4180 from some position on: its offsets,
 and the cells read through them.
 */
module TextIndex {
  import opened Arith
  import opened Seqs
  import opened Csv
  import opened LoneCr
  import opened RecordLayout
  import opened OffsetOrder
  import opened FileIndex
  import opened CellAccess
  import opened DelimitedFile
  import opened TableLayout
  import opened Rfc4180
  import opened SkippedRows

  /** Row i of the text, and the record that stands for it when the text begins at p. */
  lemma {:induction false} RowInText(rows: seq<seq<Field>>, p: nat, d: Dialect, i: nat)
    requires i < |rows|
    ensures var q := |Text(rows[..i], d)|;
            q + |Line(rows[i], d)| < |Text(rows, d)| &&
            Text(rows, d)[q..q + |Line(rows[i], d)|] == Line(rows[i], d) &&
            TextRecords(rows, p, d)[i] == RowOffsets(rows[i], p + q, d)
    decreases |rows|
  {
    hide Line, RowOffsets;
    var m := |rows| - 1;
    if i < m {
      RowInText(rows[..m], p, d, i);
      assert rows[..m][..i] == rows[..i];
      var q, n := |Text(rows[..i], d)|, |Line(rows[i], d)|;
      assert Text(rows, d)[q..q + n] == Text(rows[..m], d)[q..q + n];
    }
  }

  lemma SliceBehind(front: string, text: string, i: nat, j: nat)
    requires i <= j <= |text|
    ensures (front + text)[|front| + i..|front| + j] == text[i..j]
  {
  }

  /** A row of several cells does not look like a blank one. */
  lemma {:induction false} LineStart(row: seq<Field>, d: Dialect)
    requires RowOk(row, d) && d.Ok() && |row| >= 2
    ensures Line(row, d) != "" && Line(row, d)[0] != '\n'
    decreases |row|
  {
    var n := |row| - 1;
    assert row == row[..n] + [row[n]];
    LineGrows(row[..n], row[n], d);
    if n > 1 {
      LineStart(row[..n], d);
    } else {
      assert row[..1] == [] + [row[0]];
      LineGrows([], row[0], d);
      assert FieldOk(row[0], d);
    }
  }

  /** A file in the form of RFC 4180, and options that fit it. */
  ghost predicate WellFormed(rows: seq<seq<Field>>, width: nat, d: Dialect, opts: Options)
  {
    rows != [] && width >= 2 && d.Ok() && RowsOk(rows, width, d) &&
    opts.delim == d.delim && opts.quote == d.quote && opts.escapeDouble && !opts.trimWs && opts.comment == "" &&
    (opts.skipEmptyRows ==> d.quote !in {' ', '\t'})
  }

  /** No row is skipped as an empty one. */
  ghost predicate Shown(rows: seq<seq<Field>>, d: Dialect, opts: Options)
  {
    opts.skipEmptyRows ==> forall i :: 0 <= i < |rows| ==> !BlankRow(rows[i], d)
  }

  /** All rows of the file are read. */
  ghost predicate Readable(rows: seq<seq<Field>>, width: nat, d: Dialect, opts: Options)
  {
    WellFormed(rows, width, d, opts) && Shown(rows, d, opts)
  }

  /** A file that begins with something else, which the reader does not look at. */
  function File(front: string, rows: seq<seq<Field>>, d: Dialect): string
  {
    front + Text(rows, d)
  }

  function FirstEnd(front: string, rows: seq<seq<Field>>, d: Dialect): nat
    requires rows != []
  {
    |front| + |Line(rows[0], d)|
  }

  /** Where the first line lies in the file. */
  lemma FirstLine(front: string, rows: seq<seq<Field>>, d: Dialect)
    requires rows != []
    ensures var src, firstNl := File(front, rows, d), FirstEnd(front, rows, d);
            |front| <= firstNl < |src| && src[firstNl] == '\n' && src[|src| - 1] == '\n' &&
            src[|front|..firstNl] == Line(rows[0], d) && src[|front|..firstNl + 1] == Line(rows[0], d) + "\n" &&
            src[firstNl + 1..|src|] == Text(rows[1..], d) && Stands(src, |front|, rows[0], d)
  {
    assert Text(rows, d)[|Text(rows, d)| - 1] == '\n';
    hide Text, Line;
    TextHead(rows, d);
    LineBehind(front, Line(rows[0], d), Text(rows[1..], d));
  }

  lemma LineBehind(front: string, line: string, rest: string)
    ensures var src, end := front + (line + "\n" + rest), |front| + |line|;
            end < |src| && src[end] == '\n' && src[|front|..end] == line && src[|front|..end + 1] == line + "\n" &&
            src[end + 1..|src|] == rest
  {
    var text := line + "\n" + rest;
    SliceBehind(front, text, 0, |line|);
    SliceBehind(front, text, 0, |line| + 1);
    SliceBehind(front, text, |line| + 1, |text|);
    assert (front + text)[|front| + |line|] == text[|line|];
  }

  /** The header scan stops at the end of the first row. */
  lemma ScanOfText(front: string, rows: seq<seq<Field>>, width: nat, d: Dialect, opts: Options)
    requires WellFormed(rows, width, d, opts)
    ensures var src, firstNl := File(front, rows, d), FirstEnd(front, rows, d);
            |front| < firstNl < |src| && FirstNewline(src, |front|, opts.quote) == firstNl && Regular(src, opts, firstNl)
  {
    LineStart(rows[0], d);
    hide Text, Line;
    FirstLine(front, rows, d);
    ScanFindsLineEnd(opts.Region('\n', 0, true).(skipEmptyRows := false), d, File(front, rows, d), |front|, rows[0]);
  }

  /** The header line yields the record of the first row. */
  lemma HeaderOfText(front: string, rows: seq<seq<Field>>, width: nat, d: Dialect, opts: Options)
    requires WellFormed(rows, width, d, opts) && Shown(rows[..1], d, opts)
    ensures var src, firstNl := File(front, rows, d), FirstEnd(front, rows, d);
            firstNl < |src| && Header(src, opts, |front|, firstNl).Offsets() == RowOffsets(rows[0], |front|, d)
  {
    hide Run, Text, Line, RowOffsets, File, Stands, Skips, BlankRow;
    var src, firstNl := File(front, rows, d), FirstEnd(front, rows, d);
    FirstLine(front, rows, d);
    assert opts.skipEmptyRows ==> !BlankRow(rows[..1][0], d);
    var cfg := opts.Region('\n', 0, true);
    RowIsSkipped(src, cfg, |front|, rows[0], d, EMPTY);
    RecordOfRow(src, cfg, |front|, |front|, rows[0], d, EMPTY);
    FlattenPush([], RowOffsets(rows[0], |front|, d));
  }

  /** The rest of the file yields the records of the other rows that are not skipped. */
  lemma BodyRecords(front: string, rows: seq<seq<Field>>, width: nat, d: Dialect, opts: Options)
    requires WellFormed(rows, width, d, opts) && Shown(rows[..1], d, opts)
    ensures var src, firstNl := File(front, rows, d), FirstEnd(front, rows, d);
            firstNl < |src| && Columns(src, opts, |front|, firstNl) == width &&
            Body(src, opts, |front|, firstNl) == Acc(Kept(rows[1..], firstNl + 1, d, opts.skipEmptyRows), [], [], RecordStart)
  {
    var src, firstNl := File(front, rows, d), FirstEnd(front, rows, d);
    BodyRun(front, rows, width, d, opts);
    HeaderOfText(front, rows, width, d, opts);
    assert Columns(src, opts, |front|, firstNl) == width;
  }

  lemma BodyRun(front: string, rows: seq<seq<Field>>, width: nat, d: Dialect, opts: Options)
    requires WellFormed(rows, width, d, opts)
    ensures var src, firstNl := File(front, rows, d), FirstEnd(front, rows, d);
            firstNl < |src| &&
            Run(src, opts.Region('\n', width, true), firstNl + 1, firstNl + 1, |src|, 0, EMPTY)
            == Done(Acc(Kept(rows[1..], firstNl + 1, d, opts.skipEmptyRows), [], [], RecordStart))
  {
    hide Run, Text, Line, Kept, File;
    var src, firstNl := File(front, rows, d), FirstEnd(front, rows, d);
    FirstLine(front, rows, d);
    assert src[firstNl + 1..] == src[firstNl + 1..|src|];
    RunKeeps(src, opts.Region('\n', width, true), firstNl + 1, firstNl + 1, rows[1..], d, EMPTY);
    assert [] + Kept(rows[1..], firstNl + 1, d, opts.skipEmptyRows) == Kept(rows[1..], firstNl + 1, d, opts.skipEmptyRows);
  }

  /** Where no row is skipped, the records are those of all rows. */
  lemma {:induction false} AllKept(rows: seq<seq<Field>>, p: nat, d: Dialect, opts: Options)
    requires Shown(rows, d, opts)
    ensures Kept(rows, p, d, opts.skipEmptyRows) == TextRecords(rows, p, d)
  {
    if rows != [] {
      RecordsHead(rows, p, d);
      assert opts.skipEmptyRows ==> !BlankRow(rows[0], d);
      hide BlankRow, Line, RowOffsets, TextRecords;
      assert Shown(rows[1..], d, opts) by {
        assert forall i :: 0 <= i < |rows[1..]| ==> rows[1..][i] == rows[i + 1];
      }
      AllKept(rows[1..], p + |Line(rows[0], d)| + 1, d, opts);
    }
  }

  /** The rest of the file yields the records of the other rows. */
  lemma BodyOfText(front: string, rows: seq<seq<Field>>, width: nat, d: Dialect, opts: Options)
    requires Readable(rows, width, d, opts)
    ensures var src, firstNl := File(front, rows, d), FirstEnd(front, rows, d);
            firstNl < |src| && Columns(src, opts, |front|, firstNl) == width &&
            Body(src, opts, |front|, firstNl) == Acc(TextRecords(rows[1..], firstNl + 1, d), [], [], RecordStart)
  {
    hide BlankRow, Columns, Body, File, TextRecords, Kept;
    assert forall i :: 0 <= i < |rows[1..]| ==> rows[1..][i] == rows[i + 1];
    assert forall i :: 0 <= i < |rows[..1]| ==> rows[..1][i] == rows[i];
    BodyRecords(front, rows, width, d, opts);
    AllKept(rows[1..], FirstEnd(front, rows, d) + 1, d, opts);
  }

  /**
   As many data rows are reported as the file holds below its header, less those that are skipped:
   all of them, if and only if no line below the header consists of blanks.
   */
  lemma RowsReported(front: string, rows: seq<seq<Field>>, width: nat, d: Dialect, opts: Options)
    requires WellFormed(rows, width, d, opts) && Shown(rows[..1], d, opts)
    ensures var src, firstNl := File(front, rows, d), FirstEnd(front, rows, d);
            firstNl < |src| &&
            var n := |Header(src, opts, |front|, firstNl).Offsets()| + |Body(src, opts, |front|, firstNl).Offsets()|;
            DataRows(n, width, true) == |rows| - 1 - (if opts.skipEmptyRows then BlankRows(rows[1..], d) else 0) &&
            (DataRows(n, width, true) == |rows| - 1 <==> Shown(rows[1..], d, opts))
  {
    hide BlankRow, Columns, Body, Header, File, Kept, Line, BlankRows, RowOffsets;
    var records := Kept(rows[1..], FirstEnd(front, rows, d) + 1, d, opts.skipEmptyRows);
    HeaderOfText(front, rows, width, d, opts);
    BodyRecords(front, rows, width, d, opts);
    KeptWidths(rows[1..], width, FirstEnd(front, rows, d) + 1, d, opts.skipEmptyRows);
    FullRecords(records, width + 1);
    MulSum(|records|, 1, width + 1);
    DivRest(|records| + 1, 0, width + 1);
    NoneBlank(rows[1..], d);
  }

  lemma {:induction false} KeptWidths(rows: seq<seq<Field>>, width: nat, p: nat, d: Dialect, skip: bool)
    requires RowsOk(rows, width, d) && width > 0
    ensures forall i :: 0 <= i < |Kept(rows, p, d, skip)| ==> |Kept(rows, p, d, skip)[i]| == width + 1
    ensures |Kept(rows, p, d, skip)| == |rows| - if skip then BlankRows(rows, d) else 0
  {
    hide BlankRow, Line, RowOk;
    if rows != [] {
      KeptWidths(rows[1..], width, p + |Line(rows[0], d)| + 1, d, skip);
    }
  }

  lemma RecordNotBlank(front: string, rows: seq<seq<Field>>, width: nat, d: Dialect, opts: Options, i: nat)
    requires Readable(rows, width, d, opts) && i < |rows|
    ensures !BlankRecord(File(front, rows, d), TextRecords(rows, |front|, d), i)
  {
    hide Text, Line, TextRecords, RowOffsets, BlankRow, RowOk;
    LineStart(rows[i], d);
    RowInText(rows, |front|, d, i);
    var q, line := |Text(rows[..i], d)|, Line(rows[i], d);
    SliceBehind(front, Text(rows, d), q, q + |line|);
    assert File(front, rows, d)[|front| + q..|front| + q + |line|][0] == line[0];
  }

  lemma NoBlankRow(front: string, rows: seq<seq<Field>>, width: nat, d: Dialect, opts: Options)
    requires Readable(rows, width, d, opts)
    ensures FirstEnd(front, rows, d) < |File(front, rows, d)|
    ensures !HasBlankRow(File(front, rows, d), opts, |front|, FirstEnd(front, rows, d))
  {
    hide Text, File, Line, TextRecords, RowOffsets, Body, Columns;
    BodyOfText(front, rows, width, d, opts);
    RecordsHead(rows, |front|, d);
    var records := TextRecords(rows[1..], FirstEnd(front, rows, d) + 1, d);
    forall i | 0 <= i < |records|
      ensures !BlankRecord(File(front, rows, d), records, i)
    {
      RecordNotBlank(front, rows, width, d, opts, i + 1);
      assert records[i] == TextRecords(rows, |front|, d)[i + 1];
    }
  }

  /** The flat index of the whole file. */
  lemma FlatIndex(front: string, rows: seq<seq<Field>>, width: nat, d: Dialect, opts: Options)
    requires Readable(rows, width, d, opts)
    ensures var src, firstNl := File(front, rows, d), FirstEnd(front, rows, d);
            firstNl < |src| &&
            Header(src, opts, |front|, firstNl).Offsets() + Body(src, opts, |front|, firstNl).Offsets()
            == Flatten(TextRecords(rows, |front|, d))
  {
    HeaderOfText(front, rows, width, d, opts);
    BodyOfText(front, rows, width, d, opts);
    var src, firstNl := File(front, rows, d), FirstEnd(front, rows, d);
    AllOffsets(front, rows, d, Header(src, opts, |front|, firstNl).Offsets(), Body(src, opts, |front|, firstNl));
  }

  lemma AllOffsets(front: string, rows: seq<seq<Field>>, d: Dialect, header: seq<nat>, body: Acc)
    requires rows != [] && header == RowOffsets(rows[0], |front|, d)
    requires body.records == TextRecords(rows[1..], FirstEnd(front, rows, d) + 1, d) && body.open == []
    ensures header + body.Offsets() == Flatten(TextRecords(rows, |front|, d))
  {
    RecordsHead(rows, |front|, d);
    FlattenHead(header, body.records);
  }

  lemma RecordWidths(rows: seq<seq<Field>>, width: nat, p: nat, d: Dialect)
    requires RowsOk(rows, width, d) && width > 0
    ensures forall i :: 0 <= i < |rows| ==> |TextRecords(rows, p, d)[i]| == width + 1
  {
    forall i | 0 <= i < |rows|
      ensures |TextRecords(rows, p, d)[i]| == width + 1
    {
      RowInText(rows, p, d, i);
    }
  }

  /** The offsets of cell (row, col) in the flat index. */
  lemma CellInFlatIndex(rows: seq<seq<Field>>, width: nat, p: nat, d: Dialect, row: nat, col: nat)
    requires RowsOk(rows, width, d) && row < |rows| && col < width
    ensures var records := TextRecords(rows, p, d);
            |records[row]| == width + 1 &&
            BoundsAt(Flatten(records), FlatPosition(row * width + col, width), col == 0)
            == Some(CellBounds(records[row], col))
  {
    RecordWidths(rows, width, p, d);
    CellInTable(TextRecords(rows, p, d), width, row, col);
  }

  lemma FlatIndexInOrder(front: string, rows: seq<seq<Field>>, width: nat, d: Dialect, opts: Options)
    requires Readable(rows, width, d, opts)
    ensures InOrder(Flatten(TextRecords(rows, |front|, d)), 0, |File(front, rows, d)|)
  {
    FlatIndex(front, rows, width, d, opts);
    HeaderThenBody(File(front, rows, d), opts, |front|, FirstEnd(front, rows, d));
  }

  /** The cell's bounds hold the encoded field, so its value is the field's text. */
  lemma FieldReadsBack(front: string, rows: seq<seq<Field>>, width: nat, d: Dialect, opts: Options, row: nat, col: nat)
    requires Readable(rows, width, d, opts) && row < |rows| && col < width
    ensures |TextRecords(rows, |front|, d)[row]| == width + 1
    ensures var b := CellBounds(TextRecords(rows, |front|, d)[row], col);
            b.0 <= b.1 < |File(front, rows, d)| &&
            Value(File(front, rows, d), opts, b.0, b.1, col == width - 1) == rows[row][col].text
  {
    hide Text, Line, TextRecords, RowOffsets, Value, Escaped, Encode;
    RowInText(rows, |front|, d, row);
    var src, q := File(front, rows, d), |Text(rows[..row], d)|;
    SliceBehind(front, Text(rows, d), q, q + |Line(rows[row], d)|);
    CellIsEncoding(src, rows[row], |front| + q, d, col);
    var b := CellBounds(TextRecords(rows, |front|, d)[row], col);
    ValueOfEncoding(src, opts, d, rows[row][col], b.0, b.1, col == width - 1);
  }

  /** Any text in the form of RFC 4180, wherever in the file it begins, reads back cell by cell. */
  lemma TextReadsBack(front: string, rows: seq<seq<Field>>, width: nat, d: Dialect, opts: Options, row: nat, col: nat)
    requires Readable(rows, width, d, opts) && row < |rows| && col < width
    ensures var flat := Flatten(TextRecords(rows, |front|, d));
            InOrder(flat, 0, |File(front, rows, d)|) &&
            CellOf(File(front, rows, d), opts, flat, width, row, col) == Some(rows[row][col].text)
  {
    hide File, TextRecords, Flatten, Value, CellBounds, InOrder, FlatPosition, BoundsAt, RowsOk;
    FlatIndexInOrder(front, rows, width, d, opts);
    CellInFlatIndex(rows, width, |front|, d, row, col);
    FieldReadsBack(front, rows, width, d, opts, row, col);
  }

  /** As many data rows are reported as the file holds below its header. */
  lemma RowCount(rows: seq<seq<Field>>, width: nat, p: nat, d: Dialect, opts: Options)
    requires Readable(rows, width, d, opts)
    ensures DataRows(|Flatten(TextRecords(rows, p, d))|, width, true) == |rows| - 1
  {
    RecordWidths(rows, width, p, d);
    RowsAreRecords(TextRecords(rows, p, d), width, 0, true);
  }
}
