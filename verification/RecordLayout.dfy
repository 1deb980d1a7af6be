/**
 What the offsets of a record mean: its cells joined by the delimiter are the line it was
 read from, cells added to a short row are empty, and the last cell of a long row holds
 the surplus.
 */
module RecordLayout {
  import opened Arith
  import opened Seqs
  import opened Csv
  import opened Bytewise
  import opened Chunks
  import opened RegionIndexer

  /** The bounds of cell j of a record: an empty cell, or what follows the delimiter at its offset. */
  function CellBounds(record: seq<nat>, j: nat): (nat, nat)
    requires j + 1 < |record|
  {
    if record[j] == record[j + 1] then (record[j], record[j + 1])
    else (record[j] + (if j == 0 then 0 else 1), record[j + 1])
  }

  /** The offsets from p on are non-decreasing delimiters of src, the first one being the start of the record. */
  ghost predicate Fields(src: string, delim: char, open: seq<nat>)
  {
    open != [] &&
    forall j :: 1 <= j < |open| ==>
      open[j - 1] + (if j > 1 then 1 else 0) <= open[j] < |src| && src[open[j]] == delim
  }

  /** A record whose first k offsets are those of real cells; all the others lie at its end. */
  ghost predicate RecordWith(src: string, delim: char, record: seq<nat>, k: nat)
  {
    1 <= k < |record| && Fields(src, delim, record[..k]) &&
    record[k - 1] + (if k > 1 then 1 else 0) <= record[k] <= |src| &&
    forall j :: k <= j < |record| ==> record[j] == record[k]
  }

  ghost predicate IsRecord(src: string, delim: char, record: seq<nat>)
  {
    exists k :: RecordWith(src, delim, record, k)
  }

  function CellText(src: string, record: seq<nat>, j: nat): string
    requires j + 1 < |record| && CellBounds(record, j).0 <= CellBounds(record, j).1 <= |src|
  {
    src[CellBounds(record, j).0..CellBounds(record, j).1]
  }

  /** The texts of the first n cells. */
  function Cells(src: string, record: seq<nat>, n: nat): (r: seq<string>)
    requires n < |record|
    requires forall j :: 0 <= j < n ==> CellBounds(record, j).0 <= CellBounds(record, j).1 <= |src|
    ensures |r| == n
  {
    seq(n, j requires 0 <= j < n => CellText(src, record, j))
  }

  lemma CellsGrow(src: string, delim: char, record: seq<nat>, n: nat)
    requires 1 < n < |record| && forall j :: 0 <= j < n ==> CellBounds(record, j).0 <= CellBounds(record, j).1 <= |src|
    ensures Join(Cells(src, record, n), [delim])
         == Join(Cells(src, record, n - 1), [delim]) + [delim] + CellText(src, record, n - 1)
  {
    assert Cells(src, record, n)[..n - 1] == Cells(src, record, n - 1);
  }

  lemma DelimiterBefore(src: string, delim: char, record: seq<nat>, k: nat, n: nat)
    requires RecordWith(src, delim, record, k) && 1 < n <= k
    ensures record[n - 1] + 1 <= record[n] && record[n - 1] < |src| && src[record[n - 1]] == delim
  {
    var fields := record[..k];
    assert fields[n - 1] == record[n - 1];
    if n < k {
      assert fields[n] == record[n];
    }
  }

  /** The real cells up to n, joined by the delimiter, are the bytes they were cut from. */
  lemma {:induction false} JoinedCells(src: string, delim: char, record: seq<nat>, k: nat, n: nat)
    requires RecordWith(src, delim, record, k) && 1 <= n <= k
    requires forall j :: 0 <= j < n ==> CellBounds(record, j).0 <= CellBounds(record, j).1 <= |src|
    ensures record[0] <= record[n] <= |src|
    ensures Join(Cells(src, record, n), [delim]) == src[record[0]..record[n]]
  {
    assert k < |record|;
    hide Join, RecordWith, Fields, CellBounds, Cells, CellText;
    if n > 1 {
      JoinedCells(src, delim, record, k, n - 1);
      DelimiterBefore(src, delim, record, k, n);
      CellsGrow(src, delim, record, n);
      CellBehind(src, record, n - 1);
      JoinSlices(src, record[0], record[n - 1], record[n]);
    } else {
      FirstCell(src, delim, record, k);
    }
  }

  lemma JoinSlices(src: string, a: nat, b: nat, c: nat)
    requires a <= b < c <= |src|
    ensures src[a..b] + [src[b]] + src[b + 1..c] == src[a..c]
  {
  }

  lemma FirstCell(src: string, delim: char, record: seq<nat>, k: nat)
    requires RecordWith(src, delim, record, k) && CellBounds(record, 0).0 <= CellBounds(record, 0).1 <= |src|
    ensures record[0] <= record[1] <= |src| && Join(Cells(src, record, 1), [delim]) == src[record[0]..record[1]]
  {
    assert k > 1 ==> record[..k][1] == record[1];
  }

  lemma CellBehind(src: string, record: seq<nat>, j: nat)
    requires 0 < j && j + 1 < |record| && record[j] + 1 <= record[j + 1]
    requires CellBounds(record, j).0 <= CellBounds(record, j).1 <= |src|
    ensures CellText(src, record, j) == src[record[j] + 1..record[j + 1]] && record[j + 1] <= |src|
  {
  }

  /** The record reads back as its line: the real cells joined, the added ones empty. */
  lemma RecordReadsBack(src: string, delim: char, record: seq<nat>, k: nat)
    requires RecordWith(src, delim, record, k)
    ensures record[0] <= record[|record| - 1] <= |src|
    ensures forall j :: 0 <= j < |record| - 1 ==>
              record[j] <= record[j + 1] && CellBounds(record, j).0 <= CellBounds(record, j).1 <= |src|
    ensures Join(Cells(src, record, k), [delim]) == src[record[0]..record[|record| - 1]]
    ensures forall j :: k <= j < |record| - 1 ==> CellText(src, record, j) == ""
  {
    JoinedCells(src, delim, record, k, k);
  }

  /** How many cells of a row with n fields are real once it is closed. */
  function RealCells(n: nat, numCols: nat, repair: bool): nat
  {
    if repair && 0 < numCols < n then numCols else n
  }

  /** Closing a record keeps its real cells, as many of them as there is room for. */
  lemma CloseIsRecord(src: string, delim: char, acc: Acc, p: nat, numCols: nat, repair: bool)
    requires Fields(src, delim, acc.open) && p <= |src|
    requires acc.open[|acc.open| - 1] + (if |acc.open| > 1 then 1 else 0) <= p
    ensures var record := Close(acc, p, numCols, repair).records[|acc.records|];
            RecordWith(src, delim, record, RealCells(|acc.open|, numCols, repair)) &&
            record[0] == acc.open[0] && record[|record| - 1] == p &&
            (repair && numCols > 0 ==> |record| == numCols + 1)
  {
    var n := |acc.open|;
    var k := RealCells(n, numCols, repair);
    ClosedLayout(acc.open, p, numCols, repair);
    var record := Closed(acc.open, p, numCols, repair);
    assert Close(acc, p, numCols, repair).records[|acc.records|] == record;
    hide Repaired, Closed, Close;
    if k < n {
      FieldsIncrease(src, delim, acc.open, k - 1, n - 1);
    }
    FieldsFront(src, delim, acc.open, k);
  }

  /** The offsets that stay, and the end of the record for all the others. */
  lemma ClosedLayout(open: seq<nat>, p: nat, numCols: nat, repair: bool)
    requires open != []
    ensures var record, k := Closed(open, p, numCols, repair), RealCells(|open|, numCols, repair);
            1 <= k <= |open| && k < |record| && record[..k] == open[..k] && (forall j :: k <= j < |record| ==> record[j] == p) &&
            (repair && numCols > 0 ==> |record| == numCols + 1)
  {
  }

  lemma FieldsFront(src: string, delim: char, open: seq<nat>, k: nat)
    requires Fields(src, delim, open) && 1 <= k <= |open|
    ensures Fields(src, delim, open[..k])
  {
  }

  lemma {:induction false} FieldsIncrease(src: string, delim: char, open: seq<nat>, i: nat, j: nat)
    requires Fields(src, delim, open) && i <= j < |open|
    ensures open[i] + (if 0 < i < j then 1 else 0) <= open[j]
    decreases j
  {
    if i < j {
      FieldsIncrease(src, delim, open, i, j - 1);
      assert open[j - 1] + (if j > 1 then 1 else 0) <= open[j];
    }
  }

  /** The record being read, as far as it has got. */
  ghost predicate OpenFits(src: string, delim: char, acc: Acc, pos: nat)
  {
    acc.Ok() && (acc.open != [] ==> Fields(src, delim, acc.open) && acc.open[|acc.open| - 1] < pos)
  }

  ghost predicate AllRecords(src: string, delim: char, records: seq<seq<nat>>)
  {
    forall i :: 0 <= i < |records| ==> IsRecord(src, delim, records[i])
  }

  ghost predicate AllFull(records: seq<seq<nat>>, numCols: nat)
  {
    forall i :: 0 <= i < |records| ==> |records[i]| == numCols + 1
  }

  /** What one move from acc to next must respect: the layout, and at most one record added. */
  ghost predicate Keeps(src: string, cfg: Config, acc: Acc, next: Acc, pos: nat, full: bool)
  {
    OpenFits(src, cfg.delim, next, pos) && acc.records <= next.records &&
    |next.records| <= |acc.records| + 1 &&
    (|next.records| > |acc.records| ==>
      var r := next.records[|acc.records|];
      IsRecord(src, cfg.delim, r) && (full && cfg.numCols > 0 ==> |r| == cfg.numCols + 1))
  }

  lemma CloseKeeps(src: string, cfg: Config, acc: Acc, pos: nat, next: nat, inner: bool)
    requires Fields(src, cfg.delim, acc.open) && pos <= |src|
    requires acc.open[|acc.open| - 1] + (if |acc.open| > 1 then 1 else 0) <= pos
    ensures Keeps(src, cfg, acc, Close(acc, pos, cfg.numCols, inner), next, inner)
  {
    CloseIsRecord(src, cfg.delim, acc, pos, cfg.numCols, inner);
  }

  lemma StepKeeps(src: string, cfg: Config, acc: Acc, pos: nat, inner: bool)
    requires pos < |src| && OpenFits(src, cfg.delim, acc, pos)
    ensures var r := Step(cfg, acc, pos, src[pos], inner);
            r.Done? ==> Keeps(src, cfg, acc, r.acc, pos + 1, inner)
  {
    var a := acc.(open := if acc.state == RecordStart then [pos] else acc.open);
    assert Fields(src, cfg.delim, a.open);
    if acc.state != QuotedField {
      if src[pos] == cfg.delim {
        assert Fields(src, cfg.delim, a.open + [pos]);
      } else if src[pos] == cfg.newline {
        CloseKeeps(src, cfg, a, pos, pos + 1, inner);
      }
    }
  }

  /** One move keeps the layout. */
  lemma NextKeepsLayout(src: string, cfg: Config, start: nat, pos: nat, end: nat, acc: Acc)
    requires pos < end <= |src| && OpenFits(src, cfg.delim, acc, pos)
    ensures var next := Next(src, cfg, start, pos, end, 0, acc);
            next.Go? ==> Keeps(src, cfg, acc, next.acc, next.pos, pos > start)
  {
    if acc.state != QuotedField && IsComment(src, pos, end, cfg.comment) {
      if acc.state != RecordStart {
        CloseKeeps(src, cfg, acc, pos, SkipRestOfLine(src, pos) + 1, pos > start);
      }
    } else if acc.state == RecordStart && IsEmptyLine(src, pos, end, cfg.skipEmptyRows) {
    } else {
      StepKeeps(src, cfg, acc, pos, pos > start);
    }
  }

  /** Every record a region yields reads back as a line of the file. */
  lemma {:induction false} RunYieldsRecords(src: string, cfg: Config, start: nat, pos: nat, end: nat, acc: Acc)
    requires end <= |src| && OpenFits(src, cfg.delim, acc, pos) && AllRecords(src, cfg.delim, acc.records)
    ensures var r := Run(src, cfg, start, pos, end, 0, acc);
            r.Done? ==> AllRecords(src, cfg.delim, r.acc.records)
    decreases end - pos
  {
    if pos < end {
      NextKeepsLayout(src, cfg, start, pos, end, acc);
      match Next(src, cfg, start, pos, end, 0, acc)
      case Go(next, a) =>
        RunYieldsRecords(src, cfg, start, next, end, a);
      case Throw =>
    }
  }

  /** Past the first byte of its region, every record has numCols + 1 offsets. */
  lemma {:induction false} RunYieldsFullRecords(src: string, cfg: Config, start: nat, pos: nat, end: nat, acc: Acc)
    requires end <= |src| && OpenFits(src, cfg.delim, acc, pos) && cfg.numCols > 0 && start < pos
    requires AllFull(acc.records, cfg.numCols)
    ensures var r := Run(src, cfg, start, pos, end, 0, acc);
            r.Done? ==> AllFull(r.acc.records, cfg.numCols)
    decreases end - pos
  {
    if pos < end {
      NextKeepsLayout(src, cfg, start, pos, end, acc);
      match Next(src, cfg, start, pos, end, 0, acc)
      case Go(next, a) =>
        RunYieldsFullRecords(src, cfg, start, next, end, a);
      case Throw =>
    }
  }

  /** Every record of a region has numCols + 1 offsets, if and only if the region does not start with a row to be padded. */
  lemma RecordsAreFull(src: string, cfg: Config, start: nat, end: nat)
    requires LineConfig(cfg) && cfg.numCols > 0 && end <= |src|
    requires Run(src, cfg, start, start, end, 0, EMPTY).Done?
    ensures var records := Run(src, cfg, start, start, end, 0, EMPTY).acc.records;
            AllRecords(src, cfg.delim, records) &&
            (AllFull(records, cfg.numCols) <==> !BareStart(src, cfg, start, end))
  {
    RunYieldsRecords(src, cfg, start, start, end, EMPTY);
    if start < end {
      var next := Next(src, cfg, start, start, end, 0, EMPTY);
      NextKeepsLayout(src, cfg, start, start, end, EMPTY);
      if BareStart(src, cfg, start, end) {
        CommentHead(src, start, end, cfg.comment);
        var bare := [start] + [start];
        assert next.acc == Prepend(EMPTY, [bare], []);
        RunPrepends(src, cfg, start, start + 1, end, EMPTY, [bare], []);
        var records := Run(src, cfg, start, start, end, 0, EMPTY).acc.records;
        assert records[0] == bare && |bare| != cfg.numCols + 1;
      } else {
        FirstRecordFull(src, cfg, start, end);
        RunYieldsFullRecords(src, cfg, start, next.pos, end, next.acc);
      }
    }
  }

  lemma FirstRecordFull(src: string, cfg: Config, start: nat, end: nat)
    requires LineConfig(cfg) && cfg.numCols > 0 && start < end <= |src| && !BareStart(src, cfg, start, end)
    ensures var next := Next(src, cfg, start, start, end, 0, EMPTY);
            next.Go? ==> AllFull(next.acc.records, cfg.numCols)
  {
    if src[start] == '\n' {
      assert cfg.numCols == 1 || IsEmptyLine(src, start, end, cfg.skipEmptyRows);
    }
  }

  /** Full records side by side are a table stored row by row. */
  lemma {:induction false} FlatTable(records: seq<seq<nat>>, width: nat, i: nat, j: nat)
    requires forall k :: 0 <= k < |records| ==> |records[k]| == width
    requires j < width && i < |records|
    ensures |Flatten(records)| == |records| * width
    ensures i * width + j < |records| * width
    ensures Flatten(records)[i * width + j] == records[i][j]
    decreases |records|
  {
    var m := |records| - 1;
    if m > 0 {
      FlatTable(records[..m], width, if i < m then i else 0, j);
    }
    MulSum(m, 1, width);
    if i < m {
      MulMonotone(i + 1, m, width);
      MulSum(i, 1, width);
    }
  }

  /** The records lie one after another from lo to hi, each closed by a newline. */
  ghost predicate Tiles(src: string, newline: char, records: seq<seq<nat>>, lo: nat, hi: nat)
  {
    if records == [] then lo == hi else
    var last := records[|records| - 1];
    last != [] && last[0] <= last[|last| - 1] < |src| &&
    last[|last| - 1] + 1 == hi && src[hi - 1] == newline &&
    Tiles(src, newline, records[..|records| - 1], lo, last[0])
  }

  /** Without comments and with empty rows kept, no byte of the region is lost between records. */
  lemma {:induction false} RunTiles(src: string, cfg: Config, start: nat, pos: nat, end: nat, acc: Acc)
    requires Bytewise.Plain(cfg) && pos <= end <= |src| && OpenFits(src, cfg.delim, acc, pos)
    requires Tiles(src, cfg.newline, acc.records, start, if acc.open == [] then pos else acc.open[0])
    ensures var r := Run(src, cfg, start, pos, end, 0, acc);
            r.Done? ==> Tiles(src, cfg.newline, r.acc.records, start, if r.acc.open == [] then end else r.acc.open[0])
    decreases end - pos
  {
    hide Step, Tiles;
    if pos < end {
      StepKeeps(src, cfg, acc, pos, pos > start);
      StepTiles(src, cfg, start, acc, pos);
      match Step(cfg, acc, pos, src[pos], pos > start)
      case Done(a) => RunTiles(src, cfg, start, pos + 1, end, a);
      case NewlineError =>
    }
  }

  lemma StepTiles(src: string, cfg: Config, start: nat, acc: Acc, pos: nat)
    requires pos < |src| && OpenFits(src, cfg.delim, acc, pos)
    requires Tiles(src, cfg.newline, acc.records, start, if acc.open == [] then pos else acc.open[0])
    ensures var r := Step(cfg, acc, pos, src[pos], pos > start);
            r.Done? ==> Tiles(src, cfg.newline, r.acc.records, start, if r.acc.open == [] then pos + 1 else r.acc.open[0])
  {
    if acc.state != QuotedField && src[pos] != cfg.delim && src[pos] == cfg.newline {
      CloseTiles(src, cfg, start, acc.(open := if acc.state == RecordStart then [pos] else acc.open), pos);
    }
  }

  lemma CloseTiles(src: string, cfg: Config, start: nat, acc: Acc, pos: nat)
    requires pos < |src| && src[pos] == cfg.newline && Fields(src, cfg.delim, acc.open)
    requires acc.open[|acc.open| - 1] + (if |acc.open| > 1 then 1 else 0) <= pos
    requires Tiles(src, cfg.newline, acc.records, start, acc.open[0])
    ensures Tiles(src, cfg.newline, Close(acc, pos, cfg.numCols, pos > start).records, start, pos + 1)
  {
    FieldsIncrease(src, cfg.delim, acc.open, 0, |acc.open| - 1);
    CloseIsRecord(src, cfg.delim, acc, pos, cfg.numCols, pos > start);
    var records := Close(acc, pos, cfg.numCols, pos > start).records;
    assert records[..|acc.records|] == acc.records;
  }

  /** The lines the records were read from. */
  ghost function Lines(src: string, newline: char, records: seq<seq<nat>>, lo: nat, hi: nat): string
    requires Tiles(src, newline, records, lo, hi)
  {
    if records == [] then "" else
    var last := records[|records| - 1];
    Lines(src, newline, records[..|records| - 1], lo, last[0]) + src[last[0]..last[|last| - 1]] + [newline]
  }

  /** Conservation: the lines put back together are the region. */
  lemma {:induction false} LinesAreTheRegion(src: string, newline: char, records: seq<seq<nat>>, lo: nat, hi: nat)
    requires Tiles(src, newline, records, lo, hi) && hi <= |src|
    ensures lo <= hi
    ensures Lines(src, newline, records, lo, hi) == src[lo..hi]
  {
    if records != [] {
      var last := records[|records| - 1];
      LinesAreTheRegion(src, newline, records[..|records| - 1], lo, last[0]);
      assert src[lo..hi] == src[lo..last[0]] + src[last[0]..hi - 1] + [src[hi - 1]];
    }
  }
}
