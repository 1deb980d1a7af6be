/**
 Text in the form of RFC 4180 where empty rows are skipped: a row whose line consists of blanks
 yields nothing, and every other row its record.
 */
module SkippedRows {
  import opened Seqs
  import opened Csv
  import opened Bytewise
  import opened Chunks
  import opened LoneCr
  import opened Rfc4180

  /** A row whose line consists of spaces and tabs: all cells are blank and bare, and so is the delimiter. */
  predicate BlankRow(row: seq<Field>, d: Dialect)
  {
    forall i :: 0 <= i < |Line(row, d)| ==> Line(row, d)[i] in {' ', '\t'}
  }

  ghost predicate QuoteBefore(line: string, i: nat, quote: char)
  {
    exists k :: 0 <= k < i && k < |line| && line[k] == quote
  }

  lemma QuoteBeforeIn(a: string, b: string, i: nat, quote: char)
    requires QuoteBefore(a, i, quote)
    ensures QuoteBefore(a + b, i, quote)
  {
    var k :| 0 <= k < i && k < |a| && a[k] == quote;
    assert (a + b)[k] == quote;
  }

  lemma QuoteBeforeBehind(a: string, b: string, i: nat, quote: char)
    requires QuoteBefore(b, i, quote)
    ensures QuoteBefore(a + b, |a| + i, quote)
  {
    var k :| 0 <= k < i && k < |b| && b[k] == quote;
    assert (a + b)[|a| + k] == quote;
  }

  lemma QuoteInField(f: Field, d: Dialect, i: nat)
    requires FieldOk(f, d) && d.Ok() && i < |Encode(f, d)| && Encode(f, d)[i] in {'\n', '\r'}
    ensures QuoteBefore(Encode(f, d), i, d.quote)
  {
    if f.Quoted? {
      assert Encode(f, d)[0] == d.quote;
    }
  }

  /** A line end within a row stands behind a quote. */
  lemma {:induction false} QuoteBeforeLineEnd(row: seq<Field>, d: Dialect, i: nat)
    requires RowOk(row, d) && d.Ok() && i < |Line(row, d)| && Line(row, d)[i] in {'\n', '\r'}
    ensures QuoteBefore(Line(row, d), i, d.quote)
    decreases |row|
  {
    hide QuoteBefore, Line, Encode, FieldOk;
    var n := |row| - 1;
    var init, f := row[..n], row[n];
    assert row == init + [f];
    LineGrows(init, f, d);
    var a, b := Line(init, d), [d.delim];
    if n == 0 {
      QuoteInField(f, d, i);
    } else if i < |a| {
      assert a[i] == (a + b + Encode(f, d))[i];
      QuoteBeforeLineEnd(init, d, i);
      QuoteBeforeIn(a, b, i, d.quote);
      QuoteBeforeIn(a + b, Encode(f, d), i, d.quote);
    } else {
      assert i >= |a + b|;
      QuoteInField(f, d, i - |a + b|);
      QuoteBeforeBehind(a + b, Encode(f, d), i - |a + b|, d.quote);
    }
  }

  /** A row looks like an empty line if and only if its line consists of spaces and tabs. */
  lemma EmptyLineIff(src: string, p: nat, hi: nat, row: seq<Field>, d: Dialect)
    requires RowOk(row, d) && d.Ok() && d.quote !in {' ', '\t'} && p + |Line(row, d)| < hi <= |src|
    requires src[p..p + |Line(row, d)|] == Line(row, d) && src[p + |Line(row, d)|] == '\n'
    ensures IsEmptyLine(src, p, hi, true) <==> BlankRow(row, d)
    ensures BlankRow(row, d) ==> SkipRestOfLine(src, p) == p + |Line(row, d)|
  {
    var line := Line(row, d);
    hide Line;
    assert forall i :: 0 <= i < |line| ==> src[p + i] == line[i];
    if BlankRow(row, d) {
      BlankIsEmptyLine(src, p, p + |line|, hi);
    } else if IsEmptyLine(src, p, hi, true) {
      var b := SkipBlanks(src, p, hi);
      FirstBlanks(line, row, d, b - p);
    }
  }

  /** The first byte that is no blank is no line end, unless the row is blank. */
  lemma FirstBlanks(line: string, row: seq<Field>, d: Dialect, n: nat)
    requires RowOk(row, d) && d.Ok() && d.quote !in {' ', '\t'} && line == Line(row, d)
    requires forall i :: 0 <= i < n && i < |line| ==> line[i] in {' ', '\t', '\r'}
    requires n < |line| ==> line[n] == '\n'
    ensures BlankRow(row, d)
  {
    forall i | 0 <= i < |line|
      ensures i < n && line[i] in {' ', '\t'}
    {
      var k := if i < n then i else n;
      if line[k] in {'\n', '\r'} {
        QuoteBeforeLineEnd(row, d, k);
        assert false;
      }
    }
  }

  /** Reaching the next record costs a record. */
  lemma {:induction false} RecordsGrow(src: string, cfg: Config, start: nat, pos: nat, hi: nat, acc: Acc)
    requires Plain(cfg) && acc.Ok() && hi <= |src|
    ensures var r := Run(src, cfg, start, pos, hi, 0, acc);
            r.Done? ==> |r.acc.records| >= |acc.records| &&
                        (r.acc.state == RecordStart && (acc.state != RecordStart || pos < hi) ==> |r.acc.records| > |acc.records|)
    decreases hi - pos
  {
    if pos < hi {
      StepEffect(cfg, acc, pos, src[pos], pos > start);
      match Step(cfg, acc, pos, src[pos], pos > start)
      case Done(a) =>
        hide Step, Closed;
        RecordsGrow(src, cfg, start, pos + 1, hi, a);
      case NewlineError =>
    }
  }

  /** One record without an empty line in front is read alike whether empty rows are skipped or not. */
  lemma {:induction false} OneRecord(src: string, cfg: Config, start: nat, pos: nat, mid: nat, acc: Acc, after: Acc)
    requires NoComment(cfg) && acc.Ok() && pos < mid <= |src| && !Skips(src, cfg, acc, pos, mid)
    requires Run(src, cfg.(skipEmptyRows := false), start, pos, mid, 0, acc) == Done(after)
    requires after.state == RecordStart && |after.records| == |acc.records| + 1
    ensures Run(src, cfg, start, pos, mid, 0, acc) == Done(after)
    decreases mid - pos
  {
    hide IsEmptyLine;
    var plain := cfg.(skipEmptyRows := false);
    MoveIs(src, cfg, start, pos, mid, acc);
    assert !IsEmptyLine(src, pos, mid, false) by {
      NeverEmpty(src, pos, mid);
    }
    MoveIs(src, plain, start, pos, mid, acc);
    StepEffect(plain, acc, pos, src[pos], pos > start);
    assert Step(plain, acc, pos, src[pos], pos > start) == Step(cfg, acc, pos, src[pos], pos > start);
    var next := Step(plain, acc, pos, src[pos], pos > start).acc;
    hide Step, Next, Closed;
    RecordsGrow(src, plain, start, pos + 1, mid, next);
    if pos + 1 < mid {
      OneRecord(src, cfg, start, pos + 1, mid, next, after);
    }
  }

  lemma NeverEmpty(src: string, pos: nat, hi: nat)
    requires pos <= hi <= |src|
    ensures !IsEmptyLine(src, pos, hi, false)
  {
  }

  /** The record of a row, or none where it is skipped. */
  function KeptRow(row: seq<Field>, p: nat, d: Dialect, skip: bool): seq<seq<nat>>
  {
    if skip && BlankRow(row, d) then [] else [RowOffsets(row, p, d)]
  }

  /** The records of the rows that begin at p, without those that are skipped. */
  function Kept(rows: seq<seq<Field>>, p: nat, d: Dialect, skip: bool): seq<seq<nat>>
  {
    if rows == [] then []
    else
      KeptRow(rows[0], p, d, skip) + Kept(rows[1..], p + |Line(rows[0], d)| + 1, d, skip)
  }

  function BlankRows(rows: seq<seq<Field>>, d: Dialect): nat
  {
    if rows == [] then 0 else (if BlankRow(rows[0], d) then 1 else 0) + BlankRows(rows[1..], d)
  }

  lemma {:induction false} KeptCount(rows: seq<seq<Field>>, p: nat, d: Dialect)
    ensures |Kept(rows, p, d, true)| + BlankRows(rows, d) == |rows|
  {
    if rows != [] {
      KeptCount(rows[1..], p + |Line(rows[0], d)| + 1, d);
    }
  }

  lemma {:induction false} NoneBlank(rows: seq<seq<Field>>, d: Dialect)
    ensures BlankRows(rows, d) == 0 <==> forall i :: 0 <= i < |rows| ==> !BlankRow(rows[i], d)
  {
    hide BlankRow;
    if rows != [] {
      NoneBlank(rows[1..], d);
      assert forall i :: 0 < i < |rows| ==> rows[i] == rows[1..][i - 1];
      assert forall i :: 0 <= i < |rows[1..]| ==> rows[1..][i] == rows[i + 1];
    }
  }

  /** A row in its place: its line, closed by a newline. */
  predicate Stands(src: string, p: nat, row: seq<Field>, d: Dialect)
  {
    p + |Line(row, d)| < |src| && src[p..p + |Line(row, d)| + 1] == Line(row, d) + "\n"
  }

  lemma LineStands(src: string, p: nat, row: seq<Field>, d: Dialect)
    requires Stands(src, p, row, d)
    ensures var end := p + |Line(row, d)|;
            end < |src| && src[p..end] == Line(row, d) && src[end] == '\n'
  {
    var end := p + |Line(row, d)|;
    assert src[p..end] == src[p..end + 1][..|Line(row, d)|] == Line(row, d);
    assert src[end] == src[p..end + 1][|Line(row, d)|];
  }

  /** A row that is not skipped yields its record. */
  lemma RecordOfRow(src: string, cfg: Config, start: nat, p: nat, row: seq<Field>, d: Dialect, acc: Acc)
    requires Matches(cfg.(skipEmptyRows := false), d) && RowOk(row, d) && (cfg.numCols == 0 || cfg.numCols == |row|)
    requires acc.Ok() && acc.state == RecordStart && start <= p && Stands(src, p, row, d)
    requires !Skips(src, cfg, acc, p, p + |Line(row, d)| + 1)
    ensures Run(src, cfg, start, p, p + |Line(row, d)| + 1, 0, acc)
         == Done(acc.(records := acc.records + [RowOffsets(row, p, d)]))
  {
    hide Line, Run, Fold, Skips, RowOffsets;
    var plain, mid := cfg.(skipEmptyRows := false), p + |Line(row, d)| + 1;
    var after := acc.(records := acc.records + [RowOffsets(row, p, d)]);
    RunIsFold(src, plain, start, p, mid, 0, acc);
    FoldRow(plain, d, acc, row, p, p > start);
    if cfg.skipEmptyRows {
      OneRecord(src, cfg, start, p, mid, acc, after);
    } else {
      assert cfg == plain;
    }
  }

  /** One row: its record, or nothing. */
  lemma OneRow(src: string, cfg: Config, start: nat, p: nat, row: seq<Field>, d: Dialect, acc: Acc)
    requires Matches(cfg.(skipEmptyRows := false), d) && RowOk(row, d) && (cfg.numCols == 0 || cfg.numCols == |row|)
    requires cfg.skipEmptyRows ==> d.quote !in {' ', '\t'}
    requires acc.Ok() && acc.state == RecordStart && start <= p && Stands(src, p, row, d)
    ensures var after := acc.(records := acc.records + KeptRow(row, p, d, cfg.skipEmptyRows));
            Run(src, cfg, start, p, |src|, 0, acc) == Run(src, cfg, start, p + |Line(row, d)| + 1, |src|, 0, after)
  {
    assert d.Ok();
    hide Line, Run, BlankRow, RowOffsets, Stands, Skips, RowOk;
    RowIsSkipped(src, cfg, p, row, d, acc);
    AfterRow(acc, row, p, d, cfg.skipEmptyRows);
    hide KeptRow, Matches, SkipRestOfLine, IsEmptyLine;
    if cfg.skipEmptyRows && BlankRow(row, d) {
      SkipsRow(src, cfg, start, p, |src|, p + |Line(row, d)|, acc);
    } else {
      ReadsRow(src, cfg, start, p, row, d, acc);
    }
  }

  lemma AfterRow(acc: Acc, row: seq<Field>, p: nat, d: Dialect, skip: bool)
    ensures acc.(records := acc.records + KeptRow(row, p, d, skip))
         == if skip && BlankRow(row, d) then acc else acc.(records := acc.records + [RowOffsets(row, p, d)])
  {
    assert acc.records + [] == acc.records;
  }

  lemma ReadsRow(src: string, cfg: Config, start: nat, p: nat, row: seq<Field>, d: Dialect, acc: Acc)
    requires Matches(cfg.(skipEmptyRows := false), d) && RowOk(row, d) && (cfg.numCols == 0 || cfg.numCols == |row|)
    requires acc.Ok() && acc.state == RecordStart && start <= p && Stands(src, p, row, d)
    requires !Skips(src, cfg, acc, p, p + |Line(row, d)| + 1)
    ensures Run(src, cfg, start, p, |src|, 0, acc)
         == Run(src, cfg, start, p + |Line(row, d)| + 1, |src|, 0, acc.(records := acc.records + [RowOffsets(row, p, d)]))
  {
    assert LineConfig(cfg);
    LineStands(src, p, row, d);
    hide Line, Run, RowOffsets, Stands, Skips, RowOk, Matches, LineConfig;
    RecordOfRow(src, cfg, start, p, row, d, acc);
    RunSplits(src, cfg, start, p, p + |Line(row, d)| + 1, |src|, acc);
  }

  /** Blank rows are skipped, and no others, in the file and in the row's own region. */
  lemma RowIsSkipped(src: string, cfg: Config, p: nat, row: seq<Field>, d: Dialect, acc: Acc)
    requires RowOk(row, d) && d.Ok() && (cfg.skipEmptyRows ==> d.quote !in {' ', '\t'})
    requires acc.state == RecordStart && Stands(src, p, row, d)
    ensures var end := p + |Line(row, d)|;
            (Skips(src, cfg, acc, p, end + 1) <==> cfg.skipEmptyRows && BlankRow(row, d)) &&
            (cfg.skipEmptyRows && BlankRow(row, d) ==> IsEmptyLine(src, p, |src|, true) && SkipRestOfLine(src, p) == end)
  {
    var end := p + |Line(row, d)|;
    LineStands(src, p, row, d);
    NeverEmpty(src, p, end + 1);
    hide Line, BlankRow, Stands, IsEmptyLine, SkipRestOfLine;
    if cfg.skipEmptyRows {
      EmptyLineIff(src, p, |src|, row, d);
      EmptyLineIff(src, p, end + 1, row, d);
    }
  }

  lemma SkipsRow(src: string, cfg: Config, start: nat, p: nat, hi: nat, end: nat, acc: Acc)
    requires NoComment(cfg) && cfg.skipEmptyRows && acc.Ok() && acc.state == RecordStart && p < hi <= |src|
    requires IsEmptyLine(src, p, hi, true) && SkipRestOfLine(src, p) == end
    ensures Run(src, cfg, start, p, hi, 0, acc) == Run(src, cfg, start, end + 1, hi, 0, acc)
  {
    hide IsEmptyLine, SkipRestOfLine;
    MoveIs(src, cfg, start, p, hi, acc);
    hide Next;
  }

  /** The first of several rows, and the records that are still to come. */
  lemma RowOfText(
    src: string, cfg: Config, start: nat, p: nat, rows: seq<seq<Field>>, d: Dialect, acc: Acc) returns (after: Acc)
    requires Matches(cfg.(skipEmptyRows := false), d) && RowsOk(rows, cfg.numCols, d) && rows != []
    requires cfg.skipEmptyRows ==> d.quote !in {' ', '\t'}
    requires acc.Ok() && acc.state == RecordStart && start <= p <= |src| && Stands(src, p, rows[0], d)
    ensures var next := p + |Line(rows[0], d)| + 1;
            after.Ok() && after.state == RecordStart && after.errors == acc.errors &&
            Run(src, cfg, start, p, |src|, 0, acc) == Run(src, cfg, start, next, |src|, 0, after) &&
            after.records + Kept(rows[1..], next, d, cfg.skipEmptyRows)
            == acc.records + Kept(rows, p, d, cfg.skipEmptyRows)
  {
    hide Line, Run, KeptRow, Stands, Matches, RowOk;
    var skip := cfg.skipEmptyRows;
    after := acc.(records := acc.records + KeptRow(rows[0], p, d, skip));
    var rest := Kept(rows[1..], p + |Line(rows[0], d)| + 1, d, skip);
    assert Kept(rows, p, d, skip) == KeptRow(rows[0], p, d, skip) + rest;
    hide Kept;
    Associative(acc.records, KeptRow(rows[0], p, d, skip), rest);
    OneRow(src, cfg, start, p, rows[0], d, acc);
  }

  /** A region that is such a text yields the records of the rows that are not skipped. */
  lemma {:induction false} RunKeeps(
    src: string, cfg: Config, start: nat, p: nat, rows: seq<seq<Field>>, d: Dialect, acc: Acc)
    requires Matches(cfg.(skipEmptyRows := false), d) && RowsOk(rows, cfg.numCols, d)
    requires cfg.skipEmptyRows ==> d.quote !in {' ', '\t'}
    requires acc.Ok() && acc.state == RecordStart && start <= p <= |src| && src[p..] == Text(rows, d)
    ensures Run(src, cfg, start, p, |src|, 0, acc)
         == Done(Acc(acc.records + Kept(rows, p, d, cfg.skipEmptyRows), [], acc.errors, RecordStart))
    decreases |rows|
  {
    hide Line, Text, Run, Stands, Kept, Matches, RowOk;
    if rows == [] {
      NothingToRun(src, cfg, start, p, d, acc);
    } else {
      FrontRow(src, p, rows, d);
      var after := RowOfText(src, cfg, start, p, rows, d, acc);
      RunKeeps(src, cfg, start, p + |Line(rows[0], d)| + 1, rows[1..], d, after);
    }
  }

  lemma NothingToRun(src: string, cfg: Config, start: nat, p: nat, d: Dialect, acc: Acc)
    requires p <= |src| && src[p..] == Text([], d) && acc.Ok() && acc.state == RecordStart
    ensures Run(src, cfg, start, p, |src|, 0, acc) == Done(acc)
    ensures acc == Acc(acc.records + Kept([], p, d, cfg.skipEmptyRows), [], acc.errors, RecordStart)
  {
    assert acc.records + [] == acc.records;
  }

  lemma FrontRow(src: string, p: nat, rows: seq<seq<Field>>, d: Dialect)
    requires rows != [] && p <= |src| && src[p..] == Text(rows, d)
    ensures var end := p + |Line(rows[0], d)|;
            Stands(src, p, rows[0], d) && end < |src| && src[end + 1..] == Text(rows[1..], d)
  {
    hide Line, Text;
    TextHead(rows, d);
    var line, rest := Line(rows[0], d) + "\n", Text(rows[1..], d);
    assert src[p..] == line + rest;
    assert src[p..p + |line|] == src[p..][..|line|] == line;
    assert src[p + |line|..] == src[p..][|line|..] == rest;
  }
}
