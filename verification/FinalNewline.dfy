/**
 A connection whose input does not end in a newline: its index is compared with that of the same
 input with a newline put behind it.
 */
module FinalNewline {
  import opened Seqs
  import opened Csv
  import opened RegionIndexer
  import opened Bytewise
  import opened NewlineScan
  import opened Preamble
  import opened FileIndex
  import opened CellAccess
  import opened Buffers
  import opened ConnectionTasks
  import opened Connection

  /**
   The offset that stands for a missing newline is what the newline would have left, if and only
   if the last row is not inside quotes and needs no repair.
   */
  lemma EndStandsForNewline(cfg: Config, acc: Acc, p: nat)
    requires acc.Ok() && acc.state != RecordStart && cfg.singleThread && cfg.delim != cfg.newline
    ensures var closed := Step(cfg, acc, p, cfg.newline, true);
            closed.Done? &&
            (acc.Offsets() + [p] == closed.acc.Offsets()
             <==> acc.state != QuotedField && (cfg.numCols == 0 || |acc.open| == cfg.numCols))
  {
    var record := if cfg.numCols > 0 then Repaired(acc.open, p, cfg.numCols) else acc.open + [p];
    if acc.state == QuotedField {
      assert |acc.Offsets() + [p]| != |acc.Offsets()|;
    } else {
      hide Repaired;
      FlattenPush(acc.records, record);
      Associative(Flatten(acc.records), acc.open, [p]);
      SameFront(Flatten(acc.records), acc.open + [p], record);
      RepairedAsIs(acc.open, p, cfg.numCols);
    }
  }

  lemma RepairedAsIs(open: seq<nat>, p: nat, numCols: nat)
    ensures open + [p] == Repaired(open, p, numCols) <==> |open| == numCols
  {
    assert |Repaired(open, p, numCols)| == numCols + 1;
    assert |open| == numCols ==> Repaired(open, p, numCols) == open + [] + [p];
  }

  /** A parse that has just read something else than a newline is inside a record. */
  lemma {:induction false} OpenAtEnd(cfg: Config, acc: Acc, text: string, p: nat, inner: bool)
    requires acc.Ok() && cfg.singleThread && text != "" && text[|text| - 1] != cfg.newline
    ensures var r := Fold(cfg, acc, text, p, inner); r.Done? && r.acc.state != RecordStart
    decreases |text|
  {
    if |text| > 1 {
      OpenAtEnd(cfg, Step(cfg, acc, p, text[0], inner).acc, text[1..], p + 1, true);
    } else {
      assert text[1..] == "";
    }
  }

  /** The input with a newline put behind it. */
  function WithNewline(chunks: seq<string>): seq<string>
    requires chunks != []
  {
    chunks[..|chunks| - 1] + [chunks[|chunks| - 1] + "\n"]
  }

  /**
   Where the last newline is missing, the body is that of the input with a newline put behind it,
   if and only if the last row is not inside quotes and needs no repair.
   */
  lemma MissingNewline(chunks: seq<string>, cfg: Config, start: nat)
    requires chunks != [] && Plain(cfg) && cfg.singleThread && cfg.newline == '\n' && cfg.delim != '\n'
    requires var m := |chunks| - 1; From(start, m) < |chunks[m]| && chunks[m][|chunks[m]| - 1] != '\n'
    ensures var r := ReadThrough(chunks, cfg, start, |chunks|);
            var whole := ReadThrough(WithNewline(chunks), cfg, start, |chunks|);
            r.Done? && whole.Done? &&
            (r.acc.Offsets() + [|Flatten(chunks)|] == whole.acc.Offsets()
             <==> r.acc.state != QuotedField && (cfg.numCols == 0 || |r.acc.open| == cfg.numCols))
  {
    hide Fold, Run, Flatten, ReadThrough, Acc.Offsets, WithNewline;
    var m := |chunks| - 1;
    var last, lo, before := chunks[m], From(start, m), |Flatten(chunks[..m])|;
    NewlinePutBehind(chunks);
    SameReads(chunks, WithNewline(chunks), cfg, start, m);
    LastBuffer(chunks, cfg, start, m);
    LastBuffer(WithNewline(chunks), cfg, start, m);
    NewlineBehind(cfg, ReadThrough(chunks, cfg, start, m).acc, last, lo, lo + before);
  }

  lemma NewlinePutBehind(chunks: seq<string>)
    requires chunks != []
    ensures var m, more := |chunks| - 1, WithNewline(chunks);
            |more| == m + 1 && more[m] == chunks[m] + "\n" && more[..m] == chunks[..m] &&
            |Flatten(chunks)| == |Flatten(chunks[..m])| + |chunks[m]|
  {
    var m := |chunks| - 1;
    assert chunks == chunks[..m] + [chunks[m]];
    FlattenPush(chunks[..m], chunks[m]);
  }

  lemma {:induction false} SameReads(a: seq<string>, b: seq<string>, cfg: Config, start: nat, k: nat)
    requires k <= |a| && k <= |b| && a[..k] == b[..k]
    ensures ReadThrough(a, cfg, start, k) == ReadThrough(b, cfg, start, k)
  {
    if k > 0 {
      assert a[k - 1] == a[..k][k - 1] == b[..k][k - 1];
      assert a[..k - 1] == a[..k][..k - 1] == b[..k][..k - 1];
      SameReads(a, b, cfg, start, k - 1);
    }
  }

  lemma {:induction false} ReadThroughNeverThrows(chunks: seq<string>, cfg: Config, start: nat, k: nat)
    requires cfg.singleThread && k <= |chunks|
    ensures ReadThrough(chunks, cfg, start, k).Done?
  {
    hide Run;
    if k > 0 {
      ReadThroughNeverThrows(chunks, cfg, start, k - 1);
      SingleThreadNeverThrows(Terminated(chunks[k - 1]), cfg, From(start, k - 1), From(start, k - 1), |chunks[k - 1]|,
                              |Flatten(chunks[..k - 1])|, ReadThrough(chunks, cfg, start, k - 1).acc);
    }
  }

  /** What the last buffer adds. */
  lemma LastBuffer(chunks: seq<string>, cfg: Config, start: nat, m: nat)
    requires Plain(cfg) && cfg.singleThread && m < |chunks| && From(start, m) <= |chunks[m]|
    ensures var before := ReadThrough(chunks, cfg, start, m);
            before.Done? &&
            ReadThrough(chunks, cfg, start, m + 1)
            == Fold(cfg, before.acc, chunks[m][From(start, m)..], From(start, m) + |Flatten(chunks[..m])|, false)
  {
    hide Fold, Run, Flatten;
    ReadThroughNeverThrows(chunks, cfg, start, m);
    RegionOfBuffer(chunks[m], cfg, From(start, m), |Flatten(chunks[..m])|, ReadThrough(chunks, cfg, start, m).acc);
  }

  lemma NewlineBehind(cfg: Config, before: Acc, last: string, lo: nat, p: nat)
    requires before.Ok() && cfg.singleThread && cfg.newline == '\n' && cfg.delim != '\n'
    requires lo < |last| && last[|last| - 1] != '\n'
    ensures var r, whole := Fold(cfg, before, last[lo..], p, false), Fold(cfg, before, (last + "\n")[lo..], p, false);
            r.Done? && whole.Done? &&
            (r.acc.Offsets() + [p + |last| - lo] == whole.acc.Offsets()
             <==> r.acc.state != QuotedField && (cfg.numCols == 0 || |r.acc.open| == cfg.numCols))
  {
    hide Fold, Step, Acc.Offsets;
    assert (last + "\n")[lo..] == last[lo..] + "\n";
    FoldAppend(cfg, before, last[lo..], "\n", p, false);
    OpenAtEnd(cfg, before, last[lo..], p, false);
    var acc := Fold(cfg, before, last[lo..], p, false).acc;
    OneByte(cfg, acc, p + |last[lo..]|, '\n');
    EndStandsForNewline(cfg, acc, p + |last[lo..]|);
  }

  lemma OneByte(cfg: Config, acc: Acc, p: nat, c: char)
    requires acc.Ok()
    ensures Fold(cfg, acc, [c], p, true) == Step(cfg, acc, p, c, true)
    ensures Fold(cfg, acc, [c], p, false) == Step(cfg, acc, p, c, false)
  {
    assert [c][1..] == "";
  }

  /** Does a single line without its newline end inside quotes? */
  predicate EndsQuoted(chunk: string, opts: Options, start: nat)
    requires start <= |chunk|
  {
    var cfg := opts.Region('\n', 0, true);
    OneThreadFolds(cfg, EMPTY, chunk[start..], start, false);
    Fold(cfg, EMPTY, chunk[start..], start, false).acc.state == QuotedField
  }

  /**
   A single line without its newline: the header is that of the line with its newline, if and
   only if it does not end inside quotes.
   */
  lemma SingleLine(chunk: string, opts: Options, start: nat)
    requires start <= |chunk| && opts.comment == "" && !opts.skipEmptyRows && opts.delim !in {'\n', '\0'}
    requires start < |chunk| ==> chunk[|chunk| - 1] != '\n'
    ensures var open, whole := Header(Terminated(chunk), opts, start, |chunk|), Header(chunk + "\n", opts, start, |chunk|);
            open.Offsets() + [|chunk|] == whole.Offsets() <==> !EndsQuoted(chunk, opts, start)
  {
    hide Fold, Run, Step, Header, Acc.Offsets;
    var cfg := opts.Region('\n', 0, true);
    HeaderFolds(chunk, '\0', opts, start);
    HeaderFolds(chunk, '\n', opts, start);
    OneThreadFolds(cfg, EMPTY, chunk[start..], start, false);
    var acc := Fold(cfg, EMPTY, chunk[start..], start, false).acc;
    if start < |chunk| {
      OpenAtEnd(cfg, EMPTY, chunk[start..], start, false);
      EndStandsForNewline(cfg, acc, |chunk|);
      NulAtEnd(cfg, acc, |chunk|);
    } else {
      NothingToFold(cfg, chunk[start..], start);
      OnlyTheEnd(cfg, |chunk|);
    }
  }

  /** The NUL behind a line adds no offset to its record. */
  lemma NulAtEnd(cfg: Config, acc: Acc, p: nat)
    requires acc.Ok() && acc.state != RecordStart && cfg.delim != '\0' && cfg.newline == '\n'
    ensures var r := Step(cfg, acc, p, '\0', true); r.Done? && r.acc.Offsets() == acc.Offsets()
  {
  }

  lemma OnlyTheEnd(cfg: Config, p: nat)
    requires cfg.delim !in {'\n', '\0'} && cfg.newline == '\n' && cfg.numCols == 0
    ensures var nul, newline := Step(cfg, EMPTY, p, '\0', true), Step(cfg, EMPTY, p, '\n', true);
            nul.Done? && newline.Done? && nul.acc.Offsets() + [p] == newline.acc.Offsets()
  {
    FlattenPush([], [p] + [p]);
  }

  lemma NothingToFold(cfg: Config, text: string, p: nat)
    requires text == ""
    ensures Fold(cfg, EMPTY, text, p, false) == Done(EMPTY)
  {
  }

  /** The header of a line with one byte behind it. */
  lemma HeaderFolds(chunk: string, c: char, opts: Options, start: nat)
    requires start <= |chunk| && opts.comment == "" && !opts.skipEmptyRows
    ensures var cfg := opts.Region('\n', 0, true);
            var r := Fold(cfg, EMPTY, chunk[start..], start, false);
            r.Done? && Done(Header(chunk + [c], opts, start, |chunk|)) == Step(cfg, r.acc, |chunk|, c, true)
  {
    hide Fold, Run, Step;
    var cfg := opts.Region('\n', 0, true);
    var src := chunk + [c];
    SingleThreadNeverThrows(src, cfg, start, start, |src|, 0, EMPTY);
    RunIsFold(src, cfg, start, start, |src|, 0, EMPTY);
    assert src[start..|src|] == chunk[start..] + [c];
    OneThreadFolds(cfg, EMPTY, chunk[start..], start, false);
    FoldAppend(cfg, EMPTY, chunk[start..], [c], start, false);
    var acc := Fold(cfg, EMPTY, chunk[start..], start, false).acc;
    OneByte(cfg, acc, |chunk|, c);
    NoRepairAtStart(cfg, acc, |chunk|, c);
  }

  lemma NoRepairAtStart(cfg: Config, acc: Acc, p: nat, c: char)
    requires acc.Ok() && cfg.numCols == 0
    ensures Step(cfg, acc, p, c, false) == Step(cfg, acc, p, c, true)
  {
  }

  /** The text behind pos and a newline, as a buffer holds it, up to where a jump stops. */
  lemma {:induction false} SameSpan(c: string, pos: nat, query: set<char>)
    requires pos <= |c| && '\n' in query
    ensures Strcspn(Terminated(c), pos, query) == Strcspn(Terminated(c + "\n"), pos, query) <= |c| - pos
    decreases |c| - pos
  {
    if pos < |c| {
      SameSpan(c, pos + 1, query);
    }
  }

  /** A line end of the text is found with and without the newline; where there is none, the newline is, if not the NUL behind it. */
  predicate SameEnd(c: string, r: nat, s: nat)
  {
    (r + 1 < |c| || (r < |c| && c[r] == '\n') ==> s == r) && (r == |c| ==> s == r || s == r + 1)
  }

  lemma {:induction false} SameScan(c: string, pos: nat, inQuote: bool, quote: char)
    requires pos <= |c|
    ensures SameEnd(c, ScanPos(Terminated(c), pos, inQuote, quote), ScanPos(Terminated(c + "\n"), pos, inQuote, quote))
    decreases |c| - pos
  {
    var a, b := Terminated(c), Terminated(c + "\n");
    if pos < |c| {
      assert a[pos] == b[pos] == c[pos] && (pos + 1 < |c| ==> a[pos + 1] == b[pos + 1]);
      SameScan(c, pos + 1, inQuote, quote);
      SameScan(c, pos + 1, (c[pos] == quote) != inQuote, quote);
    } else {
      assert b[pos] == '\n' && ScanPos(b, pos + 1, inQuote, quote) == pos + 1;
    }
  }

  lemma SameNewline(c: string, pos: nat)
    requires pos <= |c|
    ensures SameEnd(c, FindNextNewline(Terminated(c), pos).0, FindNextNewline(Terminated(c + "\n"), pos).0)
    ensures FindNextNewline(Terminated(c), pos).0 <= |c| && FindNextNewline(Terminated(c + "\n"), pos).0 <= |c| + 1
  {
    var a, b := Terminated(c), Terminated(c + "\n");
    SameSpan(c, pos, {'\n', '\r'});
    var at := pos + Strcspn(a, pos, {'\n', '\r'});
    assert at < |c| ==> a[at] == b[at] == c[at];
    assert at + 1 < |c| ==> a[at + 1] == b[at + 1];
    assert b[|c|] == '\n';
  }

  /** Skipped lines are the same, so that the header line starts in the same place. */
  lemma {:induction false} SameStart(c: string, pos: nat, lines: nat, quote: char)
    requires pos <= |c| && FirstLineFrom(Terminated(c), pos, lines, "", false, quote) < |c|
    ensures FirstLineFrom(Terminated(c + "\n"), pos, lines, "", false, quote)
         == FirstLineFrom(Terminated(c), pos, lines, "", false, quote)
    decreases |c| - pos
  {
    hide ScanPos, FindNextNewline;
    if IsSkipped(Terminated(c), pos, lines, "", false) {
      SameScan(c, pos, false, quote);
      SameNewline(c, pos);
      SameStart(c, LineEnd(Terminated(c), pos, quote != '\0', quote) + 1, lines - 1, quote);
    }
  }

  lemma SameBom(c: string)
    requires SkipBom(Terminated(c)) <= |c|
    ensures SkipBom(Terminated(c + "\n")) == SkipBom(Terminated(c))
  {
    SameMark(c, [0, 0, 0xFE, 0xFF]);
    SameMark(c, [0xEF, 0xBB, 0xBF]);
    SameMark(c, [0xFE, 0xFF]);
    SameMark(c, [0xFF, 0xFE, 0, 0]);
    SameMark(c, [0xFF, 0xFE]);
  }

  lemma SameMark(c: string, mark: seq<int>)
    requires 0 < |mark| && 10 !in mark && forall i :: 0 <= i < |mark| ==> 0 <= mark[i] < 256
    ensures |mark| <= |c| ==> (StartsWith(Terminated(c + "\n"), mark) <==> StartsWith(Terminated(c), mark))
    ensures |mark| > |c| ==> !StartsWith(Terminated(c + "\n"), mark)
  {
    var a, b := Terminated(c), Terminated(c + "\n");
    assert forall i :: 0 <= i < |c| ==> a[i] == b[i] == c[i];
    assert b[|c|] == '\n' == 10 as char;
    assert |mark| > |c| ==> mark[|c|] in mark;
  }

  /** Where a header line starts in the text, it starts there with the newline as well, and a newline that ends it is found. */
  lemma SameHeaderLine(c: string, opts: Options, skip: nat)
    requires opts.comment == "" && !opts.skipEmptyRows && HeaderStart(c, opts, skip) < |c|
    ensures HeaderStart(c + "\n", opts, skip) == HeaderStart(c, opts, skip)
    ensures SameEnd(c, HeaderEnd(c, opts, skip), HeaderEnd(c + "\n", opts, skip))
  {
    hide ScanPos, FindNextNewline;
    SameBom(c);
    SameStart(c, SkipBom(Terminated(c)), skip, opts.quote);
    SameScan(c, HeaderStart(c, opts, skip), false, opts.quote);
    SameNewline(c, HeaderStart(c, opts, skip));
  }

  /** The header depends on the bytes of its line only. */
  lemma SameHeader(a: string, b: string, opts: Options, start: nat, end: nat)
    requires start <= end < |a| && end < |b| && a[start..end + 1] == b[start..end + 1]
    requires opts.comment == "" && !opts.skipEmptyRows
    ensures Header(a, opts, start, end) == Header(b, opts, start, end)
  {
    hide Run, Fold;
    RunIsFold(a, opts.Region('\n', 0, true), start, start, end + 1, 0, EMPTY);
    RunIsFold(b, opts.Region('\n', 0, true), start, start, end + 1, 0, EMPTY);
  }

  /** A header line that closes its record has at least one column. */
  lemma HeaderHasColumns(chunk: string, opts: Options, start: nat, end: nat)
    requires start <= end < |chunk| && chunk[end] == '\n' && opts.delim != '\n'
    requires opts.comment == "" && !opts.skipEmptyRows && Header(Terminated(chunk), opts, start, end).state == RecordStart
    ensures |Header(Terminated(chunk), opts, start, end).Offsets()| >= 2
  {
    hide Run, Fold, Step, Header, Acc.Offsets;
    var cfg := opts.Region('\n', 0, true);
    SameHeader(Terminated(chunk), chunk[..end] + "\n", opts, start, end);
    HeaderFolds(chunk[..end], '\n', opts, start);
    OneThreadFolds(cfg, EMPTY, chunk[..end][start..], start, false);
    ClosedHasTwo(cfg, Fold(cfg, EMPTY, chunk[..end][start..], start, false).acc, end);
  }

  lemma ClosedHasTwo(cfg: Config, acc: Acc, p: nat)
    requires acc.Ok() && cfg.newline == '\n' && cfg.delim != '\n' && cfg.numCols == 0
    ensures var r := Step(cfg, acc, p, '\n', true); r.Done? && r.acc.state == RecordStart ==> |r.acc.Offsets()| >= 2
  {
    var r := Step(cfg, acc, p, '\n', true);
    if r.Done? && r.acc.state == RecordStart {
      var open := if acc.state == RecordStart then [p] else acc.open;
      FlattenPush(acc.records, open + [p]);
      assert open != [];
    }
  }

  /** The last row, or the single line, ends where the input ends: outside quotes, and with no cell missing or too many. */
  predicate LastRowEnds(chunks: seq<string>, opts: Options, skip: nat)
    requires chunks != [] && HeaderStart(chunks[0], opts, skip) <= |chunks[0]| && HeaderEnd(chunks[0], opts, skip) <= |chunks[0]|
  {
    var c, start, end := chunks[0], HeaderStart(chunks[0], opts, skip), HeaderEnd(chunks[0], opts, skip);
    if end == |c| then HeaderEnd(c + "\n", opts, skip) == end && !EndsQuoted(c, opts, start)
    else
      var columns := ColumnsOf(Header(Terminated(c), opts, start, end).Offsets());
      var r := ReadThrough(chunks, opts.Region('\n', columns, true), end + 1, |chunks|);
      r.Done? && r.acc.state != QuotedField && |r.acc.open| == columns
  }

  lemma LastBytes(chunks: seq<string>)
    requires chunks != [] && chunks[|chunks| - 1] != ""
    ensures LastByte(Flatten(WithNewline(chunks))) == '\n'
    ensures LastByte(Flatten(chunks)) == chunks[|chunks| - 1][|chunks[|chunks| - 1]| - 1]
  {
    hide Flatten;
    var m, more := |chunks| - 1, WithNewline(chunks);
    NewlinePutBehind(chunks);
    assert chunks == chunks[..m] + [chunks[m]] && more == more[..m] + [more[m]];
    FlattenPush(chunks[..m], chunks[m]);
    FlattenPush(more[..m], more[m]);
  }

  /** Body and header of an input that has lines behind its header. */
  lemma SeveralLines(
    chunks: seq<string>, opts: Options, skip: nat, header: seq<nat>, body: seq<nat>, columns: nat, errors: seq<ParseError>,
    header2: seq<nat>, body2: seq<nat>, columns2: nat, errors2: seq<ParseError>)
    requires chunks != [] && chunks[|chunks| - 1] != "" && LastByte(Flatten(chunks)) != '\n'
    requires opts.comment == "" && !opts.skipEmptyRows && opts.delim != '\n' && HeaderFits(chunks, opts, skip)
    requires HeaderStart(chunks[0], opts, skip) <= HeaderEnd(chunks[0], opts, skip) < |chunks[0]|
    requires IsConnectionIndex(chunks, opts, HeaderStart(chunks[0], opts, skip), HeaderEnd(chunks[0], opts, skip),
                               header, body, columns, errors)
    requires IsConnectionIndex(WithNewline(chunks), opts, HeaderStart(chunks[0], opts, skip), HeaderEnd(chunks[0], opts, skip),
                               header2, body2, columns2, errors2)
    ensures header == header2 && columns == columns2 && (body == body2 <==> LastRowEnds(chunks, opts, skip))
  {
    hide ReadThrough, Header, Acc.Offsets, Flatten, HeaderStart, HeaderEnd;
    var start, end := HeaderStart(chunks[0], opts, skip), HeaderEnd(chunks[0], opts, skip);
    LastBytes(chunks);
    HeaderHasColumns(chunks[0], opts, start, end);
    SameHeader(Terminated(chunks[0]), Terminated(WithNewline(chunks)[0]), opts, start, end);
    MissingNewline(chunks, opts.Region('\n', ColumnsOf(Header(Terminated(chunks[0]), opts, start, end).Offsets()), true), end + 1);
  }

  /** What a newline and the NUL behind it leave, where the scan takes the newline to be inside quotes. */
  lemma NewlineThenNul(cfg: Config, acc: Acc, p: nat)
    requires acc.Ok() && acc.state != RecordStart && cfg.singleThread && cfg.newline == '\n' && cfg.delim !in {'\n', '\0'}
    requires cfg.numCols == 0
    ensures var r := Step(cfg, acc, p, '\n', true);
            r.Done? &&
            var nul := Step(cfg, r.acc, p + 1, '\0', true);
            nul.Done? && |nul.acc.Offsets()| != |acc.Offsets()| + 1
  {
    FlattenPush(acc.records, acc.open + [p]);
  }

  lemma NothingBehindLine(chunk: string, cfg: Config, start: nat)
    requires start >= |chunk|
    ensures ReadThrough([chunk], cfg, start, 1) == Done(EMPTY)
  {
    assert [chunk][..0] == [];
  }

  /** The header of a single line with the newline behind it, which the scan for the line end may miss. */
  lemma LineWithNewline(c: string, opts: Options, start: nat, end: nat)
    requires start < |c| && c[|c| - 1] != '\n' && end in {|c|, |c| + 1}
    requires opts.comment == "" && !opts.skipEmptyRows && opts.delim !in {'\n', '\0'}
    ensures var h := Header(Terminated(c), opts, start, |c|).Offsets();
            h != [] &&
            (h + [|c|] == Header(Terminated(c + "\n"), opts, start, end).Offsets() <==> end == |c| && !EndsQuoted(c, opts, start))
  {
    hide Fold, Run, Step, Header, Acc.Offsets;
    HeaderNotEmpty(c, opts, start);
    if end == |c| {
      SingleLine(c, opts, start);
      SameHeader(Terminated(c + "\n"), c + "\n", opts, start, end);
    } else {
      MissedNewline(c, opts, start);
    }
  }

  lemma HeaderNotEmpty(c: string, opts: Options, start: nat)
    requires start < |c| && c[|c| - 1] != '\n' && opts.comment == "" && !opts.skipEmptyRows && opts.delim !in {'\n', '\0'}
    ensures Header(Terminated(c), opts, start, |c|).Offsets() != []
  {
    hide Fold, Run, Step, Header, Acc.Offsets;
    var cfg := opts.Region('\n', 0, true);
    HeaderFolds(c, '\0', opts, start);
    OpenAtEnd(cfg, EMPTY, c[start..], start, false);
    var acc := Fold(cfg, EMPTY, c[start..], start, false).acc;
    NulAtEnd(cfg, acc, |c|);
    OpenHasOffsets(acc);
  }

  lemma OpenHasOffsets(acc: Acc)
    requires acc.Ok() && acc.state != RecordStart
    ensures acc.Offsets() != []
  {
  }

  lemma MissedNewline(c: string, opts: Options, start: nat)
    requires start < |c| && c[|c| - 1] != '\n' && opts.comment == "" && !opts.skipEmptyRows && opts.delim !in {'\n', '\0'}
    ensures |Header(Terminated(c + "\n"), opts, start, |c| + 1).Offsets()|
         != |Header(Terminated(c), opts, start, |c|).Offsets()| + 1
  {
    hide Fold, Run, Step, Header, Acc.Offsets;
    var cfg := opts.Region('\n', 0, true);
    HeaderFolds(c, '\0', opts, start);
    HeaderFolds(c + "\n", '\0', opts, start);
    OpenAtEnd(cfg, EMPTY, c[start..], start, false);
    var acc := Fold(cfg, EMPTY, c[start..], start, false).acc;
    NulAtEnd(cfg, acc, |c|);
    assert (c + "\n")[start..] == c[start..] + "\n";
    FoldAppend(cfg, EMPTY, c[start..], "\n", start, false);
    OneByte(cfg, acc, |c|, '\n');
    NewlineThenNul(cfg, acc, |c|);
  }

  /** Header and columns of an input that is a single line. */
  lemma OneLine(
    c: string, opts: Options, skip: nat, header: seq<nat>, body: seq<nat>, columns: nat, errors: seq<ParseError>,
    header2: seq<nat>, body2: seq<nat>, columns2: nat, errors2: seq<ParseError>)
    requires c != "" && LastByte(c) != '\n' && |header| < SIZE_MAX && HeaderStart(c, opts, skip) < |c| == HeaderEnd(c, opts, skip)
    requires opts.comment == "" && !opts.skipEmptyRows && opts.delim !in {'\n', '\0'}
    requires HeaderEnd(c + "\n", opts, skip) in {|c|, |c| + 1}
    requires IsConnectionIndex([c], opts, HeaderStart(c, opts, skip), |c|, header, body, columns, errors)
    requires IsConnectionIndex([c + "\n"], opts, HeaderStart(c, opts, skip), HeaderEnd(c + "\n", opts, skip),
                               header2, body2, columns2, errors2)
    ensures body == body2 == [] && (header == header2 ==> columns == columns2)
    ensures header == header2 <==> LastRowEnds([c], opts, skip)
  {
    hide ReadThrough, Header, HeaderStart, HeaderEnd;
    var start, end := HeaderStart(c, opts, skip), HeaderEnd(c + "\n", opts, skip);
    assert Flatten([c]) == c && Flatten([c + "\n"]) == c + "\n";
    assert EMPTY.Offsets() == [];
    LineWithNewline(c, opts, start, end);
    NothingBehindLine(c, opts.Region('\n', ColumnsOf(Header(Terminated(c), opts, start, |c|).Offsets()), true), |c| + 1);
    NothingBehindLine(c + "\n", opts.Region('\n', ColumnsOf(Header(Terminated(c + "\n"), opts, start, end).Offsets()), true), end + 1);
  }

  /**
   The index of an input without a final newline is that of the input with a newline put behind it,
   if and only if the last row, or the single line, does not end inside quotes and has the right number
   of cells.
   */
  lemma WithoutFinalNewline(
    chunks: seq<string>, opts: Options, skip: nat, header: seq<nat>, body: seq<nat>, columns: nat, errors: seq<ParseError>,
    header2: seq<nat>, body2: seq<nat>, columns2: nat, errors2: seq<ParseError>)
    requires chunks != [] && chunks[|chunks| - 1] != "" && LastByte(Flatten(chunks)) != '\n' && |header| < SIZE_MAX
    requires opts.comment == "" && !opts.skipEmptyRows && opts.delim !in {'\n', '\0'}
    requires HeaderFits(chunks, opts, skip) && HeaderStart(chunks[0], opts, skip) < |chunks[0]|
    requires var start, end := HeaderStart(chunks[0], opts, skip), HeaderEnd(chunks[0], opts, skip);
             IsConnectionIndex(chunks, opts, start, end, header, body, columns, errors)
    requires var more := WithNewline(chunks);
             var start, end := HeaderStart(more[0], opts, skip), HeaderEnd(more[0], opts, skip);
             end <= |more[0]| && IsConnectionIndex(more, opts, start, end, header2, body2, columns2, errors2)
    ensures header == header2 && body == body2 && columns == columns2 <==> LastRowEnds(chunks, opts, skip)
  {
    hide IsConnectionIndex, LastRowEnds, Header, HeaderStart, HeaderEnd;
    var c := chunks[0];
    SameHeaderLine(c, opts, skip);
    HeaderEndInBuffer(c, opts, skip);
    if HeaderEnd(c, opts, skip) < |c| {
      StartsBeforeEnd(c, opts, skip);
      SeveralLines(chunks, opts, skip, header, body, columns, errors, header2, body2, columns2, errors2);
    } else {
      assert chunks == [c] && WithNewline(chunks) == [c + "\n"] && Flatten([c]) == c;
      OneLine(c, opts, skip, header, body, columns, errors, header2, body2, columns2, errors2);
    }
  }

  lemma StartsBeforeEnd(c: string, opts: Options, skip: nat)
    requires HeaderStart(c, opts, skip) < |c|
    ensures HeaderStart(c, opts, skip) <= HeaderEnd(c, opts, skip)
  {
    hide FirstLineFrom;
    ScanAhead(Terminated(c), HeaderStart(c, opts, skip), false, opts.quote);
  }
}
