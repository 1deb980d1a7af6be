/**
 The file constructor of the delimited index: the header line, then the rest of the file in
 chunks, once more with one thread when a chunk meets a newline inside quotes.
 */
module FileIndex {
  import opened Arith
  import opened Seqs
  import opened Csv
  import opened RegionIndexer
  import opened NewlineScan
  import opened Chunks
  import opened LoneCr
  import opened OffsetOrder
  import opened ParallelIndex
  import opened RecordLayout

  /** How a file is to be read; quote == '\0' stands for no quoting. */
  datatype Options = Options(
    delim: char, quote: char, trimWs: bool, escapeDouble: bool, hasHeader: bool,
    comment: string, skipEmptyRows: bool)
  {
    /** The configuration of a region parse. */
    function Region(newline: char, numCols: nat, singleThread: bool): Config
    {
      Config(delim, newline, quote, comment, skipEmptyRows, numCols, singleThread)
    }

    predicate Lines()
    {
      delim != '\n' && '\n' !in comment
    }
  }

  /** The newline that ends the line at start. */
  function FirstNewline(src: string, start: nat, quote: char): nat
    requires src != ""
  {
    if quote != '\0' && start < |src| then ScanPos(src, start, false, quote) else FindNextNewline(src, start).0
  }

  method FindFirstNewline(src: string, start: nat, quote: char) returns (at: nat, nl: NewlineType)
    requires src != ""
    ensures at == FirstNewline(src, start, quote) && (EndsInNewline(src) ==> at < |src|)
    ensures nl == CR ==> at < |src| && src[at] == '\r'
    ensures at < |src| - 1 && src[at] == '\r' ==> nl == CR
  {
    if EndsInNewline(src) {
      ScanInFile(src, start);
    }
    if quote != '\0' && start < |src| {
      at, nl := FindNextNonQuotedNewline(src, start, quote);
    } else {
      var r := FindNextNewline(src, start);
      at, nl := r.0, r.1;
    }
  }

  /** What one thread makes of the header line. */
  function Header(src: string, opts: Options, start: nat, firstNl: nat): (r: Acc)
    requires firstNl < |src|
    ensures r.Ok()
  {
    SingleThreadNeverThrows(src, opts.Region('\n', 0, true), start, start, firstNl + 1, 0, EMPTY);
    Run(src, opts.Region('\n', 0, true), start, start, firstNl + 1, 0, EMPTY).acc
  }

  function Columns(src: string, opts: Options, start: nat, firstNl: nat): nat
    requires firstNl < |src|
  {
    var offsets := Header(src, opts, start, firstNl).Offsets();
    if offsets == [] then 0 else |offsets| - 1
  }

  /** What one thread makes of the rest of the file. */
  function Body(src: string, opts: Options, start: nat, firstNl: nat): (r: Acc)
    requires firstNl < |src|
    ensures r.Ok()
  {
    var cfg := opts.Region('\n', Columns(src, opts, start, firstNl), true);
    SingleThreadNeverThrows(src, cfg, firstNl + 1, firstNl + 1, |src|, 0, EMPTY);
    Run(src, cfg, firstNl + 1, firstNl + 1, |src|, 0, EMPTY).acc
  }

  /** A row that is nothing but a newline where the header has several columns. */
  ghost predicate HasBlankRow(src: string, opts: Options, start: nat, firstNl: nat)
    requires firstNl < |src|
  {
    Columns(src, opts, start, firstNl) > 1 && !opts.skipEmptyRows &&
    exists i :: BlankRecord(src, Body(src, opts, start, firstNl).records, i)
  }

  ghost predicate BlankRecord(src: string, records: seq<seq<nat>>, i: nat)
  {
    i < |records| && records[i] != [] && records[i][0] < |src| && src[records[i][0]] == '\n'
  }

  /** When no chunk throws, a chunk that starts bare starts with a blank row of the whole file. */
  lemma {:induction false} BareStartIsBlankRow(src: string, cfg: Config, cuts: seq<nat>, k: nat)
    requires LineConfig(cfg) && !cfg.singleThread
    requires Cuts(src, cuts) && k < |cuts| && NoneThrows(src, cfg, cuts, k) && SomeBareStart(src, cfg, cuts, k)
    ensures Whole(src, cfg, cuts, k).Done?
    ensures exists i :: BlankRecord(src, Whole(src, cfg, cuts, k).acc.records, i)
  {
    hide Run;
    ChunksAgainstWhole(src, cfg, cuts, k);
    if k > 0 {
      ChunksAgainstWhole(src, cfg, cuts, k - 1);
      WholeGrows(src, cfg, cuts, k);
      var before, all := Whole(src, cfg, cuts, k - 1).acc.records, Whole(src, cfg, cuts, k).acc.records;
      if SomeBareStart(src, cfg, cuts, k - 1) {
        BareStartIsBlankRow(src, cfg, cuts, k - 1);
        var i :| BlankRecord(src, before, i);
        assert BlankRecord(src, all, i);
      } else {
        BareRecordFirst(src, cfg.(singleThread := true), cuts[0], cuts[k - 1], cuts[k]);
        assert BlankRecord(src, all, |before|);
      }
    }
  }

  lemma BareRecordFirst(src: string, cfg: Config, start: nat, lo: nat, hi: nat)
    requires LineConfig(cfg) && cfg.singleThread && start < lo && hi <= |src| && BareStart(src, cfg, lo, hi)
    ensures var r := Run(src, cfg, start, lo, hi, 0, EMPTY);
            r.Done? && BlankRecord(src, r.acc.records, 0)
  {
    hide Next, Repaired;
    SingleThreadNeverThrows(src, cfg, start, lo, hi, 0, EMPTY);
    PaddedMove(src, cfg, start, lo, hi);
    RunPrepends(src, cfg, start, lo + 1, hi, EMPTY, [Repaired([lo], lo, cfg.numCols)], [ParseError(lo, 0)]);
  }

  /** The move over the newline of a blank row that is padded. */
  lemma PaddedMove(src: string, cfg: Config, start: nat, lo: nat, hi: nat)
    requires LineConfig(cfg) && cfg.singleThread && start < lo && hi <= |src| && BareStart(src, cfg, lo, hi)
    ensures var padded := Repaired([lo], lo, cfg.numCols);
            padded != [] && padded[0] == lo &&
            Next(src, cfg, start, lo, hi, 0, EMPTY) == Go(lo + 1, Prepend(EMPTY, [padded], [ParseError(lo, 0)]))
  {
    CommentHead(src, lo, hi, cfg.comment);
  }

  /** idx holds the header's offsets and then those of the first k tasks. */
  ghost predicate HoldsTasks(
    src: string, cfg: Config, cuts: seq<nat>, header: seq<nat>, idx: seq<seq<nat>>, errors: seq<ParseError>, k: nat)
  {
    Boundaries(src, cuts) && k < |cuts| && NoTaskThrows(src, cfg, cuts, k) &&
    |idx| == k + 1 && idx[0] == header &&
    (forall i :: 0 <= i < k ==> idx[i + 1] == TaskChunk(src, cfg, cuts, i).acc.Offsets()) &&
    Flatten(idx) == header + TaskOffsets(src, cfg, cuts, k) && errors == TaskParseErrors(src, cfg, cuts, k)
  }

  /** The files the theorems speak of: the header line and the file end in LF. */
  predicate Regular(src: string, opts: Options, firstNl: nat)
  {
    opts.Lines() && firstNl < |src| && src[firstNl] == '\n' && src[|src| - 1] == '\n'
  }

  /** With several threads the file must hold no NUL: the search for chunk boundaries stops at one. */
  predicate Cuttable(src: string, threads: nat)
  {
    TextFile(src) || threads == 1
  }

  predicate EndsInNewline(src: string)
  {
    src != "" && src[|src| - 1] in {'\n', '\r'}
  }

  /** An attempt with so many threads meets a newline inside quotes, in the header line or in a chunk. */
  predicate Throws(src: string, opts: Options, start: nat, firstNl: nat, threads: nat)
    requires firstNl < |src| && threads > 0
  {
    Run(src, opts.Region('\n', 0, threads == 1), start, start, firstNl + 1, 0, EMPTY) == NewlineError ||
    BodyThrows(src, opts, firstNl, Columns(src, opts, start, firstNl), threads)
  }

  predicate BodyThrows(src: string, opts: Options, firstNl: nat, columns: nat, threads: nat)
    requires firstNl < |src| && threads > 0
  {
    var cuts := FileCuts(src, firstNl, threads);
    Boundaries(src, cuts) && !NoTaskThrows(src, opts.Region('\n', columns, threads == 1), cuts, threads)
  }

  /** One attempt to index the file, with a given number of threads. */
  method Attempt(src: string, opts: Options, start: nat, firstNl: nat, nl: NewlineType, threads: nat)
    returns (threw: bool, idx: seq<seq<nat>>, columns: nat, errors: seq<ParseError>)
    requires EndsInNewline(src) && firstNl < |src| && threads > 0
    requires nl == CR ==> src[firstNl] == '\r'
    ensures threads == 1 ==> !threw
    ensures Regular(src, opts, firstNl) && Cuttable(src, threads) ==>
              (threw <==> Throws(src, opts, start, firstNl, threads)) &&
              (!threw ==>
                columns == Columns(src, opts, start, firstNl) &&
                HoldsTasks(src, opts.Region('\n', columns, threads == 1), FileCuts(src, firstNl, threads),
                           Header(src, opts, start, firstNl).Offsets(), idx, errors, threads))
  {
    hide BodyThrows, HoldsTasks;
    idx, columns, errors := [], 0, [];
    var cfg := opts.Region(if nl == CR then '\r' else '\n', 0, threads == 1);
    if Regular(src, opts, firstNl) {
      HeaderAlike(src, opts, start, firstNl, threads == 1);
    }
    if cfg.singleThread {
      SingleThreadNeverThrows(src, cfg, start, start, firstNl + 1, 0, EMPTY);
    }
    var offsets, cols, state;
    ghost var acc;
    threw, offsets, cols, errors, state, acc :=
      IndexRegion(src, cfg, start, firstNl + 1, 0, [], 0, [], RecordStart, EMPTY);
    if threw {
      return;
    }
    if |offsets| > 0 {
      columns := |offsets| - 1;
    }
    threw, idx, errors := IndexBody(src, opts, firstNl, columns, threads, offsets, errors);
  }

  /** The part of the file each thread is handed, before it is moved to line ends. */
  method TaskRanges(src: string, opts: Options, firstNl: nat, threads: nat) returns (ranges: seq<Range>)
    requires EndsInNewline(src) && firstNl < |src| && threads > 0
    ensures |ranges| == threads
    ensures Regular(src, opts, firstNl) && Cuttable(src, threads) ==>
              var cuts := FileCuts(src, firstNl, threads);
              Boundaries(src, cuts) && cuts[0] == firstNl + 1 && cuts[threads] == |src| &&
              forall i {:trigger ranges[i]} :: 0 <= i < threads ==> IsRange(src, firstNl, cuts, ranges[i], i)
  {
    hide FindNextNewline, Bound, TextFile;
    ranges := ParallelFor(|src| - firstNl, threads);
    if Regular(src, opts, firstNl) && Cuttable(src, threads) {
      FileCutsAreBoundaries(src, firstNl, threads);
      forall i | 0 <= i < threads
        ensures IsRange(src, firstNl, FileCuts(src, firstNl, threads), ranges[i], i)
      {
        assert ranges[i] == Range(Bound(|src| - firstNl, threads, i), Bound(|src| - firstNl, threads, i + 1), i);
        assert FileCuts(src, firstNl, threads)[i] == CutAt(src, firstNl, threads, i);
      }
    }
  }

  /** Moved to line ends, the range is chunk i, and the type of the line end in front of it tells a lone CR. */
  ghost predicate IsRange(src: string, firstNl: nat, cuts: seq<nat>, range: Range, i: nat)
    requires src != "" && i + 1 < |cuts|
  {
    var from := FindNextNewline(src, firstNl + range.start);
    cuts[i] == from.0 + 1 && cuts[i + 1] == FindNextNewline(src, firstNl + range.end).0 + 1 &&
    (LoneCrAt(src, cuts[i]) <==> from.1 == CR)
  }

  /** The rest of the file, in as many chunks as there are threads. */
  method IndexBody(
    src: string, opts: Options, firstNl: nat, columns: nat, threads: nat, offsets: seq<nat>, errors0: seq<ParseError>)
    returns (threw: bool, idx: seq<seq<nat>>, errors: seq<ParseError>)
    requires EndsInNewline(src) && firstNl < |src| && threads > 0
    requires Regular(src, opts, firstNl) ==> errors0 == []
    ensures threads == 1 ==> !threw
    ensures Regular(src, opts, firstNl) && Cuttable(src, threads) ==>
              (threw <==> BodyThrows(src, opts, firstNl, columns, threads)) &&
              (!threw ==> HoldsTasks(src, opts.Region('\n', columns, threads == 1), FileCuts(src, firstNl, threads),
                                     offsets, idx, errors, threads))
  {
    hide FindNextNewline, Run, TextFile, FileCuts, HoldsTasks, BodyThrows, Boundaries, TaskChunk, LoneCrAt;
    ghost var regular := Regular(src, opts, firstNl) && Cuttable(src, threads);
    ghost var cuts := FileCuts(src, firstNl, threads);
    ghost var cfg := opts.Region('\n', columns, threads == 1);
    threw, idx, errors := false, [offsets], errors0;
    var ranges := TaskRanges(src, opts, firstNl, threads);
    if regular {
      NoTasksYet(src, cfg, cuts, offsets);
    }
    var id := 0;
    while id < threads
      invariant 0 <= id <= threads && !threw
      invariant regular ==> HoldsTasks(src, cfg, cuts, offsets, idx, errors, id)
    {
      var chunk, chunkErrors;
      ghost var acc;
      assert regular ==> IsRange(src, firstNl, cuts, ranges[id], id);
      threw, chunk, chunkErrors, acc :=
        IndexChunk(src, opts, columns, threads == 1, firstNl + ranges[id].start, firstNl + ranges[id].end,
                   if regular then cuts[id] else 0, if regular then cuts[id + 1] else 0, regular);
      if regular {
        TaskIsRun(src, cfg, cuts, id);
      }
      if threw {
        if regular {
          TaskThrows(src, opts, firstNl, columns, threads, id);
        }
        return;
      }
      if regular {
        MoreTasks(src, cfg, cuts, offsets, idx, errors, id);
      }
      idx := idx + [chunk];
      errors := errors + chunkErrors;
      id := id + 1;
    }
    if regular {
      NoneThrew(src, opts, firstNl, columns, threads, offsets, idx, errors);
    }
  }

  lemma NoTasksYet(src: string, cfg: Config, cuts: seq<nat>, offsets: seq<nat>)
    requires Boundaries(src, cuts)
    ensures HoldsTasks(src, cfg, cuts, offsets, [offsets], [], 0)
  {
    FlattenPush([], offsets);
    assert offsets + [] == offsets;
  }

  lemma TaskIsRun(src: string, cfg: Config, cuts: seq<nat>, i: nat)
    requires Boundaries(src, cuts) && i + 1 < |cuts|
    ensures cuts[i + 1] <= |src| &&
            TaskChunk(src, cfg, cuts, i) == Run(src, TaskConfig(src, cfg, cuts[i]), cuts[i], cuts[i], cuts[i + 1], 0, EMPTY)
  {
    hide Run;
    assert Boundary(src, cuts[i + 1]);
  }

  lemma TaskThrows(src: string, opts: Options, firstNl: nat, columns: nat, threads: nat, i: nat)
    requires firstNl < |src| && threads > 0 && i < threads && Boundaries(src, FileCuts(src, firstNl, threads))
    requires !TaskChunk(src, opts.Region('\n', columns, threads == 1), FileCuts(src, firstNl, threads), i).Done?
    ensures BodyThrows(src, opts, firstNl, columns, threads)
  {
  }

  lemma NoneThrew(
    src: string, opts: Options, firstNl: nat, columns: nat, threads: nat, offsets: seq<nat>,
    idx: seq<seq<nat>>, errors: seq<ParseError>)
    requires firstNl < |src| && threads > 0
    requires HoldsTasks(src, opts.Region('\n', columns, threads == 1), FileCuts(src, firstNl, threads), offsets, idx, errors, threads)
    ensures !BodyThrows(src, opts, firstNl, columns, threads)
  {
  }

  lemma MoreTasks(
    src: string, cfg: Config, cuts: seq<nat>, header: seq<nat>, idx: seq<seq<nat>>, errors: seq<ParseError>, k: nat)
    requires HoldsTasks(src, cfg, cuts, header, idx, errors, k) && k + 1 < |cuts| && TaskChunk(src, cfg, cuts, k).Done?
    ensures var chunk := TaskChunk(src, cfg, cuts, k).acc;
            HoldsTasks(src, cfg, cuts, header, idx + [chunk.Offsets()], errors + chunk.errors, k + 1)
  {
    hide Flatten, Boundaries, Run;
    FlattenPush(idx, TaskChunk(src, cfg, cuts, k).acc.Offsets());
    Associative(header, TaskOffsets(src, cfg, cuts, k), TaskChunk(src, cfg, cuts, k).acc.Offsets());
  }

  /** The task of one thread, for the part of the file between two positions. */
  method IndexChunk(
    src: string, opts: Options, columns: nat, single: bool, start: nat, end: nat,
    ghost cut: nat, ghost next: nat, ghost regular: bool)
    returns (threw: bool, chunk: seq<nat>, errors: seq<ParseError>, ghost acc: Acc)
    requires EndsInNewline(src)
    requires regular ==> cut == FindNextNewline(src, start).0 + 1 && next == FindNextNewline(src, end).0 + 1
    requires regular ==> (LoneCrAt(src, cut) <==> FindNextNewline(src, start).1 == CR)
    ensures single ==> !threw
    ensures regular ==>
              next <= |src| &&
              var r := Run(src, TaskConfig(src, opts.Region('\n', columns, single), cut), cut, cut, next, 0, EMPTY);
              if threw then r == NewlineError else r == Done(acc) && Rep(acc, chunk, acc.Cols(), errors, acc.state)
  {
    hide FindNextNewline, Run;
    var from := FindNextNewline(src, start);
    var to := FindNextNewline(src, end);
    ScanInFile(src, end);
    var cfg := opts.Region(if from.1 == CR then '\r' else '\n', columns, single);
    var lo, hi := from.0 + 1, to.0 + 1;
    if cfg.singleThread {
      SingleThreadNeverThrows(src, cfg, lo, lo, hi, 0, EMPTY);
    }
    var cols, state;
    threw, chunk, cols, errors, state, acc := IndexRegion(src, cfg, lo, hi, 0, [], 0, [], RecordStart, EMPTY);
  }

  lemma ScanInFile(src: string, start: nat)
    requires EndsInNewline(src)
    ensures FindNextNewline(src, start).0 < |src|
  {
    if start < |src| {
      var pos := start + Strcspn(src, start, {'\n', '\r'});
      assert src[|src| - 1] in {'\n', '\r'};
      assert pos < |src|;
    }
  }

  /** With several threads the header line either throws or reads as with one. */
  lemma HeaderAlike(src: string, opts: Options, start: nat, firstNl: nat, single: bool)
    requires opts.Lines() && firstNl < |src| && src[firstNl] == '\n'
    ensures var r := Run(src, opts.Region('\n', 0, single), start, start, firstNl + 1, 0, EMPTY);
            if r.Done? then r.acc == Header(src, opts, start, firstNl) && r.acc.errors == [] else !single
  {
    NoRepairNoErrors(src, opts.Region('\n', 0, single), start, start, firstNl + 1, EMPTY);
    SingleThreadNeverThrows(src, opts.Region('\n', 0, true), start, start, firstNl + 1, 0, EMPTY);
    if !single && start <= firstNl && Run(src, opts.Region('\n', 0, false), start, start, firstNl + 1, 0, EMPTY).Done? {
      ChunkEndsRecord(src, opts.Region('\n', 0, false), start, start, firstNl + 1, EMPTY);
    }
  }

  lemma {:induction false} NoRepairNoErrors(src: string, cfg: Config, start: nat, pos: nat, end: nat, acc: Acc)
    requires end <= |src| && acc.Ok() && cfg.numCols == 0 && acc.errors == []
    ensures var r := Run(src, cfg, start, pos, end, 0, acc);
            r.Done? ==> r.acc.errors == []
    decreases end - pos
  {
    if pos < end {
      match Next(src, cfg, start, pos, end, 0, acc)
      case Go(next, a) => NoRepairNoErrors(src, cfg, start, next, end, a);
      case Throw =>
    }
  }

  /** How many threads are used: one, when a batch would hold fewer than ten lines. */
  function UsedThreads(size: nat, lineSize: nat, threads: nat): (r: nat)
    requires threads > 0
    ensures 1 <= r <= threads
  {
    if size / threads < lineSize * 10 then 1 else threads
  }

  function Size(rows: nat, width: nat): nat
  {
    rows * width
  }

  /** n offsets make up whole rows of `width` offsets. */
  ghost predicate WholeRows(n: nat, width: nat)
  {
    exists rows :: n == Size(rows, width)
  }

  /** Every index vector but the last holds whole rows. */
  ghost predicate Aligned(idx: seq<seq<nat>>, width: nat)
  {
    forall k :: 0 <= k < |idx| - 1 ==> WholeRows(|idx[k]|, width)
  }

  /** Options without comments, for which CR is neither delimiter nor quote, nor a blank the quote where empty rows are skipped. */
  predicate CrOptions(opts: Options)
  {
    opts.comment == "" && opts.delim != '\r' && opts.quote != '\r' && (opts.skipEmptyRows ==> opts.quote !in {' ', '\t'})
  }

  /** How many threads the first attempt uses. */
  function Threads(src: string, opts: Options, firstNl: nat, numThreads: nat): (r: nat)
    requires src != "" && numThreads > 0
    ensures 1 <= r <= numThreads
  {
    var secondNl := FirstNewline(src, firstNl + 1, opts.quote);
    UsedThreads(|src|, if secondNl >= firstNl then secondNl - firstNl else 0, numThreads)
  }

  /** Is the index that of several threads? Otherwise one thread computed it, at once or in the second attempt. */
  predicate IsChunked(src: string, opts: Options, start: nat, firstNl: nat, threads: nat)
    requires firstNl < |src| && threads > 0
  {
    threads > 1 && !Throws(src, opts, start, firstNl, threads) && Boundaries(src, FileCuts(src, firstNl, threads))
  }

  function BodyConfig(src: string, opts: Options, start: nat, firstNl: nat): Config
    requires firstNl < |src|
  {
    opts.Region('\n', Columns(src, opts, start, firstNl), false)
  }

  /** The index is chunked, and some task was misled. */
  ghost predicate FallsShort(src: string, opts: Options, start: nat, firstNl: nat, threads: nat)
    requires firstNl < |src| && threads > 0
  {
    IsChunked(src, opts, start, firstNl, threads) &&
    Misled(src, BodyConfig(src, opts, start, firstNl), FileCuts(src, firstNl, threads))
  }

  /** The index is chunked, and a chunk that is not the last holds a short first record. */
  ghost predicate Ragged(src: string, opts: Options, start: nat, firstNl: nat, threads: nat)
    requires firstNl < |src| && threads > 0
  {
    IsChunked(src, opts, start, firstNl, threads) &&
    BareBeforeLast(src, BodyConfig(src, opts, start, firstNl), FileCuts(src, firstNl, threads))
  }

  ghost predicate BareBeforeLast(src: string, cfg: Config, cuts: seq<nat>)
  {
    exists i :: 0 <= i < |cuts| - 2 && cuts[i + 1] <= |src| && BareStart(src, cfg, cuts[i], cuts[i + 1])
  }

  /** A cut of the chunked index lies behind a lone CR. */
  predicate CutsAtCr(src: string, opts: Options, start: nat, firstNl: nat, threads: nat)
    requires firstNl < |src| && threads > 0
  {
    IsChunked(src, opts, start, firstNl, threads) && LoneCrCut(src, FileCuts(src, firstNl, threads))
  }

  lemma OneTask(src: string, cfg: Config, cuts: seq<nat>)
    requires Boundaries(src, cuts) && |cuts| == 2 && NoTaskThrows(src, cfg, cuts, 1)
    ensures Run(src, cfg, cuts[0], cuts[0], cuts[1], 0, EMPTY) == TaskChunk(src, cfg, cuts, 0)
    ensures TaskChunk(src, cfg, cuts, 0).Done? &&
            TaskOffsets(src, cfg, cuts, 1) == TaskChunk(src, cfg, cuts, 0).acc.Offsets() &&
            TaskParseErrors(src, cfg, cuts, 1) == TaskChunk(src, cfg, cuts, 0).acc.errors
  {
    hide Run;
    assert TaskOffsets(src, cfg, cuts, 0) == [] && TaskParseErrors(src, cfg, cuts, 0) == [];
    assert !LoneCrAt(src, cuts[0]);
  }

  /** The index of one thread. */
  lemma OneTaskIsBody(src: string, opts: Options, start: nat, firstNl: nat, idx: seq<seq<nat>>, errors: seq<ParseError>)
    requires Regular(src, opts, firstNl)
    requires HoldsTasks(src, opts.Region('\n', Columns(src, opts, start, firstNl), true), FileCuts(src, firstNl, 1),
                        Header(src, opts, start, firstNl).Offsets(), idx, errors, 1)
    ensures var body := Body(src, opts, start, firstNl);
            Flatten(idx) == idx[0] + body.Offsets() && errors == body.errors &&
            Aligned(idx, Columns(src, opts, start, firstNl) + 1)
  {
    hide Run, Columns, Header, Flatten, FileCuts, Boundaries, TaskOffsets, TaskParseErrors;
    OuterCuts(src, firstNl, 1);
    OneTask(src, opts.Region('\n', Columns(src, opts, start, firstNl), true), FileCuts(src, firstNl, 1));
    HeaderWidth(src, opts, start, firstNl);
  }

  lemma BodyIsWhole(src: string, opts: Options, start: nat, firstNl: nat)
    requires firstNl < |src|
    ensures Run(src, BodyConfig(src, opts, start, firstNl).(singleThread := true), firstNl + 1, firstNl + 1, |src|, 0, EMPTY)
         == Done(Body(src, opts, start, firstNl))
  {
    hide Run;
    var cfg := BodyConfig(src, opts, start, firstNl).(singleThread := true);
    SingleThreadNeverThrows(src, cfg, firstNl + 1, firstNl + 1, |src|, 0, EMPTY);
  }

  lemma TasksAgainstRun(
    src: string, cfg: Config, cuts: seq<nat>, header: seq<nat>, idx: seq<seq<nat>>, errors: seq<ParseError>, body: Acc)
    requires LineConfig(cfg) && !cfg.singleThread && cuts != []
    requires HoldsTasks(src, cfg, cuts, header, idx, errors, |cuts| - 1)
    requires LoneCrCut(src, cuts) ==> NoComment(cfg) && CrIsText(cfg)
    requires Run(src, cfg.(singleThread := true), cuts[0], cuts[0], cuts[|cuts| - 1], 0, EMPTY) == Done(body)
    ensures (Flatten(idx) == header + body.Offsets() <==> !Misled(src, cfg, cuts)) &&
            (!Misled(src, cfg, cuts) ==> errors == body.errors)
  {
    hide Run, Misled, LoneCrCut, TaskOffsets, TaskParseErrors, Flatten;
    TasksAgainstWhole(src, cfg, cuts);
    SameFront(header, TaskOffsets(src, cfg, cuts, |cuts| - 1), body.Offsets());
  }

  /** The index of several threads, against that of one. */
  lemma TasksAgainstBody(
    src: string, opts: Options, start: nat, firstNl: nat, threads: nat, idx: seq<seq<nat>>, errors: seq<ParseError>)
    requires Regular(src, opts, firstNl) && threads > 0 && IsChunked(src, opts, start, firstNl, threads)
    requires HoldsTasks(src, BodyConfig(src, opts, start, firstNl), FileCuts(src, firstNl, threads),
                        Header(src, opts, start, firstNl).Offsets(), idx, errors, threads)
    requires CutsAtCr(src, opts, start, firstNl, threads) ==> CrOptions(opts)
    ensures var body := Body(src, opts, start, firstNl);
            (Flatten(idx) == Header(src, opts, start, firstNl).Offsets() + body.Offsets()
             <==> !FallsShort(src, opts, start, firstNl, threads)) &&
            (!FallsShort(src, opts, start, firstNl, threads) ==> errors == body.errors)
  {
    hide HoldsTasks, FileCuts, Body, Header, Columns, Run, Throws, Misled;
    OuterCuts(src, firstNl, threads);
    BodyIsWhole(src, opts, start, firstNl);
    TasksAgainstRun(src, BodyConfig(src, opts, start, firstNl), FileCuts(src, firstNl, threads),
                    Header(src, opts, start, firstNl).Offsets(), idx, errors, Body(src, opts, start, firstNl));
  }

  /** Whatever the order in which the tasks log their errors, the bag of errors is that of the index. */
  lemma ErrorsInAnyOrder(
    src: string, opts: Options, start: nat, firstNl: nat, threads: nat, idx: seq<seq<nat>>, errors: seq<ParseError>)
    requires firstNl < |src| && threads > 1
    requires HoldsTasks(src, BodyConfig(src, opts, start, firstNl), FileCuts(src, firstNl, threads),
                        Header(src, opts, start, firstNl).Offsets(), idx, errors, threads)
    ensures LogsInAnyOrder(src, BodyConfig(src, opts, start, firstNl), FileCuts(src, firstNl, threads), errors)
  {
    var cfg, cuts := BodyConfig(src, opts, start, firstNl), FileCuts(src, firstNl, threads);
    forall schedule | AllDone(src, cfg, cuts, schedule)
      ensures multiset(After(src, cfg, cuts, schedule).log) == multiset(errors)
    {
      EveryScheduleSameErrors(src, cfg, cuts, schedule);
    }
  }

  lemma HeaderWidth(src: string, opts: Options, start: nat, firstNl: nat)
    requires firstNl < |src|
    ensures WholeRows(|Header(src, opts, start, firstNl).Offsets()|, Columns(src, opts, start, firstNl) + 1)
  {
    var offsets, width := Header(src, opts, start, firstNl).Offsets(), Columns(src, opts, start, firstNl) + 1;
    assert |offsets| == if offsets == [] then Size(0, width) else Size(1, width);
  }

  /** A chunk holds whole rows, unless it starts with a row to be padded. */
  lemma ChunkIsAligned(src: string, cfg: Config, lo: nat, hi: nat)
    requires LineConfig(cfg) && !cfg.singleThread && lo <= hi <= |src| && 0 < hi && src[hi - 1] == '\n'
    requires Run(src, cfg, lo, lo, hi, 0, EMPTY).Done?
    ensures WholeRows(|Run(src, cfg, lo, lo, hi, 0, EMPTY).acc.Offsets()|, cfg.numCols + 1) <==> !BareStart(src, cfg, lo, hi)
  {
    var acc := Run(src, cfg, lo, lo, hi, 0, EMPTY).acc;
    ChunkEndsRecord(src, cfg, lo, lo, hi, EMPTY);
    if cfg.numCols == 0 {
      assert |acc.Offsets()| == Size(|acc.Offsets()|, 1);
    } else if BareStart(src, cfg, lo, hi) {
      BareChunkIsRagged(src, cfg, lo, hi);
    } else {
      RecordsAreFull(src, cfg, lo, hi);
      FullRecords(acc.records, cfg.numCols + 1);
    }
  }

  lemma FullRecords(records: seq<seq<nat>>, width: nat)
    requires width > 0 && forall k :: 0 <= k < |records| ==> |records[k]| == width
    ensures |Flatten(records)| == Size(|records|, width)
  {
    if records != [] {
      FlatTable(records, width, 0, 0);
    }
  }

  /** The bare newline leaves two offsets, and whole rows follow. */
  lemma BareChunkIsRagged(src: string, cfg: Config, lo: nat, hi: nat)
    requires LineConfig(cfg) && hi <= |src| && BareStart(src, cfg, lo, hi)
    requires Run(src, cfg, lo, lo, hi, 0, EMPTY).Done? && Run(src, cfg, lo, lo, hi, 0, EMPTY).acc.open == []
    ensures !WholeRows(|Run(src, cfg, lo, lo, hi, 0, EMPTY).acc.Offsets()|, cfg.numCols + 1)
  {
    BareChunkMoves(src, cfg, lo, hi);
    RunYieldsFullRecords(src, cfg, lo, lo + 1, hi, EMPTY);
    var rest := Run(src, cfg, lo, lo + 1, hi, 0, EMPTY).acc.records;
    hide Run, WholeRows, Flatten;
    FlattenHead([lo, lo], rest);
    FullRecords(rest, cfg.numCols + 1);
    TwoAhead(|rest|, cfg.numCols + 1);
  }

  lemma BareChunkMoves(src: string, cfg: Config, lo: nat, hi: nat)
    requires LineConfig(cfg) && hi <= |src| && BareStart(src, cfg, lo, hi)
    ensures Run(src, cfg, lo, lo, hi, 0, EMPTY)
         == match Run(src, cfg, lo, lo + 1, hi, 0, EMPTY)
            case Done(a) => Done(Prepend(a, [[lo, lo]], []))
            case NewlineError => NewlineError
  {
    BareFirstMove(src, cfg, lo, hi);
    hide Next;
    RunPrepends(src, cfg, lo, lo + 1, hi, EMPTY, [[lo, lo]], []);
  }

  lemma TwoAhead(rows: nat, width: nat)
    requires width > 2
    ensures !WholeRows(2 + Size(rows, width), width)
  {
    forall m: nat
      ensures Size(m, width) != 2 + Size(rows, width)
    {
      if m > rows {
        MulMonotone(rows + 1, m, width);
        MulSum(rows, 1, width);
      } else {
        MulMonotone(m, rows, width);
      }
    }
  }

  /** The index vectors before the last hold whole rows, if and only if no chunk before the last starts bare. */
  lemma AlignedIff(
    src: string, opts: Options, start: nat, firstNl: nat, threads: nat, idx: seq<seq<nat>>, errors: seq<ParseError>)
    requires Regular(src, opts, firstNl) && threads > 0 && IsChunked(src, opts, start, firstNl, threads)
    requires HoldsTasks(src, BodyConfig(src, opts, start, firstNl), FileCuts(src, firstNl, threads),
                        Header(src, opts, start, firstNl).Offsets(), idx, errors, threads)
    requires !CutsAtCr(src, opts, start, firstNl, threads)
    ensures Aligned(idx, Columns(src, opts, start, firstNl) + 1) <==> !Ragged(src, opts, start, firstNl, threads)
  {
    var cfg, cuts := BodyConfig(src, opts, start, firstNl), FileCuts(src, firstNl, threads);
    HeaderWidth(src, opts, start, firstNl);
    assert WholeRows(|idx[0]|, cfg.numCols + 1);
    assert LineConfig(cfg) && !cfg.singleThread && !LoneCrCut(src, cuts);
    assert Ragged(src, opts, start, firstNl, threads) <==> BareBeforeLast(src, cfg, cuts);
    forall i | 0 <= i < threads
      ensures WholeRows(|idx[i + 1]|, cfg.numCols + 1) <==> !BareStart(src, cfg, cuts[i], cuts[i + 1])
    {
      TaskIsAligned(src, cfg, cuts, i, idx[i + 1]);
    }
    AlignedByTask(src, cfg, cuts, idx);
  }

  lemma TaskIsAligned(src: string, cfg: Config, cuts: seq<nat>, i: nat, chunk: seq<nat>)
    requires LineConfig(cfg) && !cfg.singleThread && Boundaries(src, cuts) && !LoneCrCut(src, cuts) && i + 1 < |cuts|
    requires TaskChunk(src, cfg, cuts, i).Done? && chunk == TaskChunk(src, cfg, cuts, i).acc.Offsets()
    ensures WholeRows(|chunk|, cfg.numCols + 1) <==> !BareStart(src, cfg, cuts[i], cuts[i + 1])
  {
    hide Run, WholeRows, BareStart;
    TasksAreChunks(src, cfg, cuts, 0);
    assert !LoneCrAt(src, cuts[i]);
    ChunkIsAligned(src, cfg, cuts[i], cuts[i + 1]);
  }

  lemma AlignedByTask(src: string, cfg: Config, cuts: seq<nat>, idx: seq<seq<nat>>)
    requires |idx| == |cuts| > 1 && InFile(src, cuts) && WholeRows(|idx[0]|, cfg.numCols + 1)
    requires forall i :: 0 <= i < |cuts| - 1 ==>
               (WholeRows(|idx[i + 1]|, cfg.numCols + 1) <==> !BareStart(src, cfg, cuts[i], cuts[i + 1]))
    ensures Aligned(idx, cfg.numCols + 1) <==> !BareBeforeLast(src, cfg, cuts)
  {
    hide WholeRows, BareStart;
    if BareBeforeLast(src, cfg, cuts) {
      var i :| 0 <= i < |cuts| - 2 && cuts[i + 1] <= |src| && BareStart(src, cfg, cuts[i], cuts[i + 1]);
      assert !WholeRows(|idx[i + 1]|, cfg.numCols + 1);
    } else {
      forall k | 0 <= k < |idx| - 1
        ensures WholeRows(|idx[k]|, cfg.numCols + 1)
      {
        if k > 0 {
          assert !BareStart(src, cfg, cuts[k - 1], cuts[k - 1 + 1]);
          assert WholeRows(|idx[k - 1 + 1]|, cfg.numCols + 1);
        }
      }
    }
  }

  /** When no chunk throws, a chunk that starts bare shows a blank row. */
  lemma BareChunkShowsBlankRow(src: string, opts: Options, start: nat, firstNl: nat, threads: nat, k: nat)
    requires Regular(src, opts, firstNl) && threads > 0 && IsChunked(src, opts, start, firstNl, threads)
    requires !CutsAtCr(src, opts, start, firstNl, threads) && k < threads
    requires var cuts := FileCuts(src, firstNl, threads);
             BareStart(src, BodyConfig(src, opts, start, firstNl), cuts[k], cuts[k + 1])
    ensures HasBlankRow(src, opts, start, firstNl)
  {
    hide Run, FileCuts, Columns;
    var cfg, cuts := BodyConfig(src, opts, start, firstNl), FileCuts(src, firstNl, threads);
    OuterCuts(src, firstNl, threads);
    BodyIsWhole(src, opts, start, firstNl);
    TasksAreChunks(src, cfg, cuts, threads);
    if cuts[0] < cuts[k] {
      assert SomeBareStart(src, cfg, cuts, threads);
      BareStartIsBlankRow(src, cfg, cuts, threads);
    } else {
      BlankFirstRow(src, cfg, cuts[0], |src|);
      assert BlankRecord(src, Body(src, opts, start, firstNl).records, 0);
    }
  }

  /** A region that starts bare holds a blank record. */
  lemma BlankFirstRow(src: string, cfg: Config, lo: nat, hi: nat)
    requires LineConfig(cfg) && hi <= |src| && BareStart(src, cfg, lo, hi)
    ensures var r := Run(src, cfg.(singleThread := true), lo, lo, hi, 0, EMPTY);
            r.Done? && BlankRecord(src, r.acc.records, 0)
  {
    var one := cfg.(singleThread := true);
    SingleThreadNeverThrows(src, one, lo, lo, hi, 0, EMPTY);
    SingleThreadNeverThrows(src, one, lo, lo + 1, hi, 0, EMPTY);
    BareChunkMoves(src, one, lo, hi);
  }

  /** Without a blank row and a cut behind a lone CR, the index is that of one thread, and aligned. */
  lemma WithoutBlankRows(src: string, opts: Options, start: nat, firstNl: nat, threads: nat)
    requires Regular(src, opts, firstNl) && threads > 0
    requires !HasBlankRow(src, opts, start, firstNl) && !CutsAtCr(src, opts, start, firstNl, threads)
    ensures !FallsShort(src, opts, start, firstNl, threads) && !Ragged(src, opts, start, firstNl, threads)
  {
    hide BareStart, HasBlankRow, BodyThrows, Throws, FileCuts, LoneCrCut, BodyConfig;
    var cuts := FileCuts(src, firstNl, threads);
    if IsChunked(src, opts, start, firstNl, threads) {
      forall k | 0 <= k < threads && cuts[k + 1] <= |src|
        ensures !BareStart(src, BodyConfig(src, opts, start, firstNl), cuts[k], cuts[k + 1])
      {
        if BareStart(src, BodyConfig(src, opts, start, firstNl), cuts[k], cuts[k + 1]) {
          BareChunkShowsBlankRow(src, opts, start, firstNl, threads, k);
        }
      }
    }
  }

  /** In text without lone CRs no cut lies behind one. */
  lemma PlainTextCuts(src: string, opts: Options, start: nat, firstNl: nat, threads: nat)
    requires firstNl < |src| && threads > 0 && PlainText(src)
    ensures !CutsAtCr(src, opts, start, firstNl, threads)
  {
    PlainTextHasNoLoneCr(src, FileCuts(src, firstNl, threads));
  }

  /** The offsets of the tasks, side by side, are in order. */
  lemma {:induction false} TaskOffsetsInOrder(src: string, cfg: Config, cuts: seq<nat>, k: nat)
    requires Boundaries(src, cuts) && k < |cuts| && NoTaskThrows(src, cfg, cuts, k)
    ensures InOrder(TaskOffsets(src, cfg, cuts, k), cuts[0], cuts[k])
  {
    hide Run, InOrder;
    NoneInOrder(cuts[0], cuts[0]);
    if k > 0 {
      TaskOffsetsInOrder(src, cfg, cuts, k - 1);
      assert TaskChunk(src, cfg, cuts, k - 1).Done?;
      var chunk := TaskChunk(src, cfg, cuts, k - 1).acc;
      NoneInOrder(cuts[k - 1], if cuts[k - 1] < cuts[k] then cuts[k - 1] else cuts[k]);
      RunInOrder(src, TaskConfig(src, cfg, cuts[k - 1]), cuts[k - 1], cuts[k - 1], cuts[k], EMPTY);
      BehindInOrder(TaskOffsets(src, cfg, cuts, k - 1), chunk.Offsets(), cuts[0], cuts[k - 1], cuts[k]);
    }
  }

  lemma NoneInOrder(lo: nat, hi: nat)
    ensures EMPTY.Offsets() == [] && InOrder(EMPTY.Offsets(), lo, hi) && InOrder([], lo, hi)
  {
  }

  lemma BehindInOrder(a: seq<nat>, b: seq<nat>, lo: nat, mid: nat, hi: nat)
    requires InOrder(a, lo, mid) && InOrder(b, mid, hi) && lo <= mid <= hi
    ensures InOrder(a + b, lo, hi)
  {
  }

  lemma HeaderInOrder(src: string, opts: Options, start: nat, firstNl: nat)
    requires firstNl < |src|
    ensures InOrder(Header(src, opts, start, firstNl).Offsets(), 0, firstNl + 1)
  {
    hide Run;
    SingleThreadNeverThrows(src, opts.Region('\n', 0, true), start, start, firstNl + 1, 0, EMPTY);
    RunInOrder(src, opts.Region('\n', 0, true), start, start, firstNl + 1, EMPTY);
  }

  /** The offsets of the index are in order. */
  lemma IndexInOrder(
    src: string, opts: Options, start: nat, firstNl: nat, cfg: Config, threads: nat,
    idx: seq<seq<nat>>, errors: seq<ParseError>)
    requires Regular(src, opts, firstNl) && threads > 0
    requires HoldsTasks(src, cfg, FileCuts(src, firstNl, threads), Header(src, opts, start, firstNl).Offsets(),
                        idx, errors, threads)
    ensures idx != [] && idx[0] == Header(src, opts, start, firstNl).Offsets() && InOrder(Flatten(idx), 0, |src|)
  {
    hide InOrder, Header, FileCuts, TaskOffsets, Flatten;
    OuterCuts(src, firstNl, threads);
    HeaderInOrder(src, opts, start, firstNl);
    var cuts := FileCuts(src, firstNl, threads);
    TaskOffsetsInOrder(src, cfg, cuts, threads);
    BehindInOrder(Header(src, opts, start, firstNl).Offsets(), TaskOffsets(src, cfg, cuts, threads),
                  0, firstNl + 1, |src|);
  }

  /** What an index of the file is, computed with so many threads or, after a newline error, with one. */
  ghost predicate IsIndex(
    src: string, opts: Options, start: nat, firstNl: nat, threads: nat, idx: seq<seq<nat>>, errors: seq<ParseError>)
    requires firstNl < |src| && threads > 0
  {
    var body := Body(src, opts, start, firstNl);
    |idx| > 0 && idx[0] == Header(src, opts, start, firstNl).Offsets() && InOrder(Flatten(idx), 0, |src|) &&
    ((CutsAtCr(src, opts, start, firstNl, threads) ==> CrOptions(opts)) ==>
      (Flatten(idx) == idx[0] + body.Offsets() <==> !FallsShort(src, opts, start, firstNl, threads)) &&
      (!FallsShort(src, opts, start, firstNl, threads) ==> errors == body.errors)) &&
    (!CutsAtCr(src, opts, start, firstNl, threads) ==>
      (Aligned(idx, Columns(src, opts, start, firstNl) + 1) <==> !Ragged(src, opts, start, firstNl, threads))) &&
    (IsChunked(src, opts, start, firstNl, threads) ==>
      LogsInAnyOrder(src, BodyConfig(src, opts, start, firstNl), FileCuts(src, firstNl, threads), errors))
  }

  /** Whatever the order in which the tasks move, they log these errors. */
  ghost predicate LogsInAnyOrder(src: string, cfg: Config, cuts: seq<nat>, errors: seq<ParseError>)
  {
    forall schedule :: AllDone(src, cfg, cuts, schedule) ==>
      multiset(After(src, cfg, cuts, schedule).log) == multiset(errors)
  }

  lemma ChunkedIsIndex(
    src: string, opts: Options, start: nat, firstNl: nat, threads: nat, idx: seq<seq<nat>>, errors: seq<ParseError>)
    requires Regular(src, opts, firstNl) && threads > 0 && IsChunked(src, opts, start, firstNl, threads)
    requires HoldsTasks(src, BodyConfig(src, opts, start, firstNl), FileCuts(src, firstNl, threads),
                        Header(src, opts, start, firstNl).Offsets(), idx, errors, threads)
    ensures IsIndex(src, opts, start, firstNl, threads, idx, errors)
  {
    assert |idx| > 0 && idx[0] == Header(src, opts, start, firstNl).Offsets() && threads > 1;
    IndexInOrder(src, opts, start, firstNl, BodyConfig(src, opts, start, firstNl), threads, idx, errors);
    hide HoldsTasks, IsChunked, FallsShort, Ragged, CutsAtCr, BodyConfig, Header, Body, Regular, Aligned, FileCuts, LogsInAnyOrder,
         InOrder, Flatten, Columns;
    if CutsAtCr(src, opts, start, firstNl, threads) ==> CrOptions(opts) {
      TasksAgainstBody(src, opts, start, firstNl, threads, idx, errors);
    }
    if !CutsAtCr(src, opts, start, firstNl, threads) {
      AlignedIff(src, opts, start, firstNl, threads, idx, errors);
    }
    ErrorsInAnyOrder(src, opts, start, firstNl, threads, idx, errors);
  }

  lemma OneThreadIsIndex(
    src: string, opts: Options, start: nat, firstNl: nat, threads: nat, idx: seq<seq<nat>>, errors: seq<ParseError>)
    requires Regular(src, opts, firstNl) && threads > 0 && !IsChunked(src, opts, start, firstNl, threads)
    requires HoldsTasks(src, opts.Region('\n', Columns(src, opts, start, firstNl), true), FileCuts(src, firstNl, 1),
                        Header(src, opts, start, firstNl).Offsets(), idx, errors, 1)
    ensures IsIndex(src, opts, start, firstNl, threads, idx, errors)
  {
    hide HoldsTasks, IsChunked, Header, Body, Columns, FileCuts, Aligned, InOrder, Flatten, LogsInAnyOrder, BodyConfig,
         Misled, BareBeforeLast, LoneCrCut;
    IndexInOrder(src, opts, start, firstNl, opts.Region('\n', Columns(src, opts, start, firstNl), true), 1, idx, errors);
    OneTaskIsBody(src, opts, start, firstNl, idx, errors);
  }

  /** An attempt that did not throw made an index, at once or as the second one. */
  lemma AttemptIsIndex(
    src: string, opts: Options, start: nat, firstNl: nat, threads: nat, used: nat,
    idx: seq<seq<nat>>, errors: seq<ParseError>)
    requires Regular(src, opts, firstNl) && threads > 0 && Cuttable(src, threads)
    requires used == if Throws(src, opts, start, firstNl, threads) then 1 else threads
    requires HoldsTasks(src, opts.Region('\n', Columns(src, opts, start, firstNl), used == 1), FileCuts(src, firstNl, used),
                        Header(src, opts, start, firstNl).Offsets(), idx, errors, used)
    ensures IsIndex(src, opts, start, firstNl, threads, idx, errors)
  {
    hide Throws, Header, Columns, FileCuts, Regular, Cuttable, Boundaries, NoTaskThrows, TaskOffsets, TaskParseErrors, IsIndex;
    if used == 1 {
      OneThreadIsIndex(src, opts, start, firstNl, threads, idx, errors);
    } else {
      ChunkedIsIndex(src, opts, start, firstNl, threads, idx, errors);
    }
  }

  /**
   The constructor's indexing, from the first line on. With any number of threads the result
   is the one-thread index, if and only if no task of an index in chunks was misled.
   */
  method BuildIndex(src: string, opts: Options, start: nat, numThreads: nat)
    returns (idx: seq<seq<nat>>, rows: nat, columns: nat, errors: seq<ParseError>)
    requires EndsInNewline(src) && numThreads > 0
    ensures var firstNl := FirstNewline(src, start, opts.quote);
            var threads := Threads(src, opts, firstNl, numThreads);
            Regular(src, opts, firstNl) && Cuttable(src, threads) ==>
              columns == Columns(src, opts, start, firstNl) && IsIndex(src, opts, start, firstNl, threads, idx, errors)
    ensures rows == DataRows(|Flatten(idx)|, columns, opts.hasHeader)
  {
    hide IsIndex, HoldsTasks, Throws, Columns, Header, FirstNewline, Flatten;
    var firstNl, nl := FindFirstNewline(src, start, opts.quote);
    var secondNl, _ := FindFirstNewline(src, firstNl + 1, opts.quote);
    var threads := UsedThreads(|src|, if secondNl >= firstNl then secondNl - firstNl else 0, numThreads);
    var used, threw := threads, false;
    threw, idx, columns, errors := Attempt(src, opts, start, firstNl, nl, used);
    if threw {
      used := 1;
      threw, idx, columns, errors := Attempt(src, opts, start, firstNl, nl, used);
    }
    rows := DataRows(|Flatten(idx)|, columns, opts.hasHeader);
    if Regular(src, opts, firstNl) && Cuttable(src, threads) {
      AttemptIsIndex(src, opts, start, firstNl, threads, used, idx, errors);
    }
  }

  function DataRows(size: nat, columns: nat, hasHeader: bool): nat
  {
    var rows := if columns > 0 then size / (columns + 1) else 0;
    if rows > 0 && hasHeader then rows - 1 else rows
  }
}
