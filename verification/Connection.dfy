/**
 The connection constructor of the delimited index: the header line from the first buffer,
 then every buffer in turn with state, open record and offsets carried over.
 */
module Connection {
  import opened Seqs
  import opened Csv
  import opened RegionIndexer
  import opened Bytewise
  import opened NewlineScan
  import opened Preamble
  import opened FileIndex
  import opened CellAccess
  import opened Buffers
  import opened ReadBuffers
  import opened ConnectionTasks

  /** A buffer holds one byte more than was read, a NUL. */
  function Terminated(chunk: string): (r: string)
    ensures |r| == |chunk| + 1
  {
    chunk + "\0"
  }

  predicate HasExpectedLineEnding(nl: NewlineType, c: char)
  {
    (nl == CR && c == '\r') || c == '\n'
  }

  /** Where the header starts and ends, as found in the first buffer. */
  function HeaderStart(chunk: string, opts: Options, skip: nat): nat
  {
    FirstLineFrom(Terminated(chunk), SkipBom(Terminated(chunk)), skip, opts.comment, opts.skipEmptyRows, opts.quote)
  }

  function HeaderEnd(chunk: string, opts: Options, skip: nat): nat
  {
    FirstNewline(Terminated(chunk), HeaderStart(chunk, opts, skip), opts.quote)
  }

  /** The header line is complete: it closes its record in the first buffer, or it is the whole input, without a newline. */
  predicate HeaderFits(chunks: seq<string>, opts: Options, skip: nat)
    requires chunks != []
  {
    var chunk := chunks[0];
    var end := HeaderEnd(chunk, opts, skip);
    if end < |chunk| then
      chunk[end] == '\n' && Header(Terminated(chunk), opts, HeaderStart(chunk, opts, skip), end).state == RecordStart
    else
      end == |chunk| && |chunks| == 1
  }

  /** The header line does not fit in the buffer, and there is more input. */
  predicate LineTooLong(chunks: seq<string>, opts: Options, skip: nat)
    requires chunks != []
  {
    var buf, end := Terminated(chunks[0]), HeaderEnd(chunks[0], opts, skip);
    |chunks| > 1 && |chunks[0]| > 1 && end < |buf| && buf[end] !in {'\n', '\r'}
  }

  /** The header line ends in the buffer, at the NUL behind what was read at the latest. */
  lemma HeaderEndInBuffer(chunk: string, opts: Options, skip: nat)
    ensures HeaderEnd(chunk, opts, skip) <= |chunk|
  {
    var buf, start := Terminated(chunk), HeaderStart(chunk, opts, skip);
    assert buf[|chunk|] == '\0';
    if start < |buf| {
      var pos := start + Strcspn(buf, start, {'\n', '\r'});
      assert pos <= |chunk|;
    }
  }

  /** The vector once a read has gone into it: brought to the size of the read and one byte more, a NUL. */
  function Refilled(v: string, read: string): string
  {
    Terminated(Resized(|v|, read))
  }

  /** The whole input as the tasks see it. */
  function AsInput(arrived: seq<string>, size: nat, opts: Options, start: nat, columns: nat): Input
  {
    Input(arrived, size, Held(arrived), start, opts.Region('\n', columns, true), EMPTY)
  }

  lemma AsInputIsOk(arrived: seq<string>, size: nat, opts: Options, start: nat, columns: nat)
    requires arrived != [] && AreReads(arrived, size) && start <= |arrived[0]|
    ensures AsInput(arrived, size, opts, start, columns).Ok() && Held(arrived)[0] == arrived[0]
  {
    HeldAreHeld(arrived, size, Held(arrived));
    assert HeldAt(arrived, 0) == arrived[0];
  }

  /** The first k buffers, one region after another; what is open at the end of one is carried into the next. */
  function ReadThrough(chunks: seq<string>, cfg: Config, start: nat, k: nat): (r: Outcome)
    requires k <= |chunks|
    ensures r.Done? ==> r.acc.Ok()
  {
    if k == 0 then Done(EMPTY)
    else
      match ReadThrough(chunks, cfg, start, k - 1)
      case Done(a) =>
        var lo := From(start, k - 1);
        Run(Terminated(chunks[k - 1]), cfg, lo, lo, |chunks[k - 1]|, |Flatten(chunks[..k - 1])|, a)
      case NewlineError => NewlineError
  }

  function LastByte(text: string): char
  {
    if text == "" then '\0' else text[|text| - 1]
  }

  /** The buffer that is read into next, and the length of the other one. */
  lemma NextRefilled(arrived: seq<string>, size: nat, k: nat, v: string)
    requires AreReads(arrived, size) && k < |arrived| && |v| == SizeBefore(arrived, size, k)
    ensures Refilled(v, arrived[k]) == Terminated(Held(arrived)[k]) && |Held(arrived)[k]| == |arrived[k]|
  {
    HeldAreHeld(arrived, size, Held(arrived));
    assert IsHeld(arrived, size, Held(arrived), k);
  }

  /**
   The body's offsets: every buffer is one region, shifted by what was read before it. The reads go
   into two vectors in turn, and what these hold is copied to a file.
   */
  method IndexBuffers(arrived: seq<string>, size: nat, opts: Options, firstNl: nat, columns: nat)
    returns (body: seq<nat>, errors: seq<ParseError>, copy: string)
    requires arrived != [] && AreReads(arrived, size) && firstNl <= |arrived[0]|
    ensures var r := ReadThrough(Held(arrived), opts.Region('\n', columns, true), firstNl + 1, |arrived|);
            r.Done? && body == r.acc.Offsets() && errors == r.acc.errors
    ensures copy == Flatten(Held(arrived))
  {
    hide Run, Held, Resized, AreReads, Flatten, Acc.Offsets, Refilled;
    ghost var chunks := Held(arrived);
    NothingRead(chunks);
    var cfg := opts.Region('\n', columns, true);
    var cols, state := 0, RecordStart;
    body, errors, copy := [], [], "";
    ghost var acc := EMPTY;
    var k, totalRead := 0, 0;
    var bufs := [Fill('\0', size), Fill('\0', size)];
    while k < |arrived|
      invariant 0 <= k <= |arrived| && totalRead == |copy| && copy == Flatten(chunks[..k])
      invariant |bufs| == 2 && |bufs[k % 2]| == SizeBefore(arrived, size, k)
      invariant k < |arrived| ==> |bufs[(k + 1) % 2]| == SizeBefore(arrived, size, k + 1)
      invariant Rep(acc, body, cols, errors, state)
      invariant ReadThrough(chunks, cfg, firstNl + 1, k) == Done(acc)
    {
      NextRefilled(arrived, size, k, bufs[k % 2]);
      var buf, n, lo := Refilled(bufs[k % 2], arrived[k]), |arrived[k]|, From(firstNl + 1, k);
      SingleThreadNeverThrows(buf, cfg, lo, lo, n, totalRead, acc);
      var threw;
      threw, body, cols, errors, state, acc := IndexRegion(buf, cfg, lo, n, totalRead, body, cols, errors, state, acc);
      OneMoreHeld(chunks, k);
      copy := copy + buf[..n];
      totalRead := totalRead + n;
      bufs := bufs[k % 2 := buf];
      k := k + 1;
    }
    assert chunks[..k] == chunks;
  }

  lemma NothingRead(chunks: seq<string>)
    ensures Flatten(chunks[..0]) == "" && EMPTY.Offsets() == []
  {
  }

  lemma OneMoreHeld(chunks: seq<string>, k: nat)
    requires k < |chunks|
    ensures Flatten(chunks[..k + 1]) == Flatten(chunks[..k]) + chunks[k] && Terminated(chunks[k])[..|chunks[k]|] == chunks[k]
  {
    assert chunks[..k + 1] == chunks[..k] + [chunks[k]];
    FlattenPush(chunks[..k], chunks[k]);
  }

  lemma RegionOfBuffer(chunk: string, cfg: Config, lo: nat, offset: nat, acc: Acc)
    requires acc.Ok() && Plain(cfg) && lo <= |chunk|
    ensures Run(Terminated(chunk), cfg, lo, lo, |chunk|, offset, acc) == Fold(cfg, acc, chunk[lo..], lo + offset, false)
  {
    RunIsFold(Terminated(chunk), cfg, lo, lo, |chunk|, offset, acc);
    assert Terminated(chunk)[lo..|chunk|] == chunk[lo..];
  }

  /** Indexing a buffer as a region adds it to the stream. */
  lemma BufferExtendsStream(input: Input, k: nat, before: Acc)
    requires input.Ok() && input.acc == EMPTY && k < |input.chunks| && Plain(input.cfg)
    requires Stream(input.cfg, EMPTY, input.Regions(k), input.start) == Done(before)
    ensures Stream(input.cfg, EMPTY, input.Regions(k + 1), input.start)
         == Run(Terminated(input.chunks[k]), input.cfg, From(input.start, k), From(input.start, k), |input.chunks[k]|, input.Offset(k), before)
  {
    hide Stream, Run, Fold, Flatten;
    var region := input.chunks[k][From(input.start, k)..];
    RegionOfBuffer(input.chunks[k], input.cfg, From(input.start, k), input.Offset(k), before);
    OffsetOfChunk(input, k);
    OneMoreChunk(input, k);
    StreamPush(input.cfg, EMPTY, input.Regions(k), region, input.start);
  }

  /** Without comments and with empty rows kept, the buffers are read as the tasks read them. */
  lemma {:induction false} ReadThroughIsStream(input: Input, k: nat)
    requires input.Ok() && input.acc == EMPTY && k <= |input.chunks| && Plain(input.cfg)
    ensures ReadThrough(input.chunks, input.cfg, input.start, k)
         == Stream(input.cfg, EMPTY, input.Regions(k), input.start)
    ensures Stream(input.cfg, EMPTY, input.Regions(k), input.start).Done?
  {
    hide Run, Fold;
    if k > 0 {
      ReadThroughIsStream(input, k - 1);
      var before := Stream(input.cfg, EMPTY, input.Regions(k - 1), input.start).acc;
      BufferExtendsStream(input, k - 1, before);
      SingleThreadNeverThrows(Terminated(input.chunks[k - 1]), input.cfg, From(input.start, k - 1), From(input.start, k - 1),
                              |input.chunks[k - 1]|, input.Offset(k - 1), before);
    }
  }

  /** The number of columns as the size type holds it: one less than the header's offsets. */
  function ColumnsOf(header: seq<nat>): nat
  {
    if header == [] then SIZE_MAX - 1 else |header| - 1
  }

  /**
   The index of a connection: the header line, then all buffers read through. Where the last newline
   is missing the offset of the end is added, to the header when that is all there is.
   */
  ghost predicate IsConnectionIndex(
    chunks: seq<string>, opts: Options, start: nat, end: nat,
    header: seq<nat>, body: seq<nat>, columns: nat, errors: seq<ParseError>)
    requires chunks != [] && end <= |chunks[0]|
  {
    var h := Header(Terminated(chunks[0]), opts, start, end).Offsets();
    var r := ReadThrough(chunks, opts.Region('\n', ColumnsOf(h), true), end + 1, |chunks|);
    r.Done? && errors == r.acc.errors &&
    if LastByte(Flatten(chunks)) == '\n' then header == h && body == r.acc.Offsets() && columns == ColumnsOf(h)
    else if ColumnsOf(h) == 0 || end == |chunks[0]| then
      header == h + [|Flatten(chunks)|] && body == r.acc.Offsets() && columns == (ColumnsOf(h) + 1) % SIZE_MAX
    else header == h && body == r.acc.Offsets() + [|Flatten(chunks)|] && columns == ColumnsOf(h)
  }

  /** The header, the buffers and the end offset put together. */
  lemma Indexed(
    chunks: seq<string>, opts: Options, start: nat, end: nat, h: seq<nat>, offsets: seq<nat>,
    header: seq<nat>, body: seq<nat>, columns: nat, errors: seq<ParseError>)
    requires chunks != [] && end <= |chunks[0]| && h == Header(Terminated(chunks[0]), opts, start, end).Offsets()
    requires var r := ReadThrough(chunks, opts.Region('\n', ColumnsOf(h), true), end + 1, |chunks|);
             r.Done? && offsets == r.acc.Offsets() && errors == r.acc.errors
    requires if LastByte(Flatten(chunks)) == '\n' then header == h && body == offsets && columns == ColumnsOf(h)
             else if ColumnsOf(h) == 0 || end == |chunks[0]| then
               header == h + [|Flatten(chunks)|] && body == offsets && columns == (ColumnsOf(h) + 1) % SIZE_MAX
             else header == h && body == offsets + [|Flatten(chunks)|] && columns == ColumnsOf(h)
    ensures IsConnectionIndex(chunks, opts, start, end, header, body, columns, errors)
  {
  }

  /** Where the header fits it does not end in a CR. */
  lemma NotCr(chunks: seq<string>, opts: Options, skip: nat)
    requires chunks != []
    ensures HeaderFits(chunks, opts, skip) ==>
              var end := HeaderEnd(chunks[0], opts, skip); end <= |chunks[0]| && Terminated(chunks[0])[end] in {'\n', '\0'}
    ensures HeaderFits(chunks, opts, skip) ==> !LineTooLong(chunks, opts, skip)
  {
    hide HeaderStart, HeaderEnd, Header;
  }

  /** The header line, without row repair. */
  method IndexHeader(buf: string, opts: Options, start: nat, firstNl: nat) returns (header: seq<nat>, columns: nat)
    requires firstNl < |buf|
    ensures header == Header(buf, opts, start, firstNl).Offsets() && columns == ColumnsOf(header)
  {
    assert EMPTY.Offsets() == [];
    hide Run;
    var cfg := opts.Region('\n', 0, true);
    SingleThreadNeverThrows(buf, cfg, start, start, firstNl + 1, 0, EMPTY);
    var threw, cols, errors, state;
    ghost var acc;
    threw, header, cols, errors, state, acc :=
      IndexRegion(buf, cfg, start, firstNl + 1, 0, [], 0, [], RecordStart, EMPTY);
    columns := if |header| > 0 then |header| - 1 else SIZE_MAX - 1;
  }

  method AddEnd(fileSize: nat, header0: seq<nat>, body0: seq<nat>, columns0: nat, singleLine: bool)
    returns (header: seq<nat>, body: seq<nat>, columns: nat)
    requires columns0 == ColumnsOf(header0)
    ensures if columns0 == 0 || singleLine then
              header == header0 + [fileSize] && body == body0 && columns == (columns0 + 1) % SIZE_MAX
            else header == header0 && body == body0 + [fileSize] && columns == columns0
  {
    header, body, columns := header0, body0, columns0;
    if columns == 0 || singleLine {
      header := header + [fileSize];
      columns := (columns + 1) % SIZE_MAX;
    } else {
      body := body + [fileSize];
    }
  }

  /**
   The index of a connection, and the copy that its cells are read from: those of what the buffers
   hold. A header line that does not fit in the buffer is an error.
   */
  method IndexConnection(arrived: seq<string>, size: nat, opts: Options, skip: nat)
    returns (threw: bool, header: seq<nat>, body: seq<nat>, rows: nat, columns: nat, errors: seq<ParseError>, copy: string)
    requires AreReads(arrived, size)
    requires arrived == [] || LineTooLong(arrived, opts, skip) || HeaderFits(arrived, opts, skip)
    ensures threw <==> arrived != [] && LineTooLong(arrived, opts, skip)
    ensures arrived == [] ==> header == [] && body == [] && rows == 0 && columns == 0 && errors == []
    ensures !threw && arrived != [] ==>
              var chunks := Held(arrived);
              var start, end := HeaderStart(arrived[0], opts, skip), HeaderEnd(arrived[0], opts, skip);
              chunks[0] == arrived[0] && end <= |chunks[0]| && copy == Flatten(chunks) &&
              IsConnectionIndex(chunks, opts, start, end, header, body, columns, errors) &&
              rows == DataRows(|header| + |body|, columns, opts.hasHeader)
  {
    hide Run, ReadThrough, Flatten, FirstLineFrom, FirstNewline, IsConnectionIndex, Header, HeaderFits, Held, AreReads, DataRows,
      Acc.Offsets, SkipBom, IsFirstLine, LineAfter, ScanPos, FindNextNewline, Refilled, Terminated;
    threw, header, body, rows, columns, errors, copy := false, [], [], 0, 0, [], "";
    if arrived == [] {
      return;
    }
    FirstRead(arrived, size);
    var buf := Refilled(Fill('\0', size), arrived[0]);
    HeaderEndInBuffer(arrived[0], opts, skip);
    var start := FindFirstLine(buf, skip, opts.comment, opts.skipEmptyRows, opts.quote);
    var firstNl, nl := FindFirstNewline(buf, start, opts.quote);
    NotCr(arrived, opts, skip);
    var singleLine := firstNl == |buf| - 1;
    if |arrived[0]| > 1 && !HasExpectedLineEnding(nl, buf[firstNl]) && |arrived| > 1 {
      threw := true;
      return;
    }
    header, columns := IndexHeader(buf, opts, start, firstNl);
    body, errors, copy := IndexBuffers(arrived, size, opts, firstNl, columns);
    ghost var h, offsets := header, body;
    if !HasExpectedLineEnding(nl, LastByte(copy)) {
      header, body, columns := AddEnd(|copy|, header, body, columns, singleLine);
    }
    Indexed(Held(arrived), opts, start, firstNl, h, offsets, header, body, columns, errors);
    rows := DataRows(|header| + |body|, columns, opts.hasHeader);
  }

  lemma FirstRead(arrived: seq<string>, size: nat)
    requires arrived != [] && AreReads(arrived, size)
    ensures Refilled(Fill('\0', size), arrived[0]) == Terminated(arrived[0]) && Held(arrived)[0] == arrived[0] != ""
  {
    NextRefilled(arrived, size, 0, Fill('\0', size));
    assert HeldAt(arrived, 0) == arrived[0];
  }

  /** Joined up, the regions are the input behind the header line. */
  lemma {:induction false} RegionsAreBody(input: Input, k: nat)
    requires input.Ok() && 0 < k <= |input.chunks|
    ensures input.start <= |Flatten(input.chunks[..k])|
    ensures Flatten(input.Regions(k)) == Flatten(input.chunks[..k])[input.start..]
  {
    assert input.Regions(0) == [] && input.chunks[..0] == [];
    hide Flatten;
    OneMoreChunk(input, k - 1);
    if k > 1 {
      RegionsAreBody(input, k - 1);
      SliceAppend(Flatten(input.chunks[..k - 1]), input.chunks[k - 1], input.start);
    } else {
      NothingBefore(input.chunks[0]);
    }
  }

  lemma SliceAppend(a: string, b: string, i: nat)
    requires i <= |a|
    ensures (a + b)[i..] == a[i..] + b
  {
  }

  lemma NothingBefore(s: string)
    ensures Flatten<char>([]) == [] && [] + s == s
  {
  }

  /**
   The connection index is the one-thread index of the copy, if and only if no buffer starts with
   the newline of a ragged row.
   */
  lemma ConnectionIsFile(arrived: seq<string>, size: nat, opts: Options, firstNl: nat, columns: nat)
    requires arrived != [] && AreReads(arrived, size) && firstNl < |arrived[0]|
    requires opts.comment == "" && !opts.skipEmptyRows
    ensures var copy, input := Flatten(Held(arrived)), AsInput(arrived, size, opts, firstNl + 1, columns);
            input.Ok() &&
            var regions := input.Regions(|arrived|);
            firstNl < |copy| &&
            (Stream(input.cfg, EMPTY, regions, input.start)
             == Run(copy, input.cfg, firstNl + 1, firstNl + 1, |copy|, 0, EMPTY)
             <==> !SomeRaggedCut(input.cfg, EMPTY, regions, input.start))
  {
    hide Stream, Fold, Run, Flatten, SomeRaggedCut, Held, AreHeld;
    var input := AsInput(arrived, size, opts, firstNl + 1, columns);
    AsInputIsOk(arrived, size, opts, firstNl + 1, columns);
    RegionsAreBody(input, |arrived|);
    assert input.chunks[..|arrived|] == input.chunks;
    var copy := Flatten(input.chunks);
    RunIsFold(copy, input.cfg, firstNl + 1, firstNl + 1, |copy|, 0, EMPTY);
    assert copy[firstNl + 1..|copy|] == Flatten(input.Regions(|arrived|));
    CutsDoNotMatter(input.cfg, EMPTY, input.Regions(|arrived|), input.start);
  }

  /** The copy is the input, and the index is that of the input in one region. */
  ghost predicate IsInput(arrived: seq<string>, cfg: Config, start: nat, index: Outcome, copy: string)
  {
    var text := Flatten(arrived);
    copy == text && index == Run(text, cfg, start, start, |text|, 0, EMPTY)
  }

  /**
   Index and copy of a connection are those of its input, if and only if no read is harmed when its
   buffer grows and no buffer starts with the newline of a ragged row.
   */
  lemma ConnectionIsInput(arrived: seq<string>, size: nat, opts: Options, firstNl: nat, columns: nat)
    requires arrived != [] && AreReads(arrived, size) && firstNl < |arrived[0]|
    requires opts.comment == "" && !opts.skipEmptyRows
    ensures var input := AsInput(arrived, size, opts, firstNl + 1, columns);
            input.Ok() &&
            var regions := input.Regions(|arrived|);
            (IsInput(arrived, input.cfg, input.start, Stream(input.cfg, EMPTY, regions, input.start), Flatten(Held(arrived)))
             <==> AllSurvive(arrived) && !SomeRaggedCut(input.cfg, EMPTY, regions, input.start))
  {
    ConnectionIsFile(arrived, size, opts, firstNl, columns);
    CopyIsInputIff(arrived);
  }

  /** Under every schedule of the loop and its tasks. */
  lemma EveryScheduleIsInput(
    arrived: seq<string>, size: nat, opts: Options, firstNl: nat, columns: nat, schedule: seq<Actor>)
    requires arrived != [] && AreReads(arrived, size) && firstNl < |arrived[0]|
    requires opts.comment == "" && !opts.skipEmptyRows
    requires var input := AsInput(arrived, size, opts, firstNl + 1, columns);
             input.Ok() && After(input, schedule).pc == Finished
    ensures var input := AsInput(arrived, size, opts, firstNl + 1, columns);
            var s := After(input, schedule);
            (IsInput(arrived, input.cfg, input.start, Done(s.acc), s.out)
             <==> AllSurvive(arrived) && !SomeRaggedCut(input.cfg, EMPTY, input.Regions(|arrived|), input.start))
  {
    hide After, Stream, IsInput, SomeRaggedCut, AllSurvive, AreHeld, Held;
    EveryScheduleSameIndex(AsInput(arrived, size, opts, firstNl + 1, columns), schedule);
    ConnectionIsInput(arrived, size, opts, firstNl, columns);
  }

  /** The header line reads the same from the first buffer and from the whole text. */
  lemma HeaderIsFileHeader(chunks: seq<string>, opts: Options, start: nat, firstNl: nat)
    requires chunks != [] && start <= firstNl < |chunks[0]| && opts.comment == "" && !opts.skipEmptyRows
    ensures firstNl < |Flatten(chunks)|
    ensures Header(Terminated(chunks[0]), opts, start, firstNl) == Header(Flatten(chunks), opts, start, firstNl)
  {
    hide Run, Fold, Flatten;
    var buf, text := Terminated(chunks[0]), Flatten(chunks);
    assert chunks == [chunks[0]] + chunks[1..];
    FlattenHead(chunks[0], chunks[1..]);
    assert buf[start..firstNl + 1] == text[start..firstNl + 1];
    var cfg := opts.Region('\n', 0, true);
    RunIsFold(buf, cfg, start, start, firstNl + 1, 0, EMPTY);
    RunIsFold(text, cfg, start, start, firstNl + 1, 0, EMPTY);
  }
}
