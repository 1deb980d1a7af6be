/**
 The indexing loop as the program runs it: a flat offset vector, a column counter, row
 repair by popping and pushing, and a strcspn jump over bytes no branch looks at. It is
 proved to produce what the byte-by-byte Csv.Run produces.
 */
module RegionIndexer {
  import opened Seqs
  import opened Csv

  /** The bytes the scan stops at. Without a quote the fourth slot holds the comment or nothing. */
  function Query(cfg: Config): set<char>
  {
    {cfg.delim, cfg.newline, '\\'}
    + (if cfg.quote != '\0' then {cfg.quote} else {})
    + (if cfg.comment != "" then {cfg.comment[0]} else {})
  }

  /** The C library's strcspn: how many bytes from pos on precede a byte of the query or the terminating NUL. */
  function Strcspn(src: string, pos: nat, query: set<char>): (n: nat)
    requires pos <= |src|
    ensures pos + n <= |src|
    ensures forall i :: pos <= i < pos + n ==> src[i] !in query && src[i] != '\0'
    ensures pos + n < |src| ==> src[pos + n] in query || src[pos + n] == '\0'
    decreases |src| - pos
  {
    if pos == |src| || src[pos] in query || src[pos] == '\0' then 0 else 1 + Strcspn(src, pos + 1, query)
  }

  lemma CommentHead(src: string, pos: nat, end: nat, comment: string)
    requires pos <= end <= |src|
    ensures IsComment(src, pos, end, comment) ==> src[pos] == comment[0]
  {
    if IsComment(src, pos, end, comment) {
      assert src[pos] == src[pos..pos + |comment|][0];
    }
  }

  /** Skipping is sound: bytes outside the query change nothing once a field has begun. */
  lemma {:induction false} SkipIsStepping(
    src: string, cfg: Config, start: nat, pos: nat, next: nat, end: nat, offset: nat, acc: Acc)
    requires end <= |src| && acc.Ok() && pos <= next <= |src|
    requires acc.state in {UnquotedField, QuotedField, QuotedEnd}
    requires forall i :: pos <= i < next ==> src[i] !in Query(cfg) && src[i] != '\0'
    ensures Run(src, cfg, start, pos, end, offset, acc) == Run(src, cfg, start, next, end, offset, acc)
    decreases next - pos
  {
    if pos == next || pos >= end {
    } else {
      assert src[pos] !in Query(cfg);
      assert cfg.comment != "" && src[pos] != cfg.comment[0] ==> !IsComment(src, pos, end, cfg.comment) by {
        CommentHead(src, pos, end, cfg.comment);
      }
      assert Step(cfg, acc, pos + offset, src[pos], pos > start) == Done(acc);
      SkipIsStepping(src, cfg, start, pos + 1, next, end, offset, acc);
    }
  }

  /** The row repair of the program: surplus offsets are popped, missing ones pushed. */
  method ResolveColumns(
    pos: nat, cols0: nat, numCols: nat, destination0: seq<nat>, errors0: seq<ParseError>,
    ghost acc: Acc)
    returns (cols: nat, destination: seq<nat>, errors: seq<ParseError>)
    requires numCols > 0 && acc.open != []
    requires destination0 == acc.Offsets() && cols0 == acc.Cols() && errors0 == acc.errors
    ensures destination + [pos] == Close(acc, pos, numCols, true).Offsets()
    ensures errors == Close(acc, pos, numCols, true).errors
    ensures cols == numCols - 1
  {
    cols, destination, errors := cols0, destination0, errors0;
    hide Flatten;
    ghost var closed := Flatten(acc.records);
    FlattenPush(acc.records, Repaired(acc.open, pos, numCols));
    if cols >= numCols {
      errors := errors + [ParseError(pos, cols)];
      while cols > 0 && cols >= numCols
        invariant numCols - 1 <= cols <= cols0
        invariant destination == closed + acc.open[..cols + 1]
      {
        destination := destination[..|destination| - 1];
        cols := cols - 1;
      }
    } else if cols < numCols - 1 {
      errors := errors + [ParseError(pos, cols)];
      while cols < numCols - 1
        invariant cols0 <= cols <= numCols - 1
        invariant destination == closed + acc.open + Fill(pos, cols - cols0)
      {
        destination := destination + [pos];
        cols := cols + 1;
      }
    }
  }

  /** The flat variables of the program represent acc. */
  ghost predicate Rep(acc: Acc, destination: seq<nat>, cols: nat, errors: seq<ParseError>, state: State)
  {
    acc.Ok() && destination == acc.Offsets() && cols == acc.Cols() && errors == acc.errors && state == acc.state
  }

  /** The end of a record: an optional repair, then the closing offset. */
  method CloseRecord(
    pos: nat, cols0: nat, numCols: nat, repair: bool, destination0: seq<nat>, errors0: seq<ParseError>,
    ghost acc: Acc)
    returns (destination: seq<nat>, errors: seq<ParseError>)
    requires acc.open != []
    requires destination0 == acc.Offsets() && cols0 == acc.Cols() && errors0 == acc.errors
    ensures destination == Close(acc, pos, numCols, repair).Offsets()
    ensures errors == Close(acc, pos, numCols, repair).errors
  {
    destination, errors := destination0, errors0;
    if numCols > 0 && repair {
      var cols;
      cols, destination, errors := ResolveColumns(pos, cols0, numCols, destination, errors, acc);
    } else {
      FlattenPush(acc.records, acc.open + [pos]);
    }
    destination := destination + [pos];
  }

  /** One byte that is neither a comment nor an empty line. `other` says that it only continues a field. */
  method IndexByte(
    c: char, cfg: Config, p: nat, inner: bool,
    destination0: seq<nat>, cols0: nat, errors0: seq<ParseError>, state0: State, ghost acc0: Acc)
    returns (threw: bool, other: bool, destination: seq<nat>, cols: nat, errors: seq<ParseError>, state: State)
    requires Rep(acc0, destination0, cols0, errors0, state0)
    ensures threw <==> Step(cfg, acc0, p, c, inner) == NewlineError
    ensures !threw ==> Rep(Step(cfg, acc0, p, c, inner).acc, destination, cols, errors, state)
    ensures other && !threw ==> state in {UnquotedField, QuotedField, QuotedEnd}
  {
    threw, other, destination, cols, errors, state := false, false, destination0, cols0, errors0, state0;
    ghost var acc := acc0;
    if state == RecordStart {
      destination := destination + [p];
      acc := acc.(open := [p]);
    }
    if state != QuotedField && c == cfg.delim {
      state := OnDelim(state);
      destination := destination + [p];
      cols := cols + 1;
    } else if c == cfg.newline {
      if state == QuotedField {
        threw := !cfg.singleThread;
        return;
      }
      destination, errors := CloseRecord(p, cols, cfg.numCols, inner, destination, errors, acc);
      state := OnNewline(state);
      cols := 0;
    } else if c == cfg.quote {
      state := OnQuote(state);
    } else {
      state := OnOther(state);
      other := true;
    }
  }

  /** One turn of the loop, up to the strcspn jump. */
  method IndexNext(
    src: string, cfg: Config, start: nat, pos0: nat, end: nat, offset: nat,
    destination0: seq<nat>, cols0: nat, errors0: seq<ParseError>, state0: State, ghost acc0: Acc)
    returns (threw: bool, pos: nat, other: bool,
             destination: seq<nat>, cols: nat, errors: seq<ParseError>, state: State)
    requires start <= pos0 < end <= |src|
    requires Rep(acc0, destination0, cols0, errors0, state0)
    ensures threw <==> Next(src, cfg, start, pos0, end, offset, acc0) == Throw
    ensures !threw ==> Next(src, cfg, start, pos0, end, offset, acc0).pos == pos
    ensures !threw ==> Rep(Next(src, cfg, start, pos0, end, offset, acc0).acc, destination, cols, errors, state)
    ensures other && !threw ==> state in {UnquotedField, QuotedField, QuotedEnd}
  {
    threw, pos, other := false, pos0, false;
    destination, cols, errors, state := destination0, cols0, errors0, state0;
    if state != QuotedField && IsComment(src, pos, end, cfg.comment) {
      if state != RecordStart {
        destination, errors := CloseRecord(pos + offset, cols, cfg.numCols, pos > start, destination, errors, acc0);
      }
      cols := 0;
      pos := SkipRestOfLine(src, pos) + 1;
      state := OnNewline(state);
    } else if state == RecordStart && IsEmptyLine(src, pos, end, cfg.skipEmptyRows) {
      pos := SkipRestOfLine(src, pos) + 1;
    } else {
      threw, other, destination, cols, errors, state :=
        IndexByte(src[pos], cfg, pos + offset, pos > start, destination, cols, errors, state, acc0);
      pos := pos + 1;
    }
  }

  /** The program's region indexer. `threw` is its newline_error. */
  method IndexRegion(
    src: string, cfg: Config, start: nat, end: nat, offset: nat,
    destination0: seq<nat>, cols0: nat, errors0: seq<ParseError>, state0: State, ghost acc0: Acc)
    returns (threw: bool, destination: seq<nat>, cols: nat, errors: seq<ParseError>, state: State, ghost acc: Acc)
    requires end <= |src|
    requires Rep(acc0, destination0, cols0, errors0, state0)
    ensures threw <==> Run(src, cfg, start, start, end, offset, acc0) == NewlineError
    ensures !threw ==> Run(src, cfg, start, start, end, offset, acc0) == Done(acc)
    ensures !threw ==> Rep(acc, destination, cols, errors, state)
  {
    threw, destination, cols, errors, state, acc := false, destination0, cols0, errors0, state0, acc0;
    hide Next, Strcspn;
    ghost var whole := Run(src, cfg, start, start, end, offset, acc0);
    var pos := start;
    while pos < end
      invariant !threw && start <= pos
      invariant Rep(acc, destination, cols, errors, state)
      invariant Run(src, cfg, start, pos, end, offset, acc) == whole
      decreases end - pos
    {
      var other;
      ghost var next := Next(src, cfg, start, pos, end, offset, acc);
      threw, pos, other, destination, cols, errors, state :=
        IndexNext(src, cfg, start, pos, end, offset, destination, cols, errors, state, acc);
      if threw {
        return;
      }
      acc := next.acc;
      if other && pos < end {
        var n := Strcspn(src, pos, Query(cfg));
        SkipIsStepping(src, cfg, start, pos, pos + n, end, offset, acc);
        pos := pos + n;
      }
    }
  }
}
