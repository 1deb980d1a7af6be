/**
 When a cut behind a lone CR shows. It does in the offsets of the tasks, unless empty rows are
 skipped, the CR lies inside quotes, and nothing but blank lines follows it to the end of the file.
 */
module HiddenCuts {
  import opened Seqs
  import opened Csv
  import opened Chunks
  import opened OffsetOrder
  import opened LoneCr

  /** Blanks and line ends only. */
  predicate BlankLines(src: string, lo: nat, hi: nat)
    requires hi <= |src|
  {
    forall i :: lo <= i < hi ==> src[i] in {' ', '\t', '\r', '\n'}
  }

  /** What one thread has read of the file up to v. */
  function UpTo(src: string, cfg: Config, lo: nat, v: nat): (r: Acc)
    requires v <= |src|
    ensures r.Ok()
  {
    var one := cfg.(singleThread := true);
    SingleThreadNeverThrows(src, one, lo, lo, v, 0, EMPTY);
    Run(src, one, lo, lo, v, 0, EMPTY).acc
  }

  /** All cuts behind a lone CR are at v, inside quotes, and only blank lines follow. */
  ghost predicate HiddenAt(src: string, cfg: Config, cuts: seq<nat>, v: nat)
    requires Boundaries(src, cuts) && v <= |src|
  {
    cfg.skipEmptyRows && v in cuts && LoneCrAt(src, v) &&
    (forall i :: 0 <= i < |cuts| && LoneCrAt(src, cuts[i]) ==> cuts[i] == v) &&
    BlankLines(src, v, cuts[|cuts| - 1]) && UpTo(src, cfg, cuts[0], v).state == QuotedField
  }

  ghost predicate Hidden(src: string, cfg: Config, cuts: seq<nat>)
    requires Boundaries(src, cuts)
  {
    exists v :: 0 <= v <= |src| && HiddenAt(src, cfg, cuts, v)
  }

  /** Inside a record, bytes without newlines and quotes add to its offsets and close nothing. */
  lemma {:induction false} StaysOpen(src: string, cfg: Config, start: nat, pos: nat, v: nat, acc: Acc)
    requires NoComment(cfg) && cfg.newline == '\n' && cfg.singleThread && acc.Ok() && acc.open != [] && v <= |src|
    requires acc.state != QuotedField && forall i :: pos <= i < v ==> src[i] != '\n' && src[i] != cfg.quote
    ensures var r := Run(src, cfg, start, pos, v, 0, acc);
            r.Done? && r.acc.records == acc.records && acc.open <= r.acc.open && r.acc.state !in {QuotedField, RecordStart}
    decreases v - pos
  {
    if pos < v {
      MoveIs(src, cfg, start, pos, v, acc);
      var next := Step(cfg, acc, pos, src[pos], pos > start).acc;
      hide Step, Next;
      StaysOpen(src, cfg, start, pos + 1, v, next);
    }
  }

  /** A record that a blank opens at l holds l as long as no line end comes. */
  lemma OpensAt(src: string, cfg: Config, start: nat, l: nat, v: nat, a: Acc)
    requires NoComment(cfg) && CrIsText(cfg) && cfg.skipEmptyRows && cfg.newline == '\n' && cfg.singleThread && a.Ok()
    requires l < v <= |src| && Blank(src, l, v) && a.state == RecordStart && !IsEmptyLine(src, l, v, true)
    ensures var front := Run(src, cfg, start, l, v, 0, a);
            front.Done? && front.acc.state != QuotedField && Count(front.acc, l) >= 1
  {
    hide IsEmptyLine;
    MoveIs(src, cfg, start, l, v, a);
    var next := Step(cfg, a, l, src[l], l > start).acc;
    assert next.records == a.records && [l] <= next.open && next.state !in {QuotedField, RecordStart};
    hide Step, Next;
    StaysOpen(src, cfg, start, l + 1, v, next);
    var front := Run(src, cfg, start, l + 1, v, 0, next).acc;
    assert front.open[0] == l && l in front.Offsets();
  }

  /** An empty line that holds the CR: one thread passes over it, a region that ends at the CR records its start. */
  lemma LineWithCr(src: string, cfg: Config, start: nat, l: nat, v: nat, hi: nat, a: Acc)
    requires NoComment(cfg) && CrIsText(cfg) && cfg.newline == '\n' && cfg.singleThread && a.Ok()
    requires start <= l < v < hi <= |src| && LoneCrAt(src, v) && Boundary(src, hi) && InOrder(a.Offsets(), start, l)
    requires Skips(src, cfg, a, l, hi) && !Skips(src, cfg, a, l, v) && SkipRestOfLine(src, l) >= v
    ensures var front, whole := Run(src, cfg, start, l, v, 0, a), Run(src, cfg, start, l, hi, 0, a);
            front.Done? && whole.Done? && Count(front.acc, l) >= 1 && Count(whole.acc, l) == 0 && front.acc.state != QuotedField
  {
    hide IsEmptyLine, Step, Next, SkipRestOfLine;
    SkippedLine(src, cfg, a, l, hi);
    OpensAt(src, cfg, start, l, v, a);
    MoveIs(src, cfg, start, l, hi, a);
    SingleThreadNeverThrows(src, cfg, start, l, hi, 0, a);
    RunAddsBehind(src, cfg, start, SkipRestOfLine(src, l) + 1, hi, a, l);
    assert Count(a, l) == 0;
  }

  lemma EndIsOffset(records: seq<seq<nat>>, open: seq<nat>, n: nat, numCols: nat)
    ensures n in Flatten(records + [Closed(open, n, numCols, true)])
  {
    var record := Closed(open, n, numCols, true);
    assert record[|record| - 1] == n;
    hide Closed;
    FlattenPush(records, record);
  }

  /** Outside quotes the newline behind blanks closes the record there. */
  lemma {:induction false} ClosesAt(src: string, cfg: Config, start: nat, pos: nat, n: nat, hi: nat, acc: Acc)
    requires NoComment(cfg) && cfg.newline == '\n' && cfg.delim != '\n' && cfg.quote !in {' ', '\t', '\r'} && cfg.singleThread && acc.Ok()
    requires start < pos <= n < hi <= |src| && src[n] == '\n' && Blank(src, pos, n) && acc.state !in {QuotedField, RecordStart}
    ensures var r := Run(src, cfg, start, pos, hi, 0, acc); r.Done? && n in r.acc.Offsets()
    decreases n - pos
  {
    hide Next, Closed, Flatten, IsEmptyLine;
    MoveIs(src, cfg, start, pos, hi, acc);
    var next := Step(cfg, acc, pos, src[pos], true).acc;
    if pos < n {
      ClosesAt(src, cfg, start, pos + 1, n, hi, next);
    } else {
      StepEffect(cfg, acc, n, '\n', true);
      assert next.records != acc.records;
      EndIsOffset(acc.records, acc.open, n, cfg.numCols);
      hide Step;
      SingleThreadNeverThrows(src, cfg, start, n + 1, hi, 0, next);
      RecordsStay(src, cfg, start, n + 1, hi, next);
    }
  }

  /** A byte inside quotes, with only blank lines before it since pos, is no offset. */
  lemma {:induction false} QuotedStays(src: string, cfg: Config, start: nat, pos: nat, x: nat, hi: nat, acc: Acc)
    requires NoComment(cfg) && cfg.newline == '\n' && cfg.quote !in {' ', '\t', '\r'} && cfg.singleThread && acc.Ok()
    requires pos <= x < hi <= |src| && BlankLines(src, pos, x) && acc.state == QuotedField
    ensures var r := Run(src, cfg, start, pos, hi, 0, acc); r.Done? && Count(r.acc, x) <= Count(acc, x)
    decreases x - pos
  {
    MoveIs(src, cfg, start, pos, hi, acc);
    var next := Step(cfg, acc, pos, src[pos], pos > start);
    assert next.Done? && next.acc.Offsets() == acc.Offsets();
    hide Next;
    if pos < x {
      assert next.acc == acc;
      hide Step;
      QuotedStays(src, cfg, start, pos + 1, x, hi, acc);
    } else {
      hide Step;
      SingleThreadNeverThrows(src, cfg, start, pos + 1, hi, 0, next.acc);
      RunAddsBehind(src, cfg, start, pos + 1, hi, next.acc, x);
    }
  }

  lemma {:induction false} QuotedToEnd(src: string, cfg: Config, start: nat, pos: nat, hi: nat, acc: Acc)
    requires NoComment(cfg) && cfg.newline == '\n' && cfg.quote !in {' ', '\t', '\r'} && cfg.singleThread && acc.Ok()
    requires hi <= |src| && BlankLines(src, pos, hi) && acc.state == QuotedField
    ensures Run(src, cfg, start, pos, hi, 0, acc) == Done(acc)
    decreases hi - pos
  {
    if pos < hi {
      MoveIs(src, cfg, start, pos, hi, acc);
      assert Step(cfg, acc, pos, src[pos], pos > start) == Done(acc);
      hide Step, Next;
      QuotedToEnd(src, cfg, start, pos + 1, hi, acc);
    }
  }

  lemma FirstStep(cfg: Config, p: nat, c: char, inner: bool)
    ensures var r := Step(cfg, EMPTY, p, c, inner); r.Done? && Head(r.acc, [p])
  {
    StepEffect(cfg, EMPTY, p, c, inner);
    RecordKeepsHead([p], p, cfg.numCols, inner, [p]);
    FlattenPush([], Closed([p], p, cfg.numCols, inner));
  }

  /** A region whose lines are empty up to x: then it is over, or x is its first offset. */
  lemma {:induction false} SkipsOrPushes(src: string, cfg: Config, start: nat, pos: nat, hi: nat) returns (x: nat)
    requires NoComment(cfg) && pos <= hi <= |src| && Boundary(src, hi) && Run(src, cfg, start, pos, hi, 0, EMPTY).Done?
    ensures pos <= x <= hi && BlankLines(src, pos, x)
    ensures x == hi ==> Run(src, cfg, start, pos, hi, 0, EMPTY) == Done(EMPTY) && (pos < hi ==> src[hi - 1] == '\n')
    ensures x < hi ==> Count(Run(src, cfg, start, pos, hi, 0, EMPTY).acc, x) >= 1
    decreases hi - pos
  {
    hide Step, Next, IsEmptyLine, SkipRestOfLine;
    x := pos;
    if pos < hi {
      MoveIs(src, cfg, start, pos, hi, EMPTY);
      if Skips(src, cfg, EMPTY, pos, hi) {
        SkippedLine(src, cfg, EMPTY, pos, hi);
        x := SkipsOrPushes(src, cfg, start, SkipRestOfLine(src, pos) + 1, hi);
      } else {
        FirstStep(cfg, pos, src[pos], pos > start);
        var next := Step(cfg, EMPTY, pos, src[pos], pos > start).acc;
        RunKeepsHead(src, cfg, start, pos + 1, hi, next, [pos]);
        assert Run(src, cfg, start, pos, hi, 0, EMPTY).acc.Offsets()[0] == pos;
      }
    }
  }

  /** A region of blank lines yields nothing. */
  lemma {:induction false} BlankRegion(src: string, cfg: Config, start: nat, pos: nat, hi: nat)
    requires NoComment(cfg) && cfg.skipEmptyRows && pos <= hi <= |src| && BlankLines(src, pos, hi)
    requires pos < hi ==> src[hi - 1] == '\n'
    ensures Run(src, cfg, start, pos, hi, 0, EMPTY) == Done(EMPTY)
    decreases hi - pos
  {
    if pos < hi {
      var n := IndexFrom(src, pos, '\n');
      assert n < hi;
      BlankIsEmptyLine(src, pos, n, hi);
      MoveIs(src, cfg, start, pos, hi, EMPTY);
      hide Step, Next, IsEmptyLine;
      BlankRegion(src, cfg, start, n + 1, hi);
    }
  }

  lemma {:induction false} NoThrowAlike(src: string, cfg: Config, start: nat, pos: nat, hi: nat, acc: Acc)
    requires NoComment(cfg) && acc.Ok() && hi <= |src| && Run(src, cfg, start, pos, hi, 0, acc).Done?
    ensures Run(src, cfg.(singleThread := true), start, pos, hi, 0, acc) == Run(src, cfg, start, pos, hi, 0, acc)
    decreases hi - pos
  {
    if pos < hi {
      var next := Next(src, cfg, start, pos, hi, 0, acc);
      assert next == Next(src, cfg.(singleThread := true), start, pos, hi, 0, acc);
      hide Next;
      NoThrowAlike(src, cfg, start, next.pos, hi, next.acc);
    }
  }

  /** The tasks for the chunks before a boundary do not depend on the boundaries behind it. */
  lemma {:induction false} SameTasks(src: string, cfg: Config, a: seq<nat>, b: seq<nat>, k: nat)
    requires Boundaries(src, a) && Boundaries(src, b) && k < |a| && k < |b| && forall i {:trigger a[i]} :: 0 <= i <= k ==> a[i] == b[i]
    ensures NoTaskThrows(src, cfg, a, k) <==> NoTaskThrows(src, cfg, b, k)
    ensures NoTaskThrows(src, cfg, a, k) ==>
              TaskOffsets(src, cfg, a, k) == TaskOffsets(src, cfg, b, k) &&
              TaskParseErrors(src, cfg, a, k) == TaskParseErrors(src, cfg, b, k)
  {
    hide Run, Boundaries, Acc.Offsets;
    forall i | 0 <= i < k
      ensures TaskChunk(src, cfg, a, i) == TaskChunk(src, cfg, b, i)
    {
      assert a[i] == b[i] && a[i + 1] == b[i + 1];
    }
    hide TaskChunk;
    if k > 0 {
      SameTasks(src, cfg, a, b, k - 1);
    }
  }

  /** Up to the first cut behind a lone CR the tasks have found what one thread has. */
  lemma TasksUpTo(src: string, cfg: Config, cuts: seq<nat>, j: nat)
    requires LineConfig(cfg) && NoComment(cfg) && cfg.skipEmptyRows && !cfg.singleThread
    requires Boundaries(src, cuts) && 0 < j < |cuts| && NoTaskThrows(src, cfg, cuts, j)
    requires forall i :: 0 <= i < j ==> !LoneCrAt(src, cuts[i])
    ensures var front := UpTo(src, cfg, cuts[0], cuts[j]);
            TaskOffsets(src, cfg, cuts, j) == front.Offsets() && TaskParseErrors(src, cfg, cuts, j) == front.errors
  {
    hide Run, TaskOffsets, TaskParseErrors;
    var p := cuts[..j];
    assert src[p[j - 1] - 1] == '\n' by {
      assert Boundary(src, cuts[j - 1]);
    }
    SameTasks(src, cfg, cuts, p, j - 1);
    assert forall i :: 0 <= i < j - 1 ==> TaskChunk(src, cfg, cuts, i).Done?;
    TasksAreChunks(src, cfg, p, j - 1);
    ChunksAgainstWhole(src, cfg, p, j - 1);
    OneMoreTask(src, cfg, cuts, j, Whole(src, cfg, p, j - 1).acc);
  }

  lemma OneMoreTask(src: string, cfg: Config, cuts: seq<nat>, j: nat, before: Acc)
    requires LineConfig(cfg) && NoComment(cfg) && cfg.skipEmptyRows && !cfg.singleThread
    requires Boundaries(src, cuts) && 0 < j < |cuts| && NoTaskThrows(src, cfg, cuts, j) && src[cuts[j - 1] - 1] == '\n'
    requires Run(src, cfg.(singleThread := true), cuts[0], cuts[0], cuts[j - 1], 0, EMPTY) == Done(before)
    requires before.Ok() && before.state == RecordStart && NoTaskThrows(src, cfg, cuts, j - 1)
    requires TaskOffsets(src, cfg, cuts, j - 1) == before.Offsets() && TaskParseErrors(src, cfg, cuts, j - 1) == before.errors
    ensures var front := UpTo(src, cfg, cuts[0], cuts[j]);
            TaskOffsets(src, cfg, cuts, j) == front.Offsets() && TaskParseErrors(src, cfg, cuts, j) == front.errors
  {
    hide Run, Flatten;
    var one := cfg.(singleThread := true);
    var lo, u, v := cuts[0], cuts[j - 1], cuts[j];
    assert TaskChunk(src, cfg, cuts, j - 1).Done? && !LoneCrAt(src, u);
    NoThrowAlike(src, cfg, u, u, v, EMPTY);
    if lo < u {
      ChunkInContext(src, one, lo, u, v);
    }
    var chunk := TaskChunk(src, cfg, cuts, j - 1).acc;
    assert Run(src, one, lo, u, v, 0, EMPTY) == Done(chunk);
    RunSplits(src, one, lo, lo, u, v, EMPTY);
    assert before == Prepend(EMPTY, before.records, before.errors);
    RunPrepends(src, one, lo, u, v, EMPTY, before.records, before.errors);
    FlattenAppend(before.records, chunk.records);
    Associative(Flatten(before.records), Flatten(chunk.records), chunk.open);
  }

  /** What the tasks from chunk j on find first: nothing at all in blank lines, or an offset behind blank lines. */
  lemma {:induction false} FirstTaskOffset(src: string, cfg: Config, cuts: seq<nat>, j: nat) returns (x: nat, m: nat)
    requires NoComment(cfg) && Boundaries(src, cuts) && j < |cuts| && NoTaskThrows(src, cfg, cuts, |cuts| - 1)
    ensures cuts[j] <= x <= cuts[|cuts| - 1] <= |src| && BlankLines(src, cuts[j], x)
    ensures x < cuts[|cuts| - 1] ==>
              j <= m < |cuts| - 1 && TaskChunk(src, cfg, cuts, m).Done? && Count(TaskChunk(src, cfg, cuts, m).acc, x) >= 1
    ensures x == cuts[|cuts| - 1] ==>
              forall i :: j <= i < |cuts| && cuts[j] < cuts[i] ==> src[cuts[i] - 1] == '\n'
    decreases |cuts| - j
  {
    hide Run;
    assert Boundary(src, cuts[|cuts| - 1]) && Boundary(src, cuts[j]);
    if j == |cuts| - 1 {
      x, m := cuts[j], j;
    } else {
      assert TaskChunk(src, cfg, cuts, j).Done? && Boundary(src, cuts[j + 1]);
      x := SkipsOrPushes(src, TaskConfig(src, cfg, cuts[j]), cuts[j], cuts[j], cuts[j + 1]);
      m := j;
      if x == cuts[j + 1] {
        x, m := FirstTaskOffset(src, cfg, cuts, j + 1);
      }
    }
  }

  lemma TheLastTask(src: string, cfg: Config, cuts: seq<nat>, n: nat)
    requires Boundaries(src, cuts) && 0 < n < |cuts| && NoTaskThrows(src, cfg, cuts, n)
    ensures NoTaskThrows(src, cfg, cuts, n - 1) && TaskChunk(src, cfg, cuts, n - 1).Done?
    ensures TaskOffsets(src, cfg, cuts, n) == TaskOffsets(src, cfg, cuts, n - 1) + TaskChunk(src, cfg, cuts, n - 1).acc.Offsets()
    ensures TaskParseErrors(src, cfg, cuts, n) == TaskParseErrors(src, cfg, cuts, n - 1) + TaskChunk(src, cfg, cuts, n - 1).acc.errors
  {
    hide TaskChunk, Boundaries, Acc.Offsets;
  }

  /** The offsets of the first tasks are the first of all offsets. */
  lemma {:induction false} TasksGrow(src: string, cfg: Config, cuts: seq<nat>, j: nat, n: nat)
    requires Boundaries(src, cuts) && j <= n < |cuts| && NoTaskThrows(src, cfg, cuts, n)
    ensures NoTaskThrows(src, cfg, cuts, j) && TaskOffsets(src, cfg, cuts, j) <= TaskOffsets(src, cfg, cuts, n)
    decreases n - j
  {
    hide TaskChunk, Boundaries, Acc.Offsets, TaskOffsets, NoTaskThrows;
    if j < n {
      TheLastTask(src, cfg, cuts, n);
      TasksGrow(src, cfg, cuts, j, n - 1);
    }
  }

  lemma {:induction false} NoTaskHas(src: string, cfg: Config, cuts: seq<nat>, k: nat, x: nat)
    requires Boundaries(src, cuts) && k < |cuts| && NoTaskThrows(src, cfg, cuts, k)
    requires forall i :: 0 <= i < k ==> x !in TaskChunk(src, cfg, cuts, i).acc.Offsets()
    ensures x !in TaskOffsets(src, cfg, cuts, k)
  {
    assert forall i :: 0 <= i < k ==> TaskChunk(src, cfg, cuts, i).Done?;
    hide TaskChunk;
    if k > 0 {
      NoTaskHas(src, cfg, cuts, k - 1, x);
    }
  }

  /** The offsets of a task lie in its chunk. */
  lemma OffsetInItsChunk(src: string, cfg: Config, cuts: seq<nat>, i: nat, x: nat)
    requires Boundaries(src, cuts) && i + 1 < |cuts| && TaskChunk(src, cfg, cuts, i).Done?
    ensures x in TaskChunk(src, cfg, cuts, i).acc.Offsets() ==> cuts[i] <= x < cuts[i + 1]
  {
    hide Run;
    assert EMPTY.Offsets() == [];
    RunInOrder(src, TaskConfig(src, cfg, cuts[i]), cuts[i], cuts[i], cuts[i + 1], EMPTY);
  }

  /** A newline outside quotes that ends the line of the CR is an offset of the whole file, and of no task. */
  lemma SkippedNewline(src: string, cfg: Config, cuts: seq<nat>, i: nat, front: Acc)
    requires LineConfig(cfg) && NoComment(cfg) && CrIsText(cfg) && cfg.skipEmptyRows && !cfg.singleThread && front.Ok()
    requires Boundaries(src, cuts) && i + 1 < |cuts| && NoTaskThrows(src, cfg, cuts, |cuts| - 1)
    requires cuts[0] < cuts[i] < cuts[i + 1] && LoneCrAt(src, cuts[i]) && IsEmptyLine(src, cuts[i], cuts[i + 1], true)
    requires front.state !in {QuotedField, RecordStart}
    ensures var n := |cuts| - 1;
            var whole := Run(src, cfg.(singleThread := true), cuts[0], cuts[i], cuts[n], 0, front);
            whole.Done? && TaskOffsets(src, cfg, cuts, n) != whole.acc.Offsets()
  {
    hide Run, Next, Step, IsEmptyLine, SkipRestOfLine, TaskOffsets, Acc.Offsets;
    var n, v, w := |cuts| - 1, cuts[i], cuts[i + 1];
    assert Boundary(src, w) && Boundary(src, cuts[n]) && w <= cuts[n];
    var nl := SkipRestOfLine(src, v);
    SkippedLine(src, cfg, EMPTY, v, w);
    ClosesAt(src, cfg.(singleThread := true), cuts[0], v, nl, cuts[n], front);
    forall k | 0 <= k < n
      ensures nl !in TaskChunk(src, cfg, cuts, k).acc.Offsets()
    {
      assert TaskChunk(src, cfg, cuts, k).Done?;
      OffsetInItsChunk(src, cfg, cuts, k, nl);
      if k == i {
        NotInSkippedLine(src, TaskConfig(src, cfg, v), v, w, nl);
      }
    }
    NoTaskHas(src, cfg, cuts, n, nl);
  }

  lemma NotInSkippedLine(src: string, cfg: Config, v: nat, w: nat, n: nat)
    requires NoComment(cfg) && v < w <= |src| && Skips(src, cfg, EMPTY, v, w) && n == SkipRestOfLine(src, v)
    ensures var r := Run(src, cfg, v, v, w, 0, EMPTY); r.Done? ==> n !in r.acc.Offsets()
  {
    hide IsEmptyLine, SkipRestOfLine;
    MoveIs(src, cfg, v, v, w, EMPTY);
    hide Step, Next;
    RunAddsBehind(src, cfg, v, n + 1, w, EMPTY, n);
    assert EMPTY.Offsets() == [];
  }

  lemma NoOffsetInQuotes(src: string, cfg: Config, lo: nat, v: nat, x: nat, hi: nat, front: Acc)
    requires NoComment(cfg) && CrIsText(cfg) && cfg.skipEmptyRows && cfg.newline == '\n' && cfg.singleThread && front.Ok()
    requires lo < v <= x < hi <= |src| && BlankLines(src, v, x) && front.state == QuotedField && InOrder(front.Offsets(), lo, v)
    ensures var whole := Run(src, cfg, lo, v, hi, 0, front); whole.Done? && Count(whole.acc, x) == 0
  {
    assert x !in front.Offsets();
    QuotedStays(src, cfg, lo, v, x, hi, front);
  }

  /** An offset that a task records more often than one thread. */
  lemma MoreInTask(src: string, cfg: Config, cuts: seq<nat>, m: nat, x: nat, whole: Acc)
    requires Boundaries(src, cuts) && NoTaskThrows(src, cfg, cuts, |cuts| - 1) && m < |cuts| - 1
    requires TaskChunk(src, cfg, cuts, m).Done? && Count(TaskChunk(src, cfg, cuts, m).acc, x) > Count(whole, x)
    ensures TaskOffsets(src, cfg, cuts, |cuts| - 1) != whole.Offsets()
  {
    hide TaskOffsets, TaskChunk, Boundaries, Acc.Offsets, NoTaskThrows;
    OffsetsHoldChunk(src, cfg, cuts, |cuts| - 1, m, x);
  }

  /** The first cut that lies behind a lone CR. */
  lemma {:induction false} FirstLoneCr(src: string, cuts: seq<nat>, k: nat) returns (j: nat)
    requires k < |cuts| && exists i :: k <= i < |cuts| && LoneCrAt(src, cuts[i])
    ensures k <= j < |cuts| && LoneCrAt(src, cuts[j]) && forall i :: k <= i < j ==> !LoneCrAt(src, cuts[i])
    decreases |cuts| - k
  {
    j := k;
    if !LoneCrAt(src, cuts[k]) {
      j := FirstLoneCr(src, cuts, k + 1);
    }
  }

  /** Nothing but blank lines behind the CR, where one thread is inside quotes: the tasks agree with one thread. */
  lemma HiddenAgrees(src: string, cfg: Config, cuts: seq<nat>, v: nat)
    requires LineConfig(cfg) && NoComment(cfg) && CrIsText(cfg) && !cfg.singleThread
    requires Boundaries(src, cuts) && NoTaskThrows(src, cfg, cuts, |cuts| - 1) && v <= |src| && HiddenAt(src, cfg, cuts, v)
    ensures var n := |cuts| - 1;
            var whole := UpTo(src, cfg, cuts[0], cuts[n]);
            TaskOffsets(src, cfg, cuts, n) == whole.Offsets() && TaskParseErrors(src, cfg, cuts, n) == whole.errors
  {
    var n := |cuts| - 1;
    var j := FirstLoneCr(src, cuts, 0);
    var front := UpTo(src, cfg, cuts[0], v);
    BehindFirst(src, cuts, j);
    assert Boundary(src, cuts[n]);
    hide Run, TaskOffsets, TaskParseErrors, TaskChunk;
    TasksGrow(src, cfg, cuts, j, n);
    TasksUpTo(src, cfg, cuts, j);
    NothingBehind(src, cfg, cuts, j, n);
    WholeBehind(src, cfg, cuts[0], v, cuts[n]);
    QuotedToEnd(src, cfg.(singleThread := true), cuts[0], v, cuts[n], front);
  }

  /** The first cut behind a lone CR lies behind the first cut, and before the last. */
  lemma BehindFirst(src: string, cuts: seq<nat>, j: nat)
    requires Boundaries(src, cuts) && j < |cuts| && LoneCrAt(src, cuts[j])
    ensures 0 < j < |cuts| - 1 && cuts[0] < cuts[j] < cuts[|cuts| - 1]
  {
  }

  /** Where one thread is inside a record at the CR, it goes on from there. */
  lemma WholeBehind(src: string, cfg: Config, lo: nat, v: nat, hi: nat)
    requires NoComment(cfg) && CrIsText(cfg) && cfg.newline == '\n'
    requires lo < v < hi <= |src| && LoneCrAt(src, v) && Boundary(src, hi) && UpTo(src, cfg, lo, v).state == QuotedField
    ensures Run(src, cfg.(singleThread := true), lo, v, hi, 0, UpTo(src, cfg, lo, v)) == Done(UpTo(src, cfg, lo, hi))
  {
    hide Run;
    var one := cfg.(singleThread := true);
    assert InOrder(EMPTY.Offsets(), lo, lo);
    var l, a := UpToCr(src, one, lo, lo, v, hi, EMPTY);
    SingleThreadNeverThrows(src, one, lo, lo, hi, 0, EMPTY);
    SingleThreadNeverThrows(src, one, lo, lo, v, 0, EMPTY);
    if l < v {
      LineWithCr(src, one, lo, l, v, hi, a);
    } else {
      NothingLeft(src, one, lo, v, a);
    }
  }

  lemma NothingLeft(src: string, cfg: Config, start: nat, pos: nat, acc: Acc)
    requires acc.Ok() && pos <= |src|
    ensures Run(src, cfg, start, pos, pos, 0, acc) == Done(acc)
  {
  }

  /** Tasks whose chunks are blank lines add nothing. */
  lemma {:induction false} NothingBehind(src: string, cfg: Config, cuts: seq<nat>, j: nat, n: nat)
    requires NoComment(cfg) && cfg.skipEmptyRows && Boundaries(src, cuts) && j <= n < |cuts|
    requires NoTaskThrows(src, cfg, cuts, n) && NoTaskThrows(src, cfg, cuts, j) && cuts[n] <= |src|
    requires BlankLines(src, cuts[j], cuts[n])
    requires forall i :: 0 <= i < |cuts| && LoneCrAt(src, cuts[i]) ==> cuts[i] == cuts[j]
    ensures TaskOffsets(src, cfg, cuts, n) == TaskOffsets(src, cfg, cuts, j)
    ensures TaskParseErrors(src, cfg, cuts, n) == TaskParseErrors(src, cfg, cuts, j)
    decreases n - j
  {
    hide TaskOffsets, TaskParseErrors, TaskChunk, NoTaskThrows, BlankLines, Acc.Offsets, LoneCrAt;
    if j < n {
      assert cuts[j] <= cuts[n - 1];
      BlankTask(src, cfg, cuts, j, n - 1);
      TheLastTask(src, cfg, cuts, n);
      NothingBehind(src, cfg, cuts, j, n - 1);
    }
  }

  lemma BlankTask(src: string, cfg: Config, cuts: seq<nat>, j: nat, i: nat)
    requires NoComment(cfg) && cfg.skipEmptyRows && Boundaries(src, cuts) && j <= i < |cuts| - 1
    requires cuts[i + 1] <= |src| && BlankLines(src, cuts[j], cuts[i + 1])
    requires forall k :: 0 <= k < |cuts| && LoneCrAt(src, cuts[k]) ==> cuts[k] == cuts[j]
    ensures TaskChunk(src, cfg, cuts, i) == Done(EMPTY) && EMPTY.Offsets() == []
    ensures cuts[i] <= |src| && BlankLines(src, cuts[j], cuts[i])
  {
    hide Run;
    assert Boundary(src, cuts[i + 1]);
    BlankRegion(src, TaskConfig(src, cfg, cuts[i]), cuts[i], cuts[i], cuts[i + 1]);
  }

  /**
   What one thread makes of the CR: it lies in a line that is passed over, though a region that ends
   at the CR records its start, or in a record, which goes on behind the CR.
   */
  lemma CrSeen(src: string, cfg: Config, lo: nat, v: nat, hi: nat) returns (l: nat)
    requires NoComment(cfg) && CrIsText(cfg) && cfg.newline == '\n'
    requires lo < v < hi <= |src| && LoneCrAt(src, v) && Boundary(src, hi)
    ensures l < v ==> cfg.skipEmptyRows && Count(UpTo(src, cfg, lo, v), l) >= 1 && Count(UpTo(src, cfg, lo, hi), l) == 0
    ensures l >= v ==>
              var a := UpTo(src, cfg, lo, v);
              a.state != RecordStart && InOrder(a.Offsets(), lo, v) &&
              Run(src, cfg.(singleThread := true), lo, v, hi, 0, a) == Done(UpTo(src, cfg, lo, hi))
  {
    hide Run, InOrder;
    var one := cfg.(singleThread := true);
    NothingYet(lo);
    SingleThreadNeverThrows(src, one, lo, lo, v, 0, EMPTY);
    SingleThreadNeverThrows(src, one, lo, lo, hi, 0, EMPTY);
    var a;
    l, a := UpToCr(src, one, lo, lo, v, hi, EMPTY);
    if l < v {
      LineWithCr(src, one, lo, l, v, hi, a);
    } else {
      NothingLeft(src, one, lo, v, a);
    }
  }

  /** A cut behind a lone CR shows in the offsets, unless it is hidden. */
  lemma ShowsOrHidden(src: string, cfg: Config, cuts: seq<nat>)
    requires LineConfig(cfg) && NoComment(cfg) && CrIsText(cfg) && !cfg.singleThread
    requires Boundaries(src, cuts) && LoneCrCut(src, cuts) && NoTaskThrows(src, cfg, cuts, |cuts| - 1)
    ensures var n := |cuts| - 1;
            TaskOffsets(src, cfg, cuts, n) != UpTo(src, cfg, cuts[0], cuts[n]).Offsets() || Hidden(src, cfg, cuts)
  {
    var j := FirstLoneCr(src, cuts, 0);
    BehindFirst(src, cuts, j);
    assert Boundary(src, cuts[|cuts| - 1]);
    hide Run, TaskOffsets, TaskChunk, Acc.Offsets, NoTaskThrows, CrIsText, UpTo, Hidden, Boundaries, InOrder;
    var l := CrSeen(src, cfg, cuts[0], cuts[j], cuts[|cuts| - 1]);
    if l < cuts[j] {
      EmptyLineShows(src, cfg, cuts, j, l);
    } else {
      RecordShowsOrHidden(src, cfg, cuts, j);
    }
  }

  lemma NothingYet(lo: nat)
    ensures InOrder(EMPTY.Offsets(), lo, lo)
  {
  }

  lemma PrefixCount(s: seq<nat>, t: seq<nat>, x: nat)
    requires s <= t
    ensures multiset(s)[x] <= multiset(t)[x]
  {
    assert t == s + t[|s|..];
  }

  /** The CR lies in an empty line, whose start only the tasks record. */
  lemma EmptyLineShows(src: string, cfg: Config, cuts: seq<nat>, j: nat, l: nat)
    requires LineConfig(cfg) && NoComment(cfg) && cfg.skipEmptyRows && !cfg.singleThread
    requires Boundaries(src, cuts) && 0 < j < |cuts| - 1 && NoTaskThrows(src, cfg, cuts, |cuts| - 1)
    requires forall i :: 0 <= i < j ==> !LoneCrAt(src, cuts[i])
    requires Count(UpTo(src, cfg, cuts[0], cuts[j]), l) >= 1 && Count(UpTo(src, cfg, cuts[0], cuts[|cuts| - 1]), l) == 0
    ensures TaskOffsets(src, cfg, cuts, |cuts| - 1) != UpTo(src, cfg, cuts[0], cuts[|cuts| - 1]).Offsets()
  {
    hide TaskOffsets, TaskChunk, Acc.Offsets, Boundaries, UpTo, TaskParseErrors, NoTaskThrows;
    TasksGrow(src, cfg, cuts, j, |cuts| - 1);
    TasksUpTo(src, cfg, cuts, j);
    PrefixCount(TaskOffsets(src, cfg, cuts, j), TaskOffsets(src, cfg, cuts, |cuts| - 1), l);
  }

  /** The chunk behind the CR does not begin with an empty line. */
  lemma ChunkShows(src: string, cfg: Config, cuts: seq<nat>, i: nat, a: Acc, whole: Acc)
    requires LineConfig(cfg) && NoComment(cfg) && CrIsText(cfg) && !cfg.singleThread && a.Ok() && a.state != RecordStart
    requires Boundaries(src, cuts) && i + 1 < |cuts| && NoTaskThrows(src, cfg, cuts, |cuts| - 1)
    requires cuts[0] < cuts[i] < cuts[i + 1] <= cuts[|cuts| - 1] <= |src| && LoneCrAt(src, cuts[i])
    requires InOrder(a.Offsets(), cuts[0], cuts[i]) && !IsEmptyLine(src, cuts[i], cuts[i + 1], cfg.skipEmptyRows)
    requires Run(src, cfg.(singleThread := true), cuts[0], cuts[i], cuts[|cuts| - 1], 0, a) == Done(whole)
    ensures TaskOffsets(src, cfg, cuts, |cuts| - 1) != whole.Offsets()
  {
    DoneTask(src, cfg, cuts, i);
    hide Run, TaskOffsets, TaskChunk, Acc.Offsets, InOrder, IsEmptyLine, CrIsText, NoTaskThrows, Boundaries, Count;
    ChunkBehindCr(src, cfg, cuts[0], cuts[i], cuts[i + 1], cuts[|cuts| - 1], a);
    var x :| Count(TaskChunk(src, cfg, cuts, i).acc, x) > Count(whole, x);
    MoreInTask(src, cfg, cuts, i, x, whole);
  }

  lemma DoneTask(src: string, cfg: Config, cuts: seq<nat>, i: nat)
    requires Boundaries(src, cuts) && i + 1 < |cuts| && NoTaskThrows(src, cfg, cuts, |cuts| - 1)
    ensures TaskChunk(src, cfg, cuts, i).Done? && cuts[i + 1] <= |src|
    ensures TaskChunk(src, cfg, cuts, i) == Run(src, TaskConfig(src, cfg, cuts[i]), cuts[i], cuts[i], cuts[i + 1], 0, EMPTY)
  {
    hide Run;
    assert TaskChunk(src, cfg, cuts, i).Done?;
    assert Boundary(src, cuts[i + 1]);
  }

  /** The CR lies inside quotes of one thread. */
  lemma QuotedShowsOrHidden(src: string, cfg: Config, cuts: seq<nat>, j: nat, i: nat)
    requires LineConfig(cfg) && NoComment(cfg) && CrIsText(cfg) && cfg.skipEmptyRows && !cfg.singleThread
    requires Boundaries(src, cuts) && 0 < j <= i < |cuts| - 1 && NoTaskThrows(src, cfg, cuts, |cuts| - 1)
    requires cuts[0] < cuts[i] == cuts[j] < cuts[|cuts| - 1] <= |src| && LoneCrAt(src, cuts[j])
    requires forall k :: 0 <= k < j ==> !LoneCrAt(src, cuts[k])
    requires var a, whole := UpTo(src, cfg, cuts[0], cuts[i]), UpTo(src, cfg, cuts[0], cuts[|cuts| - 1]);
             a.state == QuotedField && InOrder(a.Offsets(), cuts[0], cuts[i]) &&
             Run(src, cfg.(singleThread := true), cuts[0], cuts[i], cuts[|cuts| - 1], 0, a) == Done(whole)
    ensures TaskOffsets(src, cfg, cuts, |cuts| - 1) != UpTo(src, cfg, cuts[0], cuts[|cuts| - 1]).Offsets() ||
            Hidden(src, cfg, cuts)
  {
    hide Run, TaskOffsets, TaskChunk, Acc.Offsets, InOrder, UpTo, NoTaskThrows, Boundaries, Hidden, BlankLines;
    assert CrIsText(cfg.(singleThread := true));
    var x, m := FirstTaskOffset(src, cfg, cuts, i);
    var hi := cuts[|cuts| - 1];
    if x < hi {
      NoOffsetInQuotes(src, cfg.(singleThread := true), cuts[0], cuts[i], x, hi, UpTo(src, cfg, cuts[0], cuts[i]));
      MoreInTask(src, cfg, cuts, m, x, UpTo(src, cfg, cuts[0], hi));
    } else {
      BlankIsHidden(src, cfg, cuts, j, i);
    }
  }

  lemma LastCutThere(src: string, cuts: seq<nat>, j: nat) returns (i: nat)
    requires Boundaries(src, cuts) && j + 1 < |cuts| && cuts[j] < cuts[|cuts| - 1]
    ensures j <= i && i + 1 < |cuts| && cuts[i] == cuts[j] < cuts[i + 1] <= cuts[|cuts| - 1] <= |src|
  {
    i := LastBoundaryThere(cuts, j);
    assert Boundary(src, cuts[|cuts| - 1]);
  }

  /** The CR lies in a record of one thread. */
  lemma RecordShowsOrHidden(src: string, cfg: Config, cuts: seq<nat>, j: nat)
    requires LineConfig(cfg) && NoComment(cfg) && CrIsText(cfg) && !cfg.singleThread
    requires Boundaries(src, cuts) && 0 < j < |cuts| - 1 && NoTaskThrows(src, cfg, cuts, |cuts| - 1)
    requires cuts[0] < cuts[j] < cuts[|cuts| - 1] <= |src| && LoneCrAt(src, cuts[j])
    requires forall k :: 0 <= k < j ==> !LoneCrAt(src, cuts[k])
    requires var a, whole := UpTo(src, cfg, cuts[0], cuts[j]), UpTo(src, cfg, cuts[0], cuts[|cuts| - 1]);
             a.state != RecordStart && InOrder(a.Offsets(), cuts[0], cuts[j]) &&
             Run(src, cfg.(singleThread := true), cuts[0], cuts[j], cuts[|cuts| - 1], 0, a) == Done(whole)
    ensures TaskOffsets(src, cfg, cuts, |cuts| - 1) != UpTo(src, cfg, cuts[0], cuts[|cuts| - 1]).Offsets() ||
            Hidden(src, cfg, cuts)
  {
    hide Run, TaskOffsets, TaskChunk, InOrder, IsEmptyLine, UpTo, CrIsText, LineConfig, NoTaskThrows, Hidden, Boundaries, LoneCrAt;
    var i := LastCutThere(src, cuts, j);
    if IsEmptyLine(src, cuts[i], cuts[i + 1], cfg.skipEmptyRows) && UpTo(src, cfg, cuts[0], cuts[i]).state == QuotedField {
      OnlyWhenSkipping(src, cuts[i], cuts[i + 1], cfg.skipEmptyRows);
      QuotedShowsOrHidden(src, cfg, cuts, j, i);
    } else {
      UnquotedShows(src, cfg, cuts, i, UpTo(src, cfg, cuts[0], cuts[i]), UpTo(src, cfg, cuts[0], cuts[|cuts| - 1]));
    }
  }

  /** The CR lies outside quotes of one thread, or no empty line follows it. */
  lemma UnquotedShows(src: string, cfg: Config, cuts: seq<nat>, i: nat, a: Acc, whole: Acc)
    requires LineConfig(cfg) && NoComment(cfg) && CrIsText(cfg) && !cfg.singleThread && a.Ok() && a.state != RecordStart
    requires Boundaries(src, cuts) && i + 1 < |cuts| && NoTaskThrows(src, cfg, cuts, |cuts| - 1)
    requires cuts[0] < cuts[i] < cuts[i + 1] <= cuts[|cuts| - 1] <= |src| && LoneCrAt(src, cuts[i])
    requires InOrder(a.Offsets(), cuts[0], cuts[i])
    requires a.state != QuotedField || !IsEmptyLine(src, cuts[i], cuts[i + 1], cfg.skipEmptyRows)
    requires Run(src, cfg.(singleThread := true), cuts[0], cuts[i], cuts[|cuts| - 1], 0, a) == Done(whole)
    ensures TaskOffsets(src, cfg, cuts, |cuts| - 1) != whole.Offsets()
  {
    hide Run, TaskOffsets, Acc.Offsets, InOrder, IsEmptyLine, CrIsText, LineConfig, NoTaskThrows, Boundaries, LoneCrAt;
    if !IsEmptyLine(src, cuts[i], cuts[i + 1], cfg.skipEmptyRows) {
      ChunkShows(src, cfg, cuts, i, a, whole);
    } else {
      OnlyWhenSkipping(src, cuts[i], cuts[i + 1], cfg.skipEmptyRows);
      SkippedNewline(src, cfg, cuts, i, a);
    }
  }

  lemma OnlyWhenSkipping(src: string, pos: nat, end: nat, skipEmptyRows: bool)
    requires pos <= end <= |src| && IsEmptyLine(src, pos, end, skipEmptyRows)
    ensures skipEmptyRows
  {
  }

  lemma BlankIsHidden(src: string, cfg: Config, cuts: seq<nat>, j: nat, i: nat)
    requires cfg.skipEmptyRows && Boundaries(src, cuts) && j <= i < |cuts| && cuts[i] == cuts[j] && LoneCrAt(src, cuts[j])
    requires cuts[|cuts| - 1] <= |src| && BlankLines(src, cuts[j], cuts[|cuts| - 1])
    requires forall k :: 0 <= k < j ==> !LoneCrAt(src, cuts[k])
    requires forall k :: i <= k < |cuts| && cuts[i] < cuts[k] ==> src[cuts[k] - 1] == '\n'
    requires UpTo(src, cfg, cuts[0], cuts[j]).state == QuotedField
    ensures Hidden(src, cfg, cuts)
  {
    hide UpTo, BlankLines;
    assert HiddenAt(src, cfg, cuts, cuts[j]);
  }

  /**
   The offsets of the tasks, where a cut lies behind a lone CR: they are those of one thread if and
   only if the cut is hidden, and then so are the errors.
   */
  lemma LoneCrCutShows(src: string, cfg: Config, cuts: seq<nat>)
    requires LineConfig(cfg) && NoComment(cfg) && CrIsText(cfg) && !cfg.singleThread
    requires Boundaries(src, cuts) && LoneCrCut(src, cuts) && NoTaskThrows(src, cfg, cuts, |cuts| - 1)
    ensures var n := |cuts| - 1;
            var whole := UpTo(src, cfg, cuts[0], cuts[n]);
            (TaskOffsets(src, cfg, cuts, n) == whole.Offsets() <==> Hidden(src, cfg, cuts)) &&
            (Hidden(src, cfg, cuts) ==> TaskParseErrors(src, cfg, cuts, n) == whole.errors)
  {
    hide UpTo, HiddenAt, TaskOffsets, TaskParseErrors;
    ShowsOrHidden(src, cfg, cuts);
    if Hidden(src, cfg, cuts) {
      var v :| 0 <= v <= |src| && HiddenAt(src, cfg, cuts, v);
      HiddenAgrees(src, cfg, cuts, v);
    }
  }
}
