/**
 Chunks cut behind a lone CR. The search for chunk boundaries takes a CR for a line end, and a
 task whose chunk starts behind one takes CR for the newline. The automaton of the whole file
 does not, and the offsets differ.
 */
module LoneCr {
  import opened Seqs
  import opened Csv
  import opened Chunks
  import opened OffsetOrder

  /** Chunk boundaries as the search finds them: behind an LF, or behind a CR that no LF follows. */
  predicate Boundaries(src: string, cuts: seq<nat>)
  {
    |cuts| > 0 && (forall i :: 0 <= i < |cuts| ==> Boundary(src, cuts[i])) &&
    (forall i, j :: 0 <= i < j < |cuts| ==> cuts[i] <= cuts[j]) &&
    src[cuts[0] - 1] == '\n' && src[cuts[|cuts| - 1] - 1] == '\n'
  }

  predicate Boundary(src: string, cut: nat)
  {
    0 < cut <= |src| && (src[cut - 1] == '\n' || LoneCrAt(src, cut))
  }

  predicate LoneCrAt(src: string, cut: nat)
  {
    0 < cut < |src| && src[cut - 1] == '\r' && src[cut] != '\n'
  }

  predicate LoneCrCut(src: string, cuts: seq<nat>)
  {
    exists i :: 0 <= i < |cuts| && LoneCrAt(src, cuts[i])
  }

  /** What a task parses its chunk with: its newline is the byte in front of the chunk. */
  function TaskConfig(src: string, cfg: Config, cut: nat): Config
  {
    if LoneCrAt(src, cut) then cfg.(newline := '\r') else cfg
  }

  /** What the task for chunk i computes. */
  function TaskChunk(src: string, cfg: Config, cuts: seq<nat>, i: nat): (r: Outcome)
    requires Boundaries(src, cuts) && i + 1 < |cuts|
    ensures r.Done? ==> r.acc.Ok()
  {
    Run(src, TaskConfig(src, cfg, cuts[i]), cuts[i], cuts[i], cuts[i + 1], 0, EMPTY)
  }

  predicate NoTaskThrows(src: string, cfg: Config, cuts: seq<nat>, k: nat)
    requires Boundaries(src, cuts) && k < |cuts|
  {
    forall i :: 0 <= i < k ==> TaskChunk(src, cfg, cuts, i).Done?
  }

  /** The index vectors of the first k tasks side by side, and their errors. */
  function TaskOffsets(src: string, cfg: Config, cuts: seq<nat>, k: nat): seq<nat>
    requires Boundaries(src, cuts) && k < |cuts| && NoTaskThrows(src, cfg, cuts, k)
  {
    if k == 0 then [] else TaskOffsets(src, cfg, cuts, k - 1) + TaskChunk(src, cfg, cuts, k - 1).acc.Offsets()
  }

  function TaskParseErrors(src: string, cfg: Config, cuts: seq<nat>, k: nat): seq<ParseError>
    requires Boundaries(src, cuts) && k < |cuts| && NoTaskThrows(src, cfg, cuts, k)
  {
    if k == 0 then [] else TaskParseErrors(src, cfg, cuts, k - 1) + TaskChunk(src, cfg, cuts, k - 1).acc.errors
  }

  /** Without a cut behind a lone CR the tasks compute the chunks. */
  lemma {:induction false} TasksAreChunks(src: string, cfg: Config, cuts: seq<nat>, k: nat)
    requires Boundaries(src, cuts) && !LoneCrCut(src, cuts) && k < |cuts|
    ensures Cuts(src, cuts) && (NoTaskThrows(src, cfg, cuts, k) <==> NoneThrows(src, cfg, cuts, k))
    ensures NoTaskThrows(src, cfg, cuts, k) ==>
              TaskOffsets(src, cfg, cuts, k) == ChunkOffsets(src, cfg, cuts, k) &&
              TaskParseErrors(src, cfg, cuts, k) == ChunkErrors(src, cfg, cuts, k)
  {
    forall i | 0 <= i < k
      ensures TaskChunk(src, cfg, cuts, i) == Chunk(src, cfg, cuts, i)
    {
      assert !LoneCrAt(src, cuts[i]);
    }
    if k > 0 {
      TasksAreChunks(src, cfg, cuts, k - 1);
    }
  }

  /** CR is neither the delimiter nor the quote; where empty rows are skipped, the quote is no blank either. */
  predicate CrIsText(cfg: Config)
  {
    cfg.delim != '\r' && cfg.quote != '\r' && (cfg.skipEmptyRows ==> cfg.quote !in {' ', '\t'})
  }

  predicate NoComment(cfg: Config)
  {
    cfg.comment == ""
  }

  /** Is the line at pos passed over as an empty one? */
  predicate Skips(src: string, cfg: Config, acc: Acc, pos: nat, hi: nat)
    requires pos <= hi <= |src|
  {
    acc.state == RecordStart && IsEmptyLine(src, pos, hi, cfg.skipEmptyRows)
  }

  /** Without comments a move passes over an empty line, or is a step. */
  lemma MoveIs(src: string, cfg: Config, start: nat, pos: nat, hi: nat, acc: Acc)
    requires NoComment(cfg) && acc.Ok() && pos < hi <= |src|
    ensures Next(src, cfg, start, pos, hi, 0, acc)
         == if Skips(src, cfg, acc, pos, hi) then Go(SkipRestOfLine(src, pos) + 1, acc)
            else match Step(cfg, acc, pos, src[pos], pos > start)
                 case Done(a) => Go(pos + 1, a)
                 case NewlineError => Throw
  {
    hide IsEmptyLine;
  }

  /** An empty line consists of blanks, and ends in the region. */
  lemma EmptyLine(src: string, pos: nat, hi: nat)
    requires pos < hi <= |src| && (src[hi - 1] == '\n' || LoneCrAt(src, hi)) && IsEmptyLine(src, pos, hi, true)
    ensures var n := SkipRestOfLine(src, pos);
            pos <= n < hi && src[n] == '\n' && Blank(src, pos, n)
  {
    var b := SkipBlanks(src, pos, hi);
    assert b < hi;
    assert forall i :: pos <= i < b ==> src[i] != '\n';
  }

  /** Spaces, tabs and carriage returns only. */
  predicate Blank(src: string, lo: nat, hi: nat)
    requires hi <= |src|
  {
    forall i :: lo <= i < hi ==> src[i] in {' ', '\t', '\r'}
  }

  /** Blanks up to a newline of the region make an empty line. */
  lemma BlankIsEmptyLine(src: string, pos: nat, n: nat, hi: nat)
    requires pos <= n < hi <= |src| && src[n] == '\n' && Blank(src, pos, n)
    ensures IsEmptyLine(src, pos, hi, true) && SkipRestOfLine(src, pos) == n
  {
    var b := SkipBlanks(src, pos, hi);
    assert b == n;
  }

  /** A chunk that does not throw ends between records if and only if it ends in a newline. */
  lemma {:induction false} EndsBetweenRecordsIff(src: string, cfg: Config, start: nat, pos: nat, hi: nat, acc: Acc)
    requires LineConfig(cfg) && NoComment(cfg) && !cfg.singleThread && acc.Ok() && Boundary(src, hi)
    requires pos < hi <= |src| && Run(src, cfg, start, pos, hi, 0, acc).Done?
    ensures Run(src, cfg, start, pos, hi, 0, acc).acc.state == RecordStart <==> src[hi - 1] == '\n'
    decreases hi - pos
  {
    hide Next, IsEmptyLine, SkipRestOfLine;
    MoveIs(src, cfg, start, pos, hi, acc);
    var next := Next(src, cfg, start, pos, hi, 0, acc);
    if Skips(src, cfg, acc, pos, hi) {
      SkippedLine(src, cfg, acc, pos, hi);
    }
    if next.pos < hi {
      EndsBetweenRecordsIff(src, cfg, start, next.pos, hi, next.acc);
    }
  }

  lemma SkippedLine(src: string, cfg: Config, acc: Acc, pos: nat, hi: nat)
    requires pos < hi <= |src| && Boundary(src, hi) && Skips(src, cfg, acc, pos, hi)
    ensures var n := SkipRestOfLine(src, pos); pos <= n < hi && src[n] == '\n' && Blank(src, pos, n)
    ensures cfg.skipEmptyRows && acc.state == RecordStart
  {
    EmptyLine(src, pos, hi);
  }

  function Count(acc: Acc, x: nat): nat
  {
    multiset(acc.Offsets())[x]
  }

  /** What one step does to the offsets: the open record grows, or is closed. */
  lemma StepEffect(cfg: Config, acc: Acc, p: nat, c: char, inner: bool)
    requires acc.Ok()
    ensures var r := Step(cfg, acc, p, c, inner);
            r.Done? ==>
              var open := if acc.state == RecordStart then [p] else acc.open;
              open != [] &&
              if r.acc.records == acc.records
              then r.acc.open == open || (c == cfg.delim && r.acc.open == open + [p])
              else c == cfg.newline && r.acc.open == [] && r.acc.records == acc.records + [Closed(open, p, cfg.numCols, inner)]
  {
    hide Repaired;
    assert forall record :: |acc.records + [record]| != |acc.records|;
  }

  /** A record closed behind x holds no more offsets at x than it did. */
  lemma RecordAddsBehind(open: seq<nat>, p: nat, numCols: nat, repair: bool, x: nat)
    requires x < p && open != []
    ensures multiset(Closed(open, p, numCols, repair))[x] <= multiset(open)[x]
  {
    var record := Closed(open, p, numCols, repair);
    var keep := if repair && 0 < numCols < |open| then numCols else |open|;
    assert open == open[..keep] + open[keep..];
    assert record == open[..keep] + record[keep..];
    assert forall i :: 0 <= i < |record[keep..]| ==> record[keep..][i] == p;
  }

  /** A byte behind x does not add offsets at x. */
  lemma StepAddsBehind(cfg: Config, acc: Acc, p: nat, c: char, inner: bool, x: nat)
    requires acc.Ok() && x < p
    ensures var r := Step(cfg, acc, p, c, inner); r.Done? ==> Count(r.acc, x) <= Count(acc, x)
  {
    StepEffect(cfg, acc, p, c, inner);
    hide Closed, Step, Flatten;
    var open: seq<nat> := if acc.state == RecordStart then [p] else acc.open;
    RecordAddsBehind(open, p, cfg.numCols, inner, x);
    FlattenPush(acc.records, Closed(open, p, cfg.numCols, inner));
  }

  lemma {:induction false} RunAddsBehind(src: string, cfg: Config, start: nat, pos: nat, hi: nat, acc: Acc, x: nat)
    requires NoComment(cfg) && acc.Ok() && x < pos && hi <= |src|
    ensures var r := Run(src, cfg, start, pos, hi, 0, acc); r.Done? ==> Count(r.acc, x) <= Count(acc, x)
    decreases hi - pos
  {
    hide Step, Count, Next, IsEmptyLine;
    if pos < hi {
      MoveIs(src, cfg, start, pos, hi, acc);
      StepAddsBehind(cfg, acc, pos, src[pos], pos > start, x);
      match Next(src, cfg, start, pos, hi, 0, acc)
      case Go(next, a) => RunAddsBehind(src, cfg, start, next, hi, a, x);
      case Throw =>
    }
  }

  /** The offsets begin with s, for good: later records do not change them, and repair keeps that many. */
  predicate Head(acc: Acc, s: seq<nat>)
  {
    s <= Flatten(acc.records) || (acc.records == [] && s <= acc.open)
  }

  lemma RecordKeepsHead(open: seq<nat>, p: nat, numCols: nat, repair: bool, s: seq<nat>)
    requires s <= open && (numCols == 0 || |s| <= numCols)
    ensures s <= Closed(open, p, numCols, repair)
  {
  }

  lemma StepKeepsHead(cfg: Config, acc: Acc, p: nat, c: char, inner: bool, s: seq<nat>)
    requires acc.Ok() && Head(acc, s) && s != [] && (cfg.numCols == 0 || |s| <= cfg.numCols)
    ensures var r := Step(cfg, acc, p, c, inner); r.Done? ==> Head(r.acc, s)
  {
    StepEffect(cfg, acc, p, c, inner);
    assert acc.records == [] ==> Flatten(acc.records) == [];
    hide Flatten, Closed, Step;
    var open := if acc.state == RecordStart then [p] else acc.open;
    FlattenPush(acc.records, Closed(open, p, cfg.numCols, inner));
    if s <= open {
      RecordKeepsHead(open, p, cfg.numCols, inner, s);
    }
  }

  lemma {:induction false} RunKeepsHead(
    src: string, cfg: Config, start: nat, pos: nat, hi: nat, acc: Acc, s: seq<nat>)
    requires NoComment(cfg) && acc.Ok() && hi <= |src|
    requires Head(acc, s) && s != [] && (cfg.numCols == 0 || |s| <= cfg.numCols)
    ensures var r := Run(src, cfg, start, pos, hi, 0, acc); r.Done? ==> Head(r.acc, s) && s <= r.acc.Offsets()
    decreases hi - pos
  {
    HeadIsPrefix(acc, s);
    hide Step, Head, Acc.Offsets, Next, IsEmptyLine;
    if pos < hi {
      MoveIs(src, cfg, start, pos, hi, acc);
      StepKeepsHead(cfg, acc, pos, src[pos], pos > start, s);
      match Next(src, cfg, start, pos, hi, 0, acc)
      case Go(next, a) => RunKeepsHead(src, cfg, start, next, hi, a, s);
      case Throw =>
    }
  }

  lemma HeadIsPrefix(acc: Acc, s: seq<nat>)
    requires Head(acc, s)
    ensures s <= acc.Offsets()
  {
  }

  /** What the first byte of a chunk behind a lone CR leaves. */
  lemma FirstByte(cfg: Config, v: nat, c: char)
    requires cfg.newline == '\r' && c != '\n' && cfg.delim != '\r'
    ensures var r := Step(cfg, EMPTY, v, c, false);
            r.Done? && Head(r.acc, [v]) && (c == cfg.delim ==> r.acc == Acc([], [v, v], [], FieldStart))
  {
    if c == '\r' {
      FlattenPush([], [v] + [v]);
    }
  }

  lemma StepKeepsRecords(cfg: Config, acc: Acc, p: nat, c: char, inner: bool)
    requires acc.Ok()
    ensures var r := Step(cfg, acc, p, c, inner); r.Done? ==> Flatten(acc.records) <= Flatten(r.acc.records)
  {
    StepEffect(cfg, acc, p, c, inner);
    hide Closed, Step, Flatten;
    var open := if acc.state == RecordStart then [p] else acc.open;
    FlattenPush(acc.records, Closed(open, p, cfg.numCols, inner));
  }

  /** Closed records stay. */
  lemma {:induction false} RecordsStay(src: string, cfg: Config, start: nat, pos: nat, hi: nat, acc: Acc)
    requires NoComment(cfg) && acc.Ok() && hi <= |src|
    ensures var r := Run(src, cfg, start, pos, hi, 0, acc);
            r.Done? ==> Flatten(acc.records) <= r.acc.Offsets() && Flatten(acc.records) <= Flatten(r.acc.records)
    decreases hi - pos
  {
    hide Flatten, Step, Next, IsEmptyLine;
    if pos < hi {
      MoveIs(src, cfg, start, pos, hi, acc);
      StepKeepsRecords(cfg, acc, pos, src[pos], pos > start);
      match Next(src, cfg, start, pos, hi, 0, acc)
      case Go(next, a) => RecordsStay(src, cfg, start, next, hi, a);
      case Throw =>
    }
  }

  /** With one column: two offsets at the start, or a record that was closed at a CR. */
  lemma {:induction false} TwoOrClosed(src: string, cfg: Config, start: nat, pos: nat, hi: nat, acc: Acc, v: nat)
    requires NoComment(cfg) && acc.Ok() && hi <= |src| && start < pos && cfg.numCols == 1
    requires acc.records == [] && [v, v] <= acc.open
    ensures var r := Run(src, cfg, start, pos, hi, 0, acc);
            r.Done? ==> [v, v] <= r.acc.Offsets() || ClosedAtNewline(src, cfg.newline, r.acc, pos, hi)
    decreases hi - pos
  {
    hide Step, Next, IsEmptyLine;
    if pos < hi {
      MoveIs(src, cfg, start, pos, hi, acc);
      var next := Step(cfg, acc, pos, src[pos], true);
      StepEffect(cfg, acc, pos, src[pos], true);
      if next.Done? {
        if next.acc.records == [] {
          TwoOrClosed(src, cfg, start, pos + 1, hi, next.acc, v);
        } else {
          CutToOne(acc.open, pos);
          hide Flatten, Closed;
          FlattenPush([], [acc.open[0]] + [pos]);
          RecordsStay(src, cfg, start, pos + 1, hi, next.acc);
          assert Flatten(next.acc.records)[1] == pos;
        }
      }
    }
  }

  /** Some newline byte of the region is an offset. */
  ghost predicate ClosedAtNewline(src: string, newline: char, acc: Acc, lo: nat, hi: nat)
    requires hi <= |src|
  {
    exists p :: lo <= p < hi && src[p] == newline && p in acc.Offsets()
  }

  /** A record of one column keeps its start and its end when it is closed. */
  lemma CutToOne(open: seq<nat>, p: nat)
    requires |open| > 1
    ensures Closed(open, p, 1, true) == [open[0]] + [p]
    ensures Flatten([[open[0]] + [p]]) == [open[0]] + [p]
  {
    assert open[..1] == [open[0]];
    FlattenPush([], [open[0]] + [p]);
  }

  /** Behind q every offset is that of a delimiter. */
  ghost predicate OnlyDelimiters(src: string, delim: char, offsets: seq<nat>, q: nat)
  {
    forall x :: x in offsets && x >= q ==> x < |src| && src[x] == delim
  }

  lemma ClosingCutsOff(cfg: Config, acc: Acc, p: nat, c: char, v: nat)
    requires cfg.numCols == 1 && acc.Ok() && v < p && v !in Flatten(acc.records) && |acc.open| > 1 && acc.open[0] != v
    ensures var r := Step(cfg, acc, p, c, true);
            r.Done? ==> if r.acc.records == acc.records
                        then r.acc.open == acc.open || (c == cfg.delim && r.acc.open == acc.open + [p])
                        else v !in r.acc.Offsets()
  {
    StepEffect(cfg, acc, p, c, true);
    CutToOne(acc.open, p);
    hide Closed, Flatten, Step;
    FlattenPush(acc.records, [acc.open[0]] + [p]);
  }

  /** With one column: the record is closed and v cut off, or it stays open and only delimiters are added. */
  lemma {:induction false} CutOrOpen(src: string, cfg: Config, start: nat, pos: nat, hi: nat, acc: Acc, v: nat)
    requires NoComment(cfg) && cfg.numCols == 1 && acc.Ok() && start < pos && v < pos && hi <= |src|
    requires v !in Flatten(acc.records) && |acc.open| > 1 && acc.open[0] != v
    requires OnlyDelimiters(src, cfg.delim, acc.Offsets(), v + 1)
    ensures var r := Run(src, cfg, start, pos, hi, 0, acc);
            r.Done? ==> v !in r.acc.Offsets() || OnlyDelimiters(src, cfg.delim, r.acc.Offsets(), v + 1)
    decreases hi - pos
  {
    hide Flatten, Step, Next, IsEmptyLine;
    if pos < hi {
      MoveIs(src, cfg, start, pos, hi, acc);
      var next := Step(cfg, acc, pos, src[pos], true);
      ClosingCutsOff(cfg, acc, pos, src[pos], v);
      if next.Done? {
        if next.acc.records == acc.records {
          assert next.acc.Offsets() == acc.Offsets() ||
                 (src[pos] == cfg.delim && next.acc.Offsets() == acc.Offsets() + [pos]);
          CutOrOpen(src, cfg, start, pos + 1, hi, next.acc, v);
        } else {
          RunAddsBehind(src, cfg, start, pos + 1, hi, next.acc, v);
        }
      }
    }
  }

  /**
   What one thread has read up to a lone CR: either it is inside a record there, or the CR lies in
   an empty line, which it passes over as a whole and a region that ends at the CR does not.
   */
  lemma {:induction false} UpToCr(src: string, cfg: Config, start: nat, pos: nat, v: nat, hi: nat, acc: Acc)
    returns (l: nat, a: Acc)
    requires NoComment(cfg) && CrIsText(cfg) && cfg.newline == '\n' && cfg.singleThread && acc.Ok()
    requires start <= pos <= v < hi <= |src| && LoneCrAt(src, v) && Boundary(src, hi)
    requires InOrder(acc.Offsets(), start, pos) && (pos == v ==> acc.state != RecordStart)
    ensures pos <= l <= v && a.Ok() && InOrder(a.Offsets(), start, l)
    ensures Run(src, cfg, start, pos, hi, 0, acc) == Run(src, cfg, start, l, hi, 0, a)
    ensures Run(src, cfg, start, pos, v, 0, acc) == Run(src, cfg, start, l, v, 0, a)
    ensures if l == v then a.state != RecordStart
            else Skips(src, cfg, a, l, hi) && !Skips(src, cfg, a, l, v) && SkipRestOfLine(src, l) >= v
    decreases v - pos
  {
    hide Step, Next, InOrder, IsEmptyLine, SkipRestOfLine;
    l, a := pos, acc;
    if pos < v {
      SameSkip(src, cfg, acc, pos, v, hi);
      if Skips(src, cfg, acc, pos, hi) == Skips(src, cfg, acc, pos, v) {
        MoveIs(src, cfg, start, pos, hi, acc);
        MoveIs(src, cfg, start, pos, v, acc);
        var next := Next(src, cfg, start, pos, v, 0, acc);
        NextInOrder(src, cfg, start, pos, v, acc);
        StepAtCr(src, cfg, acc, pos, v, pos > start);
        SingleThreadNeverThrows(src, cfg, start, pos, v, 0, acc);
        if Skips(src, cfg, acc, pos, v) {
          SkippedLine(src, cfg, acc, pos, v);
        }
        WiderInOrder(next.acc.Offsets(), start, pos + 1, next.pos);
        l, a := UpToCr(src, cfg, start, next.pos, v, hi, next.acc);
      }
    }
  }

  lemma WiderInOrder(offsets: seq<nat>, lo: nat, mid: nat, hi: nat)
    requires InOrder(offsets, lo, mid) && mid <= hi
    ensures InOrder(offsets, lo, hi)
  {
  }

  /** A line is empty for both regions or, when it holds the CR, for the longer one only. */
  lemma SameSkip(src: string, cfg: Config, acc: Acc, pos: nat, v: nat, hi: nat)
    requires pos < v < hi <= |src| && LoneCrAt(src, v) && Boundary(src, hi)
    ensures Skips(src, cfg, acc, pos, v) ==> Skips(src, cfg, acc, pos, hi) && SkipRestOfLine(src, pos) < v - 1
    ensures Skips(src, cfg, acc, pos, hi) && !Skips(src, cfg, acc, pos, v) ==> SkipRestOfLine(src, pos) >= v
  {
    if Skips(src, cfg, acc, pos, v) {
      SkippedLine(src, cfg, acc, pos, v);
      BlankIsEmptyLine(src, pos, SkipRestOfLine(src, pos), hi);
    } else if Skips(src, cfg, acc, pos, hi) {
      SkippedLine(src, cfg, acc, pos, hi);
      if SkipRestOfLine(src, pos) < v {
        BlankIsEmptyLine(src, pos, SkipRestOfLine(src, pos), v);
      }
    }
  }

  /** A CR that is text leaves the automaton inside a record. */
  lemma StepAtCr(src: string, cfg: Config, acc: Acc, pos: nat, v: nat, inner: bool)
    requires pos < v <= |src| && src[v - 1] == '\r' && CrIsText(cfg) && cfg.newline == '\n' && acc.Ok()
    ensures pos == v - 1 ==> Step(cfg, acc, pos, src[pos], inner).Done? && Step(cfg, acc, pos, src[pos], inner).acc.state != RecordStart
  {
  }

  /** The byte behind a lone CR, read inside a record. */
  lemma AtTheCut(src: string, cfg: Config, lo: nat, v: nat, front: Acc)
    requires LoneCrAt(src, v) && cfg.newline == '\n' && front.Ok() && front.open != [] && InOrder(front.Offsets(), lo, v)
    ensures var r := Step(cfg, front, v, src[v], true);
            r.Done? && r.acc.records == front.records &&
            (r.acc.open == front.open || (src[v] == cfg.delim && r.acc.open == front.open + [v])) &&
            v !in front.Offsets() && Count(r.acc, v) <= (if src[v] == cfg.delim then 1 else 0) &&
            OnlyDelimiters(src, cfg.delim, r.acc.Offsets(), v + 1)
  {
    var r := Step(cfg, front, v, src[v], true).acc;
    assert forall x :: x in front.Offsets() ==> x < v;
    assert r.Offsets() == front.Offsets() || r.Offsets() == front.Offsets() + [v];
  }

  /** The offsets of the whole file at the cut: at most one, and only where a delimiter is read there. */
  lemma WholeAtTheCut(src: string, cfg: Config, lo: nat, v: nat, hi: nat, front: Acc)
    requires NoComment(cfg) && CrIsText(cfg) && cfg.newline == '\n' && cfg.singleThread && front.Ok()
    requires lo < v < hi <= |src| && LoneCrAt(src, v) && front.open != [] && InOrder(front.Offsets(), lo, v)
    ensures var whole := Run(src, cfg, lo, v, hi, 0, front);
            whole.Done? && Count(whole.acc, v) <= (if src[v] == cfg.delim then 1 else 0) &&
            (cfg.numCols == 1 ==> v !in whole.acc.Offsets() ||
                                  OnlyDelimiters(src, cfg.delim, whole.acc.Offsets(), v + 1))
  {
    SingleThreadNeverThrows(src, cfg, lo, v, hi, 0, front);
    AtTheCut(src, cfg, lo, v, front);
    MoveIs(src, cfg, lo, v, hi, front);
    var next := Step(cfg, front, v, src[v], true).acc;
    RunAddsBehind(src, cfg, lo, v + 1, hi, next, v);
    if cfg.numCols == 1 && v in next.Offsets() {
      assert front.open[0] in front.Offsets();
      CutOrOpen(src, cfg, lo, v + 1, hi, next, v);
    }
  }

  /** The first move of the chunk behind a lone CR. */
  lemma BeginsBehindCr(src: string, tc: Config, v: nat, w: nat) returns (first: Acc)
    requires NoComment(tc) && tc.newline == '\r' && tc.delim != '\r' && LoneCrAt(src, v) && v < w <= |src|
    requires !IsEmptyLine(src, v, w, tc.skipEmptyRows)
    ensures first.Ok() && Run(src, tc, v, v, w, 0, EMPTY) == Run(src, tc, v, v + 1, w, 0, first)
    ensures Head(first, [v]) && (src[v] == tc.delim ==> first == Acc([], [v, v], [], FieldStart))
  {
    hide IsEmptyLine;
    FirstByte(tc, v, src[v]);
    first := Step(tc, EMPTY, v, src[v], false).acc;
    MoveIs(src, tc, v, v, w, EMPTY);
    hide Step, Next;
  }

  /** Somewhere the chunk behind a lone CR has more offsets than the whole file, unless it starts with an empty line. */
  lemma ChunkBehindCr(src: string, cfg: Config, lo: nat, v: nat, w: nat, hi: nat, front: Acc)
    requires cfg.newline == '\n' && NoComment(cfg) && CrIsText(cfg) && !cfg.singleThread && front.Ok()
    requires lo < v < w <= hi <= |src| && LoneCrAt(src, v) && front.open != [] && InOrder(front.Offsets(), lo, v)
    requires !IsEmptyLine(src, v, w, cfg.skipEmptyRows)
    requires Run(src, TaskConfig(src, cfg, v), v, v, w, 0, EMPTY).Done?
    ensures var whole := Run(src, cfg.(singleThread := true), lo, v, hi, 0, front);
            var chunk := Run(src, TaskConfig(src, cfg, v), v, v, w, 0, EMPTY).acc;
            whole.Done? && exists x :: Count(chunk, x) > Count(whole.acc, x)
  {
    hide IsEmptyLine, Step, Next, Boundary;
    var tc := TaskConfig(src, cfg, v);
    var chunk := Run(src, tc, v, v, w, 0, EMPTY).acc;
    WholeAtTheCut(src, cfg.(singleThread := true), lo, v, hi, front);
    var whole := Run(src, cfg.(singleThread := true), lo, v, hi, 0, front).acc;
    var first := BeginsBehindCr(src, tc, v, w);
    RunKeepsHead(src, tc, v, v + 1, w, first, [v]);
    MoreBehindCr(src, tc, v, w, first, chunk, whole);
  }

  /** What the first byte of the chunk left is more than the whole file has. */
  lemma MoreBehindCr(src: string, tc: Config, v: nat, w: nat, first: Acc, chunk: Acc, whole: Acc)
    requires NoComment(tc) && tc.newline == '\r' && tc.delim != '\r' && first.Ok() && v < w <= |src|
    requires Run(src, tc, v, v + 1, w, 0, first) == Done(chunk) && [v] <= chunk.Offsets()
    requires src[v] == tc.delim ==> first == Acc([], [v, v], [], FieldStart)
    requires Count(whole, v) <= if src[v] == tc.delim then 1 else 0
    requires tc.numCols == 1 ==> v !in whole.Offsets() || OnlyDelimiters(src, tc.delim, whole.Offsets(), v + 1)
    ensures exists x :: Count(chunk, x) > Count(whole, x)
  {
    hide Run, Next, Step;
    assert chunk.Offsets()[0] == v;
    if src[v] != tc.delim || (tc.numCols == 1 && v !in whole.Offsets()) {
      assert Count(chunk, v) > Count(whole, v);
    } else if tc.numCols != 1 {
      RunKeepsHead(src, tc, v, v + 1, w, first, [v, v]);
      TwoCount(chunk.Offsets(), v);
      assert Count(chunk, v) > Count(whole, v);
    } else {
      TwoOrClosed(src, tc, v, v + 1, w, first, v);
      if [v, v] <= chunk.Offsets() {
        TwoCount(chunk.Offsets(), v);
        assert Count(chunk, v) > Count(whole, v);
      } else {
        assert ClosedAtNewline(src, '\r', chunk, v + 1, w);
        var p :| v + 1 <= p < w && src[p] == '\r' && p in chunk.Offsets();
        assert p !in whole.Offsets();
        assert Count(chunk, p) > Count(whole, p);
      }
    }
  }

  lemma TwoCount(s: seq<nat>, v: nat)
    requires [v, v] <= s
    ensures multiset(s)[v] >= 2
  {
    assert s == [v, v] + s[2..];
  }

  /** The last of the boundaries at the same place as boundary j: a chunk with bytes in it starts there. */
  lemma {:induction false} LastBoundaryThere(cuts: seq<nat>, j: nat) returns (i: nat)
    requires j + 1 < |cuts| && cuts[j] < cuts[|cuts| - 1]
    requires forall a, b :: 0 <= a < b < |cuts| ==> cuts[a] <= cuts[b]
    ensures j <= i && i + 1 < |cuts| && cuts[i] == cuts[j] < cuts[i + 1]
    decreases |cuts| - j
  {
    i := j;
    if cuts[j + 1] == cuts[j] {
      i := LastBoundaryThere(cuts, j + 1);
    }
  }

  lemma {:induction false} OffsetsHoldChunk(src: string, cfg: Config, cuts: seq<nat>, k: nat, i: nat, x: nat)
    requires Boundaries(src, cuts) && i < k < |cuts| && NoTaskThrows(src, cfg, cuts, k)
    ensures multiset(TaskOffsets(src, cfg, cuts, k))[x] >= Count(TaskChunk(src, cfg, cuts, i).acc, x)
  {
    hide TaskChunk, Acc.Offsets, Boundary;
    assert TaskChunk(src, cfg, cuts, k - 1).Done?;
    assert TaskOffsets(src, cfg, cuts, k)
        == TaskOffsets(src, cfg, cuts, k - 1) + TaskChunk(src, cfg, cuts, k - 1).acc.Offsets();
    if i < k - 1 {
      OffsetsHoldChunk(src, cfg, cuts, k - 1, i, x);
    }
  }
}
