/**
 The chunk tasks of the file indexer under every schedule: each task owns its offsets and
 all of them append to one error log.
 */
module ParallelIndex {
  import opened Csv
  import opened NewlineScan
  import opened Chunks
  import opened LoneCr
  import opened HiddenCuts

  /** Boundary i of the ranges parallel_for hands to its threads; the last range takes the remainder. */
  function Bound(n: nat, threads: nat, i: nat): (r: nat)
    requires threads > 0 && i <= threads
    ensures r <= n
  {
    if i == threads then n
    else
      i * (n / threads)
  }

  /** Two neighbouring boundaries are one batch apart, the last two a batch and the remainder. */
  lemma BoundStep(n: nat, threads: nat, i: nat)
    requires i < threads
    ensures Bound(n, threads, i + 1)
         == Bound(n, threads, i) + n / threads + (if i + 1 == threads then n % threads else 0)
  {
    var batch := n / threads;
    assert (i + 1) * batch == i * batch + batch;
  }

  datatype Range = Range(start: nat, end: nat, id: nat)

  /** The ranges are handed out in order; they tile 0..n. */
  method ParallelFor(n: nat, threads: nat) returns (ranges: seq<Range>)
    requires threads > 0
    ensures |ranges| == threads
    ensures forall i :: 0 <= i < threads ==> ranges[i] == Range(Bound(n, threads, i), Bound(n, threads, i + 1), i)
  {
    var batch, remainder := n / threads, n % threads;
    ranges := [];
    var i := 0;
    while i < threads - 1
      invariant 0 <= i <= threads - 1 && |ranges| == i
      invariant forall j :: 0 <= j < i ==> ranges[j] == Range(Bound(n, threads, j), Bound(n, threads, j + 1), j)
    {
      var start := i * batch;
      BoundStep(n, threads, i);
      ranges := ranges + [Range(start, start + batch, i)];
      i := i + 1;
    }
    var start := (threads - 1) * batch;
    BoundStep(n, threads, threads - 1);
    ranges := ranges + [Range(start, start + batch + remainder, threads - 1)];
  }

  /** Where the task that is handed boundary i starts, and the one before it ends. */
  function CutAt(src: string, firstNl: nat, threads: nat, i: nat): nat
    requires firstNl < |src| && i <= threads && threads > 0
  {
    FindNextNewline(src, firstNl + Bound(|src| - firstNl, threads, i)).0 + 1
  }

  /** The positions at which the file constructor cuts, one more than there are threads. */
  function FileCuts(src: string, firstNl: nat, threads: nat): (cuts: seq<nat>)
    requires firstNl < |src| && threads > 0
    ensures |cuts| == threads + 1
  {
    seq(threads + 1, i requires 0 <= i <= threads => CutAt(src, firstNl, threads, i))
  }

  lemma BoundMonotone(n: nat, threads: nat, i: nat, j: nat)
    requires threads > 0 && i <= j <= threads
    ensures Bound(n, threads, i) <= Bound(n, threads, j)
  {
    var batch := n / threads;
    assert (j - i) * batch >= 0;
    assert j * batch == i * batch + (j - i) * batch;
  }

  lemma CutsInOrder(src: string, firstNl: nat, threads: nat, i: nat, j: nat)
    requires TextFile(src) && firstNl < |src| && i <= j <= threads && threads > 0
    ensures var a := CutAt(src, firstNl, threads, i);
            Boundary(src, a) && a <= CutAt(src, firstNl, threads, j) &&
            (LoneCrAt(src, a) <==> FindNextNewline(src, firstNl + Bound(|src| - firstNl, threads, i)).1 == CR)
  {
    var n := |src| - firstNl;
    BoundMonotone(n, threads, i, j);
    var a, b := firstNl + Bound(n, threads, i), firstNl + Bound(n, threads, j);
    hide FindNextNewline, Bound, TextFile;
    FindsLineEnd(src, a);
    LineEndsInOrder(src, a, b);
  }

  /** The first cut follows the header line, the last is the end. */
  lemma OuterCuts(src: string, firstNl: nat, threads: nat)
    requires firstNl < |src| && src[firstNl] == '\n' && src[|src| - 1] == '\n' && threads > 0
    ensures FileCuts(src, firstNl, threads)[0] == firstNl + 1 && FileCuts(src, firstNl, threads)[threads] == |src|
    ensures FindNextNewline(src, firstNl) == (firstNl, LF)
  {
    assert Bound(|src| - firstNl, threads, 0) == 0;
    assert CutAt(src, firstNl, threads, 0) == firstNl + 1;
    assert CutAt(src, firstNl, threads, threads) == |src|;
  }

  /** Every cut is a boundary. */
  lemma FileCutsAreBoundaries(src: string, firstNl: nat, threads: nat)
    requires firstNl < |src| && src[firstNl] == '\n' && src[|src| - 1] == '\n'
    requires threads == 1 || (TextFile(src) && threads > 1)
    ensures var cuts := FileCuts(src, firstNl, threads);
            Boundaries(src, cuts) && cuts[0] == firstNl + 1 && cuts[threads] == |src|
    ensures forall i :: 0 <= i < threads ==>
              (LoneCrAt(src, CutAt(src, firstNl, threads, i)) <==>
               FindNextNewline(src, firstNl + Bound(|src| - firstNl, threads, i)).1 == CR)
  {
    OuterCuts(src, firstNl, threads);
    hide FindNextNewline, Bound, TextFile, Boundary, LoneCrAt, CutAt;
    if threads > 1 {
      forall i, j | 0 <= i <= j <= threads
        ensures var a := CutAt(src, firstNl, threads, i);
                Boundary(src, a) && a <= CutAt(src, firstNl, threads, j) &&
                (LoneCrAt(src, a) <==> FindNextNewline(src, firstNl + Bound(|src| - firstNl, threads, i)).1 == CR)
      {
        CutsInOrder(src, firstNl, threads, i, j);
      }
    } else {
      assert Bound(|src| - firstNl, 1, 0) == 0 by {
        OneRange(|src| - firstNl);
      }
    }
  }

  lemma OneRange(n: nat)
    ensures Bound(n, 1, 0) == 0
  {
  }

  /** No cut lies behind a lone CR where there is none. */
  lemma PlainTextHasNoLoneCr(src: string, cuts: seq<nat>)
    requires PlainText(src)
    ensures !LoneCrCut(src, cuts)
  {
    forall i | 0 <= i < |cuts|
      ensures !LoneCrAt(src, cuts[i])
    {
      if 0 < cuts[i] < |src| {
        assert PlainByte(src, cuts[i] - 1);
      }
    }
  }

  datatype Task = Task(pos: nat, acc: Acc, threw: bool)

  /** The state of all tasks, and the error log they share. */
  datatype System = System(tasks: seq<Task>, log: seq<ParseError>)

  function Initial(cuts: seq<nat>): System
    requires |cuts| > 0
  {
    System(seq(|cuts| - 1, i requires 0 <= i < |cuts| - 1 => Task(cuts[i], EMPTY, false)), [])
  }

  ghost predicate Fits(cuts: seq<nat>, s: System)
  {
    |s.tasks| + 1 == |cuts| && forall i :: 0 <= i < |s.tasks| ==> s.tasks[i].acc.Ok()
  }

  predicate Finished(cuts: seq<nat>, s: System, i: nat)
    requires |s.tasks| + 1 == |cuts| && i < |s.tasks|
  {
    s.tasks[i].threw || s.tasks[i].pos >= cuts[i + 1]
  }

  /** Task i makes one move; a finished task does nothing. */
  ghost function TaskStep(src: string, cfg: Config, cuts: seq<nat>, s: System, i: nat): (r: System)
    requires Boundaries(src, cuts) && Fits(cuts, s) && i < |s.tasks|
    ensures Fits(cuts, r)
  {
    var t := s.tasks[i];
    if Finished(cuts, s, i) then s else
    match Next(src, TaskConfig(src, cfg, cuts[i]), cuts[i], t.pos, cuts[i + 1], 0, t.acc)
    case Go(next, acc) =>
      NextAppendsErrors(src, TaskConfig(src, cfg, cuts[i]), cuts[i], t.pos, cuts[i + 1], t.acc);
      System(s.tasks[i := Task(next, acc, false)], s.log + acc.errors[|t.acc.errors|..])
    case Throw => s.(tasks := s.tasks[i := t.(threw := true)])
  }

  /** The system after the tasks have moved in the order of the schedule. */
  ghost function After(src: string, cfg: Config, cuts: seq<nat>, schedule: seq<nat>): (r: System)
    requires Boundaries(src, cuts) && forall k :: 0 <= k < |schedule| ==> schedule[k] + 1 < |cuts|
    ensures Fits(cuts, r)
  {
    if schedule == [] then Initial(cuts)
    else TaskStep(src, cfg, cuts, After(src, cfg, cuts, schedule[..|schedule| - 1]), schedule[|schedule| - 1])
  }

  lemma NextAppendsErrors(src: string, cfg: Config, start: nat, pos: nat, end: nat, acc: Acc)
    requires pos < end <= |src| && acc.Ok()
    ensures var next := Next(src, cfg, start, pos, end, 0, acc);
            next.Go? ==> acc.errors <= next.acc.errors
  {
  }

  /** The errors of all tasks, task by task. */
  function TaskErrors(tasks: seq<Task>): seq<ParseError>
  {
    if tasks == [] then [] else TaskErrors(tasks[..|tasks| - 1]) + tasks[|tasks| - 1].acc.errors
  }

  /** A task that appends to its errors appends to the bag of all errors. */
  lemma {:induction false} TaskErrorsGrow(tasks: seq<Task>, i: nat, t: Task)
    requires i < |tasks| && tasks[i].acc.errors <= t.acc.errors
    ensures multiset(TaskErrors(tasks[i := t]))
         == multiset(TaskErrors(tasks)) + multiset(t.acc.errors[|tasks[i].acc.errors|..])
  {
    var m := |tasks| - 1;
    var added := t.acc.errors[|tasks[i].acc.errors|..];
    if i == m {
      assert tasks[i := t][..m] == tasks[..m];
      assert t.acc.errors == tasks[i].acc.errors + added;
    } else {
      assert tasks[i := t][..m] == tasks[..m][i := t];
      TaskErrorsGrow(tasks[..m], i, t);
    }
  }

  /** What holds in every reachable state: each task is on its way to the result of its chunk. */
  ghost predicate Inv(src: string, cfg: Config, cuts: seq<nat>, s: System)
    requires Boundaries(src, cuts)
  {
    Fits(cuts, s) &&
    (forall i {:trigger s.tasks[i]} :: 0 <= i < |s.tasks| ==>
      var t := s.tasks[i];
      TaskChunk(src, cfg, cuts, i) == if t.threw then NewlineError else Run(src, TaskConfig(src, cfg, cuts[i]), cuts[i], t.pos, cuts[i + 1], 0, t.acc)) &&
    multiset(s.log) == multiset(TaskErrors(s.tasks))
  }

  lemma {:induction false} NoErrorsYet(tasks: seq<Task>)
    requires forall i :: 0 <= i < |tasks| ==> tasks[i].acc == EMPTY
    ensures TaskErrors(tasks) == []
  {
    if tasks != [] {
      NoErrorsYet(tasks[..|tasks| - 1]);
    }
  }

  lemma InvStep(src: string, cfg: Config, cuts: seq<nat>, s: System, i: nat)
    requires Boundaries(src, cuts) && Inv(src, cfg, cuts, s) && i < |s.tasks|
    ensures Inv(src, cfg, cuts, TaskStep(src, cfg, cuts, s, i))
  {
    hide Next, TaskErrors;
    var t := s.tasks[i];
    if !Finished(cuts, s, i) {
      NextAppendsErrors(src, TaskConfig(src, cfg, cuts[i]), cuts[i], t.pos, cuts[i + 1], t.acc);
      match Next(src, TaskConfig(src, cfg, cuts[i]), cuts[i], t.pos, cuts[i + 1], 0, t.acc)
      case Go(next, acc) =>
        TaskErrorsGrow(s.tasks, i, Task(next, acc, false));
      case Throw =>
        TaskErrorsGrow(s.tasks, i, t.(threw := true));
    }
  }

  lemma {:induction false} InvHolds(src: string, cfg: Config, cuts: seq<nat>, schedule: seq<nat>)
    requires Boundaries(src, cuts) && forall k :: 0 <= k < |schedule| ==> schedule[k] + 1 < |cuts|
    ensures Inv(src, cfg, cuts, After(src, cfg, cuts, schedule))
  {
    if schedule == [] {
      NoErrorsYet(Initial(cuts).tasks);
    } else {
      InvHolds(src, cfg, cuts, schedule[..|schedule| - 1]);
      InvStep(src, cfg, cuts, After(src, cfg, cuts, schedule[..|schedule| - 1]), schedule[|schedule| - 1]);
    }
  }

  /** Whatever the schedule, a finished task holds the result of its chunk. */
  lemma EveryScheduleSameChunks(src: string, cfg: Config, cuts: seq<nat>, schedule: seq<nat>, i: nat)
    requires Boundaries(src, cuts) && forall k :: 0 <= k < |schedule| ==> schedule[k] + 1 < |cuts|
    requires i + 1 < |cuts| && Finished(cuts, After(src, cfg, cuts, schedule), i)
    ensures var t := After(src, cfg, cuts, schedule).tasks[i];
            TaskChunk(src, cfg, cuts, i) == if t.threw then NewlineError else Done(t.acc)
  {
    InvHolds(src, cfg, cuts, schedule);
  }

  /** Parse errors lie at increasing positions, all before pos. */
  ghost predicate Increasing(es: seq<ParseError>, pos: nat)
  {
    (forall i :: 0 <= i < |es| ==> es[i].position < pos) &&
    forall i, j :: 0 <= i < j < |es| ==> es[i].position < es[j].position
  }

  lemma {:induction false} ErrorsIncrease(src: string, cfg: Config, start: nat, pos: nat, end: nat, acc: Acc)
    requires end <= |src| && acc.Ok() && Increasing(acc.errors, pos)
    ensures var r := Run(src, cfg, start, pos, end, 0, acc);
            r.Done? ==> exists p :: Increasing(r.acc.errors, p)
    decreases end - pos
  {
    if pos < end {
      var next := Next(src, cfg, start, pos, end, 0, acc);
      if next.Go? {
        assert Increasing(next.acc.errors, next.pos);
        ErrorsIncrease(src, cfg, start, next.pos, end, next.acc);
      }
    }
  }

  ghost predicate SortedByPosition(es: seq<ParseError>)
  {
    forall i, j :: 0 <= i < j < |es| ==> es[i].position <= es[j].position
  }

  /** Both end in the error at the last position. */
  lemma SameLast(a: seq<ParseError>, b: seq<ParseError>, pos: nat)
    requires multiset(a) == multiset(b) && SortedByPosition(a) && Increasing(b, pos) && b != []
    ensures |a| == |b| && a[|a| - 1] == b[|b| - 1]
  {
    assert |a| == |multiset(a)| == |multiset(b)| == |b|;
    var x, y := a[|a| - 1], b[|b| - 1];
    assert x in multiset(a) && y in multiset(b);
    assert x in b && y in a;
  }

  lemma DropLast(a: seq<ParseError>)
    requires a != []
    ensures multiset(a[..|a| - 1]) == multiset(a) - multiset{a[|a| - 1]}
  {
    assert a == a[..|a| - 1] + [a[|a| - 1]];
  }

  lemma Shorter(a: seq<ParseError>, pos: nat)
    requires a != []
    ensures SortedByPosition(a) ==> SortedByPosition(a[..|a| - 1])
    ensures Increasing(a, pos) ==> Increasing(a[..|a| - 1], pos)
    ensures a == a[..|a| - 1] + [a[|a| - 1]]
  {
  }

  /** A sorted arrangement of errors at distinct positions is the only one. */
  lemma {:induction false} SortedIsUnique(a: seq<ParseError>, b: seq<ParseError>, pos: nat)
    requires multiset(a) == multiset(b) && SortedByPosition(a) && Increasing(b, pos)
    ensures a == b
    decreases |b|
  {
    assert |a| == |multiset(a)| == |multiset(b)| == |b|;
    if b != [] {
      hide Increasing, SortedByPosition;
      SameLast(a, b, pos);
      DropLast(a);
      DropLast(b);
      Shorter(a, pos);
      Shorter(b, pos);
      SortedIsUnique(a[..|a| - 1], b[..|b| - 1], pos);
    }
  }

  lemma {:induction false} ErrorsTaskByTask(src: string, cfg: Config, cuts: seq<nat>, tasks: seq<Task>)
    requires Boundaries(src, cuts) && |tasks| < |cuts| && NoTaskThrows(src, cfg, cuts, |tasks|)
    requires forall i :: 0 <= i < |tasks| ==> TaskChunk(src, cfg, cuts, i) == Done(tasks[i].acc)
    ensures TaskErrors(tasks) == TaskParseErrors(src, cfg, cuts, |tasks|)
  {
    if tasks != [] {
      ErrorsTaskByTask(src, cfg, cuts, tasks[..|tasks| - 1]);
    }
  }

  /** All tasks have finished, and none threw. */
  ghost predicate AllDone(src: string, cfg: Config, cuts: seq<nat>, schedule: seq<nat>)
  {
    Boundaries(src, cuts) && (forall k :: 0 <= k < |schedule| ==> schedule[k] + 1 < |cuts|) &&
    var s := After(src, cfg, cuts, schedule);
    forall i :: 0 <= i < |s.tasks| ==> Finished(cuts, s, i) && !s.tasks[i].threw
  }

  /** In whatever order they moved, the tasks have logged the errors of their chunks. */
  lemma EveryScheduleSameErrors(src: string, cfg: Config, cuts: seq<nat>, schedule: seq<nat>)
    requires AllDone(src, cfg, cuts, schedule)
    ensures var n := |cuts| - 1;
            NoTaskThrows(src, cfg, cuts, n) &&
            multiset(After(src, cfg, cuts, schedule).log) == multiset(TaskParseErrors(src, cfg, cuts, n))
  {
    var s, n := After(src, cfg, cuts, schedule), |cuts| - 1;
    InvHolds(src, cfg, cuts, schedule);
    forall i | 0 <= i < n
      ensures TaskChunk(src, cfg, cuts, i) == Done(s.tasks[i].acc)
    {
      EveryScheduleSameChunks(src, cfg, cuts, schedule, i);
    }
    assert NoTaskThrows(src, cfg, cuts, n);
    ErrorsTaskByTask(src, cfg, cuts, s.tasks);
  }

  /** Some chunk starts where the file's automaton does not see a record start as the task does, and it shows. */
  ghost predicate Misled(src: string, cfg: Config, cuts: seq<nat>)
    requires Boundaries(src, cuts)
  {
    (LoneCrCut(src, cuts) && !Hidden(src, cfg, cuts)) || SomeBareStart(src, cfg, cuts, |cuts| - 1)
  }

  /** The offsets of the tasks are those of one thread if and only if no task is misled; then so are the errors. */
  lemma TasksAgainstWhole(src: string, cfg: Config, cuts: seq<nat>)
    requires LineConfig(cfg) && !cfg.singleThread && Boundaries(src, cuts) && NoTaskThrows(src, cfg, cuts, |cuts| - 1)
    requires LoneCrCut(src, cuts) ==> NoComment(cfg) && CrIsText(cfg)
    ensures var n := |cuts| - 1;
            var whole := Run(src, cfg.(singleThread := true), cuts[0], cuts[0], cuts[n], 0, EMPTY);
            whole.Done? &&
            (TaskOffsets(src, cfg, cuts, n) == whole.acc.Offsets() <==> !Misled(src, cfg, cuts)) &&
            (!Misled(src, cfg, cuts) ==> TaskParseErrors(src, cfg, cuts, n) == whole.acc.errors)
  {
    hide Run, TaskOffsets, TaskParseErrors, HiddenAt, Acc.Offsets;
    var n := |cuts| - 1;
    assert Boundary(src, cuts[n]);
    if LoneCrCut(src, cuts) {
      LoneCrCutShows(src, cfg, cuts);
      SingleThreadNeverThrows(src, cfg.(singleThread := true), cuts[0], cuts[0], cuts[n], 0, EMPTY);
      if Hidden(src, cfg, cuts) {
        HiddenSkips(src, cfg, cuts);
      }
    } else {
      TasksAreChunks(src, cfg, cuts, n);
      ChunksAgainstWhole(src, cfg, cuts, n);
    }
  }

  /** A cut is hidden only where empty rows are skipped, and then no chunk starts bare. */
  lemma HiddenSkips(src: string, cfg: Config, cuts: seq<nat>)
    requires Boundaries(src, cuts) && Hidden(src, cfg, cuts)
    ensures !SomeBareStart(src, cfg, cuts, |cuts| - 1)
  {
  }

  /**
   The main result: when the tasks have finished, in whatever order they moved, and none
   threw, their offsets side by side and their sorted errors are those of one thread if and
   only if no chunk starts behind a lone CR, other than a hidden one, and no later chunk starts
   with a bare newline.
   */
  lemma ParallelIsSequential(
    src: string, cfg: Config, cuts: seq<nat>, schedule: seq<nat>, sorted: seq<ParseError>)
    requires LineConfig(cfg) && !cfg.singleThread && AllDone(src, cfg, cuts, schedule)
    requires LoneCrCut(src, cuts) ==> NoComment(cfg) && CrIsText(cfg)
    requires multiset(sorted) == multiset(After(src, cfg, cuts, schedule).log) && SortedByPosition(sorted)
    ensures var n := |cuts| - 1;
            var whole := Run(src, cfg.(singleThread := true), cuts[0], cuts[0], cuts[n], 0, EMPTY);
            NoTaskThrows(src, cfg, cuts, n) && whole.Done? &&
            (TaskOffsets(src, cfg, cuts, n) == whole.acc.Offsets() && sorted == whole.acc.errors
             <==> !Misled(src, cfg, cuts))
  {
    EveryScheduleSameErrors(src, cfg, cuts, schedule);
    TasksAgainstWhole(src, cfg, cuts);
    if !Misled(src, cfg, cuts) {
      var whole := Run(src, cfg.(singleThread := true), cuts[0], cuts[0], cuts[|cuts| - 1], 0, EMPTY).acc;
      ErrorsIncrease(src, cfg.(singleThread := true), cuts[0], cuts[0], cuts[|cuts| - 1], EMPTY);
      var p :| Increasing(whole.errors, p);
      SortedIsUnique(sorted, whole.errors, p);
    }
  }

  /** How many bytes the first tasks have before them. */
  function Remaining(cuts: seq<nat>, tasks: seq<Task>): nat
    requires |tasks| < |cuts|
  {
    if tasks == [] then 0
    else
      var m := |tasks| - 1;
      Remaining(cuts, tasks[..m]) + if tasks[m].pos < cuts[m + 1] then cuts[m + 1] - tasks[m].pos else 0
  }

  lemma {:induction false} RemainingFalls(cuts: seq<nat>, tasks: seq<Task>, i: nat, t: Task)
    requires |tasks| < |cuts| && i < |tasks| && tasks[i].pos < t.pos && tasks[i].pos < cuts[i + 1]
    ensures Remaining(cuts, tasks[i := t]) < Remaining(cuts, tasks)
    decreases |tasks|
  {
    var m := |tasks| - 1;
    if i == m {
      assert tasks[i := t][..m] == tasks[..m];
    } else {
      assert tasks[i := t][..m] == tasks[..m][i := t];
      RemainingFalls(cuts, tasks[..m], i, t);
    }
  }

  /** A task that is not finished, in a run in which none throws, comes closer to its end. */
  lemma TaskMoves(src: string, cfg: Config, cuts: seq<nat>, s: System, i: nat)
    requires Boundaries(src, cuts) && Inv(src, cfg, cuts, s) && i < |s.tasks| && !Finished(cuts, s, i)
    requires TaskChunk(src, cfg, cuts, i).Done?
    ensures Remaining(cuts, TaskStep(src, cfg, cuts, s, i).tasks) < Remaining(cuts, s.tasks)
  {
    hide TaskErrors, Next;
    var t := s.tasks[i];
    var next := Next(src, TaskConfig(src, cfg, cuts[i]), cuts[i], t.pos, cuts[i + 1], 0, t.acc);
    assert next.Go?;
    RemainingFalls(cuts, s.tasks, i, Task(next.pos, next.acc, false));
  }

  /** Where no task throws, every run can be brought to its end. */
  lemma {:induction false} SomeScheduleFinishes(src: string, cfg: Config, cuts: seq<nat>, schedule: seq<nat>)
    returns (all: seq<nat>)
    requires Boundaries(src, cuts) && NoTaskThrows(src, cfg, cuts, |cuts| - 1)
    requires forall k :: 0 <= k < |schedule| ==> schedule[k] + 1 < |cuts|
    ensures AllDone(src, cfg, cuts, all) && schedule <= all
    decreases Remaining(cuts, After(src, cfg, cuts, schedule).tasks)
  {
    hide TaskStep, Run, TaskErrors;
    all := schedule;
    var s := After(src, cfg, cuts, schedule);
    InvHolds(src, cfg, cuts, schedule);
    assert forall i :: 0 <= i < |s.tasks| ==> TaskChunk(src, cfg, cuts, i).Done? && !s.tasks[i].threw;
    if exists i :: 0 <= i < |s.tasks| && !Finished(cuts, s, i) {
      var i :| 0 <= i < |s.tasks| && !Finished(cuts, s, i);
      TaskMoves(src, cfg, cuts, s, i);
      assert (schedule + [i])[..|schedule|] == schedule;
      all := SomeScheduleFinishes(src, cfg, cuts, schedule + [i]);
    }
  }
}
