/**
 The write loop: while one batch of row blocks is formatted by futures, a single write task
 takes the previous batch's futures in order. Fill tasks, the write task and the loop move in
 any order the schedule gives.
 */
module WriterPipeline {
  import opened Seqs

  /** A future that has not been assigned or has been taken, one whose block is being formatted, one that is ready. */
  datatype Future = Empty | Pending(lo: nat, hi: nat) | Ready(lo: nat, hi: nat, text: string)

  datatype WriteTask = NoTask | Writing(slot: nat, t: nat, i: nat)

  datatype Pc = Outer | Spawn | WaitWrite | LaunchWrite | LastWait | Finished

  /** The rows as text, the block size, the number of threads and what stands before the rows. */
  datatype Job = Job(lines: seq<string>, bufLines: nat, threads: nat, header: string)
  {
    predicate Ok()
    {
      bufLines > 0 && threads > 0
    }

    /** What fill_buf yields for rows lo to hi. */
    function Block(lo: nat, hi: nat): string
      requires lo <= hi <= |lines|
    {
      Flatten(lines[lo..hi])
    }
  }

  /** The loop is at row `begin`, has assigned t futures of slot idx; `taken` counts the rows whose futures have been taken. */
  datatype State = State(
    pc: Pc, begin: nat, t: nat, idx: nat, slots: seq<seq<Future>>, write: WriteTask, out: string, taken: nat)

  datatype Actor = Main | WriterTask | Filler(slot: nat, i: nat)

  function Initial(job: Job): State
  {
    State(Outer, 0, 0, 0, [Fill(Empty, job.threads), Fill(Empty, job.threads)], NoTask, job.header, 0)
  }

  predicate Idle(w: WriteTask)
  {
    w.NoTask? || w.i >= w.t
  }

  predicate Shaped(job: Job, s: State)
  {
    s.idx < 2 && |s.slots| == 2 && |s.slots[0]| == |s.slots[1]| == job.threads && s.begin <= |job.lines| &&
    s.taken <= |job.lines| && s.t <= job.threads && (s.write.Writing? ==> s.write.slot < 2 && s.write.t <= job.threads)
  }

  function Put(slots: seq<seq<Future>>, slot: nat, i: nat, f: Future): seq<seq<Future>>
    requires slot < |slots| && i < |slots[slot]|
  {
    slots[slot := slots[slot][i := f]]
  }

  function MainStep(job: Job, s: State): State
    requires Shaped(job, s)
  {
    match s.pc
    case Outer => if s.begin < |job.lines| then s.(pc := Spawn, t := 0) else s.(pc := LastWait)
    case Spawn =>
      if s.t < job.threads && s.begin < |job.lines| then
        var numLines := if job.bufLines < |job.lines| - s.begin then job.bufLines else |job.lines| - s.begin;
        s.(slots := Put(s.slots, s.idx, s.t, Pending(s.begin, s.begin + numLines)),
           t := s.t + 1, begin := s.begin + numLines)
      else s.(pc := WaitWrite)
    case WaitWrite => if Idle(s.write) then s.(pc := LaunchWrite) else s
    case LaunchWrite => s.(pc := Outer, write := Writing(s.idx, s.t, 0), idx := (s.idx + 1) % 2)
    case LastWait => if Idle(s.write) then s.(pc := Finished) else s
    case Finished => s
  }

  /** The write task takes its next future once it is ready. */
  function WriterStep(job: Job, s: State): State
    requires Shaped(job, s)
  {
    if Idle(s.write) then s
    else
      match s.slots[s.write.slot][s.write.i]
      case Ready(lo, hi, text) =>
        if hi <= |job.lines| then
          s.(slots := Put(s.slots, s.write.slot, s.write.i, Empty), write := s.write.(i := s.write.i + 1),
             out := s.out + text, taken := hi)
        else s
      case _ => s
  }

  function FillerStep(job: Job, s: State, slot: nat, i: nat): State
    requires Shaped(job, s)
  {
    if slot < 2 && i < job.threads && s.slots[slot][i].Pending? then
      var f := s.slots[slot][i];
      if f.lo <= f.hi <= |job.lines| then s.(slots := Put(s.slots, slot, i, Ready(f.lo, f.hi, job.Block(f.lo, f.hi)))) else s
    else s
  }

  function Move(job: Job, s: State, actor: Actor): (r: State)
    requires Shaped(job, s)
    ensures Shaped(job, r)
  {
    match actor
    case Main => MainStep(job, s)
    case WriterTask => WriterStep(job, s)
    case Filler(slot, i) => FillerStep(job, s, slot, i)
  }

  function After(job: Job, schedule: seq<Actor>): (r: State)
    requires job.Ok()
    ensures Shaped(job, r)
  {
    if schedule == [] then Initial(job)
    else Move(job, After(job, schedule[..|schedule| - 1]), schedule[|schedule| - 1])
  }

  /** Where the block that starts at lo ends. */
  function BlockEnd(job: Job, lo: nat): nat
  {
    if job.bufLines < |job.lines| - lo then lo + job.bufLines else |job.lines|
  }

  /** The row n blocks behind lo. */
  function Behind(job: Job, lo: nat, n: nat): nat
  {
    if n == 0 then lo else BlockEnd(job, Behind(job, lo, n - 1))
  }

  lemma {:induction false} BehindFirst(job: Job, lo: nat, n: nat)
    ensures Behind(job, BlockEnd(job, lo), n) == Behind(job, lo, n + 1)
  {
    if n > 0 {
      BehindFirst(job, lo, n - 1);
    }
  }

  /** The future stands for rows lo to hi, at least one. */
  predicate Holds(job: Job, f: Future, lo: nat, hi: nat)
  {
    lo < hi <= |job.lines| &&
    match f
    case Empty => false
    case Pending(l, h) => l == lo && h == hi
    case Ready(l, h, text) => l == lo && h == hi && text == job.Block(lo, hi)
  }

  /** The futures from position a to b hold the blocks from row lo on, in order; all the others are empty. */
  ghost predicate Blocks(job: Job, futures: seq<Future>, a: nat, b: nat, lo: nat)
  {
    a <= b <= |futures| &&
    forall j :: 0 <= j < |futures| ==>
      if a <= j < b then Holds(job, futures[j], Behind(job, lo, j - a), BlockEnd(job, Behind(job, lo, j - a)))
      else futures[j] == Empty
  }

  /** How many futures of slot idx the loop has assigned in this batch. */
  function Assigned(s: State): nat
  {
    if s.pc in {Spawn, WaitWrite, LaunchWrite} then s.t else 0
  }

  function From(w: WriteTask): nat
  {
    if w.NoTask? then 0 else w.i
  }

  function To(w: WriteTask): nat
  {
    if w.NoTask? then 0 else w.t
  }

  /**
   The output covers the rows taken; the write task's slot holds the next blocks, and the loop's
   slot those behind them, up to the row it has reached.
   */
  ghost predicate Inv(job: Job, s: State)
    requires Shaped(job, s)
  {
    job.Ok() && (s.write.Writing? ==> s.write.slot == 1 - s.idx) && From(s.write) <= To(s.write) &&
    (s.pc == LaunchWrite ==> Idle(s.write)) &&
    (s.pc in {LastWait, Finished} ==> s.begin == |job.lines|) &&
    (s.pc == Finished ==> Idle(s.write)) &&
    (s.pc == Spawn && s.t == 0 ==> s.begin < |job.lines|) &&
    s.out == job.header + job.Block(0, s.taken) &&
    Blocks(job, s.slots[1 - s.idx], From(s.write), To(s.write), s.taken) &&
    var next := Behind(job, s.taken, To(s.write) - From(s.write));
    Blocks(job, s.slots[s.idx], 0, Assigned(s), next) && s.begin == Behind(job, next, Assigned(s))
  }

  lemma BlockPush(job: Job, lo: nat, hi: nat)
    requires lo <= hi <= |job.lines|
    ensures job.Block(0, lo) + job.Block(lo, hi) == job.Block(0, hi)
  {
    assert job.lines[0..hi] == job.lines[0..lo] + job.lines[lo..hi];
    FlattenAppend(job.lines[0..lo], job.lines[lo..hi]);
  }

  lemma InitialInv(job: Job)
    requires job.Ok()
    ensures Inv(job, Initial(job))
  {
    assert job.lines[0..0] == [];
  }

  lemma SpawnInv(job: Job, s: State)
    requires Shaped(job, s) && Inv(job, s) && s.pc == Spawn
    ensures Inv(job, MainStep(job, s))
    ensures s.t < job.threads && s.begin < |job.lines| ==> s.slots[s.idx][s.t] == Empty
  {
  }

  lemma LaunchInv(job: Job, s: State)
    requires Shaped(job, s) && Inv(job, s) && s.pc == LaunchWrite
    ensures Inv(job, MainStep(job, s))
  {
  }

  lemma MainInv(job: Job, s: State)
    requires Shaped(job, s) && Inv(job, s)
    ensures Inv(job, MainStep(job, s))
  {
    if s.pc == Spawn {
      SpawnInv(job, s);
    } else if s.pc == LaunchWrite {
      LaunchInv(job, s);
    }
  }

  /** The write task never meets an empty future, and takes blocks in order. */
  lemma WriterInv(job: Job, s: State)
    requires Shaped(job, s) && Inv(job, s)
    ensures Inv(job, WriterStep(job, s))
    ensures !Idle(s.write) ==> !s.slots[s.write.slot][s.write.i].Empty?
  {
    if !Idle(s.write) {
      var f := s.slots[s.write.slot][s.write.i];
      assert Behind(job, s.taken, 0) == s.taken;
      assert Holds(job, f, s.taken, BlockEnd(job, s.taken));
      if f.Ready? {
        TakeFirst(job, s.slots[s.write.slot], s.write.i, s.write.t, s.taken);
        BlockPush(job, s.taken, f.hi);
        BehindFirst(job, s.taken, s.write.t - s.write.i - 1);
        hide Behind, Holds, Flatten;
      }
    }
  }

  lemma TakeFirst(job: Job, futures: seq<Future>, a: nat, b: nat, lo: nat)
    requires Blocks(job, futures, a, b, lo) && a < b
    ensures Blocks(job, futures[a := Empty], a + 1, b, BlockEnd(job, lo))
  {
    var next := BlockEnd(job, lo);
    forall j {:trigger futures[j]} | 0 <= j < |futures|
      ensures if a + 1 <= j < b
              then Holds(job, futures[a := Empty][j], Behind(job, next, j - (a + 1)), BlockEnd(job, Behind(job, next, j - (a + 1))))
              else futures[a := Empty][j] == Empty
    {
      if a + 1 <= j < b {
        BehindFirst(job, lo, j - (a + 1));
        assert Holds(job, futures[j], Behind(job, lo, j - a), BlockEnd(job, Behind(job, lo, j - a)));
      }
    }
  }

  lemma FillerInv(job: Job, s: State, slot: nat, i: nat)
    requires Shaped(job, s) && Inv(job, s)
    ensures Inv(job, FillerStep(job, s, slot, i))
  {
    if slot < 2 && i < job.threads && s.slots[slot][i].Pending? {
      var next := Behind(job, s.taken, To(s.write) - From(s.write));
      if slot == s.idx {
        FillFuture(job, s.slots[slot], i, 0, Assigned(s), next);
      } else {
        FillFuture(job, s.slots[slot], i, From(s.write), To(s.write), s.taken);
      }
      hide Blocks, Behind, Holds;
    }
  }

  /** A pending future that becomes ready holds the same block. */
  lemma FillFuture(job: Job, futures: seq<Future>, i: nat, a: nat, b: nat, lo: nat)
    requires Blocks(job, futures, a, b, lo) && i < |futures| && futures[i].Pending?
    ensures var f := futures[i];
            f.lo <= f.hi <= |job.lines| &&
            Blocks(job, futures[i := Ready(f.lo, f.hi, job.Block(f.lo, f.hi))], a, b, lo)
  {
    assert a <= i < b && Holds(job, futures[i], Behind(job, lo, i - a), BlockEnd(job, Behind(job, lo, i - a)));
    var f := futures[i];
    var filled := futures[i := Ready(f.lo, f.hi, job.Block(f.lo, f.hi))];
    hide BlockEnd, Behind, Flatten;
    forall j {:trigger futures[j]} | 0 <= j < |futures|
      ensures if a <= j < b then Holds(job, filled[j], Behind(job, lo, j - a), BlockEnd(job, Behind(job, lo, j - a)))
              else filled[j] == Empty
    {
      assert j != i ==> filled[j] == futures[j];
    }
  }

  lemma {:induction false} InvHolds(job: Job, schedule: seq<Actor>)
    requires job.Ok()
    ensures Inv(job, After(job, schedule))
  {
    if schedule == [] {
      InitialInv(job);
    } else {
      var s, actor := After(job, schedule[..|schedule| - 1]), schedule[|schedule| - 1];
      InvHolds(job, schedule[..|schedule| - 1]);
      match actor
      case Main => MainInv(job, s);
      case WriterTask => WriterInv(job, s);
      case Filler(slot, i) => FillerInv(job, s, slot, i);
    }
  }

  /** The output is in order at every moment, and complete when the loop has finished. */
  lemma OutputInOrder(job: Job, schedule: seq<Actor>)
    requires job.Ok()
    ensures var s := After(job, schedule);
            s.out == job.header + Flatten(job.lines[..s.taken]) &&
            (s.pc == Finished ==> s.out == job.header + Flatten(job.lines))
  {
    InvHolds(job, schedule);
    var s := After(job, schedule);
    assert job.lines[0..s.taken] == job.lines[..s.taken];
    if s.pc == Finished {
      assert job.lines[..|job.lines|] == job.lines;
    }
  }

  /** Two slots are enough: a future is assigned only where the last one has been taken, and taken only where one is. */
  lemma EachFutureTakenOnce(job: Job, schedule: seq<Actor>)
    requires job.Ok()
    ensures var s := After(job, schedule);
            (s.pc == Spawn && s.t < job.threads && s.begin < |job.lines| ==> s.slots[s.idx][s.t] == Empty) &&
            (!Idle(s.write) ==> s.slots[s.write.slot][s.write.i] != Empty) &&
            (s.pc == Finished ==> forall slot, i :: 0 <= slot < 2 && 0 <= i < job.threads ==> s.slots[slot][i] == Empty)
  {
    InvHolds(job, schedule);
    var s := After(job, schedule);
    WriterInv(job, s);
    if s.pc == Spawn {
      SpawnInv(job, s);
    }
  }

  /** A write task is launched only when the one before it has finished. */
  lemma {:induction false} OneWriteTaskAtATime(job: Job, schedule: seq<Actor>)
    requires job.Ok()
    ensures After(job, schedule).pc == LaunchWrite ==> Idle(After(job, schedule).write)
  {
    InvHolds(job, schedule);
  }

  function PendingIn(futures: seq<Future>): nat
  {
    if futures == [] then 0 else PendingIn(futures[..|futures| - 1]) + if futures[|futures| - 1].Pending? then 1 else 0
  }

  lemma {:induction false} PendingPut(futures: seq<Future>, i: nat, f: Future)
    requires i < |futures|
    ensures PendingIn(futures[i := f])
         == PendingIn(futures) + (if f.Pending? then 1 else 0) - (if futures[i].Pending? then 1 else 0)
    decreases |futures|
  {
    var m := |futures| - 1;
    if i < m {
      PendingPut(futures[..m], i, f);
      assert futures[i := f][..m] == futures[..m][i := f];
    } else {
      assert futures[i := f][..m] == futures[..m];
    }
  }

  function PhasesLeft(job: Job, s: State): nat
  {
    match s.pc
    case Outer => if s.begin < |job.lines| then 7 else 3
    case Spawn => if s.t == 0 then 6 else 11
    case WaitWrite => 10
    case LaunchWrite => 9
    case LastWait => 1
    case Finished => 0
  }

  /** What is left to do. */
  function Left(job: Job, s: State): nat
    requires Shaped(job, s)
  {
    8 * (|job.lines| - s.begin) + PhasesLeft(job, s) + (|job.lines| - s.taken)
    + PendingIn(s.slots[0]) + PendingIn(s.slots[1])
  }

  lemma MainMovesRunOut(job: Job, s: State)
    requires Shaped(job, s) && Inv(job, s) && MainStep(job, s) != s
    ensures Left(job, MainStep(job, s)) < Left(job, s)
  {
    hide PendingIn, Blocks;
    if s.pc == Spawn && s.t < job.threads && s.begin < |job.lines| {
      SpawnInv(job, s);
      PendingPut(s.slots[s.idx], s.t, Pending(s.begin, BlockEnd(job, s.begin)));
    }
  }

  /** The future the write task waits for holds the block at hand. */
  lemma NextIsHeld(job: Job, s: State)
    requires Shaped(job, s) && Inv(job, s) && !Idle(s.write)
    ensures Holds(job, s.slots[s.write.slot][s.write.i], s.taken, BlockEnd(job, s.taken))
  {
    assert Behind(job, s.taken, 0) == s.taken;
  }

  lemma WriterMovesRunOut(job: Job, s: State)
    requires Shaped(job, s) && Inv(job, s) && WriterStep(job, s) != s
    ensures Left(job, WriterStep(job, s)) < Left(job, s)
  {
    NextIsHeld(job, s);
    hide PendingIn, Inv;
    PendingPut(s.slots[s.write.slot], s.write.i, Empty);
  }

  lemma FillerMovesRunOut(job: Job, s: State, slot: nat, i: nat)
    requires Shaped(job, s) && Inv(job, s) && FillerStep(job, s, slot, i) != s
    ensures Left(job, FillerStep(job, s, slot, i)) < Left(job, s)
  {
    hide PendingIn, Inv;
    var f := s.slots[slot][i];
    PendingPut(s.slots[slot], i, Ready(f.lo, f.hi, job.Block(f.lo, f.hi)));
  }

  /** Every run ends: a move that changes the state leaves less to do. */
  lemma MovesRunOut(job: Job, s: State, actor: Actor)
    requires Shaped(job, s) && Inv(job, s) && Move(job, s, actor) != s
    ensures Left(job, Move(job, s, actor)) < Left(job, s)
  {
    match actor
    case Main => MainMovesRunOut(job, s);
    case WriterTask => WriterMovesRunOut(job, s);
    case Filler(slot, i) => FillerMovesRunOut(job, s, slot, i);
  }

  /** No deadlock: until the loop has finished, somebody can move. */
  lemma SomebodyCanMove(job: Job, schedule: seq<Actor>)
    requires job.Ok() && After(job, schedule).pc != Finished
    ensures exists actor :: Move(job, After(job, schedule), actor) != After(job, schedule)
  {
    InvHolds(job, schedule);
    var s := After(job, schedule);
    hide Blocks, Behind, Flatten;
    if s.pc in {WaitWrite, LastWait} && !Idle(s.write) {
      WriterInv(job, s);
      var f := s.slots[s.write.slot][s.write.i];
      if f.Ready? {
        assert Move(job, s, WriterTask).write != s.write;
      } else {
        assert Move(job, s, Filler(s.write.slot, s.write.i)).slots[s.write.slot][s.write.i].Ready?;
      }
    } else {
      assert Move(job, s, Main) != s;
    }
  }
}
