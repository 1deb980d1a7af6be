/**
 The connection loop as concurrent tasks over two buffers: the loop reads the next buffer
 while one task parses and another writes the current one. Tasks move byte by byte, in any
 order the schedule gives.
 */
module ConnectionTasks {
  import opened Seqs
  import opened Csv
  import opened Bytewise
  import opened Buffers
  import opened ReadBuffers

  /** The first byte of chunk k that is parsed. */
  function From(start: nat, k: nat): nat
  {
    if k == 0 then start else 0
  }

  /**
   What arrives read by read, the size of a new buffer, what the buffers hold of it, where the first
   data byte lies, and how it is parsed.
   */
  datatype Input = Input(arrived: seq<string>, size: nat, chunks: seq<string>, start: nat, cfg: Config, acc: Acc)
  {
    ghost predicate Ok()
    {
      chunks != [] && |chunks| == |arrived| && AreHeld(arrived, size, chunks) && size > 0 &&
      start <= |chunks[0]| && acc.Ok() && cfg.singleThread
    }

    /** What is parsed of the first k chunks. */
    function Regions(k: nat): (r: seq<string>)
      requires chunks != [] && start <= |chunks[0]| && k <= |chunks|
      ensures |r| == k
    {
      seq(k, c requires 0 <= c < k => chunks[c][From(start, c)..])
    }

    function Offset(k: nat): nat
      requires k <= |chunks|
    {
      |Flatten(chunks[..k])|
    }
  }

  /** A task works on a chunk, in the buffer it was given, and has got as far as pos. */
  datatype Task = NotStarted | Task(chunk: nat, pos: nat)

  datatype Pc = WaitParse | LaunchParse | WaitWrite | LaunchWrite | Read | Drain | Finished

  /** The loop is at chunk k; chunk k is held in buffer k % 2. A buffer is one byte longer than what it holds. */
  datatype State = State(pc: Pc, k: nat, even: string, odd: string, parse: Task, write: Task, acc: Acc, out: string)
  {
    function Buffer(chunk: nat): string
    {
      if chunk % 2 == 0 then even else odd
    }
  }

  datatype Actor = Main | Parser | Writer

  function Initial(input: Input): State
    requires input.Ok()
  {
    State(WaitParse, 0, Resized(input.size, input.arrived[0]), Fill('\0', input.size - 1), NotStarted, NotStarted, input.acc, "")
  }

  /** A task that has not been launched, or has used up its buffer, can be waited for. */
  predicate Idle(input: Input, t: Task)
  {
    t.NotStarted? || t.chunk >= |input.chunks| || t.pos >= |input.chunks[t.chunk]|
  }

  function MainStep(input: Input, s: State): State
  {
    match s.pc
    case WaitParse => if Idle(input, s.parse) then s.(pc := LaunchParse) else s
    case LaunchParse => s.(pc := WaitWrite, parse := Task(s.k, From(input.start, s.k)))
    case WaitWrite => if Idle(input, s.write) then s.(pc := LaunchWrite) else s
    case LaunchWrite => s.(pc := Read, write := Task(s.k, 0))
    case Read =>
      if s.k + 1 < |input.arrived| then
        if (s.k + 1) % 2 == 0 then s.(pc := WaitParse, k := s.k + 1, even := Resized(|s.even| + 1, input.arrived[s.k + 1]))
        else s.(pc := WaitParse, k := s.k + 1, odd := Resized(|s.odd| + 1, input.arrived[s.k + 1]))
      else s.(pc := Drain)
    case Drain => if Idle(input, s.parse) && Idle(input, s.write) then s.(pc := Finished) else s
    case Finished => s
  }

  /** The parser reads the byte that its buffer holds now. */
  function ParserStep(input: Input, s: State): State
  {
    if Idle(input, s.parse) || s.parse.pos >= |s.Buffer(s.parse.chunk)| || !s.acc.Ok() then s
    else
      var t := s.parse;
      match Step(input.cfg, s.acc, input.Offset(t.chunk) + t.pos, s.Buffer(t.chunk)[t.pos], t.pos > From(input.start, t.chunk))
      case Done(a) => s.(parse := t.(pos := t.pos + 1), acc := a)
      case NewlineError => s
  }

  function WriterStep(input: Input, s: State): State
  {
    if Idle(input, s.write) || s.write.pos >= |s.Buffer(s.write.chunk)| then s
    else s.(write := s.write.(pos := s.write.pos + 1), out := s.out + [s.Buffer(s.write.chunk)[s.write.pos]])
  }

  function Move(input: Input, s: State, actor: Actor): State
  {
    match actor
    case Main => MainStep(input, s)
    case Parser => ParserStep(input, s)
    case Writer => WriterStep(input, s)
  }

  function After(input: Input, schedule: seq<Actor>): State
    requires input.Ok()
  {
    if schedule == [] then Initial(input)
    else Move(input, After(input, schedule[..|schedule| - 1]), schedule[|schedule| - 1])
  }

  /** A chunk that a task may still read lies unharmed in its buffer. */
  ghost predicate Intact(input: Input, s: State, t: Task)
  {
    t.Task? ==> t.chunk <= s.k < |input.chunks| && s.Buffer(t.chunk) == input.chunks[t.chunk] &&
                t.pos <= |input.chunks[t.chunk]|
  }

  /** How far the parse has got. */
  ghost predicate Parsed(input: Input, parse: Task, acc: Acc)
    requires input.Ok()
  {
    match parse
    case NotStarted => acc == input.acc
    case Task(c, pos) =>
      c < |input.chunks| && From(input.start, c) <= pos <= |input.chunks[c]| &&
      var before := Stream(input.cfg, input.acc, input.Regions(c), input.start);
      before.Done? && Fold(input.cfg, before.acc, input.chunks[c][From(input.start, c)..pos], input.Offset(c) + From(input.start, c), false)
                      == Done(acc)
  }

  /** How far the writing has got. */
  ghost predicate Copied(input: Input, write: Task, out: string)
    requires input.Ok()
  {
    match write
    case NotStarted => out == ""
    case Task(c, pos) =>
      c < |input.chunks| && pos <= |input.chunks[c]| && out == Flatten(input.chunks[..c]) + input.chunks[c][..pos]
  }

  /** Which chunk a task has been given, when the loop has launched it for chunk k or not yet. */
  ghost predicate Given(t: Task, k: nat, launched: bool)
  {
    if launched then t.Task? && t.chunk == k
    else if k == 0 then t.NotStarted?
    else t.Task? && t.chunk == k - 1
  }

  /** Where the loop is, and which chunks it has given to the tasks. */
  ghost predicate Control(input: Input, s: State)
  {
    s.k < |input.chunks| &&
    Given(s.parse, s.k, s.pc !in {WaitParse, LaunchParse}) &&
    Given(s.write, s.k, s.pc in {Read, Drain, Finished}) &&
    (s.pc == LaunchParse ==> Idle(input, s.parse)) &&
    (s.pc == LaunchWrite ==> Idle(input, s.write)) &&
    (s.pc in {Drain, Finished} ==> s.k + 1 == |input.chunks|) &&
    (s.pc == Finished ==> Idle(input, s.parse) && Idle(input, s.write))
  }

  /** The loop's buffer holds its chunk, the other one is as long as the chunk before, and what the tasks read is intact. */
  ghost predicate Buffered(input: Input, s: State)
  {
    s.k < |input.chunks| && s.Buffer(s.k) == input.chunks[s.k] &&
    |s.Buffer(s.k + 1)| + 1 == (if s.k == 0 then input.size else |input.chunks[s.k - 1]| + 1) &&
    Intact(input, s, s.parse) && Intact(input, s, s.write)
  }

  ghost predicate Inv(input: Input, s: State)
    requires input.Ok()
  {
    Control(input, s) && Buffered(input, s) && Parsed(input, s.parse, s.acc) && Copied(input, s.write, s.out)
  }

  lemma OneMoreChunk(input: Input, c: nat)
    requires input.Ok() && c < |input.chunks|
    ensures Flatten(input.Regions(c + 1)) == Flatten(input.Regions(c)) + input.chunks[c][From(input.start, c)..]
    ensures input.Regions(c + 1) == input.Regions(c) + [input.chunks[c][From(input.start, c)..]]
    ensures Flatten(input.chunks[..c + 1]) == Flatten(input.chunks[..c]) + input.chunks[c]
    ensures input.Offset(c + 1) == input.Offset(c) + |input.chunks[c]|
  {
    var region := input.chunks[c][From(input.start, c)..];
    assert input.Regions(c + 1) == input.Regions(c) + [region];
    FlattenPush(input.Regions(c), region);
    assert input.chunks[..c + 1] == input.chunks[..c] + [input.chunks[c]];
    FlattenPush(input.chunks[..c], input.chunks[c]);
  }

  /** The stream's own offsets are those of the file. */
  lemma {:induction false} OffsetOfChunk(input: Input, c: nat)
    requires input.Ok() && c < |input.chunks|
    ensures input.start + |Flatten(input.Regions(c))| == input.Offset(c) + From(input.start, c)
  {
    if c > 0 {
      OffsetOfChunk(input, c - 1);
      OneMoreChunk(input, c - 1);
    } else {
      assert input.Regions(0) == [] && input.chunks[..0] == [];
    }
  }

  /** A parsed chunk extends the stream. */
  lemma ChunkParsed(input: Input, parse: Task, acc: Acc)
    requires input.Ok() && Parsed(input, parse, acc) && parse.Task? && Idle(input, parse)
    ensures Stream(input.cfg, input.acc, input.Regions(parse.chunk + 1), input.start) == Done(acc)
  {
    hide Stream, Fold, Flatten, AreHeld;
    var c := parse.chunk;
    var region := input.chunks[c][From(input.start, c)..];
    OffsetOfChunk(input, c);
    OneMoreChunk(input, c);
    assert input.chunks[c][From(input.start, c)..parse.pos] == region;
    StreamPush(input.cfg, input.acc, input.Regions(c), region, input.start);
  }

  lemma StreamPush(cfg: Config, acc: Acc, bufs: seq<string>, buf: string, p: nat)
    requires acc.Ok() && Stream(cfg, acc, bufs, p).Done?
    ensures Stream(cfg, acc, bufs + [buf], p)
         == Fold(cfg, Stream(cfg, acc, bufs, p).acc, buf, p + |Flatten(bufs)|, false)
  {
    hide Fold, Flatten;
    assert (bufs + [buf])[..|bufs|] == bufs;
  }

  /** One more byte of a text. */
  lemma FoldPush(cfg: Config, acc: Acc, text: string, lo: nat, pos: nat, p: nat, after: Acc)
    requires acc.Ok() && lo <= pos < |text| && Fold(cfg, acc, text[lo..pos], p, false) == Done(after)
    ensures Fold(cfg, acc, text[lo..pos + 1], p, false) == Step(cfg, after, p + (pos - lo), text[pos], pos > lo)
  {
    var c := [text[pos]];
    assert text[lo..pos + 1] == text[lo..pos] + c;
    FoldAppend(cfg, acc, text[lo..pos], c, p, false);
    assert c[1..] == "";
  }

  /** The parser's byte is the next byte of its chunk. */
  lemma ParserParsed(input: Input, s: State)
    requires input.Ok() && Parsed(input, s.parse, s.acc) && Intact(input, s, s.parse) && !Idle(input, s.parse)
    ensures var t := s.parse;
            var r := Step(input.cfg, s.acc, input.Offset(t.chunk) + t.pos, input.chunks[t.chunk][t.pos], t.pos > From(input.start, t.chunk));
            s.acc.Ok() && r.Done? && ParserStep(input, s) == s.(parse := t.(pos := t.pos + 1), acc := r.acc) &&
            Parsed(input, ParserStep(input, s).parse, ParserStep(input, s).acc)
  {
    hide Stream, Fold, Flatten;
    var t := s.parse;
    FoldPush(input.cfg, Stream(input.cfg, input.acc, input.Regions(t.chunk), input.start).acc,
             input.chunks[t.chunk], From(input.start, t.chunk), t.pos, input.Offset(t.chunk) + From(input.start, t.chunk), s.acc);
  }

  lemma ParserInv(input: Input, s: State)
    requires input.Ok() && Inv(input, s)
    ensures Inv(input, ParserStep(input, s))
  {
    hide AreHeld, Parsed, Copied, Step;
    if !Idle(input, s.parse) {
      ParserParsed(input, s);
    }
  }

  /** The writer's byte is the next byte of its chunk. */
  lemma WriterCopied(input: Input, s: State)
    requires input.Ok() && Copied(input, s.write, s.out) && Intact(input, s, s.write) && !Idle(input, s.write)
    ensures var t := s.write;
            var out := s.out + [input.chunks[t.chunk][t.pos]];
            WriterStep(input, s) == s.(write := t.(pos := t.pos + 1), out := out) &&
            Copied(input, t.(pos := t.pos + 1), out)
  {
    hide AreHeld, Flatten;
    var text := input.chunks[s.write.chunk];
    assert text[..s.write.pos + 1] == text[..s.write.pos] + [text[s.write.pos]];
  }

  lemma WriterInv(input: Input, s: State)
    requires input.Ok() && Inv(input, s)
    ensures Inv(input, WriterStep(input, s))
  {
    hide AreHeld, Parsed, Copied;
    if !Idle(input, s.write) {
      WriterCopied(input, s);
    }
  }

  lemma LaunchedParse(input: Input, parse: Task, acc: Acc, k: nat)
    requires input.Ok() && Parsed(input, parse, acc) && Given(parse, k, false) && Idle(input, parse) && k < |input.chunks|
    ensures Parsed(input, Task(k, From(input.start, k)), acc)
  {
    if k > 0 {
      ChunkParsed(input, parse, acc);
    } else {
      assert input.Regions(0) == [];
    }
    assert input.chunks[k][From(input.start, k)..From(input.start, k)] == "";
  }

  lemma LaunchedWrite(input: Input, write: Task, out: string, k: nat)
    requires input.Ok() && Copied(input, write, out) && Given(write, k, false) && Idle(input, write) && k < |input.chunks|
    ensures Copied(input, Task(k, 0), out)
  {
    hide AreHeld;
    if k > 0 {
      OneMoreChunk(input, k - 1);
      assert input.chunks[k - 1][..write.pos] == input.chunks[k - 1];
    } else {
      assert input.chunks[..0] == [];
    }
    assert input.chunks[k][..0] == "";
  }

  /** What the loop's buffer holds when read k has gone into it. */
  lemma NextHeld(input: Input, k: nat)
    requires input.Ok() && k < |input.chunks|
    ensures input.chunks[k] == Resized(if k < 2 then input.size else |input.chunks[k - 2]| + 1, input.arrived[k])
  {
    assert IsHeld(input.arrived, input.size, input.chunks, k);
    assert k >= 2 ==> IsHeld(input.arrived, input.size, input.chunks, k - 2);
  }

  lemma MainControl(input: Input, s: State)
    requires Control(input, s) && |input.arrived| == |input.chunks|
    ensures Control(input, MainStep(input, s))
  {
    hide Resized;
  }

  /** The next read goes into the buffer that no task uses. */
  lemma ReadBuffered(input: Input, s: State)
    requires input.Ok() && Control(input, s) && Buffered(input, s) && s.pc == Read && s.k + 1 < |input.arrived|
    ensures Buffered(input, MainStep(input, s))
  {
    hide AreHeld, Resized;
    NextHeld(input, s.k + 1);
  }

  lemma MainBuffered(input: Input, s: State)
    requires input.Ok() && Control(input, s) && Buffered(input, s)
    ensures Buffered(input, MainStep(input, s))
  {
    hide AreHeld, Resized;
    if s.pc == Read && s.k + 1 < |input.arrived| {
      ReadBuffered(input, s);
    }
  }

  lemma MainInv(input: Input, s: State)
    requires input.Ok() && Inv(input, s)
    ensures Inv(input, MainStep(input, s))
  {
    MainControl(input, s);
    MainBuffered(input, s);
    assert Given(s.parse, s.k, s.pc !in {WaitParse, LaunchParse}) && Given(s.write, s.k, s.pc in {Read, Drain, Finished});
    assert s.pc == LaunchParse ==> Idle(input, s.parse);
    assert s.pc == LaunchWrite ==> Idle(input, s.write);
    hide AreHeld, Resized, Parsed, Copied, Control, Buffered;
    if s.pc == LaunchParse {
      LaunchedParse(input, s.parse, s.acc, s.k);
    } else if s.pc == LaunchWrite {
      LaunchedWrite(input, s.write, s.out, s.k);
    }
  }

  lemma InitialInv(input: Input)
    requires input.Ok()
    ensures Inv(input, Initial(input))
  {
    hide AreHeld, Resized;
    NextHeld(input, 0);
  }

  lemma {:induction false} InvHolds(input: Input, schedule: seq<Actor>)
    requires input.Ok()
    ensures Inv(input, After(input, schedule))
  {
    hide Inv, AreHeld, MainStep, ParserStep, WriterStep;
    if schedule == [] {
      InitialInv(input);
    } else {
      var s, actor := After(input, schedule[..|schedule| - 1]), schedule[|schedule| - 1];
      InvHolds(input, schedule[..|schedule| - 1]);
      match actor
      case Main => MainInv(input, s);
      case Parser => ParserInv(input, s);
      case Writer => WriterInv(input, s);
    }
  }

  /** Under every schedule, no task works on the buffer that the loop reads into. */
  lemma NoBufferInUseIsOverwritten(input: Input, schedule: seq<Actor>)
    requires input.Ok() && After(input, schedule).pc == Read
    ensures var s := After(input, schedule);
            s.parse.Task? && s.write.Task? &&
            s.parse.chunk % 2 != (s.k + 1) % 2 && s.write.chunk % 2 != (s.k + 1) % 2
  {
    hide Parsed, Copied, Buffered, AreHeld, Move;
    InvHolds(input, schedule);
  }

  /** Under every schedule, a finished loop has parsed the stream of what the buffers held, and copied it. */
  lemma EveryScheduleSameIndex(input: Input, schedule: seq<Actor>)
    requires input.Ok() && After(input, schedule).pc == Finished
    ensures var s := After(input, schedule);
            Stream(input.cfg, input.acc, input.Regions(|input.chunks|), input.start) == Done(s.acc) &&
            s.out == Flatten(input.chunks)
  {
    hide Buffered, AreHeld, Move, Stream, Fold, Flatten;
    InvHolds(input, schedule);
    var s := After(input, schedule);
    ChunkParsed(input, s.parse, s.acc);
    OneMoreChunk(input, s.k);
    assert input.chunks[..|input.chunks|] == input.chunks;
    assert input.chunks[s.k][..s.write.pos] == input.chunks[s.k];
  }

  /** Under every schedule, the copy is the input if and only if no read is harmed when its buffer grows. */
  lemma CopyIsInput(input: Input, schedule: seq<Actor>)
    requires input.Ok() && After(input, schedule).pc == Finished
    ensures After(input, schedule).out == Flatten(input.arrived) <==> AllSurvive(input.arrived)
  {
    EveryScheduleSameIndex(input, schedule);
    HeldAreHeld(input.arrived, input.size, input.chunks);
    hide *;
    CopyIsInputIff(input.arrived);
  }

  /** How many bytes of the input a task has behind it. */
  function Progress(input: Input, t: Task): nat
  {
    if t.Task? && t.chunk <= |input.chunks| then input.Offset(t.chunk) + t.pos else 0
  }

  /** What is left to do. */
  function Left(input: Input, s: State): int
  {
    PhasesLeft(s.pc) + 8 * (|input.chunks| - s.k)
    + 2 * |Flatten(input.chunks)| - Progress(input, s.parse) - Progress(input, s.write)
  }

  function PhasesLeft(pc: Pc): nat
  {
    match pc
    case WaitParse => 6
    case LaunchParse => 5
    case WaitWrite => 4
    case LaunchWrite => 3
    case Read => 2
    case Drain => 1
    case Finished => 0
  }

  lemma ProgressBounded(input: Input, t: Task)
    requires input.Ok() && (t.Task? ==> t.chunk < |input.chunks| && t.pos <= |input.chunks[t.chunk]|)
    ensures Progress(input, t) <= |Flatten(input.chunks)|
  {
    hide AreHeld;
    if t.Task? {
      OneMoreChunk(input, t.chunk);
      assert input.chunks == input.chunks[..t.chunk + 1] + input.chunks[t.chunk + 1..];
      FlattenAppend(input.chunks[..t.chunk + 1], input.chunks[t.chunk + 1..]);
    }
  }

  lemma MainMovesRunOut(input: Input, s: State)
    requires input.Ok() && Inv(input, s) && MainStep(input, s) != s
    ensures Left(input, MainStep(input, s)) < Left(input, s)
  {
    hide Stream, Fold, Flatten, AreHeld, Parsed, Copied, Resized;
    if s.k > 0 && s.pc in {LaunchParse, LaunchWrite} {
      OneMoreChunk(input, s.k - 1);
    }
  }

  /** Every run ends: a move that changes the state leaves less to do, and there is only so much. */
  lemma MovesRunOut(input: Input, s: State, actor: Actor)
    requires input.Ok() && Inv(input, s)
    ensures Left(input, s) >= 0
    ensures Move(input, s, actor) != s ==> Left(input, Move(input, s, actor)) < Left(input, s)
  {
    hide AreHeld, Parsed, Copied, Flatten, Step;
    ProgressBounded(input, s.parse);
    ProgressBounded(input, s.write);
    if actor == Main && MainStep(input, s) != s {
      hide MainStep;
      MainMovesRunOut(input, s);
    } else if actor == Parser && !Idle(input, s.parse) {
      ParserParsed(input, s);
    } else if actor == Writer && !Idle(input, s.write) {
      WriterCopied(input, s);
    }
  }

  /** No deadlock: until the loop has finished, somebody can move. */
  lemma SomebodyCanMove(input: Input, schedule: seq<Actor>)
    requires input.Ok() && After(input, schedule).pc != Finished
    ensures exists actor :: Move(input, After(input, schedule), actor) != After(input, schedule)
  {
    InvHolds(input, schedule);
    SomebodyMoves(input, After(input, schedule));
  }

  lemma SomebodyMoves(input: Input, s: State)
    requires input.Ok() && Inv(input, s) && s.pc != Finished
    ensures exists actor :: Move(input, s, actor) != s
  {
    hide AreHeld, Parsed, Copied, Resized;
    if s.pc in {WaitParse, Drain} && !Idle(input, s.parse) {
      ParserParsed(input, s);
      assert Move(input, s, Parser).parse != s.parse;
    } else if s.pc in {WaitWrite, Drain} && !Idle(input, s.write) {
      WriterCopied(input, s);
      assert Move(input, s, Writer).write != s.write;
    } else {
      assert Move(input, s, Main).pc != s.pc;
    }
  }
}
