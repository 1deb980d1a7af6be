/**
 A file indexed in chunks, each parsed as if it began a record. When no chunk meets a
 newline inside quotes the chunks together are the one-thread index, except when a chunk
 begins with a bare newline that row repair should have padded.
 */
module Chunks {
  import opened Seqs
  import opened Csv

  /** What the theorems ask of a configuration: LF line ends, and a comment string on one line. */
  predicate LineConfig(cfg: Config)
  {
    cfg.newline == '\n' && cfg.delim != '\n' && '\n' !in cfg.comment
  }

  /** A move before `mid` does not depend on whether the region ends there, and does not pass it. */
  lemma NextStable(src: string, cfg: Config, start: nat, pos: nat, mid: nat, end: nat, acc: Acc)
    requires LineConfig(cfg) && acc.Ok()
    requires pos < mid <= end <= |src| && src[mid - 1] == '\n'
    ensures var next := Next(src, cfg, start, pos, mid, 0, acc);
            next == Next(src, cfg, start, pos, end, 0, acc) && (next.Go? ==> next.pos <= mid)
  {
    assert SkipRestOfLine(src, pos) <= mid - 1;
  }

  /** A region may be cut after any newline byte. */
  lemma {:induction false} RunSplits(src: string, cfg: Config, start: nat, pos: nat, mid: nat, end: nat, acc: Acc)
    requires LineConfig(cfg) && acc.Ok()
    requires pos <= mid <= end <= |src| && 0 < mid && src[mid - 1] == '\n'
    ensures Run(src, cfg, start, pos, end, 0, acc)
         == match Run(src, cfg, start, pos, mid, 0, acc)
            case Done(a) => Run(src, cfg, start, mid, end, 0, a)
            case NewlineError => NewlineError
    decreases mid - pos
  {
    if pos < mid {
      NextStable(src, cfg, start, pos, mid, end, acc);
      match Next(src, cfg, start, pos, mid, 0, acc)
      case Go(next, a) => RunSplits(src, cfg, start, next, mid, end, a);
      case Throw =>
    }
  }

  /** A chunk that does not throw ends between records, and one thread parses it alike. */
  lemma {:induction false} ChunkEndsRecord(src: string, cfg: Config, start: nat, pos: nat, mid: nat, acc: Acc)
    requires LineConfig(cfg) && acc.Ok() && !cfg.singleThread
    requires pos <= mid <= |src| && 0 < mid && src[mid - 1] == '\n'
    requires pos == mid ==> acc.state == RecordStart
    requires Run(src, cfg, start, pos, mid, 0, acc).Done?
    ensures Run(src, cfg, start, pos, mid, 0, acc).acc.state == RecordStart
    ensures Run(src, cfg.(singleThread := true), start, pos, mid, 0, acc) == Run(src, cfg, start, pos, mid, 0, acc)
    decreases mid - pos
  {
    if pos < mid {
      NextStable(src, cfg, start, pos, mid, mid, acc);
      var next := Next(src, cfg, start, pos, mid, 0, acc);
      assert next == Next(src, cfg.(singleThread := true), start, pos, mid, 0, acc);
      ChunkEndsRecord(src, cfg, start, next.pos, mid, next.acc);
    }
  }

  /** acc preceded by earlier records and errors. */
  function Prepend(acc: Acc, records: seq<seq<nat>>, errors: seq<ParseError>): Acc
  {
    acc.(records := records + acc.records, errors := errors + acc.errors)
  }

  lemma NextPrepends(
    src: string, cfg: Config, start: nat, pos: nat, end: nat, acc: Acc, rs: seq<seq<nat>>, es: seq<ParseError>)
    requires pos < end <= |src| && acc.Ok()
    ensures Next(src, cfg, start, pos, end, 0, Prepend(acc, rs, es))
         == match Next(src, cfg, start, pos, end, 0, acc)
            case Go(next, a) => Go(next, Prepend(a, rs, es))
            case Throw => Throw
  {
    var open := if acc.state == RecordStart then [pos] else acc.open;
    var repair := pos > start;
    var c := Close(acc.(open := open), pos, cfg.numCols, repair);
    var d := Close(Prepend(acc, rs, es).(open := open), pos, cfg.numCols, repair);
    assert d.records == rs + c.records;
    assert d.errors == es + c.errors;
  }

  /** Earlier records and errors are carried through a run unchanged. */
  lemma {:induction false} RunPrepends(
    src: string, cfg: Config, start: nat, pos: nat, end: nat, acc: Acc, rs: seq<seq<nat>>, es: seq<ParseError>)
    requires end <= |src| && acc.Ok()
    ensures Run(src, cfg, start, pos, end, 0, Prepend(acc, rs, es))
         == match Run(src, cfg, start, pos, end, 0, acc)
            case Done(a) => Done(Prepend(a, rs, es))
            case NewlineError => NewlineError
    decreases end - pos
  {
    if pos < end {
      NextPrepends(src, cfg, start, pos, end, acc, rs, es);
      match Next(src, cfg, start, pos, end, 0, acc)
      case Go(next, a) => RunPrepends(src, cfg, start, next, end, a, rs, es);
      case Throw =>
    }
  }

  /** Past the first byte of both, it does not matter where a region started. */
  lemma {:induction false} StartIrrelevant(src: string, cfg: Config, a: nat, b: nat, pos: nat, end: nat, acc: Acc)
    requires end <= |src| && acc.Ok() && a < pos && b < pos
    ensures Run(src, cfg, a, pos, end, 0, acc) == Run(src, cfg, b, pos, end, 0, acc)
    decreases end - pos
  {
    if pos < end {
      match Next(src, cfg, a, pos, end, 0, acc)
      case Go(next, acc') => StartIrrelevant(src, cfg, a, b, next, end, acc');
      case Throw =>
    }
  }

  /** The first byte of the chunk is a newline that stands for a row to be padded. */
  predicate BareStart(src: string, cfg: Config, lo: nat, hi: nat)
    requires hi <= |src|
  {
    lo < hi && src[lo] == '\n' && cfg.numCols > 1 && !cfg.skipEmptyRows
  }

  /** Where nothing is to be padded, the first move of a chunk does not depend on where the region started. */
  lemma FirstMove(src: string, cfg: Config, start: nat, lo: nat, hi: nat)
    requires LineConfig(cfg) && start < lo < hi <= |src| && !BareStart(src, cfg, lo, hi)
    ensures Next(src, cfg, start, lo, hi, 0, EMPTY) == Next(src, cfg, lo, lo, hi, 0, EMPTY)
  {
    if src[lo] == '\n' {
      assert cfg.numCols <= 1 || IsEmptyLine(src, lo, hi, cfg.skipEmptyRows);
      assert [lo] + Fill(lo, 0) + [lo] == [lo] + [lo];
    }
  }

  lemma BareStartInContext(src: string, cfg: Config, start: nat, lo: nat, hi: nat)
    requires LineConfig(cfg) && cfg.singleThread && start < lo < hi <= |src| && BareStart(src, cfg, lo, hi)
    requires Run(src, cfg, start, lo, hi, 0, EMPTY).Done? && Run(src, cfg, lo, lo, hi, 0, EMPTY).Done?
    ensures var inside := Run(src, cfg, start, lo, hi, 0, EMPTY).acc;
            var alone := Run(src, cfg, lo, lo, hi, 0, EMPTY).acc;
            |Flatten(inside.records)| > |Flatten(alone.records)| && inside.open == alone.open
  {
    hide Next;
    BareMoves(src, cfg, start, lo, hi);
    var padded, bare := Repaired([lo], lo, cfg.numCols), [lo, lo];
    StartIrrelevant(src, cfg, start, lo, lo + 1, hi, Prepend(EMPTY, [padded], [ParseError(lo, 0)]));
    RunPrepends(src, cfg, lo, lo + 1, hi, EMPTY, [padded], [ParseError(lo, 0)]);
    RunPrepends(src, cfg, lo, lo + 1, hi, EMPTY, [bare], []);
    var rest := Run(src, cfg, lo, lo + 1, hi, 0, EMPTY).acc;
    FlattenHead(padded, rest.records);
    FlattenHead(bare, rest.records);
  }

  /** The newline makes a padded record of num_cols cells, or at the start of a region a record of one cell. */
  lemma BareMoves(src: string, cfg: Config, start: nat, lo: nat, hi: nat)
    requires LineConfig(cfg) && start < lo < hi <= |src| && BareStart(src, cfg, lo, hi)
    ensures Next(src, cfg, start, lo, hi, 0, EMPTY)
         == Go(lo + 1, Prepend(EMPTY, [Repaired([lo], lo, cfg.numCols)], [ParseError(lo, 0)]))
    ensures Next(src, cfg, lo, lo, hi, 0, EMPTY) == Go(lo + 1, Prepend(EMPTY, [[lo, lo]], []))
  {
    BareFirstMove(src, cfg, lo, hi);
  }

  lemma BareFirstMove(src: string, cfg: Config, lo: nat, hi: nat)
    requires LineConfig(cfg) && hi <= |src| && BareStart(src, cfg, lo, hi)
    ensures Next(src, cfg, lo, lo, hi, 0, EMPTY) == Go(lo + 1, Prepend(EMPTY, [[lo, lo]], []))
  {
    assert [lo] + [lo] == [lo, lo];
  }

  /** A chunk parsed on its own and as part of a larger region: the same, unless it starts bare. */
  lemma ChunkInContext(src: string, cfg: Config, start: nat, lo: nat, hi: nat)
    requires LineConfig(cfg) && cfg.singleThread && start < lo <= hi <= |src|
    ensures Run(src, cfg, start, lo, hi, 0, EMPTY).Done? && Run(src, cfg, lo, lo, hi, 0, EMPTY).Done?
    ensures var inside := Run(src, cfg, start, lo, hi, 0, EMPTY).acc;
            var alone := Run(src, cfg, lo, lo, hi, 0, EMPTY).acc;
            if BareStart(src, cfg, lo, hi)
            then |Flatten(inside.records)| > |Flatten(alone.records)| && inside.open == alone.open
            else inside == alone
  {
    SingleThreadNeverThrows(src, cfg, start, lo, hi, 0, EMPTY);
    SingleThreadNeverThrows(src, cfg, lo, lo, hi, 0, EMPTY);
    if lo < hi {
      if BareStart(src, cfg, lo, hi) {
        BareStartInContext(src, cfg, start, lo, hi);
      } else {
        var inside := Next(src, cfg, start, lo, hi, 0, EMPTY);
        StartIrrelevant(src, cfg, start, lo, inside.pos, hi, inside.acc);
        FirstMove(src, cfg, start, lo, hi);
      }
    }
  }

  /** Chunk boundaries: every one lies just after a newline. */
  predicate Cuts(src: string, cuts: seq<nat>)
  {
    |cuts| > 0 &&
    (forall i :: 0 <= i < |cuts| ==> 0 < cuts[i] <= |src| && src[cuts[i] - 1] == '\n') &&
    forall i, j :: 0 <= i < j < |cuts| ==> cuts[i] <= cuts[j]
  }

  /** What the task for chunk i computes. */
  function Chunk(src: string, cfg: Config, cuts: seq<nat>, i: nat): (r: Outcome)
    requires Cuts(src, cuts) && i + 1 < |cuts|
    ensures r.Done? ==> r.acc.Ok()
  {
    Run(src, cfg, cuts[i], cuts[i], cuts[i + 1], 0, EMPTY)
  }

  /** What one thread computes for the first k chunks. */
  function Whole(src: string, cfg: Config, cuts: seq<nat>, k: nat): Outcome
    requires Cuts(src, cuts) && k < |cuts|
  {
    Run(src, cfg.(singleThread := true), cuts[0], cuts[0], cuts[k], 0, EMPTY)
  }

  ghost predicate NoneThrows(src: string, cfg: Config, cuts: seq<nat>, k: nat)
    requires Cuts(src, cuts) && k < |cuts|
  {
    forall i :: 0 <= i < k ==> Chunk(src, cfg, cuts, i).Done?
  }

  predicate InFile(src: string, cuts: seq<nat>)
  {
    forall i :: 0 <= i < |cuts| ==> cuts[i] <= |src|
  }

  ghost predicate SomeBareStart(src: string, cfg: Config, cuts: seq<nat>, k: nat)
    requires InFile(src, cuts) && k < |cuts|
  {
    exists i :: 0 <= i < k && cuts[0] < cuts[i] && BareStart(src, cfg, cuts[i], cuts[i + 1])
  }

  /** The index vectors of the first k chunks side by side. */
  function ChunkOffsets(src: string, cfg: Config, cuts: seq<nat>, k: nat): seq<nat>
    requires Cuts(src, cuts) && k < |cuts| && NoneThrows(src, cfg, cuts, k)
  {
    if k == 0 then [] else ChunkOffsets(src, cfg, cuts, k - 1) + Chunk(src, cfg, cuts, k - 1).acc.Offsets()
  }

  function ChunkErrors(src: string, cfg: Config, cuts: seq<nat>, k: nat): seq<ParseError>
    requires Cuts(src, cuts) && k < |cuts| && NoneThrows(src, cfg, cuts, k)
  {
    if k == 0 then [] else ChunkErrors(src, cfg, cuts, k - 1) + Chunk(src, cfg, cuts, k - 1).acc.errors
  }

  /** One more chunk: one thread appends what the chunk holds in context. */
  lemma WholeGrows(src: string, cfg: Config, cuts: seq<nat>, k: nat)
    requires LineConfig(cfg) && Cuts(src, cuts) && 0 < k < |cuts|
    requires Whole(src, cfg, cuts, k - 1).Done? && Whole(src, cfg, cuts, k - 1).acc.state == RecordStart
    ensures var w := Whole(src, cfg, cuts, k - 1).acc;
            var inside := Run(src, cfg.(singleThread := true), cuts[0], cuts[k - 1], cuts[k], 0, EMPTY);
            inside.Done? && Whole(src, cfg, cuts, k) == Done(Prepend(inside.acc, w.records, w.errors))
  {
    var one := cfg.(singleThread := true);
    var w := Whole(src, cfg, cuts, k - 1).acc;
    SingleThreadNeverThrows(src, one, cuts[0], cuts[k - 1], cuts[k], 0, EMPTY);
    RunSplits(src, one, cuts[0], cuts[0], cuts[k - 1], cuts[k], EMPTY);
    assert w == Prepend(EMPTY, w.records, w.errors);
    RunPrepends(src, one, cuts[0], cuts[k - 1], cuts[k], EMPTY, w.records, w.errors);
  }

  /** The chunked index and errors of k chunks match the one-thread ones, or fall short when a chunk starts bare. */
  ghost predicate Agrees(src: string, cfg: Config, cuts: seq<nat>, k: nat)
    requires Cuts(src, cuts) && k < |cuts| && NoneThrows(src, cfg, cuts, k)
  {
    var w := Whole(src, cfg, cuts, k);
    w.Done? && w.acc.state == RecordStart &&
    if SomeBareStart(src, cfg, cuts, k)
    then |w.acc.Offsets()| > |ChunkOffsets(src, cfg, cuts, k)|
    else w.acc.Offsets() == ChunkOffsets(src, cfg, cuts, k) && w.acc.errors == ChunkErrors(src, cfg, cuts, k)
  }

  /** The last of k chunks, alone and in context. */
  lemma LastChunk(src: string, cfg: Config, cuts: seq<nat>, k: nat)
    requires LineConfig(cfg) && !cfg.singleThread
    requires Cuts(src, cuts) && 0 < k < |cuts| && Chunk(src, cfg, cuts, k - 1).Done?
    ensures var inside := Run(src, cfg.(singleThread := true), cuts[0], cuts[k - 1], cuts[k], 0, EMPTY);
            var chunk := Chunk(src, cfg, cuts, k - 1).acc;
            inside.Done? && inside.acc.state == chunk.state == RecordStart &&
            if cuts[0] < cuts[k - 1] && BareStart(src, cfg, cuts[k - 1], cuts[k])
            then |Flatten(inside.acc.records)| > |Flatten(chunk.records)|
            else inside.acc == chunk
  {
    var lo, hi := cuts[k - 1], cuts[k];
    ChunkEndsRecord(src, cfg, lo, lo, hi, EMPTY);
    if cuts[0] < lo {
      ChunkInContext(src, cfg.(singleThread := true), cuts[0], lo, hi);
    }
  }

  /** What one thread appends, against what the last chunk holds. */
  lemma WholeAndLastChunk(src: string, cfg: Config, cuts: seq<nat>, k: nat)
    requires LineConfig(cfg) && !cfg.singleThread
    requires Cuts(src, cuts) && 0 < k < |cuts| && Chunk(src, cfg, cuts, k - 1).Done?
    requires Whole(src, cfg, cuts, k - 1).Done? && Whole(src, cfg, cuts, k - 1).acc.state == RecordStart
    ensures var w, all := Whole(src, cfg, cuts, k - 1).acc, Whole(src, cfg, cuts, k);
            var chunk := Chunk(src, cfg, cuts, k - 1).acc;
            all.Done? && all.acc.state == RecordStart && |all.acc.Offsets()| >= |w.Offsets()| + |chunk.Offsets()| &&
            if cuts[0] < cuts[k - 1] && BareStart(src, cfg, cuts[k - 1], cuts[k])
            then |all.acc.Offsets()| > |w.Offsets()| + |chunk.Offsets()|
            else all.acc.Offsets() == w.Offsets() + chunk.Offsets() && all.acc.errors == w.errors + chunk.errors
  {
    hide BareStart, Run, Flatten;
    WholeGrows(src, cfg, cuts, k);
    LastChunk(src, cfg, cuts, k);
    var w := Whole(src, cfg, cuts, k - 1).acc;
    var inside := Run(src, cfg.(singleThread := true), cuts[0], cuts[k - 1], cuts[k], 0, EMPTY).acc;
    FlattenAppend(w.records, inside.records);
  }

  /** The comparison of the chunked with the one-thread index, chunk by chunk. */
  lemma {:induction false} ChunksAgainstWhole(src: string, cfg: Config, cuts: seq<nat>, k: nat)
    requires LineConfig(cfg) && !cfg.singleThread
    requires Cuts(src, cuts) && k < |cuts| && NoneThrows(src, cfg, cuts, k)
    ensures Agrees(src, cfg, cuts, k)
  {
    if k > 0 {
      hide BareStart, SomeBareStart, Acc.Offsets, Run, Whole;
      assert Chunk(src, cfg, cuts, k - 1).Done?;
      ChunksAgainstWhole(src, cfg, cuts, k - 1);
      WholeAndLastChunk(src, cfg, cuts, k);
    }
  }
}
