/**
 The delimited-file automaton read one byte at a time. This is the plain parse that
 the skipping, chunked and streaming parses are compared with. A file is a string of
 one-byte characters.
 */
module Csv {
  import opened Seqs

  datatype State = RecordStart | FieldStart | UnquotedField | QuotedField | QuotedEnd

  function OnQuote(s: State): State
  {
    match s
    case RecordStart => QuotedField
    case FieldStart => QuotedField
    case UnquotedField => UnquotedField
    case QuotedField => QuotedEnd
    case QuotedEnd => QuotedField
  }

  function OnDelim(s: State): State
  {
    match s
    case QuotedField => QuotedField
    case _ => FieldStart
  }

  function OnNewline(s: State): State
  {
    match s
    case QuotedField => QuotedField
    case _ => RecordStart
  }

  function OnOther(s: State): State
  {
    match s
    case RecordStart => UnquotedField
    case FieldStart => UnquotedField
    case UnquotedField => UnquotedField
    case QuotedField => QuotedField
    case QuotedEnd => QuotedEnd
  }

  /** What a region is parsed with. numCols == 0 turns row repair off; with several threads a newline in quotes throws. */
  datatype Config = Config(
    delim: char, newline: char, quote: char, comment: string,
    skipEmptyRows: bool, numCols: nat, singleThread: bool)

  datatype ParseError = ParseError(position: nat, column: nat)

  /** The finished records, the offsets of the record being read, the parse errors and the state. */
  datatype Acc = Acc(records: seq<seq<nat>>, open: seq<nat>, errors: seq<ParseError>, state: State)
  {
    predicate Ok()
    {
      open == [] <==> state == RecordStart
    }

    /** The flat offset vector the program keeps. */
    function Offsets(): seq<nat>
    {
      Flatten(records) + open
    }

    function Cols(): nat
    {
      if open == [] then 0 else |open| - 1
    }
  }

  datatype Outcome = Done(acc: Acc) | NewlineError

  const EMPTY := Acc([], [], [], RecordStart)

  /** A record cut or padded to numCols cells and closed at offset p. */
  function Repaired(open: seq<nat>, p: nat, numCols: nat): seq<nat>
  {
    if |open| > numCols then open[..numCols] + [p]
    else open + Fill(p, numCols - |open|) + [p]
  }

  /** A record closed at offset p, with row repair when `repair`. */
  function Closed(open: seq<nat>, p: nat, numCols: nat, repair: bool): seq<nat>
  {
    if repair && numCols > 0 then Repaired(open, p, numCols) else open + [p]
  }

  /** The record being read is closed at offset p, with row repair when `repair`. */
  function Close(acc: Acc, p: nat, numCols: nat, repair: bool): Acc
    requires acc.open != []
  {
    if repair && numCols > 0 then
      Acc(acc.records + [Repaired(acc.open, p, numCols)], [],
          if |acc.open| == numCols then acc.errors else acc.errors + [ParseError(p, |acc.open| - 1)],
          RecordStart)
    else
      Acc(acc.records + [acc.open + [p]], [], acc.errors, RecordStart)
  }

  /** One byte c at offset p; `inner` says it is not the first byte of the region. */
  function Step(cfg: Config, acc: Acc, p: nat, c: char, inner: bool): (r: Outcome)
    requires acc.Ok()
    ensures r.Done? ==> r.acc.Ok()
  {
    var open := if acc.state == RecordStart then [p] else acc.open;
    if acc.state != QuotedField && c == cfg.delim then
      Done(acc.(open := open + [p], state := OnDelim(acc.state)))
    else if c == cfg.newline then
      if acc.state == QuotedField then
        if cfg.singleThread then Done(acc) else NewlineError
      else
        Done(Close(acc.(open := open), p, cfg.numCols, inner))
    else if c == cfg.quote then
      Done(acc.(open := open, state := OnQuote(acc.state)))
    else
      Done(acc.(open := open, state := OnOther(acc.state)))
  }

  /** Is there a comment at pos? The comment must be followed by at least one byte of the region. */
  predicate IsComment(src: string, pos: nat, end: nat, comment: string)
    requires pos <= end <= |src|
  {
    comment != "" && |comment| < end - pos && src[pos..pos + |comment|] == comment
  }

  function SkipRestOfLine(src: string, pos: nat): nat
    requires pos <= |src|
  {
    IndexFrom(src, pos, '\n')
  }

  function SkipBlanks(src: string, pos: nat, end: nat): (r: nat)
    requires pos <= end <= |src|
    ensures pos <= r <= end
    ensures forall i :: pos <= i < r ==> src[i] in {' ', '\t', '\r'}
    ensures r < end ==> src[r] !in {' ', '\t', '\r'}
    decreases end - pos
  {
    if pos < end && src[pos] in {' ', '\t', '\r'} then SkipBlanks(src, pos + 1, end) else pos
  }

  predicate IsEmptyLine(src: string, pos: nat, end: nat, skipEmptyRows: bool)
    requires pos <= end <= |src|
  {
    skipEmptyRows &&
    var b := SkipBlanks(src, pos, end);
    b < |src| && src[b] == '\n'
  }

  /** Where one move of the parse leads: to a later position, or to the newline error. */
  datatype Move = Go(pos: nat, acc: Acc) | Throw

  /** One move at pos: a comment or an empty line is passed over as a whole, any other byte is a step. */
  function Next(src: string, cfg: Config, start: nat, pos: nat, end: nat, offset: nat, acc: Acc): (r: Move)
    requires pos < end <= |src| && acc.Ok()
    ensures r.Go? ==> pos < r.pos && r.acc.Ok()
  {
    if acc.state != QuotedField && IsComment(src, pos, end, cfg.comment) then
      Go(SkipRestOfLine(src, pos) + 1,
         if acc.state == RecordStart then acc else Close(acc, pos + offset, cfg.numCols, pos > start))
    else if acc.state == RecordStart && IsEmptyLine(src, pos, end, cfg.skipEmptyRows) then
      Go(SkipRestOfLine(src, pos) + 1, acc)
    else
      match Step(cfg, acc, pos + offset, src[pos], pos > start)
      case Done(a) => Go(pos + 1, a)
      case NewlineError => Throw
  }

  /** The region [start, end) of src from position pos on. Offsets are shifted by `offset`. */
  function Run(src: string, cfg: Config, start: nat, pos: nat, end: nat, offset: nat, acc: Acc): (r: Outcome)
    requires end <= |src| && acc.Ok()
    ensures r.Done? ==> r.acc.Ok()
    decreases end - pos
  {
    if pos >= end then Done(acc) else
    match Next(src, cfg, start, pos, end, offset, acc)
    case Go(next, a) => Run(src, cfg, start, next, end, offset, a)
    case Throw => NewlineError
  }

  /** A single-threaded run never throws. */
  lemma {:induction false} SingleThreadNeverThrows(
    src: string, cfg: Config, start: nat, pos: nat, end: nat, offset: nat, acc: Acc)
    requires end <= |src| && acc.Ok() && cfg.singleThread
    ensures Run(src, cfg, start, pos, end, offset, acc).Done?
    decreases end - pos
  {
    if pos < end {
      var next := Next(src, cfg, start, pos, end, offset, acc);
      SingleThreadNeverThrows(src, cfg, start, next.pos, end, offset, next.acc);
    }
  }
}
