/**
 A region in lines: which bytes make a record and which are passed over. What the automaton
 finds is told here by the bytes alone: a line ends at the first newline or comment outside
 quotes, and between the lines there is nothing but comments and, where they are skipped, blank
 lines.
 */
module RegionLines {
  import opened Seqs
  import opened Csv
  import opened Bytewise

  /** Does a comment stand at p? At least one byte of the region must follow it. */
  predicate CommentAt(src: string, cfg: Config, end: nat, p: nat)
    requires p <= |src|
  {
    cfg.comment != "" && p + |cfg.comment| < end && cfg.comment <= src[p..]
  }

  /** Nothing but blanks from p to the end of the line, which lies in the region or right behind it. */
  predicate BlankAt(src: string, end: nat, p: nat)
  {
    exists n :: p <= n <= end && n < |src| && src[n] == '\n' && forall i :: p <= i < n ==> src[i] in {' ', '\t', '\r'}
  }

  /** A line that is passed over: a comment, or a blank line where these are skipped. */
  predicate PassedOver(src: string, cfg: Config, end: nat, p: nat)
    requires p <= |src|
  {
    p < end && (CommentAt(src, cfg, end, p) || (cfg.skipEmptyRows && BlankAt(src, end, p)))
  }

  /** Where the line behind the one at p starts. */
  function NextLine(src: string, p: nat): (r: nat)
    requires p <= |src|
    ensures p < r <= |src| + 1 && (r <= |src| ==> src[r - 1] == '\n') && forall i :: p <= i < r - 1 ==> src[i] != '\n'
  {
    IndexFrom(src, p, '\n') + 1
  }

  /** From p to q there are only lines that are passed over. */
  predicate Gap(src: string, cfg: Config, end: nat, p: nat, q: nat)
    decreases q - p
  {
    p == q || (p < q && p <= |src| && PassedOver(src, cfg, end, p) && Gap(src, cfg, end, NextLine(src, p), q))
  }

  /** Does p lie outside quotes, in the line that starts at lo? */
  predicate Unquoted(src: string, cfg: Config, lo: nat, p: nat)
    requires p <= |src|
  {
    lo <= p && StateAfter(cfg, RecordStart, src[lo..p]) != QuotedField
  }

  /** Does the line that starts at lo end at p, if it has not ended before? */
  predicate Ends(src: string, cfg: Config, end: nat, lo: nat, p: nat)
    requires p < |src|
  {
    Unquoted(src, cfg, lo, p) && (CommentAt(src, cfg, end, p) || (src[p] == cfg.newline && src[p] != cfg.delim))
  }

  /** The delimiters outside quotes of a line that begins at lo, up to hi. */
  function Delims(src: string, cfg: Config, lo: nat, hi: nat): (r: seq<nat>)
    requires hi <= |src|
    ensures forall x :: x in r <==> lo <= x < hi && src[x] == cfg.delim && Unquoted(src, cfg, lo, x)
    ensures forall i, j :: 0 <= i < j < |r| ==> r[i] < r[j]
  {
    if hi <= lo then []
    else
      var before := Delims(src, cfg, lo, hi - 1);
      assert forall i :: 0 <= i < |before| ==> before[i] in before;
      before + if src[hi - 1] == cfg.delim && Unquoted(src, cfg, lo, hi - 1) then [hi - 1] else []
  }

  /** Several threads: a newline inside quotes, at which a task gives up. */
  predicate QuotedNewline(src: string, cfg: Config, lo: nat, p: nat)
    requires p < |src|
  {
    !cfg.singleThread && src[p] == cfg.newline && !Unquoted(src, cfg, lo, p)
  }

  /** From lo to hi a line has not ended, and no task has given it up. */
  ghost predicate GoesOn(src: string, cfg: Config, end: nat, lo: nat, hi: nat)
    requires hi <= |src|
  {
    forall p :: lo <= p < hi ==> !Ends(src, cfg, end, lo, p) && !QuotedNewline(src, cfg, lo, p)
  }

  /** A line that is not passed over, from lo to its first end. */
  ghost predicate IsLine(src: string, cfg: Config, end: nat, lo: nat, hi: nat)
  {
    lo <= hi < end <= |src| && !PassedOver(src, cfg, end, lo) && Ends(src, cfg, end, lo, hi) && GoesOn(src, cfg, end, lo, hi)
  }

  /** Where the reader goes on behind a line: behind its newline, or behind the line of its comment. */
  function Behind(src: string, cfg: Config, end: nat, hi: nat): nat
    requires hi < |src|
  {
    if CommentAt(src, cfg, end, hi) then NextLine(src, hi) else hi + 1
  }

  /** A row is cut or padded, and reported when it has another number of cells, unless it ends where the region starts. */
  predicate Repairs(cfg: Config, start: nat, hi: nat)
  {
    cfg.numCols > 0 && hi > start
  }

  /** The record of a line: its start, its delimiters, and its end. */
  function RecordOf(src: string, cfg: Config, start: nat, lo: nat, hi: nat): seq<nat>
    requires hi <= |src|
  {
    Closed([lo] + Delims(src, cfg, lo, hi), hi, cfg.numCols, hi > start)
  }

  /** What is reported about a line: its end, and how many delimiters it has. */
  function ErrorsOf(src: string, cfg: Config, start: nat, lo: nat, hi: nat): seq<ParseError>
    requires hi <= |src|
  {
    var n := |Delims(src, cfg, lo, hi)|;
    if Repairs(cfg, start, hi) && n + 1 != cfg.numCols then [ParseError(hi, n)] else []
  }

  /** A line and its place: records and errors of the lines before it, then its own. */
  ghost predicate LastLine(
    src: string, cfg: Config, start: nat, end: nat, records: seq<seq<nat>>, errors: seq<ParseError>, lo: nat, hi: nat,
    before: seq<ParseError>)
  {
    records != [] && hi < |src| && IsLine(src, cfg, end, lo, hi) && records[|records| - 1] == RecordOf(src, cfg, start, lo, hi) &&
    errors == before + ErrorsOf(src, cfg, start, lo, hi)
  }

  /** From start to pos the region consists of the lines of the records and of lines that are passed over. */
  ghost predicate Covered(
    src: string, cfg: Config, start: nat, end: nat, records: seq<seq<nat>>, errors: seq<ParseError>, pos: nat)
  {
    if records == [] then errors == [] && Gap(src, cfg, end, start, pos)
    else
      exists lo, hi, before ::
        LastLine(src, cfg, start, end, records, errors, lo, hi, before) && Gap(src, cfg, end, Behind(src, cfg, end, hi), pos) &&
        Covered(src, cfg, start, end, records[..|records| - 1], before, lo)
  }

  /** The line being read: it has not ended, and its delimiters so far are those of the open record. */
  ghost predicate InLine(src: string, cfg: Config, end: nat, open: seq<nat>, state: State, lo: nat, pos: nat)
  {
    lo < pos <= end <= |src| && !PassedOver(src, cfg, end, lo) && state == StateAfter(cfg, RecordStart, src[lo..pos]) &&
    open == [lo] + Delims(src, cfg, lo, pos) && GoesOn(src, cfg, end, lo, pos)
  }

  /** What holds at pos: lines are covered up to pos, or up to the line being read. */
  ghost predicate At(src: string, cfg: Config, start: nat, end: nat, acc: Acc, pos: nat)
  {
    acc.Ok() &&
    if acc.open == [] then Covered(src, cfg, start, end, acc.records, acc.errors, pos)
    else
      Covered(src, cfg, start, end, acc.records, acc.errors, acc.open[0]) &&
      InLine(src, cfg, end, acc.open, acc.state, acc.open[0], pos)
  }

  lemma {:induction false} GapGrows(src: string, cfg: Config, end: nat, p: nat, q: nat)
    requires Gap(src, cfg, end, p, q) && q <= |src| && PassedOver(src, cfg, end, q)
    ensures Gap(src, cfg, end, p, NextLine(src, q))
    decreases q - p
  {
    hide PassedOver, NextLine;
    if p < q {
      GapGrows(src, cfg, end, NextLine(src, p), q);
    } else {
      assert Gap(src, cfg, end, NextLine(src, q), NextLine(src, q));
    }
  }

  /** A line that is passed over extends what is covered. */
  lemma CoveredGrows(
    src: string, cfg: Config, start: nat, end: nat, records: seq<seq<nat>>, errors: seq<ParseError>, pos: nat)
    requires Covered(src, cfg, start, end, records, errors, pos) && pos <= |src| && PassedOver(src, cfg, end, pos)
    ensures Covered(src, cfg, start, end, records, errors, NextLine(src, pos))
  {
    hide PassedOver, NextLine, IsLine, RecordOf, ErrorsOf, Behind;
    if records == [] {
      GapGrows(src, cfg, end, start, pos);
    } else {
      var lo, hi, before :| LastLine(src, cfg, start, end, records, errors, lo, hi, before) &&
        Gap(src, cfg, end, Behind(src, cfg, end, hi), pos) &&
        Covered(src, cfg, start, end, records[..|records| - 1], before, lo);
      GapGrows(src, cfg, end, Behind(src, cfg, end, hi), pos);
    }
  }

  /** What closing a record does to records and errors. */
  lemma CloseIs(acc: Acc, p: nat, numCols: nat, repair: bool)
    requires acc.open != []
    ensures Close(acc, p, numCols, repair)
         == Acc(acc.records + [Closed(acc.open, p, numCols, repair)], [],
                acc.errors + (if numCols > 0 && repair && |acc.open| != numCols then [ParseError(p, |acc.open| - 1)] else []),
                RecordStart)
  {
    assert acc.errors + [] == acc.errors;
  }

  /** A line that has come to its end adds its record, and its error where it has one. */
  lemma LineEnds(
    src: string, cfg: Config, start: nat, end: nat, acc: Acc, lo: nat, hi: nat)
    requires Covered(src, cfg, start, end, acc.records, acc.errors, lo) && IsLine(src, cfg, end, lo, hi)
    requires hi < |src| && acc.open == [lo] + Delims(src, cfg, lo, hi)
    ensures At(src, cfg, start, end, Close(acc, hi, cfg.numCols, hi > start), Behind(src, cfg, end, hi))
  {
    hide IsLine, Delims, Closed, Behind, Close, InLine;
    var r := Close(acc, hi, cfg.numCols, hi > start);
    CloseIs(acc, hi, cfg.numCols, hi > start);
    NewLine(src, cfg, start, end, acc.records, acc.errors, r.records, r.errors, lo, hi);
  }

  lemma NewLine(
    src: string, cfg: Config, start: nat, end: nat, records: seq<seq<nat>>, errors: seq<ParseError>,
    more: seq<seq<nat>>, reported: seq<ParseError>, lo: nat, hi: nat)
    requires Covered(src, cfg, start, end, records, errors, lo) && hi < |src| && IsLine(src, cfg, end, lo, hi)
    requires more == records + [RecordOf(src, cfg, start, lo, hi)] && reported == errors + ErrorsOf(src, cfg, start, lo, hi)
    ensures Covered(src, cfg, start, end, more, reported, Behind(src, cfg, end, hi))
  {
    hide IsLine, Delims, RecordOf, ErrorsOf, Behind;
    assert more[..|more| - 1] == records;
    assert LastLine(src, cfg, start, end, more, reported, lo, hi, errors);
    assert Gap(src, cfg, end, Behind(src, cfg, end, hi), Behind(src, cfg, end, hi));
  }

  lemma OneMoreByte(src: string, cfg: Config, lo: nat, pos: nat)
    requires lo <= pos < |src|
    ensures StateAfter(cfg, RecordStart, src[lo..pos + 1]) == StateStep(cfg, StateAfter(cfg, RecordStart, src[lo..pos]), src[pos])
    ensures lo == pos ==> StateAfter(cfg, RecordStart, src[lo..pos]) == RecordStart && Delims(src, cfg, lo, pos) == []
    ensures Delims(src, cfg, lo, pos + 1)
         == Delims(src, cfg, lo, pos) + if src[pos] == cfg.delim && Unquoted(src, cfg, lo, pos) then [pos] else []
  {
    assert src[lo..pos + 1][..pos - lo] == src[lo..pos];
  }

  /** The program's tests for comments and empty lines, in bytes. */
  lemma TestsInBytes(src: string, cfg: Config, pos: nat, end: nat)
    requires pos < end <= |src|
    ensures IsComment(src, pos, end, cfg.comment) <==> CommentAt(src, cfg, end, pos)
    ensures IsEmptyLine(src, pos, end, cfg.skipEmptyRows) <==> cfg.skipEmptyRows && BlankAt(src, end, pos)
  {
    if |cfg.comment| < end - pos {
      assert src[pos..][..|cfg.comment|] == src[pos..pos + |cfg.comment|];
    }
    var b := SkipBlanks(src, pos, end);
    if BlankAt(src, end, pos) {
      var n :| pos <= n <= end && n < |src| && src[n] == '\n' && forall i :: pos <= i < n ==> src[i] in {' ', '\t', '\r'};
      assert b == n;
    }
  }

  lemma StepAt(src: string, cfg: Config, start: nat, end: nat, acc: Acc, pos: nat)
    requires start <= pos < end <= |src| && At(src, cfg, start, end, acc, pos)
    requires !CommentAt(src, cfg, end, pos) || acc.state == QuotedField
    requires acc.state == RecordStart ==> !PassedOver(src, cfg, end, pos)
    ensures var r := Step(cfg, acc, pos, src[pos], pos > start);
            r.Done? ==> At(src, cfg, start, end, r.acc, pos + 1)
  {
    hide PassedOver, CommentAt, Covered, Delims, Close, StateAfter;
    var lo := if acc.state == RecordStart then pos else acc.open[0];
    OneMoreByte(src, cfg, lo, pos);
    var a := acc.(open := [lo] + Delims(src, cfg, lo, pos));
    assert a.open == if acc.state == RecordStart then [pos] else acc.open;
    if acc.state != QuotedField && src[pos] != cfg.delim && src[pos] == cfg.newline {
      assert IsLine(src, cfg, end, lo, pos);
      LineEnds(src, cfg, start, end, a, lo, pos);
    } else {
      assert !Ends(src, cfg, end, lo, pos);
      assert Step(cfg, acc, pos, src[pos], pos > start).Done? ==> !QuotedNewline(src, cfg, lo, pos);
      assert [lo] + Delims(src, cfg, lo, pos) + [pos] == [lo] + (Delims(src, cfg, lo, pos) + [pos]);
    }
  }

  /** A move of the parse, in bytes. */
  lemma NextInBytes(src: string, cfg: Config, start: nat, end: nat, acc: Acc, pos: nat)
    requires pos < end <= |src| && acc.Ok()
    ensures Next(src, cfg, start, pos, end, 0, acc)
         == if acc.state != QuotedField && CommentAt(src, cfg, end, pos) then
              Go(NextLine(src, pos), if acc.state == RecordStart then acc else Close(acc, pos, cfg.numCols, pos > start))
            else if acc.state == RecordStart && cfg.skipEmptyRows && BlankAt(src, end, pos) then Go(NextLine(src, pos), acc)
            else
              match Step(cfg, acc, pos, src[pos], pos > start)
              case Done(a) => Go(pos + 1, a)
              case NewlineError => Throw
  {
    TestsInBytes(src, cfg, pos, end);
    hide CommentAt, BlankAt, IsComment, IsEmptyLine, Step, Close;
  }

  lemma NextAt(src: string, cfg: Config, start: nat, end: nat, acc: Acc, pos: nat)
    requires start <= pos < end <= |src| && acc.Ok() && At(src, cfg, start, end, acc, pos)
    ensures var next := Next(src, cfg, start, pos, end, 0, acc);
            next.Go? ==> At(src, cfg, start, end, next.acc, next.pos)
  {
    hide At, Next, Step, CommentAt, BlankAt, Close, NextLine;
    NextInBytes(src, cfg, start, end, acc, pos);
    if acc.state != QuotedField && CommentAt(src, cfg, end, pos) {
      if acc.state == RecordStart {
        PassedOverAt(src, cfg, start, end, acc, pos);
      } else {
        CommentEnds(src, cfg, start, end, acc, pos);
      }
    } else if acc.state == RecordStart && cfg.skipEmptyRows && BlankAt(src, end, pos) {
      PassedOverAt(src, cfg, start, end, acc, pos);
    } else {
      StepAt(src, cfg, start, end, acc, pos);
    }
  }

  lemma PassedOverAt(src: string, cfg: Config, start: nat, end: nat, acc: Acc, pos: nat)
    requires start <= pos < end <= |src| && At(src, cfg, start, end, acc, pos) && acc.state == RecordStart
    requires PassedOver(src, cfg, end, pos)
    ensures At(src, cfg, start, end, acc, NextLine(src, pos))
  {
    hide Covered, PassedOver;
    CoveredGrows(src, cfg, start, end, acc.records, acc.errors, pos);
  }

  lemma CommentEnds(src: string, cfg: Config, start: nat, end: nat, acc: Acc, pos: nat)
    requires start <= pos < end <= |src| && At(src, cfg, start, end, acc, pos)
    requires acc.state !in {RecordStart, QuotedField} && CommentAt(src, cfg, end, pos)
    ensures At(src, cfg, start, end, Close(acc, pos, cfg.numCols, pos > start), NextLine(src, pos))
  {
    hide Covered, PassedOver, CommentAt, Delims, Close;
    LineEnds(src, cfg, start, end, acc, acc.open[0], pos);
  }

  /** What a parse leaves, from anywhere in the region. */
  lemma {:induction false} RunAt(src: string, cfg: Config, start: nat, pos: nat, end: nat, acc: Acc) returns (last: nat)
    requires start <= pos && end <= |src| && acc.Ok() && At(src, cfg, start, end, acc, pos)
    ensures last >= end && (pos >= end ==> last == pos)
    ensures var r := Run(src, cfg, start, pos, end, 0, acc);
            r.Done? ==> At(src, cfg, start, end, r.acc, last)
    decreases end - pos
  {
    last := if pos < end then end else pos;
    if pos < end {
      hide At, Next;
      NextAt(src, cfg, start, end, acc, pos);
      var next := Next(src, cfg, start, pos, end, 0, acc);
      if next.Go? {
        last := RunAt(src, cfg, start, next.pos, end, next.acc);
      }
    }
  }

  /**
   The records and errors of a region are those of its lines, in order, and nothing is between the
   lines but what is passed over; a line that has not ended is the open record.
   */
  lemma RegionIsItsLines(src: string, cfg: Config, start: nat, end: nat) returns (last: nat)
    requires start <= end <= |src|
    ensures last >= end
    ensures var r := Run(src, cfg, start, start, end, 0, EMPTY);
            r.Done? ==> At(src, cfg, start, end, r.acc, last) && (r.acc.open != [] ==> last == end)
  {
    assert At(src, cfg, start, end, EMPTY, start);
    hide Covered, Run;
    last := RunAt(src, cfg, start, start, end, EMPTY);
  }

  /** A parse is given up at p: the lines before are covered, and p is a newline inside the quotes of a line. */
  ghost predicate GivenUpAt(src: string, cfg: Config, start: nat, end: nat, p: nat)
  {
    start <= p < end <= |src| && src[p] == cfg.newline && !cfg.singleThread &&
    exists acc: Acc :: acc.state == QuotedField && At(src, cfg, start, end, acc, p)
  }

  /** A parse is given up only at a newline inside quotes. */
  lemma {:induction false} GivesUpInQuotes(src: string, cfg: Config, start: nat, pos: nat, end: nat, acc: Acc)
    requires start <= pos && end <= |src| && acc.Ok() && At(src, cfg, start, end, acc, pos)
    ensures Run(src, cfg, start, pos, end, 0, acc) == NewlineError ==>
              exists p :: GivenUpAt(src, cfg, start, end, p)
    decreases end - pos
  {
    if pos < end {
      hide At, Next, GivenUpAt;
      NextAt(src, cfg, start, end, acc, pos);
      match Next(src, cfg, start, pos, end, 0, acc)
      case Go(next, a) => GivesUpInQuotes(src, cfg, start, next, end, a);
      case Throw => ThrowIs(src, cfg, start, end, acc, pos);
    }
  }

  lemma ThrowIs(src: string, cfg: Config, start: nat, end: nat, acc: Acc, pos: nat)
    requires start <= pos < end <= |src| && acc.Ok() && At(src, cfg, start, end, acc, pos)
    requires Next(src, cfg, start, pos, end, 0, acc) == Throw
    ensures GivenUpAt(src, cfg, start, end, pos)
  {
    hide At, Next, CommentAt, BlankAt, Close, NextLine;
    NextInBytes(src, cfg, start, end, acc, pos);
  }

  function Quotes(s: string, quote: char): nat
  {
    if s == "" then 0 else Quotes(s[..|s| - 1], quote) + if s[|s| - 1] == quote then 1 else 0
  }

  /** The state inside a field, by its bytes: it is quoted when it begins with a quote and the quotes so far do not pair up. */
  function FieldState(field: string, quote: char, first: State): State
  {
    if field == "" then first
    else if field[0] != quote then UnquotedField
    else if Quotes(field, quote) % 2 == 1 then QuotedField
    else QuotedEnd
  }

  /** Where the field that holds p starts: behind the last delimiter outside quotes. */
  function FieldAt(src: string, cfg: Config, lo: nat, p: nat): (f: nat)
    requires lo <= p <= |src|
    ensures lo <= f <= p
  {
    var d := Delims(src, cfg, lo, p);
    assert d != [] ==> d[|d| - 1] in d;
    if d == [] then lo else d[|d| - 1] + 1
  }

  /** The state of the automaton within a line is that of the field. */
  lemma {:induction false} StateInLine(src: string, cfg: Config, end: nat, lo: nat, p: nat)
    requires lo <= p <= |src| && cfg.quote != cfg.delim && cfg.quote != cfg.newline && GoesOn(src, cfg, end, lo, p)
    ensures StateAfter(cfg, RecordStart, src[lo..p])
         == FieldState(src[FieldAt(src, cfg, lo, p)..p], cfg.quote, if Delims(src, cfg, lo, p) == [] then RecordStart else FieldStart)
    decreases p - lo
  {
    hide Delims, FieldAt, FieldState, StateAfter, GoesOn, Ends, Unquoted;
    if lo < p {
      var q := p - 1;
      GoesOnBefore(src, cfg, end, lo, q);
      StateInLine(src, cfg, end, lo, q);
      FieldMoves(src, cfg, end, lo, q);
      if !(src[q] == cfg.delim && Unquoted(src, cfg, lo, q)) {
        var f := FieldAt(src, cfg, lo, q);
        FieldGrows(cfg, src[f..q], if Delims(src, cfg, lo, q) == [] then RecordStart else FieldStart, src[q]);
        assert src[f..p] == src[f..q] + [src[q]];
      }
    } else {
      AtLineStart(src, cfg, lo);
    }
  }

  lemma GoesOnBefore(src: string, cfg: Config, end: nat, lo: nat, q: nat)
    requires lo <= q < |src| && GoesOn(src, cfg, end, lo, q + 1)
    ensures GoesOn(src, cfg, end, lo, q)
    ensures Unquoted(src, cfg, lo, q) ==> src[q] != cfg.newline || src[q] == cfg.delim
  {
    assert !Ends(src, cfg, end, lo, q);
  }

  /** A delimiter outside quotes starts a field; every other byte stays in the one it is in. */
  lemma FieldMoves(src: string, cfg: Config, end: nat, lo: nat, q: nat)
    requires lo <= q < |src|
    ensures StateAfter(cfg, RecordStart, src[lo..q + 1]) == StateStep(cfg, StateAfter(cfg, RecordStart, src[lo..q]), src[q])
    ensures Unquoted(src, cfg, lo, q) <==> StateAfter(cfg, RecordStart, src[lo..q]) != QuotedField
    ensures if src[q] == cfg.delim && Unquoted(src, cfg, lo, q) then
              Delims(src, cfg, lo, q + 1) != [] && FieldAt(src, cfg, lo, q + 1) == q + 1 &&
              StateAfter(cfg, RecordStart, src[lo..q + 1]) == FieldState(src[q + 1..q + 1], cfg.quote, FieldStart)
            else
              Delims(src, cfg, lo, q + 1) == Delims(src, cfg, lo, q) && FieldAt(src, cfg, lo, q + 1) == FieldAt(src, cfg, lo, q)
  {
    hide Delims, StateAfter;
    OneMoreByte(src, cfg, lo, q);
  }

  lemma AtLineStart(src: string, cfg: Config, lo: nat)
    requires lo <= |src|
    ensures src[lo..lo] == "" && Delims(src, cfg, lo, lo) == [] && FieldAt(src, cfg, lo, lo) == lo
    ensures StateAfter(cfg, RecordStart, src[lo..lo]) == FieldState(src[lo..lo], cfg.quote, RecordStart)
  {
  }

  lemma FieldGrows(cfg: Config, field: string, first: State, c: char)
    requires cfg.quote != cfg.delim && cfg.quote != cfg.newline && first in {RecordStart, FieldStart}
    requires var s := FieldState(field, cfg.quote, first); s == QuotedField || (c != cfg.delim && c != cfg.newline)
    ensures StateStep(cfg, FieldState(field, cfg.quote, first), c) == FieldState(field + [c], cfg.quote, first)
  {
    assert (field + [c])[..|field|] == field;
    assert field == "" ==> Quotes(field, cfg.quote) == 0;
  }
}
