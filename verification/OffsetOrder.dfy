/** The offsets of a region never decrease, and lie between its ends. */
module OffsetOrder {
  import opened Seqs
  import opened Csv

  /** Offsets in order, all between lo and hi. */
  predicate InOrder(offsets: seq<nat>, lo: nat, hi: nat)
  {
    (forall i :: 0 <= i < |offsets| ==> lo <= offsets[i] < hi) &&
    forall i, j :: 0 <= i < j < |offsets| ==> offsets[i] <= offsets[j]
  }

  /** A closed record is the front of the open one, and p for all that follows. */
  lemma ClosedFront(open: seq<nat>, p: nat, numCols: nat, repair: bool)
    requires open != []
    ensures var k := if repair && 0 < numCols < |open| then numCols else |open|;
            var record := Closed(open, p, numCols, repair);
            k <= |record| && record == open[..k] + record[k..] && forall i :: 0 <= i < |record[k..]| ==> record[k..][i] == p
  {
  }

  lemma FrontInOrder(offsets: seq<nat>, k: nat, lo: nat, hi: nat)
    requires InOrder(offsets, lo, hi) && k <= |offsets|
    ensures InOrder(offsets[..k], lo, hi)
  {
  }

  lemma EndInOrder(front: seq<nat>, end: seq<nat>, p: nat, lo: nat)
    requires InOrder(front, lo, p + 1) && lo <= p && forall i :: 0 <= i < |end| ==> end[i] == p
    ensures InOrder(front + end, lo, p + 1)
  {
  }

  lemma PrefixOfConcat(a: seq<nat>, b: seq<nat>, k: nat)
    requires k <= |b|
    ensures a + b[..k] == (a + b)[..|a| + k]
  {
  }

  lemma CutInOrder(before: seq<nat>, open: seq<nat>, k: nat, end: seq<nat>, p: nat, lo: nat)
    requires InOrder(before + open, lo, p + 1) && lo <= p && k <= |open| && forall i :: 0 <= i < |end| ==> end[i] == p
    ensures InOrder(before + (open[..k] + end), lo, p + 1)
  {
    hide InOrder;
    PrefixOfConcat(before, open, k);
    FrontInOrder(before + open, |before| + k, lo, p + 1);
    EndInOrder(before + open[..k], end, p, lo);
    Associative(before, open[..k], end);
  }

  /** Closing a record at p drops offsets at the end and adds p. */
  lemma CloseInOrder(acc: Acc, p: nat, numCols: nat, repair: bool, lo: nat)
    requires acc.open != [] && InOrder(acc.Offsets(), lo, p + 1) && lo <= p
    ensures InOrder(Close(acc, p, numCols, repair).Offsets(), lo, p + 1)
  {
    var record := Closed(acc.open, p, numCols, repair);
    var k := if repair && 0 < numCols < |acc.open| then numCols else |acc.open|;
    hide Repaired, InOrder, Flatten;
    ClosedFront(acc.open, p, numCols, repair);
    FlattenPush(acc.records, record);
    assert Close(acc, p, numCols, repair).Offsets() == Flatten(acc.records) + record;
    CutInOrder(Flatten(acc.records), acc.open, k, record[k..], p, lo);
  }

  lemma {:induction false} RunInOrder(src: string, cfg: Config, start: nat, pos: nat, end: nat, acc: Acc)
    requires start <= pos && end <= |src| && acc.Ok() && InOrder(acc.Offsets(), start, if pos < end then pos else end)
    ensures var r := Run(src, cfg, start, pos, end, 0, acc);
            r.Done? ==> InOrder(r.acc.Offsets(), start, end)
    decreases end - pos
  {
    if pos < end {
      var next := Next(src, cfg, start, pos, end, 0, acc);
      if next.Go? {
        NextInOrder(src, cfg, start, pos, end, acc);
        RunInOrder(src, cfg, start, next.pos, end, next.acc);
      }
    }
  }

  lemma PushInOrder(acc: Acc, p: nat, lo: nat)
    requires InOrder(acc.Offsets(), lo, p + 1) && lo <= p
    ensures InOrder(acc.(open := acc.open + [p]).Offsets(), lo, p + 1)
  {
    assert acc.(open := acc.open + [p]).Offsets() == acc.Offsets() + [p];
  }

  lemma StepInOrder(cfg: Config, acc: Acc, p: nat, c: char, inner: bool, lo: nat)
    requires acc.Ok() && InOrder(acc.Offsets(), lo, p) && lo <= p
    ensures var r := Step(cfg, acc, p, c, inner);
            r.Done? ==> InOrder(r.acc.Offsets(), lo, p + 1)
  {
    assert InOrder(acc.Offsets(), lo, p + 1);
    hide InOrder, Close, Flatten;
    var a := acc.(open := if acc.state == RecordStart then [p] else acc.open);
    if acc.state == RecordStart {
      assert [] + [p] == [p];
      PushInOrder(acc, p, lo);
    }
    if acc.state != QuotedField && c == cfg.delim {
      PushInOrder(a, p, lo);
    } else if acc.state != QuotedField && c == cfg.newline {
      CloseInOrder(a, p, cfg.numCols, inner, lo);
    }
  }

  lemma NextInOrder(src: string, cfg: Config, start: nat, pos: nat, end: nat, acc: Acc)
    requires start <= pos < end <= |src| && acc.Ok() && InOrder(acc.Offsets(), start, pos)
    ensures var next := Next(src, cfg, start, pos, end, 0, acc);
            next.Go? ==> InOrder(next.acc.Offsets(), start, pos + 1)
  {
    if acc.state != QuotedField && IsComment(src, pos, end, cfg.comment) {
      if acc.state != RecordStart {
        CloseInOrder(acc, pos, cfg.numCols, pos > start, start);
      }
    } else if acc.state == RecordStart && IsEmptyLine(src, pos, end, cfg.skipEmptyRows) {
    } else {
      StepInOrder(cfg, acc, pos, src[pos], pos > start, start);
    }
  }
}
