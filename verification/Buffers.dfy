/**
 A connection is parsed buffer by buffer, each from where the last one stopped. The result is
 that of the whole input exactly when no buffer starts with a newline that ends a ragged row.
 */
module Buffers {
  import opened Seqs
  import opened Csv
  import opened Bytewise

  /** The buffers in turn; state and open record are carried over, the first byte of each is not "inner". */
  function Stream(cfg: Config, acc: Acc, bufs: seq<string>, p: nat): (r: Outcome)
    requires acc.Ok()
    ensures r.Done? ==> r.acc.Ok()
  {
    if bufs == [] then Done(acc)
    else
      var m := |bufs| - 1;
      match Stream(cfg, acc, bufs[..m], p)
      case Done(a) => Fold(cfg, a, bufs[m], p + |Flatten(bufs[..m])|, false)
      case NewlineError => NewlineError
  }

  /** All of the input as one buffer. */
  function AtOnce(cfg: Config, acc: Acc, bufs: seq<string>, p: nat): (r: Outcome)
    requires acc.Ok()
    ensures r.Done? ==> r.acc.Ok()
  {
    Fold(cfg, acc, Flatten(bufs), p, false)
  }

  /** c is a newline that ends a row of the wrong width. */
  predicate EndsRaggedRow(cfg: Config, acc: Acc, c: char)
  {
    acc.state != QuotedField && c != cfg.delim && c == cfg.newline && cfg.numCols > 0 &&
    (if acc.state == RecordStart then 1 else |acc.open|) != cfg.numCols
  }

  /** Buffer k starts with such a newline, and is not the start of the input. */
  predicate RaggedCut(cfg: Config, acc: Acc, bufs: seq<string>, p: nat, k: nat)
    requires acc.Ok() && k < |bufs|
  {
    bufs[k] != "" && Flatten(bufs[..k]) != "" &&
    var before := AtOnce(cfg, acc, bufs[..k], p);
    before.Done? && EndsRaggedRow(cfg, before.acc, bufs[k][0])
  }

  ghost predicate SomeRaggedCut(cfg: Config, acc: Acc, bufs: seq<string>, p: nat)
    requires acc.Ok()
  {
    exists k :: 0 <= k < |bufs| && RaggedCut(cfg, acc, bufs, p, k)
  }

  /** Two parses at the same point of the same record; a has missed at least `missed` errors of w. */
  ghost predicate InStep(a: Acc, w: Acc, missed: nat)
  {
    a.Ok() && w.Ok() && a.open == w.open && a.state == w.state && |a.errors| + missed <= |w.errors|
  }

  lemma StepInStep(cfg: Config, a: Acc, w: Acc, missed: nat, p: nat, c: char, inner: bool)
    requires InStep(a, w, missed) && cfg.singleThread
    ensures InStep(Step(cfg, a, p, c, inner).acc, Step(cfg, w, p, c, true).acc,
                   if !inner && EndsRaggedRow(cfg, w, c) then missed + 1 else missed)
    ensures a == w && (inner || !EndsRaggedRow(cfg, w, c)) ==>
              Step(cfg, a, p, c, inner) == Step(cfg, w, p, c, true)
  {
    var open := if w.state == RecordStart then [p] else w.open;
    assert |open| == cfg.numCols ==> open + Fill(p, 0) + [p] == open + [p];
  }

  lemma {:induction false} FoldInStep(cfg: Config, a: Acc, w: Acc, missed: nat, text: string, p: nat)
    requires InStep(a, w, missed) && cfg.singleThread
    ensures var x, y := Fold(cfg, a, text, p, true), Fold(cfg, w, text, p, true);
            x.Done? && y.Done? && InStep(x.acc, y.acc, missed)
    decreases |text|
  {
    if text != "" {
      StepInStep(cfg, a, w, missed, p, text[0], true);
      FoldInStep(cfg, Step(cfg, a, p, text[0], true).acc, Step(cfg, w, p, text[0], true).acc, missed, text[1..], p + 1);
    }
  }

  lemma {:induction false} OneThreadFolds(cfg: Config, acc: Acc, text: string, p: nat, inner: bool)
    requires acc.Ok() && cfg.singleThread
    ensures Fold(cfg, acc, text, p, inner).Done?
    decreases |text|
  {
    if text != "" {
      OneThreadFolds(cfg, Step(cfg, acc, p, text[0], inner).acc, text[1..], p + 1, true);
    }
  }

  /** One more buffer, read on its own and in context. */
  lemma BufferInStep(cfg: Config, a: Acc, w: Acc, missed: nat, text: string, p: nat)
    requires InStep(a, w, missed) && cfg.singleThread && text != ""
    ensures var x, y := Fold(cfg, a, text, p, false), Fold(cfg, w, text, p, true);
            x.Done? && y.Done? &&
            InStep(x.acc, y.acc, if EndsRaggedRow(cfg, w, text[0]) then missed + 1 else missed) &&
            (a == w && !EndsRaggedRow(cfg, w, text[0]) ==> x == y)
  {
    StepInStep(cfg, a, w, missed, p, text[0], false);
    var m := if EndsRaggedRow(cfg, w, text[0]) then missed + 1 else missed;
    FoldInStep(cfg, Step(cfg, a, p, text[0], false).acc, Step(cfg, w, p, text[0], true).acc, m, text[1..], p + 1);
  }

  /** One more buffer extends the stream by what it holds on its own, and the whole by what it holds in context. */
  lemma BothGrow(cfg: Config, acc: Acc, bufs: seq<string>, p: nat)
    requires acc.Ok() && bufs != []
    ensures var init, last := bufs[..|bufs| - 1], bufs[|bufs| - 1];
            var q := p + |Flatten(init)|;
            (Stream(cfg, acc, init, p).Done? ==>
              Stream(cfg, acc, bufs, p) == Fold(cfg, Stream(cfg, acc, init, p).acc, last, q, false)) &&
            (AtOnce(cfg, acc, init, p).Done? ==>
              AtOnce(cfg, acc, bufs, p) == Fold(cfg, AtOnce(cfg, acc, init, p).acc, last, q, Flatten(init) != ""))
  {
    FoldAppend(cfg, acc, Flatten(bufs[..|bufs| - 1]), bufs[|bufs| - 1], p, false);
  }

  /** The stream and the whole are in step, and equal unless some cut was ragged. */
  ghost predicate Compared(cfg: Config, acc: Acc, bufs: seq<string>, p: nat)
    requires acc.Ok()
  {
    var s, w := Stream(cfg, acc, bufs, p), AtOnce(cfg, acc, bufs, p);
    s.Done? && w.Done? && InStep(s.acc, w.acc, if SomeRaggedCut(cfg, acc, bufs, p) then 1 else 0) &&
    (!SomeRaggedCut(cfg, acc, bufs, p) ==> s == w)
  }

  /** Stream and whole, buffer by buffer: the same, or the stream misses an error. */
  lemma {:induction false} StreamAgainstWhole(cfg: Config, acc: Acc, bufs: seq<string>, p: nat)
    requires acc.Ok() && cfg.singleThread
    ensures Compared(cfg, acc, bufs, p)
  {
    if bufs != [] {
      var init, last := bufs[..|bufs| - 1], bufs[|bufs| - 1];
      StreamAgainstWhole(cfg, acc, init, p);
      RaggedCutLast(cfg, acc, bufs, p);
      BothGrow(cfg, acc, bufs, p);
      if Flatten(init) == "" {
        NothingRead(cfg, acc, init, p);
        OneThreadFolds(cfg, acc, last, p, false);
      } else {
        NextBuffer(cfg, acc, bufs, p);
      }
    }
  }

  /** The step of the comparison when something has been read before. */
  lemma NextBuffer(cfg: Config, acc: Acc, bufs: seq<string>, p: nat)
    requires acc.Ok() && cfg.singleThread && bufs != [] && Flatten(bufs[..|bufs| - 1]) != ""
    requires Compared(cfg, acc, bufs[..|bufs| - 1], p)
    ensures Compared(cfg, acc, bufs, p)
  {
    hide Fold, Stream, Flatten, EndsRaggedRow, SomeRaggedCut;
    var m := |bufs| - 1;
    var init, last := bufs[..m], bufs[m];
    RaggedCutLast(cfg, acc, bufs, p);
    BothGrow(cfg, acc, bufs, p);
    var missed := if SomeRaggedCut(cfg, acc, init, p) then 1 else 0;
    if last != "" {
      var w := AtOnce(cfg, acc, init, p).acc;
      assert RaggedCut(cfg, acc, bufs, p, m) == EndsRaggedRow(cfg, w, last[0]);
      BufferInStep(cfg, Stream(cfg, acc, init, p).acc, w, missed, last, p + |Flatten(init)|);
    } else {
      assert !RaggedCut(cfg, acc, bufs, p, m);
      EmptyBuffer(cfg, Stream(cfg, acc, init, p).acc, p + |Flatten(init)|, false);
      EmptyBuffer(cfg, AtOnce(cfg, acc, init, p).acc, p + |Flatten(init)|, true);
    }
  }

  lemma EmptyBuffer(cfg: Config, acc: Acc, p: nat, inner: bool)
    requires acc.Ok()
    ensures Fold(cfg, acc, "", p, inner) == Done(acc)
  {
  }

  lemma RaggedCutLast(cfg: Config, acc: Acc, bufs: seq<string>, p: nat)
    requires acc.Ok() && bufs != []
    ensures var m := |bufs| - 1;
            SomeRaggedCut(cfg, acc, bufs, p)
            <==> SomeRaggedCut(cfg, acc, bufs[..m], p) || RaggedCut(cfg, acc, bufs, p, m)
  {
    var m := |bufs| - 1;
    forall k | 0 <= k < m
      ensures RaggedCut(cfg, acc, bufs, p, k) == RaggedCut(cfg, acc, bufs[..m], p, k)
    {
      assert bufs[..m][..k] == bufs[..k];
    }
  }

  lemma {:induction false} NothingRead(cfg: Config, acc: Acc, bufs: seq<string>, p: nat)
    requires acc.Ok() && Flatten(bufs) == ""
    ensures Stream(cfg, acc, bufs, p) == Done(acc) && !SomeRaggedCut(cfg, acc, bufs, p)
  {
    if bufs != [] {
      NothingRead(cfg, acc, bufs[..|bufs| - 1], p);
      RaggedCutLast(cfg, acc, bufs, p);
    }
  }

  /** Where the buffers are cut does not matter, if and only if no cut lies before the newline of a ragged row. */
  lemma CutsDoNotMatter(cfg: Config, acc: Acc, bufs: seq<string>, p: nat)
    requires acc.Ok() && cfg.singleThread
    ensures Stream(cfg, acc, bufs, p) == AtOnce(cfg, acc, bufs, p) <==> !SomeRaggedCut(cfg, acc, bufs, p)
  {
    StreamAgainstWhole(cfg, acc, bufs, p);
  }

  /** A parse only ever adds errors. */
  lemma {:induction false} ErrorsGrow(cfg: Config, acc: Acc, text: string, p: nat, inner: bool)
    requires acc.Ok() && cfg.singleThread
    ensures Fold(cfg, acc, text, p, inner).Done? && acc.errors <= Fold(cfg, acc, text, p, inner).acc.errors
    decreases |text|
  {
    if text != "" {
      ErrorsGrow(cfg, Step(cfg, acc, p, text[0], inner).acc, text[1..], p + 1, true);
    }
  }

  /** Rectangular input, on which the whole parse repairs nothing, may be cut anywhere. */
  lemma RectangularInput(cfg: Config, acc: Acc, bufs: seq<string>, p: nat)
    requires acc.Ok() && cfg.singleThread
    requires AtOnce(cfg, acc, bufs, p).Done? && AtOnce(cfg, acc, bufs, p).acc.errors == acc.errors
    ensures Stream(cfg, acc, bufs, p) == AtOnce(cfg, acc, bufs, p)
  {
    StreamAgainstWhole(cfg, acc, bufs, p);
    if SomeRaggedCut(cfg, acc, bufs, p) {
      var k :| 0 <= k < |bufs| && RaggedCut(cfg, acc, bufs, p, k);
      RaggedCutCosts(cfg, acc, bufs, p, k);
    }
  }

  /** The whole parse reports the ragged row at a cut. */
  lemma RaggedCutCosts(cfg: Config, acc: Acc, bufs: seq<string>, p: nat, k: nat)
    requires acc.Ok() && cfg.singleThread && k < |bufs| && RaggedCut(cfg, acc, bufs, p, k)
    ensures AtOnce(cfg, acc, bufs, p).Done? && |AtOnce(cfg, acc, bufs, p).acc.errors| > |acc.errors|
  {
    var before, after := Flatten(bufs[..k]), bufs[k] + Flatten(bufs[k + 1..]);
    assert bufs == bufs[..k] + ([bufs[k]] + bufs[k + 1..]);
    FlattenAppend(bufs[..k], [bufs[k]] + bufs[k + 1..]);
    FlattenHead(bufs[k], bufs[k + 1..]);
    FoldAppend(cfg, acc, before, after, p, false);
    ErrorsGrow(cfg, acc, before, p, false);
    var w := AtOnce(cfg, acc, bufs[..k], p).acc;
    ErrorsGrow(cfg, Step(cfg, w, p + |before|, after[0], true).acc, after[1..], p + |before| + 1, true);
  }
}
