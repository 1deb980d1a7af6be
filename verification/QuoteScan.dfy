/**
 The quote-toggling newline scan against the automaton. The scan keeps one bit; the bit says
 "inside quotes" exactly as the automaton does until a quote turns up in an unquoted field.
 */
module QuoteScan {
  import opened Seqs
  import opened Csv
  import opened Bytewise
  import opened NewlineScan

  /** The scan's bit after it has passed over `text`. */
  function Toggled(text: string, quote: char): bool
  {
    if text == "" then false
    else Toggled(text[..|text| - 1], quote) != (text[|text| - 1] == quote)
  }

  /**
   The line from start ends at r: there is no line end before it but inside quotes, and none at r inside
   quotes; CR LF ends at its LF.
   */
  predicate LineEndsAt(src: string, start: nat, r: nat, quote: char)
  {
    start <= r < |src| &&
    (forall i :: start <= i < r && src[i] in {'\n', '\r'} && !Toggled(src[start..i], quote) ==>
       i + 1 == r && src[i] == '\r' && src[r] == '\n') &&
    (r < |src| - 1 ==>
       src[r] in {'\n', '\r'} && !Toggled(src[start..r], quote) && (src[r] == '\r' ==> !IsCrlf(src, r, |src| - 1)))
  }

  lemma {:induction false} ScanEndsLine(src: string, start: nat, pos: nat, quote: char)
    requires start <= pos < |src| && quote !in {'\n', '\r'}
    requires forall i :: start <= i < pos && src[i] in {'\n', '\r'} ==> Toggled(src[start..i], quote)
    ensures LineEndsAt(src, start, ScanPos(src, pos, Toggled(src[start..pos], quote), quote), quote)
    decreases |src| - pos
  {
    if pos < |src| - 1 {
      OneMoreToggle(src, start, pos, quote);
      if src[pos] in {'\n', '\r'} && !Toggled(src[start..pos], quote) {
        if IsCrlf(src, pos, |src| - 1) {
          assert src[pos + 1] == '\n';
        }
      } else {
        ScanEndsLine(src, start, pos + 1, quote);
      }
    }
  }

  lemma OneMoreToggle(src: string, start: nat, pos: nat, quote: char)
    requires start <= pos < |src|
    ensures Toggled(src[start..pos + 1], quote) <==> Toggled(src[start..pos], quote) != (src[pos] == quote)
  {
    assert src[start..pos + 1][..pos - start] == src[start..pos];
  }

  /** The scan finds the first line end outside quotes, or the last byte of the source. */
  lemma ScanFindsLineEnd(src: string, start: nat, quote: char)
    requires start < |src| && quote !in {'\n', '\r'}
    ensures LineEndsAt(src, start, ScanPos(src, start, false, quote), quote)
  {
    ScanEndsLine(src, start, start, quote);
  }

  /** After n bytes the scan and the automaton agree on being inside quotes. */
  predicate AgreeAt(cfg: Config, text: string, n: nat)
    requires n <= |text|
  {
    Toggled(text[..n], cfg.quote) <==> StateAfter(cfg, RecordStart, text[..n]) == QuotedField
  }

  /** Byte n is a quote in the middle of an unquoted field. */
  predicate StrayQuoteAt(cfg: Config, text: string, n: nat)
    requires n < |text|
  {
    text[n] == cfg.quote && StateAfter(cfg, RecordStart, text[..n]) == UnquotedField
  }

  predicate Distinct(cfg: Config)
  {
    cfg.delim != cfg.quote && cfg.newline != cfg.quote && cfg.delim != cfg.newline
  }

  /** The two agree throughout a text if and only if no quote in it is stray. */
  lemma {:induction false} ScanAgreesIffNoStrayQuote(cfg: Config, text: string, m: nat)
    requires Distinct(cfg) && m <= |text|
    ensures (forall n :: 0 <= n <= m ==> AgreeAt(cfg, text, n))
       <==> (forall n :: 0 <= n < m ==> !StrayQuoteAt(cfg, text, n))
  {
    if m > 0 {
      ScanAgreesIffNoStrayQuote(cfg, text, m - 1);
      if AgreeAt(cfg, text, m - 1) {
        assert text[..m][..m - 1] == text[..m - 1];
        assert AgreeAt(cfg, text, m) <==> !StrayQuoteAt(cfg, text, m - 1);
      }
    }
  }

  /** The automaton's state after `text`, which holds no stray quote and no line end outside quotes. */
  function Walk(cfg: Config, s: State, text: string): Option<State>
    decreases |text|
  {
    if text == "" then Some(s)
    else if text[0] == cfg.quote && s == UnquotedField then None
    else if text[0] in {'\n', '\r'} && s != QuotedField then None
    else Walk(cfg, StateStep(cfg, s, text[0]), text[1..])
  }

  lemma {:induction false} WalkAppend(cfg: Config, s: State, a: string, b: string)
    ensures Walk(cfg, s, a + b) == match Walk(cfg, s, a) case Some(t) => Walk(cfg, t, b) case None => None
    decreases |a|
  {
    if a == "" {
      assert a + b == b;
    } else {
      assert (a + b)[1..] == a[1..] + b;
      WalkAppend(cfg, StateStep(cfg, s, a[0]), a[1..], b);
    }
  }

  /** The scan passes over such text as the automaton does. */
  lemma {:induction false} ScanFollowsWalk(cfg: Config, src: string, pos: nat, next: nat, s: State)
    requires Distinct(cfg) && cfg.quote !in {'\n', '\r'} && cfg.newline == '\n'
    requires pos <= next < |src| && Walk(cfg, s, src[pos..next]).Some?
    ensures var t := Walk(cfg, s, src[pos..next]).value;
            ScanPos(src, pos, s == QuotedField, cfg.quote) == ScanPos(src, next, t == QuotedField, cfg.quote)
    decreases next - pos
  {
    if pos < next {
      assert src[pos..next][0] == src[pos] && src[pos..next][1..] == src[pos + 1..next];
      ScanFollowsWalk(cfg, src, pos + 1, next, StateStep(cfg, s, src[pos]));
    }
  }

  /** Such text closes no record. */
  lemma {:induction false} FoldFollowsWalk(cfg: Config, acc: Acc, text: string, p: nat, inner: bool)
    requires acc.Ok() && cfg.newline == '\n' && cfg.singleThread && Walk(cfg, acc.state, text).Some?
    ensures var r := Fold(cfg, acc, text, p, inner);
            r.Done? && r.acc.records == acc.records && r.acc.errors == acc.errors &&
            r.acc.state == Walk(cfg, acc.state, text).value
    decreases |text|
  {
    if text != "" {
      FoldFollowsWalk(cfg, Step(cfg, acc, p, text[0], inner).acc, text[1..], p + 1, true);
    }
  }

  /** From a record start the scan stops at the very newline at which the automaton closes the record. */
  lemma ScanFindsRecordEnd(cfg: Config, src: string, pos: nat, end: nat, acc: Acc, offset: nat)
    requires Distinct(cfg) && cfg.quote !in {'\n', '\r'} && cfg.newline == '\n' && cfg.singleThread
    requires acc.Ok() && acc.state == RecordStart
    requires pos <= end < |src| && src[end] == '\n'
    requires Walk(cfg, RecordStart, src[pos..end]).Some? && Walk(cfg, RecordStart, src[pos..end]).value != QuotedField
    ensures ScanPos(src, pos, false, cfg.quote) == end
    ensures var r := Fold(cfg, acc, src[pos..end], pos + offset, false);
            r.Done? && r.acc.records == acc.records &&
            var closed := Step(cfg, r.acc, end + offset, src[end], end > pos);
            closed.Done? && closed.acc.state == RecordStart && |closed.acc.records| == |acc.records| + 1
  {
    ScanFollowsWalk(cfg, src, pos, end, RecordStart);
    FoldFollowsWalk(cfg, acc, src[pos..end], pos + offset, false);
  }
}
