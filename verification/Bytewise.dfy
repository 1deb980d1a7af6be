/**
 Without a comment string and with empty rows kept, the parse is a fold over the bytes.
 A fold splits at any byte, which is what streaming and the record layout rest on.
 */
module Bytewise {
  import opened Csv

  predicate Plain(cfg: Config)
  {
    cfg.comment == "" && !cfg.skipEmptyRows
  }

  /** The bytes of `text`, the first of which lies at offset p; `inner` says that it is not the first of its region. */
  function Fold(cfg: Config, acc: Acc, text: string, p: nat, inner: bool): (r: Outcome)
    requires acc.Ok()
    ensures r.Done? ==> r.acc.Ok()
    decreases |text|
  {
    if text == "" then Done(acc) else
    match Step(cfg, acc, p, text[0], inner)
    case Done(a) => Fold(cfg, a, text[1..], p + 1, true)
    case NewlineError => NewlineError
  }

  lemma {:induction false} RunIsFold(
    src: string, cfg: Config, start: nat, pos: nat, end: nat, offset: nat, acc: Acc)
    requires start <= pos <= end <= |src| && acc.Ok() && Plain(cfg)
    ensures Run(src, cfg, start, pos, end, offset, acc)
         == Fold(cfg, acc, src[pos..end], pos + offset, pos > start)
    decreases end - pos
  {
    if pos < end {
      assert src[pos..end][1..] == src[pos + 1..end];
      match Step(cfg, acc, pos + offset, src[pos], pos > start)
      case Done(a) => RunIsFold(src, cfg, start, pos + 1, end, offset, a);
      case NewlineError =>
    }
  }

  lemma {:induction false} FoldAppend(cfg: Config, acc: Acc, a: string, b: string, p: nat, inner: bool)
    requires acc.Ok()
    ensures Fold(cfg, acc, a + b, p, inner)
         == match Fold(cfg, acc, a, p, inner)
            case Done(mid) => Fold(cfg, mid, b, p + |a|, inner || a != "")
            case NewlineError => NewlineError
    decreases |a|
  {
    if a == "" {
      assert a + b == b;
    } else {
      assert (a + b)[1..] == a[1..] + b;
      match Step(cfg, acc, p, a[0], inner)
      case Done(mid) =>
        FoldAppend(cfg, mid, a[1..], b, p + 1, true);
      case NewlineError =>
    }
  }

  /** The state after one byte, whatever else the byte does. */
  function StateStep(cfg: Config, s: State, c: char): State
  {
    if s != QuotedField && c == cfg.delim then OnDelim(s)
    else if c == cfg.newline then OnNewline(s)
    else if c == cfg.quote then OnQuote(s)
    else OnOther(s)
  }

  function StateAfter(cfg: Config, s: State, text: string): State
  {
    if text == "" then s else StateStep(cfg, StateAfter(cfg, s, text[..|text| - 1]), text[|text| - 1])
  }
}
