/** The text a cell stands for, told by its bytes. */
module CellValue {
  import opened FileIndex
  import opened CellAccess

  /** From lo to hi there is what trimming leaves of what lies between a and b; without trimming that is all of it. */
  predicate Kept(src: string, opts: Options, a: nat, lo: nat, hi: nat, b: nat)
    requires b <= |src|
  {
    a <= lo <= hi <= b &&
    if opts.trimWs then
      (forall i :: a <= i < lo ==> src[i] in {' ', '\t', '\r', '\0'}) &&
      (forall i :: hi <= i < b ==> src[i] in {' ', '\t', '\r', '\0'}) &&
      (lo < hi ==> src[lo] !in {' ', '\t', '\r', '\0'} && src[hi - 1] !in {' ', '\t', '\r', '\0'})
    else a == lo && hi == b
  }

  /** What trimming leaves is what the program's trimming leaves, if there is anything. */
  lemma KeptIs(src: string, opts: Options, a: nat, lo: nat, hi: nat, b: nat)
    requires a <= b <= |src| && Kept(src, opts, a, lo, hi, b)
    ensures a <= lo <= hi <= b && (opts.trimWs && lo < hi ==> Kept(src, opts, lo, lo, hi, hi))
    ensures var r := if opts.trimWs then Trimmed(src, a, b) else (a, b);
            a <= r.0 <= r.1 <= b && (r.0 == r.1 <==> lo == hi)
    ensures var r := if opts.trimWs then Trimmed(src, a, b) else (a, b);
            lo < hi ==> r == (lo, hi)
  {
    if opts.trimWs {
      TrimmedIsUnique(src, a, b, Trimmed(src, a, b), (lo, hi));
    }
  }

  /** Is this the last cell of a line that ends in CR LF? */
  predicate EndsInCr(src: string, begin: nat, end: nat)
    requires end <= |src|
  {
    begin < end && src[end - 1] == '\r'
  }

  /** The CR of a line end does not belong to the last cell. */
  lemma LastCellDropsCr(src: string, opts: Options, begin: nat, end: nat)
    requires begin <= end < |src|
    ensures Value(src, opts, begin, end, true)
         == Value(src, opts, begin, if EndsInCr(src, begin, end) then end - 1 else end, false)
  {
  }

  /** A cell that does not begin with a quote is what trimming leaves of it: all of it, or what lies between its spaces. */
  lemma BareCell(src: string, opts: Options, begin: nat, lo: nat, hi: nat, end: nat)
    requires begin <= end < |src| && Kept(src, opts, begin, lo, hi, end)
    requires lo < hi ==> opts.quote == '\0' || src[lo] != opts.quote
    ensures Value(src, opts, begin, end, false) == src[lo..hi]
  {
    hide Trimmed, Kept, IsTrimmed;
    KeptIs(src, opts, begin, lo, hi, end);
    if lo < hi && opts.trimWs {
      KeptIs(src, opts, lo, lo, hi, hi);
    }
  }

  /** Where the closing quote of a cell stands, or the end of the cell where there is none. */
  function Closing(src: string, lo: nat, hi: nat, quote: char): nat
    requires lo < hi <= |src|
  {
    if lo + 1 < hi && src[hi - 1] == quote then hi - 1 else hi
  }

  /**
   A cell that begins with a quote, spaces aside, is what trimming leaves of what lies between its
   quotes, with its escapes undone where quotes are doubled.
   */
  lemma QuotedCell(src: string, opts: Options, begin: nat, lo: nat, innerLo: nat, innerHi: nat, hi: nat, end: nat)
    requires begin <= end < |src| && Kept(src, opts, begin, lo, hi, end)
    requires lo < hi && src[lo] == opts.quote != '\0'
    requires Kept(src, opts, lo + 1, innerLo, innerHi, Closing(src, lo, hi, opts.quote))
    ensures Value(src, opts, begin, end, false)
         == if opts.escapeDouble then Unescaped(src, innerLo, innerHi, opts.quote) else src[innerLo..innerHi]
  {
    hide Trimmed, Kept, IsTrimmed;
    KeptIs(src, opts, begin, lo, hi, end);
    KeptIs(src, opts, lo + 1, innerLo, innerHi, Closing(src, lo, hi, opts.quote));
    assert WithoutQuotes(src, lo, hi, opts.quote) == (lo + 1, Closing(src, lo, hi, opts.quote));
  }

  /** Every cell is of one of these kinds: what trimming leaves can always be found. */
  lemma SomethingIsKept(src: string, opts: Options, a: nat, b: nat) returns (lo: nat, hi: nat)
    requires a <= b <= |src|
    ensures Kept(src, opts, a, lo, hi, b)
  {
    lo, hi := a, b;
    if opts.trimWs {
      var r := Trimmed(src, a, b);
      lo, hi := r.0, r.1;
    }
  }

  /** Without a quote inside there is nothing to undo. */
  lemma {:induction false} NothingToUnescape(src: string, lo: nat, hi: nat, quote: char)
    requires lo <= hi < |src| && forall i :: lo <= i < hi ==> src[i] != quote
    ensures Unescaped(src, lo, hi, quote) == src[lo..hi]
    decreases hi - lo
  {
    if lo < hi {
      NothingToUnescape(src, lo + 1, hi, quote);
    }
  }

  /** A byte behind something else than a quote is kept as it is. */
  lemma {:induction false} OneByteMore(src: string, lo: nat, hi: nat, quote: char)
    requires lo < hi < |src| && src[hi - 1] != quote && (lo < hi - 1 ==> src[hi - 2] != quote)
    ensures Unescaped(src, lo, hi, quote) == Unescaped(src, lo, hi - 1, quote) + [src[hi - 1]]
    decreases hi - lo
  {
    if lo < hi - 1 {
      OneByteMore(src, if src[lo] == quote then lo + 2 else lo + 1, hi, quote);
    }
  }

  /** A byte behind a quote is kept instead of the quote, if that is not itself kept. */
  lemma {:induction false} ByteBehindQuote(src: string, lo: nat, hi: nat, quote: char)
    requires lo + 2 <= hi < |src| && src[hi - 1] != quote && src[hi - 2] == quote
    ensures Unescaped(src, lo, hi, quote) == Unescaped(src, lo, hi - 2, quote) + [src[hi - 1]]
    decreases hi - lo
  {
    if lo + 3 == hi && src[lo] == quote {
      assert Unescaped(src, hi - 1, hi, quote) == [src[hi - 1]];
    } else if lo + 2 < hi {
      ByteBehindQuote(src, if src[lo] == quote then lo + 2 else lo + 1, hi, quote);
    }
  }

  /** A cell that is not the last of its line is longer by the CR at its end, where spaces stay. */
  lemma OtherCellKeepsCr(src: string, opts: Options, begin: nat, end: nat)
    requires begin <= end < |src| && EndsInCr(src, begin, end) && !opts.trimWs && opts.quote != '\r'
    ensures |Value(src, opts, begin, end, false)| > |Value(src, opts, begin, end - 1, false)|
  {
    hide Unescaped;
    if opts.quote == '\0' || src[begin] != opts.quote {
      BareCell(src, opts, begin, begin, end, end);
      BareCell(src, opts, begin, begin, end - 1, end - 1);
    } else {
      QuotedCell(src, opts, begin, begin, begin + 1, end, end, end);
      var inner := Closing(src, begin, end - 1, opts.quote);
      QuotedCell(src, opts, begin, begin, begin + 1, inner, end - 1, end - 1);
      if inner == end - 1 {
        OneByteMore(src, begin + 1, end, opts.quote);
      } else {
        ByteBehindQuote(src, begin + 1, end, opts.quote);
      }
    }
  }

  /** Where spaces are cut off, a CR at the end of any cell goes with them. */
  lemma TrimmingDropsCr(src: string, opts: Options, begin: nat, end: nat)
    requires begin <= end < |src| && EndsInCr(src, begin, end) && opts.trimWs
    ensures Value(src, opts, begin, end, false) == Value(src, opts, begin, end - 1, false)
  {
    hide Trimmed, Unescaped;
    var r, r1 := Trimmed(src, begin, end), Trimmed(src, begin, end - 1);
    TrimmedIsUnique(src, begin, end, r, r1);
    if Spaces(src, begin, end) {
      BareCell(src, opts, begin, r.0, r.1, end);
      BareCell(src, opts, begin, r1.0, r1.1, end - 1);
    }
  }

  /**
   A cell with a CR at its end has the value of the cell without it, if and only if it is the last of its
   line or spaces are cut off.
   */
  lemma CrIsDroppedIff(src: string, opts: Options, begin: nat, end: nat, isLast: bool)
    requires begin <= end < |src| && EndsInCr(src, begin, end) && opts.quote != '\r'
    ensures Value(src, opts, begin, end, isLast) == Value(src, opts, begin, end - 1, false) <==> isLast || opts.trimWs
  {
    hide Value;
    LastCellDropsCr(src, opts, begin, end);
    if opts.trimWs {
      TrimmingDropsCr(src, opts, begin, end);
    } else {
      OtherCellKeepsCr(src, opts, begin, end);
    }
  }
}
