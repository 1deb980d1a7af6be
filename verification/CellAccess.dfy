/**
 Reading cells through the index: flat arithmetic over the chunked vectors, trimming,
 quote removal and unescaping.
 */
module CellAccess {
  import opened Arith
  import opened Seqs
  import opened FileIndex

  const SIZE_MAX: nat := 0x1_0000_0000_0000_0000

  /** Subtraction of the program's unsigned 64-bit size type. */
  function USub(a: nat, b: nat): nat
    requires a < SIZE_MAX && b < SIZE_MAX
  {
    if a >= b then a - b else SIZE_MAX + a - b
  }

  /** Position in the flat offset vector of cell i, counted row by row. */
  function FlatPosition(i: nat, columns: nat): nat
    requires columns > 0
  {
    i / columns * (columns + 1) + i % columns
  }

  /** The bounds of a cell whose offset lies at position n of a flat offset vector. */
  function BoundsAt(flat: seq<nat>, n: nat, isFirst: bool): Option<(nat, nat)>
  {
    if n + 1 < |flat| then
      Some(if flat[n] == flat[n + 1] then (flat[n], flat[n + 1])
           else (flat[n] + (if isFirst then 0 else 1), flat[n + 1]))
    else None
  }

  /** A row counted past whole rows lies behind them all, and stays a row when they are taken off. */
  lemma RowInChunk(rows: nat, row: nat, col: nat, width: nat)
    requires col + 1 < width && rows * width <= row * width + col + 1
    ensures rows <= row && rows * width + (row - rows) * width == row * width
  {
    if row < rows {
      MulMonotone(row + 1, rows, width);
      MulSum(row, 1, width);
    }
    MulSum(rows, row - rows, width);
  }

  /**
   The cell of the chunked index. Over aligned chunks it is the cell of the flat index, and the
   unsigned subtraction never wraps while a chunk remains.
   */
  method GetCell(idx: seq<seq<nat>>, columns: nat, i0: nat, isFirst: bool) returns (r: Option<(nat, nat)>)
    requires columns > 0 && Aligned(idx, columns + 1)
    requires FlatPosition(i0, columns) + 1 < SIZE_MAX && |Flatten(idx)| < SIZE_MAX
    ensures r == BoundsAt(Flatten(idx), FlatPosition(i0, columns), isFirst)
  {
    ghost var flat := Flatten(idx);
    var n := FlatPosition(i0, columns);
    var i := n;
    ghost var row: nat, col: nat := i0 / columns, i0 % columns;
    var k := 0;
    while k < |idx|
      invariant 0 <= k <= |idx|
      invariant k < |idx| ==> i == row * (columns + 1) + col
      invariant i < SIZE_MAX
      invariant k < |idx| ==> |Flatten(idx[..k])| + i == n
      invariant k == |idx| ==> n + 1 >= |flat|
    {
      ChunkInFlat(idx, k);
      var sz := |idx[k]|;
      if i + 1 < sz {
        var start, end := idx[k][i], idx[k][i + 1];
        if start == end {
          return Some((start, end));
        }
        if !isFirst {
          start := start + 1;
        }
        return Some((start, end));
      }
      if k < |idx| - 1 {
        ghost var rows: nat :| sz == Size(rows, columns + 1);
        RowInChunk(rows, row, col, columns + 1);
        row := row - rows;
      } else {
        assert idx[..k + 1] == idx;
      }
      i := USub(i, sz);
      k := k + 1;
    }
    return None;
  }

  /** Chunk k lies in the flat index behind the chunks before it. */
  lemma ChunkInFlat(idx: seq<seq<nat>>, k: nat)
    requires k < |idx|
    ensures |Flatten(idx[..k])| + |idx[k]| == |Flatten(idx[..k + 1])| <= |Flatten(idx)|
    ensures forall j :: 0 <= j < |idx[k]| ==> Flatten(idx)[|Flatten(idx[..k])| + j] == idx[k][j]
  {
    assert idx[..k + 1] == idx[..k] + [idx[k]];
    FlattenPush(idx[..k], idx[k]);
    assert idx == idx[..k + 1] + idx[k + 1..];
    FlattenAppend(idx[..k + 1], idx[k + 1..]);
  }

  predicate IsSpace(c: char)
  {
    c in {' ', '\t', '\0', '\r'}
  }

  /** Only spaces lie between the two positions. */
  predicate Spaces(src: string, lo: nat, hi: nat)
    requires lo <= hi <= |src|
  {
    forall i :: lo <= i < hi ==> IsSpace(src[i])
  }

  function TrimStart(src: string, begin: nat, end: nat): (r: nat)
    requires begin <= end <= |src|
    ensures begin <= r <= end && Spaces(src, begin, r) && (r < end ==> !IsSpace(src[r]))
    decreases end - begin
  {
    if begin < end && IsSpace(src[begin]) then TrimStart(src, begin + 1, end) else begin
  }

  function TrimEnd(src: string, begin: nat, end: nat): (r: nat)
    requires begin <= end <= |src|
    ensures begin <= r <= end && Spaces(src, r, end) && (begin < r ==> !IsSpace(src[r - 1]))
    decreases end
  {
    if begin < end && IsSpace(src[end - 1]) then TrimEnd(src, begin, end - 1) else end
  }

  /** What is left begins and ends with no space, and spaces were cut off. */
  predicate IsTrimmed(src: string, begin: nat, end: nat, r: (nat, nat))
  {
    begin <= r.0 <= r.1 <= end <= |src| && Spaces(src, begin, r.0) && Spaces(src, r.1, end) &&
    (r.0 < r.1 ==> !IsSpace(src[r.0]) && !IsSpace(src[r.1 - 1]))
  }

  /** The cell without spaces at its ends; a cell of spaces shrinks to its end. */
  function Trimmed(src: string, begin: nat, end: nat): (r: (nat, nat))
    requires begin <= end <= |src|
    ensures begin <= r.0 <= r.1 <= end && IsTrimmed(src, begin, end, r)
  {
    var b := TrimStart(src, begin, end);
    (b, TrimEnd(src, b, end))
  }

  /** There is one way to trim a cell that holds something else than spaces. */
  lemma TrimmedIsUnique(src: string, begin: nat, end: nat, a: (nat, nat), b: (nat, nat))
    requires IsTrimmed(src, begin, end, a) && IsTrimmed(src, begin, end, b) && begin <= end
    ensures Spaces(src, begin, end) ==> a.0 == a.1 && b.0 == b.1
    ensures !Spaces(src, begin, end) ==> a == b
  {
  }

  method TrimWhitespace(src: string, begin0: nat, end0: nat) returns (begin: nat, end: nat)
    requires begin0 <= end0 <= |src|
    ensures (begin, end) == Trimmed(src, begin0, end0)
    ensures begin0 <= begin <= end <= end0 && IsTrimmed(src, begin0, end0, (begin, end))
  {
    begin, end := begin0, end0;
    while begin != end && IsSpace(src[begin])
      invariant begin0 <= begin <= end
      invariant TrimStart(src, begin, end) == TrimStart(src, begin0, end0)
      decreases end - begin
    {
      begin := begin + 1;
    }
    while end != begin && IsSpace(src[end - 1])
      invariant begin <= end <= end0
      invariant TrimEnd(src, begin, end) == TrimEnd(src, begin, end0)
    {
      end := end - 1;
    }
  }

  /** An opening and a closing quote are dropped, each where it is present. */
  function WithoutQuotes(src: string, begin: nat, end: nat, quote: char): (r: (nat, nat))
    requires begin <= end <= |src|
    ensures begin <= r.0 <= r.1 <= end
  {
    var b := if begin != end && src[begin] == quote then begin + 1 else begin;
    (b, if end != b && src[end - 1] == quote then end - 1 else end)
  }

  /** The text is what is left between the bounds, with at most one quote in front and one behind. */
  ghost predicate QuotesOff(text: string, rest: string, quote: char)
  {
    exists a: nat, b: nat :: a <= 1 && b <= 1 && text == Fill(quote, a) + rest + Fill(quote, b)
  }

  /**
   One quote comes off at either end that has one, whatever stands between them: a quoted cell
   gives what was quoted. Where the text begins or ends with another byte nothing comes off.
   */
  lemma QuotesComeOff(src: string, begin: nat, end: nat, quote: char, lo: nat, hi: nat)
    requires begin <= lo <= hi <= end <= |src| && lo <= begin + 1 && end <= hi + 1
    requires (begin < lo ==> src[begin] == quote) && (hi < end ==> src[hi] == quote)
    requires lo < hi ==> (lo == begin ==> src[lo] != quote) && (hi == end ==> src[hi - 1] != quote)
    ensures var r := WithoutQuotes(src, begin, end, quote); src[r.0..r.1] == src[lo..hi]
  {
    var r := WithoutQuotes(src, begin, end, quote);
    assert if lo < hi then r == (lo, hi) else r.0 == r.1;
  }

  method TrimQuotes(src: string, begin0: nat, end0: nat, quote: char) returns (begin: nat, end: nat)
    requires begin0 <= end0 <= |src|
    ensures (begin, end) == WithoutQuotes(src, begin0, end0, quote) && begin0 <= begin <= end <= end0
    ensures QuotesOff(src[begin0..end0], src[begin..end], quote)
    ensures begin0 < end0 && src[begin0] == quote ==> begin == begin0 + 1
    ensures begin < end && end == end0 ==> src[end - 1] != quote
  {
    begin, end := begin0, end0;
    if begin != end && src[begin] == quote {
      begin := begin + 1;
    }
    if end != begin && src[end - 1] == quote {
      end := end - 1;
    }
    OneOffEitherEnd(src, begin0, begin, end, end0, quote);
  }

  lemma OneOffEitherEnd(src: string, begin0: nat, begin: nat, end: nat, end0: nat, quote: char)
    requires begin0 <= begin <= end <= end0 <= |src| && begin <= begin0 + 1 && end0 <= end + 1
    requires (begin0 < begin ==> src[begin0] == quote) && (end < end0 ==> src[end] == quote)
    ensures QuotesOff(src[begin0..end0], src[begin..end], quote)
  {
    var a: nat, b: nat := begin - begin0, end0 - end;
    assert Fill(quote, a) == src[begin0..begin];
    assert Fill(quote, b) == src[end..end0];
    assert src[begin0..end0] == src[begin0..begin] + src[begin..end] + src[end..end0];
  }

  /** Quotes inside a quoted cell are dropped and the byte after each is kept, whatever it is. */
  function Unescaped(src: string, cur: nat, end: nat, quote: char): string
    requires end < |src|
    decreases end - cur
  {
    if cur >= end then ""
    else if src[cur] == quote then [src[cur + 1]] + Unescaped(src, cur + 2, end, quote)
    else [src[cur]] + Unescaped(src, cur + 1, end, quote)
  }

  /** A byte that is no quote joins the piece being copied. */
  lemma PieceGrows(out: string, src: string, prev: nat, cur: nat, end: nat, quote: char)
    requires prev <= cur < end < |src| && src[cur] != quote
    ensures out + src[prev..cur] + Unescaped(src, cur, end, quote)
         == out + src[prev..cur + 1] + Unescaped(src, cur + 1, end, quote)
  {
    var rest := Unescaped(src, cur + 1, end, quote);
    assert src[prev..cur + 1] == src[prev..cur] + [src[cur]];
    hide Unescaped;
    Associative(out, src[prev..cur], [src[cur]]);
    Associative(out + src[prev..cur], [src[cur]], rest);
  }

  /** A quote ends the piece, and the byte behind it begins the next one. */
  lemma PieceEnds(piece: string, src: string, cur: nat, end: nat, quote: char)
    requires cur < end < |src| && src[cur] == quote
    ensures piece + Unescaped(src, cur, end, quote) == piece + src[cur + 1..cur + 2] + Unescaped(src, cur + 2, end, quote)
  {
    var rest := Unescaped(src, cur + 2, end, quote);
    assert src[cur + 1..cur + 2] == [src[cur + 1]];
    hide Unescaped;
    Associative(piece, [src[cur + 1]], rest);
  }

  lemma NothingUnescaped(src: string, begin: nat, cur: nat, end: nat, quote: char)
    requires begin <= end < |src| && cur >= end
    ensures src[begin..begin] == "" && Unescaped(src, cur, end, quote) == ""
  {
  }

  lemma NothingAdded(out: string, piece: string)
    ensures out + piece + "" == out + piece && "" + piece == piece
  {
  }

  method GetEscapedString(src: string, begin: nat, end: nat, hasQuote: bool, opts: Options) returns (out: string)
    requires begin <= end < |src|
    ensures out == if opts.escapeDouble && hasQuote then Unescaped(src, begin, end, opts.quote) else src[begin..end]
  {
    hide Unescaped;
    NothingUnescaped(src, begin, end, end, opts.quote);
    if end <= begin {
      return "";
    }
    if !(opts.escapeDouble && hasQuote) {
      return src[begin..end];
    }
    out := "";
    var needsEscaping := false;
    var cur, prev := begin, begin;
    while cur < end
      invariant begin <= prev <= cur <= end + 1
      invariant !needsEscaping ==> out == "" && prev == begin && cur <= end
      invariant out + src[prev..cur] + Unescaped(src, cur, end, opts.quote) == Unescaped(src, begin, end, opts.quote)
      decreases end + 1 - cur
    {
      if src[cur] == opts.quote {
        PieceEnds(out + src[prev..cur], src, cur, end, opts.quote);
        needsEscaping := true;
        out := out + src[prev..cur];
        cur := cur + 1;
        prev := cur;
      } else {
        PieceGrows(out, src, prev, cur, end, opts.quote);
      }
      cur := cur + 1;
    }
    NothingUnescaped(src, begin, cur, end, opts.quote);
    NothingAdded(out, src[prev..cur]);
    if needsEscaping {
      out := out + src[prev..cur];
      return;
    }
    return src[begin..end];
  }

  /** The text a cell stands for. */
  function Value(src: string, opts: Options, begin: nat, end: nat, isLast: bool): string
    requires begin <= end < |src|
  {
    var end1 := if isLast && begin < end && src[end - 1] == '\r' then end - 1 else end;
    var (b, e) := if opts.trimWs then Trimmed(src, begin, end1) else (begin, end1);
    var hasQuote := opts.quote != '\0' && b < e && src[b] == opts.quote;
    var (b1, e1) := if hasQuote then WithoutQuotes(src, b, e, opts.quote) else (b, e);
    var (b2, e2) := if opts.quote != '\0' && b < e && opts.trimWs then Trimmed(src, b1, e1) else (b1, e1);
    if opts.escapeDouble && hasQuote then Unescaped(src, b2, e2, opts.quote) else src[b2..e2]
  }

  /** The program's value of a cell: CR, spaces and quotes are cut off in turn, then escapes are undone. */
  method GetTrimmedVal(src: string, opts: Options, begin0: nat, end0: nat, isLast: bool) returns (out: string)
    requires begin0 <= end0 < |src|
    ensures out == Value(src, opts, begin0, end0, isLast)
  {
    hide IsTrimmed, Trimmed, QuotesOff, WithoutQuotes, Unescaped;
    var begin, end := begin0, end0;
    if isLast {
      if begin < end {
        if src[end - 1] == '\r' {
          end := end - 1;
        }
      }
    }
    if opts.trimWs {
      begin, end := TrimWhitespace(src, begin, end);
    }
    var hasQuote := false;
    if opts.quote != '\0' && begin < end {
      hasQuote := src[begin] == opts.quote;
      if hasQuote {
        begin, end := TrimQuotes(src, begin, end, opts.quote);
      }
      if opts.trimWs {
        begin, end := TrimWhitespace(src, begin, end);
      }
    }
    out := GetEscapedString(src, begin, end, hasQuote, opts);
  }
}
