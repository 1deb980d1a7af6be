/**
 The scans that look for line ends: find_next_newline, used to cut a file into chunks, and
 the quote-toggling find_next_non_quoted_newline, used to find the header line.
 */
module NewlineScan {
  import opened Seqs
  import opened RegionIndexer

  datatype NewlineType = CR | CRLF | LF | NA

  predicate IsCrlf(src: string, pos: nat, end: nat)
    requires pos < |src| && end <= |src|
  {
    src[pos] == '\r' && pos + 1 < end && src[pos + 1] == '\n'
  }

  /** The scan that does not look at quotes. */
  function FindNextNewline(src: string, start: nat): (r: (nat, NewlineType))
    requires src != ""
    ensures r.0 <= |src|
  {
    if start >= |src| then (|src| - 1, NA)
    else
      var pos := start + Strcspn(src, start, {'\n', '\r'});
      if pos == |src| then (pos, NA)
      else if src[pos] == '\n' then (pos, LF)
      else if IsCrlf(src, pos, |src|) then (pos + 1, CRLF)
      else if src[pos] == '\r' then (pos, CR)
      else (pos, NA)
  }

  /** Text that ends in a newline, has no NUL, and no CR that is not followed by LF. */
  predicate PlainText(src: string)
  {
    src != "" && src[|src| - 1] == '\n' && forall i :: 0 <= i < |src| ==> PlainByte(src, i)
  }

  /** Text that ends in a newline and has no NUL, whatever carriage returns it holds. */
  predicate TextFile(src: string)
  {
    src != "" && src[|src| - 1] == '\n' && forall i :: 0 <= i < |src| ==> src[i] != '\0'
  }

  predicate PlainByte(src: string, i: nat)
    requires i < |src|
  {
    src[i] != '\0' && (src[i] == '\r' ==> i + 1 < |src| && src[i + 1] == '\n')
  }

  /** On plain text the scan finds the next LF, whether or not a CR stands before it. */
  lemma FindsNextLf(src: string, start: nat)
    requires PlainText(src) && start < |src|
    ensures var r := FindNextNewline(src, start);
            r.0 < |src| && r.0 == IndexFrom(src, start, '\n') && r.1 in {LF, CRLF}
  {
    var pos := start + Strcspn(src, start, {'\n', '\r'});
    assert src[|src| - 1] == '\n';
    assert pos < |src| && PlainByte(src, pos);
    var lf := FindNextNewline(src, start).0;
    var first := IndexFrom(src, start, '\n');
    assert src[lf] == '\n' && forall i :: start <= i < lf ==> src[i] != '\n';
    assert first <= lf;
  }

  /** On text the scan stops at an LF, or at a CR that no LF follows; the type says which. */
  lemma FindsLineEnd(src: string, start: nat)
    requires TextFile(src)
    ensures var r := FindNextNewline(src, start);
            r.0 < |src| && (start < |src| ==> start <= r.0) &&
            if r.1 == CR then r.0 + 1 < |src| && src[r.0] == '\r' && src[r.0 + 1] != '\n' else src[r.0] == '\n'
  {
    if start < |src| {
      var pos := start + Strcspn(src, start, {'\n', '\r'});
      assert src[|src| - 1] == '\n';
    }
  }

  /** The scan is monotone. */
  lemma LineEndsInOrder(src: string, a: nat, b: nat)
    requires TextFile(src) && a <= b
    ensures FindNextNewline(src, a).0 <= FindNextNewline(src, b).0
  {
    FindsLineEnd(src, a);
    FindsLineEnd(src, b);
  }

  /** Where the quote-toggling scan stops, one byte at a time. The last byte of the source is never looked at. */
  function ScanPos(src: string, pos: nat, inQuote: bool, quote: char): (r: nat)
    requires src != ""
    ensures r < |src|
    decreases |src| - pos
  {
    var end := |src| - 1;
    if pos >= end then end
    else if src[pos] in {'\n', '\r'} then
      if inQuote then ScanPos(src, pos + 1, inQuote, quote)
      else if IsCrlf(src, pos, end) then pos + 1
      else pos
    else ScanPos(src, pos + 1, (src[pos] == quote) != inQuote, quote)
  }

  lemma {:induction false} ScanSkips(src: string, pos: nat, next: nat, inQuote: bool, quote: char)
    requires src != "" && pos <= next <= |src|
    requires forall i :: pos <= i < next ==> src[i] !in {'\n', '\r', quote}
    ensures ScanPos(src, pos, inQuote, quote) == ScanPos(src, next, inQuote, quote)
    decreases next - pos
  {
    if pos < next && pos < |src| - 1 {
      ScanSkips(src, pos + 1, next, inQuote, quote);
    }
  }

  /** What the type found by the quote-toggling scan says about the byte it stopped at. */
  predicate TypeFits(src: string, pos: nat, nl: NewlineType)
    requires pos < |src|
  {
    match nl
    case LF => src[pos] == '\n'
    case CRLF => src[pos] == '\n' && pos > 0 && src[pos - 1] == '\r'
    case CR => src[pos] == '\r'
    case NA => pos == |src| - 1
  }

  /** The scan as the program runs it, with strcspn jumps. */
  method FindNextNonQuotedNewline(src: string, start: nat, quote: char) returns (at: nat, nl: NewlineType)
    requires src != ""
    ensures at == ScanPos(src, start, false, quote)
    ensures TypeFits(src, at, nl)
  {
    if start > |src| - 1 {
      return |src| - 1, NA;
    }
    var end := |src| - 1;
    var pos, inQuote := start, false;
    while pos < end
      invariant start <= pos <= |src|
      invariant ScanPos(src, pos, inQuote, quote) == ScanPos(src, start, false, quote)
    {
      var n := Strcspn(src, pos, {'\r', '\n', quote});
      ScanSkips(src, pos, pos + n, inQuote, quote);
      pos := pos + n;
      if pos == |src| { // the terminating NUL
        return end, NA;
      }
      var c := src[pos];
      if c == '\n' || c == '\r' {
        if inQuote {
          pos := pos + 1;
          continue;
        }
        if c == '\n' {
          return pos, LF;
        }
        if IsCrlf(src, pos, end) {
          return pos + 1, CRLF;
        }
        return pos, CR;
      } else if c == quote {
        inQuote := !inQuote;
      }
      pos := pos + 1;
    }
    if pos > end {
      return end, NA;
    }
    return pos, NA;
  }
}
