/** What stands before the header: a byte order mark, skipped lines, comments and blank lines. */
module Preamble {
  import opened NewlineScan
  import QuoteScan

  /** The byte at pos; behind the last one there is a NUL. */
  function ByteAt(src: string, pos: nat): char
  {
    if pos < |src| then src[pos] else '\0'
  }

  predicate StartsWith(src: string, mark: seq<int>)
    requires forall i :: 0 <= i < |mark| ==> 0 <= mark[i] < 256
  {
    |src| >= |mark| && forall i :: 0 <= i < |mark| ==> src[i] == mark[i] as char
  }

  /** The length of the byte order mark the file begins with. */
  function SkipBom(src: string): (r: nat)
    ensures r <= |src|
  {
    if StartsWith(src, [0, 0, 0xFE, 0xFF]) then 4
    else if StartsWith(src, [0xEF, 0xBB, 0xBF]) then 3
    else if StartsWith(src, [0xFE, 0xFF]) then 2
    else if StartsWith(src, [0xFF, 0xFE, 0, 0]) then 4
    else if StartsWith(src, [0xFF, 0xFE]) then 2
    else 0
  }

  /** The byte order marks of UTF-32, UTF-8 and UTF-16. */
  const MARKS: set<seq<int>> :=
    {[0, 0, 0xFE, 0xFF], [0xFF, 0xFE, 0, 0], [0xEF, 0xBB, 0xBF], [0xFE, 0xFF], [0xFF, 0xFE]}

  /** The mark that is skipped is the longest one the file begins with. */
  lemma LongestMark(src: string)
    ensures forall mark :: mark in MARKS && StartsWith(src, mark) ==> |mark| <= SkipBom(src)
    ensures SkipBom(src) > 0 ==> exists mark :: mark in MARKS && StartsWith(src, mark) && |mark| == SkipBom(src)
  {
    forall mark | mark in MARKS && StartsWith(src, mark)
      ensures |mark| <= SkipBom(src)
    {
      assert src[0] == mark[0] as char;
    }
    if SkipBom(src) > 0 {
      var mark := if StartsWith(src, [0, 0, 0xFE, 0xFF]) then [0, 0, 0xFE, 0xFF]
                  else if StartsWith(src, [0xEF, 0xBB, 0xBF]) then [0xEF, 0xBB, 0xBF]
                  else if StartsWith(src, [0xFE, 0xFF]) then [0xFE, 0xFF]
                  else if StartsWith(src, [0xFF, 0xFE, 0, 0]) then [0xFF, 0xFE, 0, 0]
                  else [0xFF, 0xFE];
      assert mark in MARKS && StartsWith(src, mark) && |mark| == SkipBom(src);
    }
  }

  function SkipSpaces(src: string, pos: nat): (r: nat)
    requires pos <= |src|
    ensures pos <= r <= |src| && forall i :: pos <= i < r ==> src[i] in {' ', '\t'}
    ensures r < |src| ==> src[r] !in {' ', '\t'}
    decreases |src| - pos
  {
    if pos < |src| && src[pos] in {' ', '\t'} then SkipSpaces(src, pos + 1) else pos
  }

  /** Is the line at pos to be skipped, and is it a comment? */
  function BlankOrComment(src: string, pos: nat, comment: string, skipEmptyRows: bool): (r: (bool, bool))
    requires pos <= |src|
    ensures comment == "" && !skipEmptyRows ==> r == (false, false)
  {
    if !skipEmptyRows && comment == "" then (false, false)
    else if skipEmptyRows && ByteAt(src, pos) in {'\n', '\r'} then (true, false)
    else
      var b := SkipSpaces(src, pos);
      if skipEmptyRows && ByteAt(src, b) in {'\n', '\r'} then (true, false)
      else if comment != "" && comment <= src[b..] then (true, true)
      else (false, false)
  }

  /** Is the line at pos passed over, with so many lines left to be skipped? */
  predicate IsSkipped(src: string, pos: nat, lines: nat, comment: string, skipEmptyRows: bool)
    requires src != "" && pos <= |src|
  {
    pos < |src| - 1 && (BlankOrComment(src, pos, comment, skipEmptyRows).0 || lines > 0)
  }

  /** The line after the one at pos; quotes do not matter in a comment. */
  function NextLine(src: string, pos: nat, comment: string, skipEmptyRows: bool, quote: char): (r: nat)
    requires pos < |src|
    ensures pos < r <= |src|
  {
    var isComment := BlankOrComment(src, pos, comment, skipEmptyRows).1;
    LineEnd(src, pos, quote != '\0', if isComment then '\0' else quote) + 1
  }

  /** The first position behind `lines` skipped lines and any comments and blank lines that follow them. */
  function FirstLineFrom(src: string, pos: nat, lines: nat, comment: string, skipEmptyRows: bool, quote: char): (r: nat)
    requires src != "" && pos <= |src|
    ensures pos <= r <= |src|
    decreases |src| - pos
  {
    if IsSkipped(src, pos, lines, comment, skipEmptyRows) then
      FirstLineFrom(src, NextLine(src, pos, comment, skipEmptyRows, quote), if lines > 0 then lines - 1 else lines,
                    comment, skipEmptyRows, quote)
    else pos
  }

  /** The end of the line at pos, looking for quotes or not. */
  function LineEnd(src: string, pos: nat, embedded: bool, quote: char): (r: nat)
    requires pos < |src|
    ensures pos <= r < |src|
  {
    if embedded then
      ScanAhead(src, pos, false, quote);
      ScanPos(src, pos, false, quote)
    else
      var at := FindNextNewline(src, pos).0;
      if at < |src| then at else |src| - 1
  }

  lemma {:induction false} ScanAhead(src: string, pos: nat, inQuote: bool, quote: char)
    requires pos < |src|
    ensures pos <= ScanPos(src, pos, inQuote, quote)
    decreases |src| - pos
  {
    if pos < |src| - 1 {
      ScanAhead(src, pos + 1, inQuote, quote);
      ScanAhead(src, pos + 1, (src[pos] == quote) != inQuote, quote);
    }
  }

  /** The start of the line k lines on, or the end of the file when there are fewer. */
  function LineAfter(src: string, pos: nat, k: nat, comment: string, skipEmptyRows: bool, quote: char): (r: nat)
    requires pos <= |src|
    ensures pos <= r <= |src|
  {
    if k == 0 then pos else
    var before := LineAfter(src, pos, k - 1, comment, skipEmptyRows, quote);
    if before < |src| then NextLine(src, before, comment, skipEmptyRows, quote) else before
  }

  /** How many of the requested lines are left to be skipped, k lines on. */
  function Left(lines: nat, k: nat): nat
  {
    if lines > k then lines - k else 0
  }

  /** Is the line j lines on passed over: blank, a comment, or one of the requested ones? */
  predicate PassedOver(src: string, pos: nat, lines: nat, comment: string, skipEmptyRows: bool, quote: char, j: nat)
    requires src != "" && pos <= |src|
  {
    IsSkipped(src, LineAfter(src, pos, j, comment, skipEmptyRows, quote), Left(lines, j), comment, skipEmptyRows)
  }

  /** Nothing but spaces and tabs from p to b. */
  predicate Blanks(src: string, p: nat, b: nat)
  {
    p <= b <= |src| && forall i :: p <= i < b ==> src[i] in {' ', '\t'}
  }

  /** A line of spaces and tabs, which ends within the file. */
  ghost predicate BlankLine(src: string, p: nat)
  {
    exists b: nat :: Blanks(src, p, b) && b < |src| && src[b] in {'\n', '\r'}
  }

  /** A line whose first byte that is no space or tab begins the comment. */
  ghost predicate CommentLine(src: string, p: nat, comment: string)
  {
    comment != "" &&
    exists b: nat :: Blanks(src, p, b) && (b == |src| || src[b] !in {' ', '\t'}) && comment <= src[b..]
  }

  lemma BlankOrCommentInBytes(src: string, pos: nat, comment: string, skipEmptyRows: bool)
    requires pos <= |src|
    ensures BlankOrComment(src, pos, comment, skipEmptyRows).0
        <==> (skipEmptyRows && BlankLine(src, pos)) || CommentLine(src, pos, comment)
    ensures BlankOrComment(src, pos, comment, skipEmptyRows).1
        <==> !(skipEmptyRows && BlankLine(src, pos)) && CommentLine(src, pos, comment)
  {
    var b := SkipSpaces(src, pos);
    assert Blanks(src, pos, b);
    assert forall c: nat :: Blanks(src, pos, c) && (c == |src| || src[c] !in {' ', '\t'}) ==> c == b;
  }

  /** Passed over are the lines that were requested, and blank lines and comments, but not the last byte of the file. */
  lemma PassedOverInBytes(
    src: string, pos: nat, lines: nat, comment: string, skipEmptyRows: bool, quote: char, j: nat)
    requires src != "" && pos <= |src|
    ensures var p := LineAfter(src, pos, j, comment, skipEmptyRows, quote);
            PassedOver(src, pos, lines, comment, skipEmptyRows, quote, j)
            <==> p < |src| - 1 && (j < lines || (skipEmptyRows && BlankLine(src, p)) || CommentLine(src, p, comment))
  {
    hide BlankOrComment, BlankLine, CommentLine, LineAfter;
    BlankOrCommentInBytes(src, LineAfter(src, pos, j, comment, skipEmptyRows, quote), comment, skipEmptyRows);
  }

  /** A line that is passed over ends at its first line end outside quotes; in a comment there are no quotes. */
  lemma SkippedLineEnds(src: string, pos: nat, comment: string, skipEmptyRows: bool, quote: char)
    requires pos < |src| && quote !in {'\n', '\r', '\0'}
    ensures var bare := !(skipEmptyRows && BlankLine(src, pos)) && CommentLine(src, pos, comment);
            QuoteScan.LineEndsAt(src, pos, NextLine(src, pos, comment, skipEmptyRows, quote) - 1, if bare then '\0' else quote)
  {
    hide BlankOrComment, BlankLine, CommentLine, QuoteScan.LineEndsAt;
    BlankOrCommentInBytes(src, pos, comment, skipEmptyRows);
    QuoteScan.ScanFindsLineEnd(src, pos, quote);
    QuoteScan.ScanFindsLineEnd(src, pos, '\0');
  }

  /** The line k lines on is the first one that is not passed over. */
  ghost predicate IsFirstLine(
    src: string, pos: nat, lines: nat, comment: string, skipEmptyRows: bool, quote: char, k: nat)
    requires src != "" && pos <= |src|
  {
    !PassedOver(src, pos, lines, comment, skipEmptyRows, quote, k) &&
    forall j :: 0 <= j < k ==> PassedOver(src, pos, lines, comment, skipEmptyRows, quote, j)
  }

  /** Lines counted from the second one on. */
  lemma {:induction false} LineAfterNext(src: string, pos: nat, k: nat, comment: string, skipEmptyRows: bool, quote: char)
    requires pos < |src|
    ensures LineAfter(src, pos, k + 1, comment, skipEmptyRows, quote)
         == LineAfter(src, NextLine(src, pos, comment, skipEmptyRows, quote), k, comment, skipEmptyRows, quote)
  {
    if k > 0 {
      LineAfterNext(src, pos, k - 1, comment, skipEmptyRows, quote);
    } else {
      assert LineAfter(src, pos, 0, comment, skipEmptyRows, quote) == pos;
    }
  }

  lemma PassedOverNext(
    src: string, pos: nat, lines: nat, comment: string, skipEmptyRows: bool, quote: char, j: nat)
    requires src != "" && pos < |src|
    ensures PassedOver(src, pos, lines, comment, skipEmptyRows, quote, j + 1)
        <==> PassedOver(src, NextLine(src, pos, comment, skipEmptyRows, quote), Left(lines, 1), comment, skipEmptyRows, quote, j)
  {
    hide IsSkipped, NextLine, LineAfter;
    LineAfterNext(src, pos, j, comment, skipEmptyRows, quote);
    assert Left(lines, j + 1) == Left(Left(lines, 1), j);
  }

  /** What is the first line behind a line that is passed over is the first line from there on. */
  lemma FirstLineBehind(
    src: string, pos: nat, lines: nat, comment: string, skipEmptyRows: bool, quote: char, m: nat)
    requires src != "" && pos < |src| && PassedOver(src, pos, lines, comment, skipEmptyRows, quote, 0)
    requires var next := NextLine(src, pos, comment, skipEmptyRows, quote);
             IsFirstLine(src, next, Left(lines, 1), comment, skipEmptyRows, quote, m)
    ensures IsFirstLine(src, pos, lines, comment, skipEmptyRows, quote, m + 1)
  {
    hide PassedOver, NextLine;
    PassedOverNext(src, pos, lines, comment, skipEmptyRows, quote, m);
    forall j | 0 <= j < m + 1
      ensures PassedOver(src, pos, lines, comment, skipEmptyRows, quote, j)
    {
      if j > 0 {
        PassedOverNext(src, pos, lines, comment, skipEmptyRows, quote, j - 1);
      }
    }
  }

  /** The search ends at the first line to be read. */
  lemma {:induction false} FindsFirstLine(
    src: string, pos: nat, lines: nat, comment: string, skipEmptyRows: bool, quote: char) returns (k: nat)
    requires src != "" && pos <= |src|
    ensures IsFirstLine(src, pos, lines, comment, skipEmptyRows, quote, k)
    ensures FirstLineFrom(src, pos, lines, comment, skipEmptyRows, quote)
         == LineAfter(src, pos, k, comment, skipEmptyRows, quote)
    decreases |src| - pos
  {
    hide NextLine, BlankOrComment;
    k := 0;
    if IsSkipped(src, pos, lines, comment, skipEmptyRows) {
      var next := NextLine(src, pos, comment, skipEmptyRows, quote);
      var m := FindsFirstLine(src, next, Left(lines, 1), comment, skipEmptyRows, quote);
      hide IsFirstLine, LineAfter;
      k := m + 1;
      FirstLineBehind(src, pos, lines, comment, skipEmptyRows, quote, m);
      LineAfterNext(src, pos, m, comment, skipEmptyRows, quote);
    }
  }

  /** A line that is not the first starts behind a line end, or a NUL where the scan stops. */
  lemma {:induction false} LineStartsBehindNewline(
    src: string, pos: nat, k: nat, comment: string, skipEmptyRows: bool, quote: char)
    requires pos <= |src| && k > 0
    ensures var r := LineAfter(src, pos, k, comment, skipEmptyRows, quote);
            r < |src| ==> src[r - 1] in {'\n', '\r', '\0'}
  {
    hide BlankOrComment, LineEnd, LineAfter;
    var before := LineAfter(src, pos, k - 1, comment, skipEmptyRows, quote);
    OneLineOn(src, pos, k, comment, skipEmptyRows, quote);
    if before < |src| {
      var isComment := BlankOrComment(src, before, comment, skipEmptyRows).1;
      StopsAtLineEnd(src, before, quote != '\0', if isComment then '\0' else quote);
    }
  }

  lemma OneLineOn(src: string, pos: nat, k: nat, comment: string, skipEmptyRows: bool, quote: char)
    requires pos <= |src| && k > 0
    ensures var before := LineAfter(src, pos, k - 1, comment, skipEmptyRows, quote);
            LineAfter(src, pos, k, comment, skipEmptyRows, quote)
            == if before < |src| then NextLine(src, before, comment, skipEmptyRows, quote) else before
  {
  }

  lemma StopsAtLineEnd(src: string, pos: nat, embedded: bool, quote: char)
    requires pos < |src|
    ensures var r := LineEnd(src, pos, embedded, quote); r < |src| - 1 ==> src[r] in {'\n', '\r', '\0'}
  {
    StopsAtNewline(src, pos, false, quote);
  }

  lemma {:induction false} StopsAtNewline(src: string, pos: nat, inQuote: bool, quote: char)
    requires src != ""
    ensures var r := ScanPos(src, pos, inQuote, quote); r < |src| - 1 ==> src[r] in {'\n', '\r'}
    decreases |src| - pos
  {
    if pos < |src| - 1 {
      StopsAtNewline(src, pos + 1, inQuote, quote);
      StopsAtNewline(src, pos + 1, (src[pos] == quote) != inQuote, quote);
    }
  }

  /** The position of the first line to be read. */
  method FindFirstLine(src: string, lines: nat, comment: string, skipEmptyRows: bool, quote: char) returns (begin: nat)
    requires src != ""
    ensures begin == FirstLineFrom(src, SkipBom(src), lines, comment, skipEmptyRows, quote)
    ensures exists k :: IsFirstLine(src, SkipBom(src), lines, comment, skipEmptyRows, quote, k) &&
                        begin == LineAfter(src, SkipBom(src), k, comment, skipEmptyRows, quote)
  {
    begin := SkipLines(src, SkipBom(src), lines, comment, skipEmptyRows, quote);
    ghost var k := FindsFirstLine(src, SkipBom(src), lines, comment, skipEmptyRows, quote);
  }

  method SkipLines(src: string, begin0: nat, lines0: nat, comment: string, skipEmptyRows: bool, quote: char)
    returns (begin: nat)
    requires src != "" && begin0 <= |src|
    ensures begin == FirstLineFrom(src, begin0, lines0, comment, skipEmptyRows, quote)
  {
    begin := begin0;
    var lines := lines0;
    while IsSkipped(src, begin, lines, comment, skipEmptyRows)
      invariant begin <= |src|
      invariant FirstLineFrom(src, begin, lines, comment, skipEmptyRows, quote)
             == FirstLineFrom(src, begin0, lines0, comment, skipEmptyRows, quote)
      decreases |src| - begin
    {
      begin := NextLine(src, begin, comment, skipEmptyRows, quote);
      lines := if lines > 0 then lines - 1 else lines;
    }
  }

  /** Nothing is skipped unless it was asked for. */
  lemma NothingSkipped(src: string, quote: char)
    requires src != ""
    ensures FirstLineFrom(src, SkipBom(src), 0, "", false, quote) == SkipBom(src)
  {
  }
}
