/**
 Writing a table of strings: quoting, escaping and the layout of rows. Rows written with
 doubled quotes are text in the form of section 2 of RFC 4180.
 */
module Writer {
  import opened Seqs

  /** The option bits of the writer. */
  datatype WriteOptions = WriteOptions(quoteNeeded: bool, quoteAll: bool, escapeDouble: bool, escapeBackslash: bool)
  {
    /** What is put before a quote. */
    function Escape(): string
    {
      if escapeDouble then "\"" else if escapeBackslash then "\\" else ""
    }
  }

  /** Does the string, up to its NUL, hold a byte that calls for quotes? */
  ghost predicate Special(s: string, delim: char)
  {
    exists i :: 0 <= i < IndexFrom(s, 0, '\0') && s[i] in {'\n', '\r', '"', delim}
  }

  method NeedsQuote(s: string, delim: char) returns (r: bool)
    ensures r <==> Special(s, delim)
  {
    var cur := 0;
    while cur < |s| && s[cur] != '\0'
      invariant 0 <= cur <= IndexFrom(s, 0, '\0')
      invariant forall i :: 0 <= i < cur ==> s[i] !in {'\n', '\r', '"', delim}
    {
      if s[cur] == '\n' || s[cur] == '\r' || s[cur] == '"' || s[cur] == delim {
        return true;
      }
      cur := cur + 1;
    }
    return false;
  }

  /** The string with `escape` before each quote. */
  function Protected(s: string, escape: string): string
  {
    if s == "" then "" else (if s[0] == '"' then escape else "") + [s[0]] + Protected(s[1..], escape)
  }

  ghost predicate ShouldQuote(s: string, delim: char, opts: WriteOptions)
  {
    opts.quoteAll || (opts.quoteNeeded && Special(s, delim))
  }

  /** The text of one cell; a missing string is written as naStr. */
  ghost function CellText(str: Option<string>, delim: char, naStr: string, opts: WriteOptions): string
  {
    match str
    case None => naStr
    case Some(s) =>
      var q := if ShouldQuote(s, delim, opts) then "\"" else "";
      q + Protected(s, opts.Escape()) + q
  }

  lemma NothingProtected(s: string, escape: string)
    ensures s[0..] == s && Protected(s[|s|..], escape) == ""
  {
  }

  /** The next byte, and what is put before it. */
  lemma ProtectedNext(buf: string, s: string, i: nat, escape: string)
    requires i < |s|
    ensures var before := if s[i] == '"' then escape else "";
            buf + Protected(s[i..], escape) == buf + before + [s[i]] + Protected(s[i + 1..], escape)
  {
    assert s[i..][1..] == s[i + 1..];
  }

  lemma Around(buf: string, q: string, text: string)
    ensures buf + q + text + q == buf + (q + text + q)
  {
  }

  /** What is written for a quote within a cell: two of them, one behind a backslash, or the quote alone. */
  function WrittenQuote(opts: WriteOptions): string
  {
    if opts.escapeDouble then "\"\"" else if opts.escapeBackslash then "\\\"" else "\""
  }

  /** What is written for the bytes of a cell, one by one. */
  ghost function Pieces(s: string, quote: string): (r: seq<string>)
    ensures |r| == |s|
  {
    seq(|s|, i requires 0 <= i < |s| => if s[i] == '"' then quote else [s[i]])
  }

  /** The escapes, byte by byte. */
  lemma {:induction false} ProtectedBytes(s: string, escape: string)
    ensures Protected(s, escape) == Flatten(Pieces(s, escape + "\""))
  {
    var quote := escape + "\"";
    if s != "" {
      var first := if s[0] == '"' then quote else [s[0]];
      ProtectedBytes(s[1..], escape);
      assert Pieces(s, quote) == [first] + Pieces(s[1..], quote);
      FlattenHead(first, Pieces(s[1..], quote));
    }
  }

  /** Quotes go around a string when all are to be quoted, or when it needs them; each of its own quotes is escaped. */
  lemma WrittenBytes(s: string, delim: char, naStr: string, opts: WriteOptions)
    ensures CellText(None, delim, naStr, opts) == naStr
    ensures var q := if opts.quoteAll || (opts.quoteNeeded && Special(s, delim)) then "\"" else "";
            CellText(Some(s), delim, naStr, opts) == q + Flatten(Pieces(s, WrittenQuote(opts))) + q
  {
    ProtectedBytes(s, opts.Escape());
    assert opts.Escape() + "\"" == WrittenQuote(opts);
  }

  method StrToBuf(str: Option<string>, buf0: string, delim: char, naStr: string, opts: WriteOptions)
    returns (buf: string)
    ensures buf == buf0 + CellText(str, delim, naStr, opts)
    ensures str.None? ==> buf == buf0 + naStr
    ensures str.Some? ==>
              var q := if opts.quoteAll || (opts.quoteNeeded && Special(str.value, delim)) then "\"" else "";
              buf == buf0 + (q + Flatten(Pieces(str.value, WrittenQuote(opts))) + q)
  {
    hide Special, Protected, Flatten;
    WrittenBytes(if str.Some? then str.value else "", delim, naStr, opts);
    buf := buf0;
    if str.None? {
      buf := buf + naStr;
      return;
    }
    var s := str.value;
    var shouldQuote := opts.quoteAll;
    if !shouldQuote && opts.quoteNeeded {
      shouldQuote := NeedsQuote(s, delim);
    }
    ghost var q := if shouldQuote then "\"" else "";
    if shouldQuote {
      buf := buf + ['"'];
    }
    NothingProtected(s, opts.Escape());
    var i := 0;
    while i < |s|
      invariant 0 <= i <= |s|
      invariant buf + Protected(s[i..], opts.Escape()) == buf0 + q + Protected(s, opts.Escape())
    {
      ProtectedNext(buf, s, i, opts.Escape());
      if (opts.escapeDouble || opts.escapeBackslash) && s[i] == '"' {
        buf := buf + [if opts.escapeDouble then '"' else '\\'];
      }
      buf := buf + [s[i]];
      i := i + 1;
    }
    if shouldQuote {
      buf := buf + ['"'];
    }
    Around(buf0, q, Protected(s, opts.Escape()));
  }

  /** A table by columns. */
  type Columns = seq<seq<Option<string>>>

  predicate Rectangular(columns: Columns, rows: nat)
  {
    columns != [] && forall c :: 0 <= c < |columns| ==> |columns[c]| == rows
  }

  /** The written cells of one row. */
  ghost function RowCells(columns: Columns, rows: nat, row: nat, delim: char, naStr: string, opts: WriteOptions, n: nat)
    : (r: seq<string>)
    requires Rectangular(columns, rows) && row < rows && n <= |columns|
    ensures |r| == n
  {
    seq(n, c requires 0 <= c < n => CellText(columns[c][row], delim, naStr, opts))
  }

  function Separator(delim: char): string
  {
    if delim == '\0' then "" else [delim]
  }

  /** Rows lo to hi, each closed by eol. */
  ghost function RowsText(
    columns: Columns, rows: nat, lo: nat, hi: nat, delim: char, eol: string, naStr: string, opts: WriteOptions): string
    requires Rectangular(columns, rows) && lo <= hi <= rows
  {
    if lo == hi then ""
    else RowsText(columns, rows, lo, hi - 1, delim, eol, naStr, opts)
         + Join(RowCells(columns, rows, hi - 1, delim, naStr, opts, |columns|), Separator(delim)) + eol
  }

  lemma JoinPush(parts: seq<string>, part: string, sep: string)
    ensures Join(parts + [part], sep) == if parts == [] then part else Join(parts, sep) + sep + part
  {
    assert (parts + [part])[..|parts|] == parts;
  }

  /** One part more: the text so far, a separator where one is needed, the part, and what follows it. */
  lemma JoinGrows(head: string, parts: seq<string>, part: string, sep: string, tail: string)
    ensures head + Join(parts, sep) + (if parts == [] then "" else sep) + part + tail
         == head + Join(parts + [part], sep) + tail
  {
    JoinPush(parts, part, sep);
    assert Join([], sep) == "";
    Associative(head, Join(parts, sep), sep);
    Associative(head, Join(parts, sep) + sep, part);
    hide Join;
    assert parts == [] ==> head + "" == head;
  }

  lemma OneMoreCell(columns: Columns, rows: nat, row: nat, delim: char, naStr: string, opts: WriteOptions, col: nat)
    requires Rectangular(columns, rows) && row < rows && col < |columns|
    ensures RowCells(columns, rows, row, delim, naStr, opts, col + 1)
         == RowCells(columns, rows, row, delim, naStr, opts, col) + [CellText(columns[col][row], delim, naStr, opts)]
  {
  }

  /** One row, without its line end. */
  method FillRow(
    columns: Columns, rows: nat, row: nat, buf0: string, delim: char, naStr: string, opts: WriteOptions)
    returns (buf: string)
    requires Rectangular(columns, rows) && row < rows
    ensures buf == buf0 + Join(RowCells(columns, rows, row, delim, naStr, opts, |columns|), Separator(delim))
  {
    assert Join([], Separator(delim)) == "" && RowCells(columns, rows, row, delim, naStr, opts, 0) == [];
    hide Join, CellText, RowCells;
    buf := buf0;
    var sep := Separator(delim);
    var col := 0;
    while col < |columns|
      invariant 0 <= col <= |columns|
      invariant buf == buf0 + Join(RowCells(columns, rows, row, delim, naStr, opts, col), sep)
                       + (if col > 0 then sep else "")
    {
      ghost var cells := RowCells(columns, rows, row, delim, naStr, opts, col);
      ghost var cell := CellText(columns[col][row], delim, naStr, opts);
      JoinGrows(buf0, cells, cell, sep, sep);
      OneMoreCell(columns, rows, row, delim, naStr, opts, col);
      buf := StrToBuf(columns[col][row], buf, delim, naStr, opts);
      if delim != '\0' {
        buf := buf + [delim];
      }
      col := col + 1;
    }
    if delim != '\0' {
      buf := buf[..|buf| - 1];
    }
  }

  method FillBuf(
    columns: Columns, rows: nat, delim: char, eol: string, naStr: string, opts: WriteOptions, begin: nat, end: nat)
    returns (buf: string)
    requires Rectangular(columns, rows) && begin <= end <= rows
    ensures buf == RowsText(columns, rows, begin, end, delim, eol, naStr, opts)
  {
    buf := "";
    var row := begin;
    while row < end
      invariant begin <= row <= end
      invariant buf == RowsText(columns, rows, begin, row, delim, eol, naStr, opts)
    {
      buf := FillRow(columns, rows, row, buf, delim, naStr, opts);
      buf := buf + eol;
      row := row + 1;
    }
  }

  ghost function NameCells(names: seq<string>, delim: char, opts: WriteOptions, n: nat): (r: seq<string>)
    requires n <= |names|
    ensures |r| == n
  {
    seq(n, c requires 0 <= c < n => CellText(Some(names[c]), delim, "", opts))
  }

  method GetHeader(names: seq<string>, delim: char, eol: string, opts: WriteOptions) returns (out: string)
    ensures var line := Join(NameCells(names, delim, opts, |names|), Separator(delim));
            out == if names == [] || (delim == '\0' && line == "") then "" else line + eol
  {
    assert Join([], Separator(delim)) == "";
    hide Join, CellText;
    out := "";
    var sep := Separator(delim);
    var i := 0;
    while i < |names|
      invariant 0 <= i <= |names|
      invariant out == "" + Join(NameCells(names, delim, opts, i), sep) + (if i > 0 then sep else "")
    {
      ghost var cells := NameCells(names, delim, opts, i);
      ghost var cell := CellText(Some(names[i]), delim, "", opts);
      JoinGrows("", cells, cell, sep, sep);
      assert NameCells(names, delim, opts, i + 1) == cells + [cell];
      out := StrToBuf(Some(names[i]), out, delim, "", opts);
      if delim != '\0' {
        out := out + [delim];
      }
      i := i + 1;
    }
    if out != "" {
      if delim != '\0' {
        out := out[..|out| - 1];
      }
      out := out + eol;
    }
  }
}
