/** Writing a table and reading it back gives the table. */
module RoundTrip {
  import opened Arith
  import opened Seqs
  import opened Csv
  import opened NewlineScan
  import opened RecordLayout
  import opened OffsetOrder
  import opened FileIndex
  import opened CellAccess
  import opened DelimitedFile
  import opened Rfc4180
  import opened SkippedRows
  import opened TextIndex
  import P = Preamble
  import W = Writer

  lemma {:induction false} ProtectedIsEscaped(s: string)
    ensures W.Protected(s, "\"") == Escaped(s, '"')
    decreases |s|
  {
    if s != "" {
      ProtectedIsEscaped(s[1..]);
      assert "\"" + [s[0]] == if s[0] == '"' then ['"', '"'] else "\"" + [s[0]];
      assert "" + [s[0]] == [s[0]];
    }
  }

  lemma {:induction false} NothingToEscape(s: string)
    requires forall i :: 0 <= i < |s| ==> s[i] != '"'
    ensures Escaped(s, '"') == s
    decreases |s|
  {
    if s != "" {
      NothingToEscape(s[1..]);
      assert s == [s[0]] + s[1..];
    }
  }

  /** How the writer encodes a string. */
  ghost function FieldFor(s: string, delim: char, opts: W.WriteOptions): (f: Field)
    ensures f.text == s
  {
    if W.ShouldQuote(s, delim, opts) then Quoted(s) else Bare(s)
  }

  predicate NulFree(s: string)
  {
    forall i :: 0 <= i < |s| ==> s[i] != '\0'
  }

  /** Quotes are doubled, and put around what needs them. */
  predicate Quoting(opts: W.WriteOptions)
  {
    opts.escapeDouble && (opts.quoteNeeded || opts.quoteAll)
  }

  lemma CellIsField(s: string, delim: char, naStr: string, opts: W.WriteOptions)
    requires Quoting(opts) && NulFree(s)
    ensures W.CellText(Some(s), delim, naStr, opts) == Encode(FieldFor(s, delim, opts), Dialect(delim, '"'))
    ensures FieldOk(FieldFor(s, delim, opts), Dialect(delim, '"'))
  {
    ProtectedIsEscaped(s);
    assert IndexFrom(s, 0, '\0') == |s|;
    if !W.ShouldQuote(s, delim, opts) {
      assert forall i :: 0 <= i < |s| ==> s[i] !in {'\n', '\r', '"', delim};
      NothingToEscape(s);
      assert "" + s + "" == s;
    }
  }

  /** A table of NUL-free strings without missing values, and its column names. */
  ghost predicate IsTable(names: seq<string>, columns: W.Columns, rows: nat)
  {
    W.Rectangular(columns, rows) && |names| == |columns| >= 2 &&
    (forall c :: 0 <= c < |names| ==> NulFree(names[c])) &&
    forall c, r :: 0 <= c < |columns| && 0 <= r < rows ==> columns[c][r].Some? && NulFree(columns[c][r].value)
  }

  ghost function HeaderFields(names: seq<string>, delim: char, opts: W.WriteOptions): (r: seq<Field>)
    ensures |r| == |names|
  {
    seq(|names|, c requires 0 <= c < |names| => FieldFor(names[c], delim, opts))
  }

  ghost function RowFields(columns: W.Columns, rows: nat, row: nat, delim: char, opts: W.WriteOptions): (r: seq<Field>)
    requires W.Rectangular(columns, rows) && row < rows
    requires forall c :: 0 <= c < |columns| ==> columns[c][row].Some?
    ensures |r| == |columns|
  {
    seq(|columns|, c requires 0 <= c < |columns| => FieldFor(columns[c][row].value, delim, opts))
  }

  /** The fields the writer puts out for the header and the first n rows. */
  ghost function TableFields(
    names: seq<string>, columns: W.Columns, rows: nat, n: nat, delim: char, opts: W.WriteOptions): (r: seq<seq<Field>>)
    requires IsTable(names, columns, rows) && n <= rows
    ensures |r| == n + 1
    ensures r[0] == HeaderFields(names, delim, opts)
    ensures forall i :: 0 <= i < n ==> r[i + 1] == RowFields(columns, rows, i, delim, opts)
  {
    [HeaderFields(names, delim, opts)]
    + seq(n, i requires 0 <= i < n => RowFields(columns, rows, i, delim, opts))
  }

  /** What the writer puts out. */
  ghost function Written(names: seq<string>, columns: W.Columns, rows: nat, n: nat, delim: char, opts: W.WriteOptions): string
    requires W.Rectangular(columns, rows) && n <= rows
  {
    Join(W.NameCells(names, delim, opts, |names|), W.Separator(delim)) + "\n"
    + W.RowsText(columns, rows, 0, n, delim, "\n", "NA", opts)
  }

  lemma HeaderLine(names: seq<string>, columns: W.Columns, rows: nat, delim: char, opts: W.WriteOptions)
    requires IsTable(names, columns, rows) && Quoting(opts) && Dialect(delim, '"').Ok()
    ensures var fields := HeaderFields(names, delim, opts);
            RowOk(fields, Dialect(delim, '"')) &&
            Join(W.NameCells(names, delim, opts, |names|), W.Separator(delim)) == Line(fields, Dialect(delim, '"'))
  {
    var d, fields := Dialect(delim, '"'), HeaderFields(names, delim, opts);
    forall c | 0 <= c < |names|
      ensures W.NameCells(names, delim, opts, |names|)[c] == Encodings(fields, d)[c] && FieldOk(fields[c], d)
    {
      CellIsField(names[c], delim, "", opts);
    }
    assert W.NameCells(names, delim, opts, |names|) == Encodings(fields, d);
  }

  lemma TableLine(names: seq<string>, columns: W.Columns, rows: nat, row: nat, delim: char, opts: W.WriteOptions)
    requires IsTable(names, columns, rows) && row < rows && Quoting(opts) && Dialect(delim, '"').Ok()
    ensures var fields := RowFields(columns, rows, row, delim, opts);
            RowOk(fields, Dialect(delim, '"')) &&
            Join(W.RowCells(columns, rows, row, delim, "NA", opts, |columns|), W.Separator(delim))
            == Line(fields, Dialect(delim, '"'))
  {
    var d, fields := Dialect(delim, '"'), RowFields(columns, rows, row, delim, opts);
    forall c | 0 <= c < |columns|
      ensures W.RowCells(columns, rows, row, delim, "NA", opts, |columns|)[c] == Encodings(fields, d)[c] &&
              FieldOk(fields[c], d)
    {
      CellIsField(columns[c][row].value, delim, "NA", opts);
    }
    assert W.RowCells(columns, rows, row, delim, "NA", opts, |columns|) == Encodings(fields, d);
  }

  lemma WrittenHeader(names: seq<string>, columns: W.Columns, rows: nat, delim: char, opts: W.WriteOptions)
    requires IsTable(names, columns, rows) && Quoting(opts) && Dialect(delim, '"').Ok()
    ensures Written(names, columns, rows, 0, delim, opts)
         == Text(TableFields(names, columns, rows, 0, delim, opts), Dialect(delim, '"'))
  {
    HeaderLine(names, columns, rows, delim, opts);
    TextGrows([], HeaderFields(names, delim, opts), Dialect(delim, '"'));
    assert [] + [HeaderFields(names, delim, opts)] == TableFields(names, columns, rows, 0, delim, opts);
  }

  lemma WrittenRow(names: seq<string>, columns: W.Columns, rows: nat, n: nat, delim: char, opts: W.WriteOptions)
    requires IsTable(names, columns, rows) && 0 < n <= rows && Quoting(opts) && Dialect(delim, '"').Ok()
    ensures var row := Line(RowFields(columns, rows, n - 1, delim, opts), Dialect(delim, '"')) + "\n";
            Written(names, columns, rows, n, delim, opts) == Written(names, columns, rows, n - 1, delim, opts) + row &&
            Text(TableFields(names, columns, rows, n, delim, opts), Dialect(delim, '"'))
            == Text(TableFields(names, columns, rows, n - 1, delim, opts), Dialect(delim, '"')) + row
  {
    hide Written, TableFields, RowFields, Text, Line, Join;
    TableLine(names, columns, rows, n - 1, delim, opts);
    WrittenGrows(names, columns, rows, n, delim, opts);
    TableGrows(names, columns, rows, n, delim, opts);
    TextGrows(TableFields(names, columns, rows, n - 1, delim, opts), RowFields(columns, rows, n - 1, delim, opts),
              Dialect(delim, '"'));
  }

  /** The writer's output is text in the form of RFC 4180. */
  lemma {:induction false} WrittenIsText(
    names: seq<string>, columns: W.Columns, rows: nat, n: nat, delim: char, opts: W.WriteOptions)
    requires IsTable(names, columns, rows) && n <= rows && Quoting(opts) && Dialect(delim, '"').Ok()
    ensures Written(names, columns, rows, n, delim, opts)
         == Text(TableFields(names, columns, rows, n, delim, opts), Dialect(delim, '"'))
  {
    if n == 0 {
      WrittenHeader(names, columns, rows, delim, opts);
    } else {
      WrittenIsText(names, columns, rows, n - 1, delim, opts);
      WrittenRow(names, columns, rows, n, delim, opts);
    }
  }

  lemma TableGrows(names: seq<string>, columns: W.Columns, rows: nat, n: nat, delim: char, opts: W.WriteOptions)
    requires IsTable(names, columns, rows) && 0 < n <= rows
    ensures TableFields(names, columns, rows, n, delim, opts)
         == TableFields(names, columns, rows, n - 1, delim, opts) + [RowFields(columns, rows, n - 1, delim, opts)]
  {
    var a, b := TableFields(names, columns, rows, n, delim, opts), TableFields(names, columns, rows, n - 1, delim, opts);
    forall i | 0 <= i < n
      ensures a[i] == b[i]
    {
      if i > 0 {
        assert a[i - 1 + 1] == RowFields(columns, rows, i - 1, delim, opts) == b[i - 1 + 1];
      }
    }
    assert a[n - 1 + 1] == RowFields(columns, rows, n - 1, delim, opts);
  }

  lemma TextGrows(rows: seq<seq<Field>>, row: seq<Field>, d: Dialect)
    ensures Text(rows + [row], d) == Text(rows, d) + (Line(row, d) + "\n")
  {
    assert (rows + [row])[..|rows|] == rows;
  }

  lemma WrittenGrows(names: seq<string>, columns: W.Columns, rows: nat, n: nat, delim: char, opts: W.WriteOptions)
    requires W.Rectangular(columns, rows) && 0 < n <= rows
    ensures Written(names, columns, rows, n, delim, opts)
         == Written(names, columns, rows, n - 1, delim, opts)
            + (Join(W.RowCells(columns, rows, n - 1, delim, "NA", opts, |columns|), W.Separator(delim)) + "\n")
  {
  }

  /** The options under which written text is read back. */
  predicate ReadsBack(opts: Options, delim: char)
  {
    opts.delim == delim && opts.quote == '"' && opts.escapeDouble && !opts.trimWs && opts.hasHeader &&
    opts.comment == ""
  }

  /** The bytes of the marks a text without NUL can begin with. */
  const MARK_BYTES: set<char> := {'\U{EF}', '\U{BB}', '\U{BF}', '\U{FE}', '\U{FF}'}

  lemma MarkBytes(src: string)
    requires NulFree(src)
    ensures P.SkipBom(src) <= |src| && forall i :: 0 <= i < P.SkipBom(src) ==> src[i] in MARK_BYTES
  {
    assert |src| > 0 ==> src[0] != '\0';
    assert |src| > 2 ==> src[2] != '\0';
  }

  /** A line of several fields: the first one, a delimiter, the rest. */
  lemma {:induction false} LineHead(row: seq<Field>, d: Dialect)
    requires |row| >= 2
    ensures Line(row, d) == Encode(row[0], d) + ([d.delim] + Line(row[1..], d))
    decreases |row|
  {
    hide Encode, Line;
    var n := |row| - 1;
    var init, f := row[..n], row[n];
    assert row == init + [f] && row[1..] == init[1..] + [f] && init[0] == row[0];
    LineGrows(init, f, d);
    LineGrows(init[1..], f, d);
    LineGrows([], row[0], d);
    assert [] + [row[0]] == [row[0]];
    if n == 1 {
      assert init == [row[0]] && init[1..] == [];
    } else {
      LineHead(init, d);
    }
  }

  lemma {:induction false} NoNulInEscaped(s: string, quote: char)
    requires NulFree(s) && quote != '\0'
    ensures NulFree(Escaped(s, quote))
    decreases |s|
  {
    if s != "" {
      NoNulInEscaped(s[1..], quote);
    }
  }

  ghost predicate NulFreeRow(row: seq<Field>)
  {
    forall j :: 0 <= j < |row| ==> NulFree(row[j].text)
  }

  lemma {:induction false} NoNulInLine(row: seq<Field>, d: Dialect)
    requires NulFreeRow(row) && d.Ok() && row != []
    ensures NulFree(Line(row, d))
    decreases |row|
  {
    var n := |row| - 1;
    assert row == row[..n] + [row[n]];
    LineGrows(row[..n], row[n], d);
    assert NulFree(row[n].text);
    NoNulInEscaped(row[n].text, d.quote);
    assert NulFree(Encode(row[n], d));
    if n > 0 {
      NoNulInLine(row[..n], d);
    }
  }

  lemma {:induction false} NoNulInText(rows: seq<seq<Field>>, d: Dialect)
    requires d.Ok() && forall i :: 0 <= i < |rows| ==> rows[i] != [] && NulFreeRow(rows[i])
    ensures NulFree(Text(rows, d))
    decreases |rows|
  {
    hide NulFreeRow, Line;
    if rows != [] {
      NoNulInText(rows[..|rows| - 1], d);
      NoNulInLine(rows[|rows| - 1], d);
    }
  }

  lemma TextFront(rows: seq<seq<Field>>, d: Dialect)
    requires rows != [] && |rows[0]| >= 2
    ensures Encode(rows[0][0], d) + [d.delim] <= Text(rows, d)
  {
    hide Text, Line, Encode;
    TextHead(rows, d);
    LineHead(rows[0], d);
    Associative(Encode(rows[0][0], d), [d.delim], Line(rows[0][1..], d));
    Associative(Line(rows[0], d), "\n", Text(rows[1..], d));
  }

  /** A text that begins with a mark begins with a bare field, and the mark lies in it. */
  lemma MarkInFirstField(rows: seq<seq<Field>>, width: nat, d: Dialect, opts: Options)
    requires WellFormed(rows, width, d, opts) && NulFree(Text(rows, d)) && d.quote !in MARK_BYTES
    requires P.SkipBom(Text(rows, d)) > 0 ==> d.delim !in MARK_BYTES
    ensures var b, first := P.SkipBom(Text(rows, d)), rows[0][0];
            b > 0 ==> first.Bare? && b <= |first.text| && Text(rows, d)[..b] == first.text[..b]
  {
    var first := rows[0][0];
    assert if first.Bare? then Encode(first, d) == first.text else Encode(first, d) != "" && Encode(first, d)[0] == d.quote;
    TextFront(rows, d);
    hide Text, Line, P.SkipBom, NulFree, Encode, WellFormed;
    MarkBytes(Text(rows, d));
    MarkInFront(Text(rows, d), Encode(first, d), d.delim, P.SkipBom(Text(rows, d)));
  }

  lemma MarkInFront(src: string, first: string, delim: char, b: nat)
    requires first + [delim] <= src && b <= |src| && forall i :: 0 <= i < b ==> src[i] in MARK_BYTES
    requires b > 0 ==> delim !in MARK_BYTES
    ensures b <= |first| && src[..b] == first[..b] && (b > 0 ==> first[0] in MARK_BYTES)
  {
    assert src[|first|] == delim;
    assert forall i :: 0 <= i < |first| ==> src[i] == first[i];
  }

  /** The rows as they stand behind the mark: the first field has lost its first b bytes. */
  function WithoutMark(rows: seq<seq<Field>>, b: nat): (r: seq<seq<Field>>)
    requires rows != [] && rows[0] != []
    ensures |r| == |rows| && |r[0]| == |rows[0]|
  {
    if b == 0 || b > |rows[0][0].text| then rows else [[Bare(rows[0][0].text[b..])] + rows[0][1..]] + rows[1..]
  }

  lemma TextBehindMark(rows: seq<seq<Field>>, width: nat, d: Dialect, opts: Options, b: nat)
    requires WellFormed(rows, width, d, opts) && b <= |rows[0][0].text| && (b > 0 ==> rows[0][0].Bare?)
    ensures WellFormed(WithoutMark(rows, b), width, d, opts)
    ensures Text(rows, d) == File(if b == 0 then "" else rows[0][0].text[..b], WithoutMark(rows, b), d)
  {
    hide Text, Line, RowOk;
    if b > 0 {
      TextsBehindMark(rows, b);
      MarkedRow(rows[0], width, d, b);
      MarkedLine(rows[0], width, d, b);
      MarkedText(rows, WithoutMark(rows, b), rows[0][0].text[..b], d);
    }
  }

  lemma MarkedText(rows: seq<seq<Field>>, marked: seq<seq<Field>>, front: string, d: Dialect)
    requires rows != [] && marked != [] && marked[1..] == rows[1..] && Line(rows[0], d) == front + Line(marked[0], d)
    ensures Text(rows, d) == File(front, marked, d)
  {
    hide Text, Line;
    TextHead(rows, d);
    TextHead(marked, d);
    LongerLine(front, Line(marked[0], d), Text(rows[1..], d));
  }

  lemma LongerLine(front: string, line: string, rest: string)
    ensures front + line + "\n" + rest == front + (line + "\n" + rest)
  {
    Associative(front, line, "\n");
    Associative(front, line + "\n", rest);
  }

  lemma MarkedRow(row: seq<Field>, width: nat, d: Dialect, b: nat)
    requires RowOk(row, d) && |row| == width >= 2 && row[0].Bare? && b <= |row[0].text|
    ensures var r := [Bare(row[0].text[b..])] + row[1..]; RowOk(r, d) && |r| == width
  {
    assert FieldOk(row[0], d);
    var r := [Bare(row[0].text[b..])] + row[1..];
    forall j | 0 <= j < |r|
      ensures FieldOk(r[j], d)
    {
      assert j > 0 ==> r[j] == row[j];
    }
  }

  lemma MarkedLine(row: seq<Field>, width: nat, d: Dialect, b: nat)
    requires |row| == width >= 2 && row[0].Bare? && b <= |row[0].text|
    ensures Line(row, d) == row[0].text[..b] + Line([Bare(row[0].text[b..])] + row[1..], d)
  {
    var text := row[0].text;
    var r := [Bare(text[b..])] + row[1..];
    LineHead(row, d);
    LineHead(r, d);
    assert r[1..] == row[1..];
    assert text == text[..b] + text[b..];
    hide Line;
    Associative(text[..b], text[b..], [d.delim] + Line(row[1..], d));
  }

  /** The name of a column as it is read: a byte order mark that opens the file is lost from the first one. */
  function NameRead(names: seq<string>, mark: nat, col: nat): string
    requires col < |names| && (col == 0 ==> mark <= |names[0]|)
  {
    if col == 0 then names[0][mark..] else names[col]
  }

  /** What the reader of a written table finds at the first line. */
  ghost predicate TableRead(
    names: seq<string>, columns: W.Columns, rows: nat, opts: Options, src: string, start: nat, firstNl: nat)
  {
    TextFile(src) && start < firstNl < |src| && |names| > 0 && start <= |names[0]| && |columns| == |names| && W.Rectangular(columns, rows) &&
    Regular(src, opts, firstNl) && !HasBlankRow(src, opts, start, firstNl) &&
    Columns(src, opts, start, firstNl) == |names| && Body(src, opts, start, firstNl).errors == [] &&
    var flat := Header(src, opts, start, firstNl).Offsets() + Body(src, opts, start, firstNl).Offsets();
    InOrder(flat, 0, |src|) && |flat| == (rows + 1) * (|names| + 1) && DataRows(|flat|, |names|, true) == rows &&
    (forall col :: 0 <= col < |names| ==>
      CellOf(src, opts, flat, |names|, 0, col) == Some(NameRead(names, start, col))) &&
    forall row, col :: 0 <= row < rows && 0 <= col < |names| ==>
      CellOf(src, opts, flat, |names|, row + 1, col) == columns[col][row]
  }

  lemma TableIsReadable(
    names: seq<string>, columns: W.Columns, rows: nat, delim: char, wopts: W.WriteOptions, opts: Options)
    requires IsTable(names, columns, rows) && Quoting(wopts) && Dialect(delim, '"').Ok() && ReadsBack(opts, delim)
    ensures var fields := TableFields(names, columns, rows, rows, delim, wopts);
            WellFormed(fields, |names|, Dialect(delim, '"'), opts) && NulFree(Text(fields, Dialect(delim, '"')))
  {
    hide Line, Text, Join, FieldFor;
    var d, fields := Dialect(delim, '"'), TableFields(names, columns, rows, rows, delim, wopts);
    forall i | 0 <= i < |fields|
      ensures RowOk(fields[i], d) && |fields[i]| == |names| && NulFreeRow(fields[i])
    {
      if i == 0 {
        HeaderLine(names, columns, rows, delim, wopts);
        assert forall c :: 0 <= c < |names| ==> fields[0][c].text == names[c];
      } else {
        TableLine(names, columns, rows, i - 1, delim, wopts);
        assert fields[i] == RowFields(columns, rows, i - 1, delim, wopts);
        assert forall c :: 0 <= c < |names| ==> fields[i][c].text == columns[c][i - 1].value;
      }
    }
    NoNulInText(fields, d);
  }

  /** The cells of a text behind its mark. */
  lemma CellsBehindMark(
    front: string, fields: seq<seq<Field>>, width: nat, d: Dialect, opts: Options)
    requires Readable(fields, width, d, opts) && opts.hasHeader
    ensures var src, start, firstNl := File(front, fields, d), |front|, FirstEnd(front, fields, d);
            start < firstNl < |src| && FirstNewline(src, start, opts.quote) == firstNl &&
            Regular(src, opts, firstNl) && !HasBlankRow(src, opts, start, firstNl) &&
            Columns(src, opts, start, firstNl) == width && Body(src, opts, start, firstNl).errors == [] &&
            var flat := Header(src, opts, start, firstNl).Offsets() + Body(src, opts, start, firstNl).Offsets();
            InOrder(flat, 0, |src|) && |flat| == |fields| * (width + 1) &&
            DataRows(|flat|, width, true) == |fields| - 1 &&
            forall row, col :: 0 <= row < |fields| && 0 <= col < width ==>
              CellOf(src, opts, flat, width, row, col) == Some(fields[row][col].text)
  {
    hide File, Text, TextRecords, Header, Body, Columns, CellOf, FirstNewline, HasBlankRow, Regular, InOrder, Flatten;
    ScanOfText(front, fields, width, d, opts);
    NoBlankRow(front, fields, width, d, opts);
    BodyOfText(front, fields, width, d, opts);
    FlatIndex(front, fields, width, d, opts);
    RowCount(fields, width, |front|, d, opts);
    FlatSize(fields, width, |front|, d);
    TextReadsBack(front, fields, width, d, opts, 0, 0);
    forall row, col | 0 <= row < |fields| && 0 <= col < width
      ensures CellOf(File(front, fields, d), opts, Flatten(TextRecords(fields, |front|, d)), width, row, col)
           == Some(fields[row][col].text)
    {
      TextReadsBack(front, fields, width, d, opts, row, col);
    }
  }

  lemma FlatSize(rows: seq<seq<Field>>, width: nat, p: nat, d: Dialect)
    requires RowsOk(rows, width, d) && rows != [] && width > 0
    ensures |Flatten(TextRecords(rows, p, d))| == |rows| * (width + 1)
  {
    RecordWidths(rows, width, p, d);
    FlatTable(TextRecords(rows, p, d), width + 1, 0, 0);
  }

  /** The fields as the reader sees them, behind the mark. */
  ghost function FieldsRead(names: seq<string>, columns: W.Columns, rows: nat, delim: char, wopts: W.WriteOptions)
    : (r: seq<seq<Field>>)
    requires IsTable(names, columns, rows)
    ensures |r| == rows + 1
  {
    WithoutMark(TableFields(names, columns, rows, rows, delim, wopts),
                P.SkipBom(Written(names, columns, rows, rows, delim, wopts)))
  }

  /** What lies behind the mark of a written table: the same fields, but for the start of the first name. */
  lemma WrittenBehindMark(
    names: seq<string>, columns: W.Columns, rows: nat, delim: char, wopts: W.WriteOptions, opts: Options)
    returns (front: string, fields: seq<seq<Field>>)
    requires IsTable(names, columns, rows) && Quoting(wopts) && Dialect(delim, '"').Ok() && ReadsBack(opts, delim)
    requires P.SkipBom(Written(names, columns, rows, rows, delim, wopts)) > 0 ==> delim !in MARK_BYTES
    ensures var src := Written(names, columns, rows, rows, delim, wopts);
            NulFree(src) && |front| == P.SkipBom(src) <= |names[0]| && src == File(front, fields, Dialect(delim, '"')) &&
            WellFormed(fields, |names|, Dialect(delim, '"'), opts) && fields == FieldsRead(names, columns, rows, delim, wopts) &&
            (forall col :: 0 <= col < |names| ==> fields[0][col].text == NameRead(names, |front|, col)) &&
            forall row, col :: 0 <= row < rows && 0 <= col < |names| ==>
              Some(fields[row + 1][col].text) == columns[col][row]
  {
    hide Written, Text, P.SkipBom, WellFormed, NulFree, TableFields, WithoutMark, Encode, File;
    var d, all := Dialect(delim, '"'), TableFields(names, columns, rows, rows, delim, wopts);
    assert d.quote !in MARK_BYTES;
    FieldTexts(names, columns, rows, delim, wopts);
    WrittenIsText(names, columns, rows, rows, delim, wopts);
    TableIsReadable(names, columns, rows, delim, wopts, opts);
    MarkInFirstField(all, |names|, d, opts);
    var b := P.SkipBom(Text(all, d));
    TextBehindMark(all, |names|, d, opts, b);
    TextsBehindMark(all, b);
    front, fields := if b == 0 then "" else names[0][..b], WithoutMark(all, b);
  }

  lemma FieldTexts(names: seq<string>, columns: W.Columns, rows: nat, delim: char, opts: W.WriteOptions)
    requires IsTable(names, columns, rows)
    ensures var fields := TableFields(names, columns, rows, rows, delim, opts);
            |fields[0]| == |names| && (forall col :: 0 <= col < |names| ==> fields[0][col].text == names[col]) &&
            forall row, col :: 0 <= row < rows && 0 <= col < |names| ==>
              |fields[row + 1]| == |names| && Some(fields[row + 1][col].text) == columns[col][row]
  {
    hide FieldFor;
    forall row | 0 <= row < rows
      ensures TableFields(names, columns, rows, rows, delim, opts)[row + 1] == RowFields(columns, rows, row, delim, opts)
    {
    }
  }

  lemma TextsBehindMark(rows: seq<seq<Field>>, b: nat)
    requires rows != [] && rows[0] != [] && b <= |rows[0][0].text|
    ensures var r := WithoutMark(rows, b);
            r[0][0].text == rows[0][0].text[b..] && r[1..] == rows[1..] && r[0][1..] == rows[0][1..] &&
            (forall col :: 1 <= col < |rows[0]| ==> r[0][col] == rows[0][col]) &&
            forall row :: 1 <= row < |rows| ==> r[row] == rows[row]
  {
  }

  /** The reader starts at a header line that does not consist of blanks. */
  lemma StartsAtHeader(src: string, start: nat, row: seq<Field>, d: Dialect, skipEmptyRows: bool)
    requires RowOk(row, d) && d.Ok() && d.quote !in {' ', '\t'} && Stands(src, start, row, d)
    requires skipEmptyRows ==> !BlankRow(row, d)
    ensures P.FirstLineFrom(src, start, 0, "", skipEmptyRows, d.quote) == start
  {
    var line := Line(row, d);
    LineStands(src, start, row, d);
    var n := P.SkipSpaces(src, start) - start;
    assert forall i :: 0 <= i < |line| ==> src[start + i] == line[i];
    hide Line, BlankRow;
    if skipEmptyRows {
      LineIsBlank(line, row, d, n);
      LineIsBlank(line, row, d, 0);
    }
  }

  /** Blanks, and then a line end: the whole line is blank. */
  lemma LineIsBlank(line: string, row: seq<Field>, d: Dialect, n: nat)
    requires RowOk(row, d) && d.Ok() && d.quote !in {' ', '\t'} && line == Line(row, d)
    requires forall i :: 0 <= i < n && i < |line| ==> line[i] in {' ', '\t'}
    ensures n >= |line| || line[n] in {'\n', '\r'} ==> BlankRow(row, d)
  {
    if n < |line| && line[n] in {'\n', '\r'} {
      QuoteBeforeLineEnd(row, d, n);
    }
  }

  /**
   Write, then read: every name and every cell comes back, whatever delimiters, quotes and line ends
   it holds, except that the reader takes a byte order mark at the start of the first name for that
   of the file. Where empty rows are skipped, no line may consist of blanks.
   */
  lemma WriteThenRead(
    names: seq<string>, columns: W.Columns, rows: nat, delim: char, wopts: W.WriteOptions, opts: Options)
    requires IsTable(names, columns, rows) && Quoting(wopts) && Dialect(delim, '"').Ok() && ReadsBack(opts, delim)
    requires P.SkipBom(Written(names, columns, rows, rows, delim, wopts)) > 0 ==> delim !in MARK_BYTES
    requires Shown(FieldsRead(names, columns, rows, delim, wopts), Dialect(delim, '"'), opts)
    ensures var src := Written(names, columns, rows, rows, delim, wopts);
            src != "" && P.SkipBom(src) <= |src| &&
            var start := P.FirstLineFrom(src, P.SkipBom(src), 0, opts.comment, opts.skipEmptyRows, opts.quote);
            start == P.SkipBom(src) && TableRead(names, columns, rows, opts, src, start, FirstNewline(src, start, opts.quote))
  {
    var d := Dialect(delim, '"');
    var front, fields := WrittenBehindMark(names, columns, rows, delim, wopts, opts);
    assert opts.skipEmptyRows ==> !BlankRow(fields[0], d);
    assert WellFormed(fields, |names|, d, opts) && RowOk(fields[0], d);
    hide Written, FirstNewline, TableRead, P.SkipBom, NameRead, NulFree, IsTable, Text, FieldsRead, Line, BlankRow, RowOk;
    FirstLine(front, fields, d);
    StartsAtHeader(File(front, fields, d), |front|, fields[0], d, opts.skipEmptyRows);
    hide File;
    BehindMarkRead(names, columns, rows, front, fields, d, opts);
  }

  /** A delimiter that is no blank keeps every line from consisting of blanks. */
  lemma NoLineIsBlank(rows: seq<seq<Field>>, width: nat, d: Dialect, opts: Options)
    requires WellFormed(rows, width, d, opts) && d.delim !in {' ', '\t'}
    ensures Shown(rows, d, opts)
  {
    forall i | 0 <= i < |rows|
      ensures !BlankRow(rows[i], d)
    {
      LineHead(rows[i], d);
      var n := |Encode(rows[i][0], d)|;
      assert Line(rows[i], d)[n] == d.delim;
    }
  }

  /** All rows are reported for the file that is read from start on. */
  ghost predicate AllReported(src: string, opts: Options, start: nat, width: nat, rows: nat)
  {
    src != "" &&
    var firstNl := FirstNewline(src, start, opts.quote);
    firstNl < |src| &&
    rows == DataRows(|Header(src, opts, start, firstNl).Offsets()| + |Body(src, opts, start, firstNl).Offsets()|, width, true)
  }

  /**
   Where the header line does not consist of blanks, all rows are reported, if and only if none of
   them is written as a line of blanks that the reader skips.
   */
  lemma BlankRowsAreLost(
    names: seq<string>, columns: W.Columns, rows: nat, delim: char, wopts: W.WriteOptions, opts: Options)
    requires IsTable(names, columns, rows) && Quoting(wopts) && Dialect(delim, '"').Ok() && ReadsBack(opts, delim)
    requires P.SkipBom(Written(names, columns, rows, rows, delim, wopts)) > 0 ==> delim !in MARK_BYTES
    requires Shown(FieldsRead(names, columns, rows, delim, wopts)[..1], Dialect(delim, '"'), opts)
    ensures var src := Written(names, columns, rows, rows, delim, wopts);
            AllReported(src, opts, P.SkipBom(src), |names|, rows)
            <==> Shown(FieldsRead(names, columns, rows, delim, wopts)[1..], Dialect(delim, '"'), opts)
  {
    hide Written, AllReported, P.SkipBom, NameRead, NulFree, IsTable, FieldsRead, File, Shown, WellFormed;
    var front, fields := WrittenBehindMark(names, columns, rows, delim, wopts, opts);
    RowsOfFile(front, fields, |names|, Dialect(delim, '"'), opts);
  }

  lemma RowsOfFile(front: string, fields: seq<seq<Field>>, width: nat, d: Dialect, opts: Options)
    requires WellFormed(fields, width, d, opts) && Shown(fields[..1], d, opts)
    ensures AllReported(File(front, fields, d), opts, |front|, width, |fields| - 1) <==> Shown(fields[1..], d, opts)
  {
    hide FirstNewline, Text, File, Header, Body, BlankRow, Shown, Line, DataRows;
    ScanOfText(front, fields, width, d, opts);
    RowsReported(front, fields, width, d, opts);
  }

  lemma BehindMarkRead(
    names: seq<string>, columns: W.Columns, rows: nat, front: string, fields: seq<seq<Field>>, d: Dialect, opts: Options)
    requires W.Rectangular(columns, rows) && |names| == |columns| >= 2 && |front| <= |names[0]|
    requires Readable(fields, |names|, d, opts) && |fields| == rows + 1 && NulFree(File(front, fields, d)) && opts.hasHeader
    requires forall col :: 0 <= col < |names| ==> fields[0][col].text == NameRead(names, |front|, col)
    requires forall row, col :: 0 <= row < rows && 0 <= col < |names| ==> Some(fields[row + 1][col].text) == columns[col][row]
    ensures File(front, fields, d) != ""
    ensures var src := File(front, fields, d);
            TableRead(names, columns, rows, opts, src, |front|, FirstNewline(src, |front|, opts.quote))
  {
    hide File, FirstNewline, HasBlankRow, Header, Body, Columns, CellOf, InOrder, NameRead, W.Rectangular;
    CellsBehindMark(front, fields, |names|, d, opts);
  }

  /** All names come back if and only if the text does not begin with a byte order mark. */
  lemma NamesComeBackIff(
    names: seq<string>, columns: W.Columns, rows: nat, delim: char, wopts: W.WriteOptions, opts: Options)
    requires IsTable(names, columns, rows) && Quoting(wopts) && Dialect(delim, '"').Ok() && ReadsBack(opts, delim)
    requires P.SkipBom(Written(names, columns, rows, rows, delim, wopts)) > 0 ==> delim !in MARK_BYTES
    requires Shown(FieldsRead(names, columns, rows, delim, wopts), Dialect(delim, '"'), opts)
    ensures var src := Written(names, columns, rows, rows, delim, wopts);
            var start := P.SkipBom(src);
            src != "" &&
            var firstNl := FirstNewline(src, start, opts.quote);
            TableRead(names, columns, rows, opts, src, start, firstNl) &&
            var flat := Header(src, opts, start, firstNl).Offsets() + Body(src, opts, start, firstNl).Offsets();
            (forall col :: 0 <= col < |names| ==> CellOf(src, opts, flat, |names|, 0, col) == Some(names[col]))
            <==> start == 0
  {
    hide Written, Header, Body, CellOf, FirstNewline, P.SkipBom;
    WriteThenRead(names, columns, rows, delim, wopts, opts);
    var src := Written(names, columns, rows, rows, delim, wopts);
    if P.SkipBom(src) > 0 {
      assert |NameRead(names, P.SkipBom(src), 0)| < |names[0]|;
    }
  }

  /** The same, from call to call: what the writer's methods put out, the reader's object gives back. */
  method WriteThenReadCell(
    names: seq<string>, columns: W.Columns, rows: nat, delim: char, wopts: W.WriteOptions, opts: Options,
    numThreads: nat, row: nat, col: nat)
    returns (text: string, name: Option<string>, cell: Option<string>)
    requires IsTable(names, columns, rows) && Quoting(wopts) && Dialect(delim, '"').Ok() && ReadsBack(opts, delim)
    requires row < rows && col < |names| && numThreads > 0 && Fits(rows, |names|)
    requires Shown(FieldsRead(names, columns, rows, delim, wopts), Dialect(delim, '"'), opts)
    ensures text == Written(names, columns, rows, rows, delim, wopts) && text != ""
    ensures (P.SkipBom(text) > 0 ==> delim !in MARK_BYTES) && !IsMisread(text, opts, numThreads) ==>
              P.SkipBom(text) <= |names[0]| && name == Some(NameRead(names, P.SkipBom(text), col)) &&
              cell == columns[col][row]
  {
    var header := W.GetHeader(names, delim, "\n", wopts);
    var body := W.FillBuf(columns, rows, delim, "\n", "NA", wopts, 0, rows);
    text := header + body;
    name, cell := ReadCell(text, names, columns, rows, delim, wopts, opts, numThreads, row, col);
  }

  /** Is the text cut behind a lone CR inside quotes? */
  predicate IsMisread(text: string, opts: Options, numThreads: nat)
    requires text != "" && numThreads > 0
  {
    var start := P.SkipBom(text);
    var firstNl := FirstNewline(text, start, opts.quote);
    firstNl < |text| && CutsAtCr(text, opts, start, firstNl, Threads(text, opts, firstNl, numThreads))
  }

  /** Text without lone CRs is not misread, with any number of threads. */
  lemma PlainTextIsRead(text: string, opts: Options, numThreads: nat)
    requires PlainText(text) && numThreads > 0
    ensures !IsMisread(text, opts, numThreads)
  {
    hide CutsAtCr, P.SkipBom, FirstNewline;
    var start := P.SkipBom(text);
    var firstNl := FirstNewline(text, start, opts.quote);
    if firstNl < |text| {
      PlainTextCuts(text, opts, start, firstNl, Threads(text, opts, firstNl, numThreads));
    }
  }

  /** A table whose offsets can be counted by the size type. */
  predicate Fits(rows: nat, width: nat)
  {
    (rows + 1) * (width + 1) < SIZE_MAX
  }

  lemma CellsReachable(row: nat, col: nat, width: nat, rows: nat)
    requires col < width && row <= rows && Fits(rows, width)
    ensures Reachable(row, col, width)
  {
    DivRest(row, col, width);
    MulMonotone(row, rows, width + 1);
    MulSum(rows, 1, width + 1);
  }

  /** What the index of a written table holds. */
  lemma IndexOfTable(
    names: seq<string>, columns: W.Columns, rows: nat, opts: Options, src: string, start: nat, firstNl: nat,
    threads: nat, idx: seq<seq<nat>>, errors: seq<ParseError>)
    requires TableRead(names, columns, rows, opts, src, start, firstNl) && threads > 0
    requires !CutsAtCr(src, opts, start, firstNl, threads) && IsIndex(src, opts, start, firstNl, threads, idx, errors)
    ensures !Ragged(src, opts, start, firstNl, threads) && errors == [] && Columns(src, opts, start, firstNl) == |names|
    ensures (Fits(rows, |names|) ==> |Flatten(idx)| < SIZE_MAX) && InOrder(Flatten(idx), 0, |src|)
    ensures forall col :: 0 <= col < |names| ==>
              CellOf(src, opts, Flatten(idx), |names|, 0, col) == Some(NameRead(names, start, col))
    ensures forall row, col :: 0 <= row < rows && 0 <= col < |names| ==>
              CellOf(src, opts, Flatten(idx), |names|, row + 1, col) == columns[col][row]
  {
    hide Header, Body, HasBlankRow, CutsAtCr, FallsShort, Ragged, CellOf, InOrder, Flatten, Aligned, IsChunked, Regular;
    WithoutBlankRows(src, opts, start, firstNl, threads);
  }

  /** The reader's object, made from the text and asked for a name and a cell. */
  method ReadCell(
    text: string, ghost names: seq<string>, ghost columns: W.Columns, ghost rows: nat, delim: char,
    ghost wopts: W.WriteOptions, opts: Options, numThreads: nat, row: nat, col: nat)
    returns (name: Option<string>, cell: Option<string>)
    requires IsTable(names, columns, rows) && Quoting(wopts) && Dialect(delim, '"').Ok() && ReadsBack(opts, delim)
    requires text == Written(names, columns, rows, rows, delim, wopts) && text != ""
    requires Shown(FieldsRead(names, columns, rows, delim, wopts), Dialect(delim, '"'), opts)
    requires row < rows && col < |names| && numThreads > 0 && Fits(rows, |names|)
    ensures (P.SkipBom(text) > 0 ==> delim !in MARK_BYTES) && !IsMisread(text, opts, numThreads) ==>
              P.SkipBom(text) <= |names[0]| && name == Some(NameRead(names, P.SkipBom(text), col)) &&
              cell == columns[col][row]
  {
    hide Shown, FieldsRead, TableRead, Written, P.SkipBom, P.FirstLineFrom, FirstNewline, CutsAtCr, Threads, Fits, IsTable, Quoting, NameRead;
    name, cell := None, None;
    if (P.SkipBom(text) > 0 && delim in MARK_BYTES) || IsMisread(text, opts, numThreads) {
      return;
    }
    ghost var start := P.SkipBom(text);
    ghost var firstNl := FirstNewline(text, start, opts.quote);
    WriteThenRead(names, columns, rows, delim, wopts, opts);
    RegularTable(names, columns, rows, opts, text, start, firstNl);
    name, cell := ReadTable(text, names, columns, rows, opts, numThreads, row, col, start, firstNl);
  }

  lemma RegularTable(
    names: seq<string>, columns: W.Columns, rows: nat, opts: Options, src: string, start: nat, firstNl: nat)
    requires TableRead(names, columns, rows, opts, src, start, firstNl)
    ensures TextFile(src) && EndsInNewline(src) && start < firstNl < |src| && Regular(src, opts, firstNl)
    ensures |names| > 0 && start <= |names[0]| && |columns| == |names| && W.Rectangular(columns, rows)
  {
    hide CellOf, Header, Body, Columns, InOrder;
  }

  method ReadTable(
    text: string, ghost names: seq<string>, ghost columns: W.Columns, ghost rows: nat, opts: Options,
    numThreads: nat, row: nat, col: nat, ghost start: nat, ghost firstNl: nat)
    returns (name: Option<string>, cell: Option<string>)
    requires text != "" && numThreads > 0 && opts.hasHeader
    requires start == P.FirstLineFrom(text, P.SkipBom(text), 0, opts.comment, opts.skipEmptyRows, opts.quote)
    requires firstNl == FirstNewline(text, start, opts.quote) && start < firstNl
    requires TableRead(names, columns, rows, opts, text, start, firstNl)
    requires !CutsAtCr(text, opts, start, firstNl, Threads(text, opts, firstNl, numThreads))
    requires row < rows && col < |names| && Fits(rows, |names|)
    ensures name == Some(NameRead(names, start, col)) && cell == columns[col][row]
  {
    hide TableRead, IsIndex, FirstNewline, P.FirstLineFrom, P.SkipBom, CutsAtCr, Ragged, Flatten, InOrder, CellOf, FlatPosition,
         Regular, Threads, Columns, TextFile, Fits, Reachable, NameRead;
    CellsReachable(0, col, |names|, rows);
    CellsReachable(row + 1, col, |names|, rows);
    RegularTable(names, columns, rows, opts, text, start, firstNl);
    var index := new DelimitedIndex(text, opts, 0, numThreads);
    IndexOfTable(names, columns, rows, opts, text, start, firstNl, Threads(text, opts, firstNl, numThreads),
                 index.idx, index.errors);
    name := index.GetName(col);
    cell := index.Get(row, col);
  }
}
