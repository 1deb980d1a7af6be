/**
 Text in the form of section 2 of RFC 4180: rows of plain or quoted fields, quotes doubled
 inside quotes. The automaton parses it into exactly the offsets of its fields, and reading
 a field back undoes its encoding.
 */
module Rfc4180 {
  import opened Seqs
  import opened Csv
  import opened Bytewise
  import opened NewlineScan
  import opened QuoteScan
  import opened RecordLayout
  import opened FileIndex
  import opened CellAccess

  datatype Field = Bare(text: string) | Quoted(text: string)

  datatype Dialect = Dialect(delim: char, quote: char)
  {
    predicate Ok()
    {
      delim != quote && delim !in {'\n', '\r', '\0'} && quote !in {'\n', '\r', '\0'}
    }
  }

  /** The text with every quote doubled. */
  function Escaped(s: string, quote: char): (r: string)
    ensures s == "" <==> r == ""
  {
    if s == "" then "" else (if s[0] == quote then [quote, quote] else [s[0]]) + Escaped(s[1..], quote)
  }

  function Encode(f: Field, d: Dialect): string
  {
    match f
    case Bare(text) => text
    case Quoted(text) => [d.quote] + Escaped(text, d.quote) + [d.quote]
  }

  /** A bare field holds no byte that would need quotes. */
  predicate FieldOk(f: Field, d: Dialect)
  {
    f.Bare? ==> forall i :: 0 <= i < |f.text| ==> f.text[i] !in {d.delim, d.quote, '\n', '\r'}
  }

  predicate RowOk(row: seq<Field>, d: Dialect)
  {
    row != [] && forall j :: 0 <= j < |row| ==> FieldOk(row[j], d)
  }

  function Encodings(row: seq<Field>, d: Dialect): (r: seq<string>)
    ensures |r| == |row|
  {
    seq(|row|, j requires 0 <= j < |row| => Encode(row[j], d))
  }

  /** A row without its line end. */
  function Line(row: seq<Field>, d: Dialect): string
  {
    Join(Encodings(row, d), [d.delim])
  }

  function Text(rows: seq<seq<Field>>, d: Dialect): string
  {
    if rows == [] then "" else Text(rows[..|rows| - 1], d) + Line(rows[|rows| - 1], d) + "\n"
  }

  lemma LineGrows(row: seq<Field>, f: Field, d: Dialect)
    ensures row != [] ==> Line(row + [f], d) == Line(row, d) + [d.delim] + Encode(f, d)
    ensures row == [] ==> Line(row + [f], d) == Encode(f, d)
  {
    assert Encodings(row + [f], d)[..|row|] == Encodings(row, d);
  }

  /** The offsets a row at p should yield: its start, each delimiter, its end. */
  function RowOffsets(row: seq<Field>, p: nat, d: Dialect): (r: seq<nat>)
    ensures |r| == |row| + 1 && r[0] == p
  {
    if row == [] then [p] else RowOffsets(row[..|row| - 1], p, d) + [p + |Line(row, d)|]
  }

  predicate Matches(cfg: Config, d: Dialect)
  {
    cfg.delim == d.delim && cfg.quote == d.quote && cfg.newline == '\n' && d.Ok() && Plain(cfg) && cfg.singleThread
  }

  /** Between the quotes of a field nothing is recorded. */
  lemma {:induction false} FoldInsideQuotes(cfg: Config, d: Dialect, acc: Acc, s: string, p: nat, inner: bool)
    requires Matches(cfg, d) && acc.Ok() && acc.state == QuotedField
    ensures Fold(cfg, acc, Escaped(s, d.quote), p, inner) == Done(acc)
    decreases |s|
  {
    if s != "" {
      var head := if s[0] == d.quote then [d.quote, d.quote] else [s[0]];
      FoldAppend(cfg, acc, head, Escaped(s[1..], d.quote), p, inner);
      if s[0] == d.quote {
        assert head[1..] == [d.quote] && head[1..][1..] == "";
        var closed := acc.(state := QuotedEnd);
        assert Fold(cfg, closed, head[1..], p + 1, true) == Done(acc);
      } else {
        assert head[1..] == "";
      }
      FoldInsideQuotes(cfg, d, acc, s[1..], p + |head|, true);
    }
  }

  /** The offsets of the record being read, including the one its first byte will push. */
  function Begun(acc: Acc, p: nat): seq<nat>
  {
    if acc.state == RecordStart then [p] else acc.open
  }

  lemma {:induction false} FoldBare(cfg: Config, d: Dialect, acc: Acc, s: string, p: nat, inner: bool)
    requires Matches(cfg, d) && acc.Ok() && acc.state in {RecordStart, FieldStart, UnquotedField} && FieldOk(Bare(s), d)
    ensures Fold(cfg, acc, s, p, inner)
         == Done(if s == "" then acc else acc.(open := Begun(acc, p), state := UnquotedField))
    decreases |s|
  {
    if s != "" {
      var a := acc.(open := Begun(acc, p), state := UnquotedField);
      assert Step(cfg, acc, p, s[0], inner) == Done(a);
      assert FieldOk(Bare(s[1..]), d);
      FoldBare(cfg, d, a, s[1..], p + 1, true);
    }
  }

  /** A field changes nothing but the state, and begins the record where it is the first. */
  lemma FoldField(cfg: Config, d: Dialect, acc: Acc, f: Field, p: nat, inner: bool)
    requires Matches(cfg, d) && acc.Ok() && acc.state in {RecordStart, FieldStart} && FieldOk(f, d)
    ensures Fold(cfg, acc, Encode(f, d), p, inner)
         == Done(if Encode(f, d) == "" then acc
                 else acc.(open := Begun(acc, p), state := if f.Bare? then UnquotedField else QuotedEnd))
  {
    match f
    case Bare(text) => FoldBare(cfg, d, acc, text, p, inner);
    case Quoted(text) =>
      var q := [d.quote];
      var inside := acc.(open := Begun(acc, p), state := QuotedField);
      assert Fold(cfg, acc, q, p, inner) == Done(inside) by {
        assert q[1..] == "";
      }
      FoldInsideQuotes(cfg, d, inside, text, p + 1, true);
      assert q + Escaped(text, d.quote) + q == q + (Escaped(text, d.quote) + q);
      FoldAppend(cfg, acc, q, Escaped(text, d.quote) + q, p, inner);
      FoldAppend(cfg, inside, Escaped(text, d.quote), q, p + 1, true);
      assert q[1..] == "";
  }

  /** A row up to its line end records exactly its delimiters. */
  lemma {:induction false} FoldLine(cfg: Config, d: Dialect, acc: Acc, row: seq<Field>, p: nat, inner: bool)
    requires Matches(cfg, d) && acc.Ok() && acc.state == RecordStart && RowOk(row, d)
    ensures var r := Fold(cfg, acc, Line(row, d), p, inner);
            r.Done? && r.acc.state != QuotedField && r.acc.records == acc.records && r.acc.errors == acc.errors &&
            (r.acc.state == RecordStart ==> Line(row, d) == "") &&
            Begun(r.acc, p) == RowOffsets(row[..|row| - 1], p, d)
    decreases |row|
  {
    hide Fold, Step, Encode;
    var n := |row| - 1;
    var init, f := row[..n], row[n];
    assert row == init + [f];
    LineGrows(init, f, d);
    if n == 0 {
      FoldField(cfg, d, acc, f, p, inner);
    } else {
      FoldLine(cfg, d, acc, init, p, inner);
      var a := Fold(cfg, acc, Line(init, d), p, inner).acc;
      FoldAppend(cfg, acc, Line(init, d), [d.delim] + Encode(f, d), p, inner);
      assert Line(row, d) == Line(init, d) + ([d.delim] + Encode(f, d));
      FoldNextField(cfg, d, a, f, p + |Line(init, d)|, inner || Line(init, d) != "");
    }
  }

  /** A delimiter and the field behind it record the delimiter. */
  lemma FoldNextField(cfg: Config, d: Dialect, acc: Acc, f: Field, p: nat, inner: bool)
    requires Matches(cfg, d) && acc.Ok() && acc.state != QuotedField && FieldOk(f, d)
    ensures var r := Fold(cfg, acc, [d.delim] + Encode(f, d), p, inner);
            r.Done? && r.acc.state !in {QuotedField, RecordStart} && r.acc.records == acc.records &&
            r.acc.errors == acc.errors && r.acc.open == Begun(acc, p) + [p]
  {
    var next := acc.(open := Begun(acc, p) + [p], state := FieldStart);
    assert Step(cfg, acc, p, d.delim, inner) == Done(next);
    assert ([d.delim] + Encode(f, d))[1..] == Encode(f, d);
    FoldField(cfg, d, next, f, p + 1, true);
  }

  /** A row whose width is the expected one is closed without repair. */
  lemma FoldRow(cfg: Config, d: Dialect, acc: Acc, row: seq<Field>, p: nat, inner: bool)
    requires Matches(cfg, d) && acc.Ok() && acc.state == RecordStart && RowOk(row, d)
    requires cfg.numCols == 0 || cfg.numCols == |row|
    ensures Fold(cfg, acc, Line(row, d) + "\n", p, inner)
         == Done(acc.(records := acc.records + [RowOffsets(row, p, d)]))
  {
    FoldLine(cfg, d, acc, row, p, inner);
    var a := Fold(cfg, acc, Line(row, d), p, inner).acc;
    FoldAppend(cfg, acc, Line(row, d), "\n", p, inner);
    var end := p + |Line(row, d)|;
    var open := Begun(a, end);
    assert open == RowOffsets(row[..|row| - 1], p, d);
    assert open + Fill(end, 0) + [end] == RowOffsets(row, p, d);
    assert Step(cfg, a, end, '\n', inner || Line(row, d) != "").Done?;
    assert "\n"[1..] == "";
  }

  /** The records of rows that begin at p. */
  function TextRecords(rows: seq<seq<Field>>, p: nat, d: Dialect): (r: seq<seq<nat>>)
    ensures |r| == |rows|
  {
    if rows == [] then []
    else
      var m := |rows| - 1;
      TextRecords(rows[..m], p, d) + [RowOffsets(rows[m], p + |Text(rows[..m], d)|, d)]
  }

  predicate RowsOk(rows: seq<seq<Field>>, width: nat, d: Dialect)
  {
    forall i :: 0 <= i < |rows| ==> RowOk(rows[i], d) && (width == 0 || |rows[i]| == width)
  }

  /** The text of later rows follows the first line. */
  lemma {:induction false} TextHead(rows: seq<seq<Field>>, d: Dialect)
    requires rows != []
    ensures Text(rows, d) == Line(rows[0], d) + "\n" + Text(rows[1..], d)
    decreases |rows|
  {
    var m := |rows| - 1;
    if m == 0 {
      assert Text(rows[..0], d) == "";
    } else {
      TextHead(rows[..m], d);
      var first, rest := Line(rows[0], d) + "\n", rows[1..];
      assert rows[..m][1..] == rest[..m - 1] && rest[m - 1] == rows[m];
      var middle, last := Text(rest[..m - 1], d), Line(rows[m], d);
      assert Text(rows[..m], d) == first + middle;
      assert first + middle + last + "\n" == first + (middle + last + "\n");
    }
  }

  /** The records of later rows are those of a text that starts behind the first line. */
  lemma {:induction false} RecordsHead(rows: seq<seq<Field>>, p: nat, d: Dialect)
    requires rows != []
    ensures TextRecords(rows, p, d)
         == [RowOffsets(rows[0], p, d)] + TextRecords(rows[1..], p + |Line(rows[0], d)| + 1, d)
    decreases |rows|
  {
    var m := |rows| - 1;
    if m == 0 {
      assert Text(rows[..0], d) == "";
    } else {
      RecordsHead(rows[..m], p, d);
      assert rows[..m][1..] == rows[1..][..m - 1];
      TextHead(rows[..m], d);
    }
  }

  /** The automaton finds the records of the text, and nothing else. */
  lemma {:induction false} FoldText(cfg: Config, d: Dialect, rows: seq<seq<Field>>, p: nat, inner: bool)
    requires Matches(cfg, d) && RowsOk(rows, cfg.numCols, d)
    ensures Fold(cfg, EMPTY, Text(rows, d), p, inner) == Done(Acc(TextRecords(rows, p, d), [], [], RecordStart))
    decreases |rows|
  {
    hide Step, Line, Matches;
    if rows != [] {
      var m := |rows| - 1;
      FoldText(cfg, d, rows[..m], p, inner);
      var before := Text(rows[..m], d);
      assert Text(rows, d) == before + (Line(rows[m], d) + "\n");
      FoldAppend(cfg, EMPTY, before, Line(rows[m], d) + "\n", p, inner);
      FoldRow(cfg, d, Acc(TextRecords(rows[..m], p, d), [], [], RecordStart), rows[m], p + |before|, inner || before != "");
    }
  }

  lemma {:induction false} WalkInsideQuotes(cfg: Config, d: Dialect, s: string)
    requires Matches(cfg, d)
    ensures Walk(cfg, QuotedField, Escaped(s, d.quote)) == Some(QuotedField)
    decreases |s|
  {
    if s != "" {
      var head := if s[0] == d.quote then [d.quote, d.quote] else [s[0]];
      WalkAppend(cfg, QuotedField, head, Escaped(s[1..], d.quote));
      if s[0] == d.quote {
        assert head[1..] == [d.quote] && head[1..][1..] == "";
        assert Walk(cfg, QuotedEnd, head[1..]) == Some(QuotedField);
      } else {
        assert head[1..] == "";
      }
      WalkInsideQuotes(cfg, d, s[1..]);
    }
  }

  lemma {:induction false} WalkBare(cfg: Config, d: Dialect, s: State, text: string)
    requires Matches(cfg, d) && s in {RecordStart, FieldStart, UnquotedField} && FieldOk(Bare(text), d)
    ensures Walk(cfg, s, text).Some? && Walk(cfg, s, text).value in {RecordStart, FieldStart, UnquotedField}
    decreases |text|
  {
    if text != "" {
      assert FieldOk(Bare(text[1..]), d);
      WalkBare(cfg, d, UnquotedField, text[1..]);
    }
  }

  lemma WalkField(cfg: Config, d: Dialect, s: State, f: Field)
    requires Matches(cfg, d) && s in {RecordStart, FieldStart} && FieldOk(f, d)
    ensures Walk(cfg, s, Encode(f, d)).Some? && Walk(cfg, s, Encode(f, d)).value != QuotedField
  {
    match f
    case Bare(text) => WalkBare(cfg, d, s, text);
    case Quoted(text) =>
      var q := [d.quote];
      assert q[1..] == "";
      WalkInsideQuotes(cfg, d, text);
      assert q + Escaped(text, d.quote) + q == q + (Escaped(text, d.quote) + q);
      WalkAppend(cfg, s, q, Escaped(text, d.quote) + q);
      WalkAppend(cfg, QuotedField, Escaped(text, d.quote), q);
  }

  /** A row has no stray quote and no line end outside quotes. */
  lemma {:induction false} WalkLine(cfg: Config, d: Dialect, row: seq<Field>)
    requires Matches(cfg, d) && RowOk(row, d)
    ensures Walk(cfg, RecordStart, Line(row, d)).Some? && Walk(cfg, RecordStart, Line(row, d)).value != QuotedField
    decreases |row|
  {
    var n := |row| - 1;
    var init, f := row[..n], row[n];
    assert row == init + [f];
    LineGrows(init, f, d);
    if n == 0 {
      WalkField(cfg, d, RecordStart, f);
    } else {
      WalkLine(cfg, d, init);
      var s := Walk(cfg, RecordStart, Line(init, d)).value;
      assert Line(row, d) == Line(init, d) + ([d.delim] + Encode(f, d));
      WalkAppend(cfg, RecordStart, Line(init, d), [d.delim] + Encode(f, d));
      assert ([d.delim] + Encode(f, d))[1..] == Encode(f, d);
      assert StateStep(cfg, s, d.delim) == FieldStart;
      WalkField(cfg, d, FieldStart, f);
    }
  }

  /** The header scan finds the end of the row it starts at. */
  lemma ScanFindsLineEnd(cfg: Config, d: Dialect, src: string, p: nat, row: seq<Field>)
    requires Matches(cfg, d) && RowOk(row, d) && p + |Line(row, d)| < |src|
    requires src[p..p + |Line(row, d)|] == Line(row, d) && src[p + |Line(row, d)|] == '\n'
    ensures ScanPos(src, p, false, d.quote) == p + |Line(row, d)|
  {
    WalkLine(cfg, d, row);
    ScanFindsRecordEnd(cfg, src, p, p + |Line(row, d)|, EMPTY, 0);
  }

  /** The cells of a row are its encoded fields. */
  lemma {:induction false} CellIsEncoding(src: string, row: seq<Field>, p: nat, d: Dialect, j: nat)
    requires RowOk(row, d) && p + |Line(row, d)| <= |src| && src[p..p + |Line(row, d)|] == Line(row, d) && j < |row|
    ensures var (begin, end) := CellBounds(RowOffsets(row, p, d), j);
            begin <= end <= p + |Line(row, d)| && src[begin..end] == Encode(row[j], d)
    decreases |row|
  {
    var n := |row| - 1;
    var init, f := row[..n], row[n];
    assert row == init + [f];
    LineGrows(init, f, d);
    var before := RowOffsets(init, p, d);
    assert RowOffsets(row, p, d) == before + [p + |Line(row, d)|];
    if n > 0 {
      var line := Line(row, d);
      assert line[..|Line(init, d)|] == Line(init, d);
      assert src[p..p + |Line(init, d)|] == src[p..p + |line|][..|Line(init, d)|];
      if j < n {
        CellIsEncoding(src, init, p, d, j);
      } else {
        var at := p + |Line(init, d)|;
        assert before[n] == at;
        assert src[at + 1..p + |line|] == src[p..p + |line|][|Line(init, d)| + 1..];
        assert line[|Line(init, d)| + 1..] == Encode(f, d);
      }
    }
  }

  lemma {:induction false} UnescapeUndoesEscape(src: string, begin: nat, end: nat, s: string, quote: char)
    requires begin <= end < |src| && src[begin..end] == Escaped(s, quote)
    ensures Unescaped(src, begin, end, quote) == s
    decreases |s|
  {
    if s != "" {
      var n := if s[0] == quote then 2 else 1;
      assert Escaped(s, quote)[n..] == Escaped(s[1..], quote);
      assert src[begin] == src[begin..end][0];
      assert n == 2 ==> src[begin + 1] == src[begin..end][1];
      assert src[begin + n..end] == src[begin..end][n..];
      UnescapeUndoesEscape(src, begin + n, end, s[1..], quote);
      assert s == [s[0]] + s[1..];
    }
  }

  lemma SliceOfSlice(s: string, a: nat, b: nat, i: nat, j: nat)
    requires a <= b <= |s| && i <= j <= b - a
    ensures s[a..b][i..j] == s[a + i..a + j]
  {
    var x, y := s[a..b][i..j], s[a + i..a + j];
    assert |x| == |y| && forall k :: 0 <= k < |x| ==> x[k] == y[k];
  }

  /** Reading an encoded field gives back its text. */
  lemma ValueOfEncoding(src: string, opts: Options, d: Dialect, f: Field, begin: nat, end: nat, isLast: bool)
    requires d.Ok() && FieldOk(f, d) && begin <= end < |src| && src[begin..end] == Encode(f, d)
    requires opts.quote == d.quote && opts.escapeDouble && !opts.trimWs
    ensures Value(src, opts, begin, end, isLast) == f.text
  {
    var e := Encode(f, d);
    assert begin < end ==> src[begin] == e[0] && src[end - 1] == e[|e| - 1];
    match f
    case Bare(text) =>
    case Quoted(text) =>
      assert |e| == |Escaped(text, d.quote)| + 2;
      SliceOfSlice(src, begin, end, 1, |e| - 1);
      assert e[1..|e| - 1] == Escaped(text, d.quote);
      UnescapeUndoesEscape(src, begin + 1, end - 1, text, d.quote);
  }
}
