/**
 Concrete inputs for which a property one would expect does not hold. The exact conditions are
 stated where the properties are.
 */
module Counterexamples {
  import opened Seqs
  import opened Csv
  import opened Bytewise
  import opened Chunks
  import opened LoneCr
  import opened HiddenCuts
  import opened ReadBuffers
  import opened NewlineScan
  import opened Rfc4180
  import opened RoundTrip
  import P = Preamble
  import W = Writer
  import QuoteScan
  import RecordLayout
  import Buffers
  import Collection

  /** Comma-separated, with quotes; num_cols is two. */
  const TWO_COLUMNS := Config(',', '\n', '"', "", false, 2, false)

  const FILE := "h,i\n1,2\n\n"
  const CUTS := [4, 8, 9]

  /** A blank row at the start of a chunk is not padded: two threads index less than one. */
  lemma BlankRowAtChunkStart()
    ensures Cuts(FILE, CUTS) && NoneThrows(FILE, TWO_COLUMNS, CUTS, 2) && Whole(FILE, TWO_COLUMNS, CUTS, 2).Done?
    ensures |Whole(FILE, TWO_COLUMNS, CUTS, 2).acc.Offsets()| > |ChunkOffsets(FILE, TWO_COLUMNS, CUTS, 2)|
  {
    assert Chunk(FILE, TWO_COLUMNS, CUTS, 0).Done? by {
      RunIsFold(FILE, TWO_COLUMNS, 4, 4, 8, 0, EMPTY);
      assert FILE[4..8] == "1,2\n";
    }
    assert Chunk(FILE, TWO_COLUMNS, CUTS, 1).Done? by {
      RunIsFold(FILE, TWO_COLUMNS, 8, 8, 9, 0, EMPTY);
      assert FILE[8..9] == "\n" && "\n"[1..] == "";
    }
    hide Run, Whole, ChunkOffsets, Acc.Offsets;
    assert CUTS[0] < CUTS[1] && BareStart(FILE, TWO_COLUMNS, CUTS[1], CUTS[1 + 1]);
    ChunksAgainstWhole(FILE, TWO_COLUMNS, CUTS, 2);
  }

  /** A region that starts with a blank row yields a record of one cell instead of two. */
  lemma BlankFirstRow()
    ensures var r := Run("\n", TWO_COLUMNS, 0, 0, 1, 0, EMPTY);
      r.Done? && !RecordLayout.AllFull(r.acc.records, 2)
  {
    RunIsFold("\n", TWO_COLUMNS, 0, 0, 1, 0, EMPTY);
    assert "\n"[0..1] == "\n" && "\n"[1..] == "";
    RecordLayout.RecordsAreFull("\n", TWO_COLUMNS, 0, 1);
  }

  /** A buffer that starts with the newline of a short row leaves the row unpadded. */
  lemma ShortRowCutBeforeItsNewline()
    ensures var cfg := TWO_COLUMNS.(singleThread := true);
      Buffers.Stream(cfg, EMPTY, ["3", "\n"], 0) != Buffers.AtOnce(cfg, EMPTY, ["3", "\n"], 0)
  {
    var cfg, bufs := TWO_COLUMNS.(singleThread := true), ["3", "\n"];
    FlattenPush([], "3");
    assert bufs[..1] == [] + ["3"];
    assert "" + "3" == "3" && "3"[1..] == "";
    assert Buffers.RaggedCut(cfg, EMPTY, bufs, 0, 1);
    Buffers.CutsDoNotMatter(cfg, EMPTY, bufs, 0);
  }

  /** A quote inside an unquoted field: the scan believes to be inside quotes, the automaton does not. */
  lemma StrayQuote()
    ensures exists n :: 0 <= n <= 2 && !QuoteScan.AgreeAt(TWO_COLUMNS, "a\"", n)
  {
    var text := "a\"";
    assert text[..1] == "a" && "a"[..0] == "";
    assert StateAfter(TWO_COLUMNS, RecordStart, "a") == UnquotedField;
    assert QuoteScan.StrayQuoteAt(TWO_COLUMNS, text, 1);
    QuoteScan.ScanAgreesIffNoStrayQuote(TWO_COLUMNS, text, 2);
  }

  /** A lone CR inside quotes is taken for the end of a line, and the chunk that ends there does not throw. */
  lemma LoneCrInQuotes()
    ensures var src := "a,b\n\"x\ry\",z\n";
      FindNextNewline(src, 5) == (6, CR) &&
      var r := Run(src, TWO_COLUMNS, 4, 4, 7, 0, EMPTY);
      r.Done? && r.acc.state == QuotedField
  {
    var src, cfg := "a,b\n\"x\ry\",z\n", TWO_COLUMNS;
    RunIsFold(src, cfg, 4, 4, 7, 0, EMPTY);
    assert src[4..7] == [src[4], src[5], src[6]] == "\"x\r" && "\"x\r"[1..] == "x\r" && "x\r"[1..] == "\r" && "\r"[1..] == "";
    assert src[5] == 'x' && src[6] == '\r' && src[7] == 'y';
  }

  /** A lone CR inside quotes that never close, with blank lines behind it: where these are skipped, the cut does not show. */
  lemma LoneCrHidden()
    ensures var src, cuts, cfg := "h,i\n\"a\r \n", [4, 7, 9], TWO_COLUMNS.(skipEmptyRows := true);
      Boundaries(src, cuts) && LoneCrCut(src, cuts) && Hidden(src, cfg, cuts)
  {
    var src, cuts, cfg := "h,i\n\"a\r \n", [4, 7, 9], TWO_COLUMNS.(skipEmptyRows := true);
    assert LoneCrAt(src, cuts[1]) && !LoneCrAt(src, cuts[0]) && !LoneCrAt(src, cuts[2]);
    var one := cfg.(singleThread := true);
    var quoted := Acc([], [4], [], QuotedField);
    assert SkipBlanks(src, 4, 7) == 4;
    MoveIs(src, one, 4, 4, 7, EMPTY);
    MoveIs(src, one, 4, 5, 7, quoted);
    MoveIs(src, one, 4, 6, 7, quoted);
    assert Run(src, one, 4, 4, 7, 0, EMPTY) == Done(quoted);
    hide Run, Next;
    assert BlankLines(src, 7, 9);
    assert HiddenAt(src, cfg, cuts, 7);
  }

  /** A read that is longer than the one two before it: the resized buffer holds zeroes instead of its last bytes. */
  lemma GrowingRead()
    ensures var arrived := ["a,b\n", "1,2\n", "3,4\n5,6\n"];
      AreReads(arrived, 100) && Held(arrived)[2] == "3,4\n5\0\0\0" && Flatten(Held(arrived)) != Flatten(arrived)
  {
    var arrived := ["a,b\n", "1,2\n", "3,4\n5,6\n"];
    assert Held(arrived)[2] == HeldAt(arrived, 2) == Resized(5, arrived[2]);
    assert arrived[2][5] == ',' && !Survives(arrived, 2);
    CopyIsInputIff(arrived);
  }

  /** Where a CR stands in front of a comment the cut behind it does no harm. */
  lemma LoneCrBeforeComment()
    ensures var src, cuts, cfg := "h\n#a\r#b\n", [2, 5, 8], TWO_COLUMNS.(comment := "#");
      Boundaries(src, cuts) && LoneCrCut(src, cuts) && NoTaskThrows(src, cfg, cuts, 2) &&
      Done(Acc([], TaskOffsets(src, cfg, cuts, 2), [], RecordStart))
      == Run(src, cfg.(singleThread := true), 2, 2, 8, 0, EMPTY)
  {
    var src, cuts, cfg := "h\n#a\r#b\n", [2, 5, 8], TWO_COLUMNS.(comment := "#");
    assert LoneCrAt(src, cuts[1]) && !LoneCrAt(src, cuts[0]);
    assert src[2..3] == "#" && src[5..6] == "#";
    assert IsComment(src, 2, 5, "#") && IsComment(src, 2, 8, "#") && IsComment(src, 5, 8, "#");
    assert SkipRestOfLine(src, 2) == 7 && SkipRestOfLine(src, 5) == 7;
    assert TaskChunk(src, cfg, cuts, 0) == Done(EMPTY) && TaskChunk(src, cfg, cuts, 1) == Done(EMPTY);
    assert TaskOffsets(src, cfg, cuts, 0) == [];
  }

  /** A first name that begins with the bytes of a byte order mark is written bare, and read without them. */
  lemma MarkInFirstName()
    ensures var names := ["\U{EF}\U{BB}\U{BF}a", "b"];
      var wopts := W.WriteOptions(true, false, true, false);
      IsTable(names, [[], []], 0) && Quoting(wopts) && Dialect(',', '"').Ok() &&
      P.SkipBom(Written(names, [[], []], 0, 0, ',', wopts)) == 3 && NameRead(names, 3, 0) == "a"
  {
    var names := ["\U{EF}\U{BB}\U{BF}a", "b"];
    var wopts := W.WriteOptions(true, false, true, false);
    var name := names[0];
    assert name[3..] == "a";
    assert forall i :: 0 <= i < |name| ==> name[i] !in {'\n', '\r', '"', ',', '\0'};
    var d, fields := Dialect(',', '"'), TableFields(names, [[], []], 0, 0, ',', wopts);
    assert fields[0][0] == Bare(name);
    hide Written, Text;
    WrittenIsText(names, [[], []], 0, 0, ',', wopts);
    TextFront(fields, d);
    StartsWithMark(name, Text(fields, d));
  }

  lemma StartsWithMark(name: string, src: string)
    requires name == "\U{EF}\U{BB}\U{BF}a" && name + [','] <= src
    ensures P.SkipBom(src) == 3
  {
    assert src[0] == name[0] && src[1] == name[1] && src[2] == name[2];
    var wide: seq<int> := [0, 0, 0xFE, 0xFF];
    assert src[0] != wide[0] as char;
    assert P.StartsWith(src, [0xEF, 0xBB, 0xBF]);
  }

  /** Advancing one row past the end of a collection never ends. */
  lemma AdvancePastTheEnd(k: nat)
    ensures Collection.Turns([1], 0, 0, 2, k).2 != 0
  {
    assert [1][..0] == [];
    assert Collection.Sum([1]) == Collection.Sum([]) + 1;
    Collection.AdvanceTerminatesIff([1], 0, 0, 2);
  }
}
