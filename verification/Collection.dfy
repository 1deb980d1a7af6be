/** A column over several files: a cursor that moves through the concatenation of all files, empty ones included. */
module Collection {
  import opened Arith

  /** The shape all files of a collection share; `header` is 1 where the first row is the header. */
  datatype Layout = Layout(columns: nat, header: nat, column: nat)
  {
    predicate Ok()
    {
      column < columns && header <= 1
    }
  }

  /** Division of signed machine integers truncates. */
  function TruncDiv(a: int, b: int): int
    requires b > 0
  {
    if a >= 0 then a / b else -(-a / b)
  }

  /** The cursor over the column of one file: a cell number, counted row by row. It is copied by value. */
  datatype ColumnIterator = ColumnIterator(i: int)
  {
    function Next(l: Layout): ColumnIterator
    {
      ColumnIterator(i + l.columns)
    }

    function Advance(l: Layout, n: int): ColumnIterator
    {
      ColumnIterator(i + l.columns * n)
    }

    function DistanceTo(l: Layout, that: ColumnIterator): int
      requires l.columns > 0
    {
      TruncDiv(that.i - i, l.columns)
    }

    /** The difference of two iterators is the negated distance. */
    function Minus(l: Layout, that: ColumnIterator): int
      requires l.columns > 0
    {
      -DistanceTo(l, that)
    }
  }

  /** The cursor at a data row of its file. */
  function AtRow(l: Layout, row: int): ColumnIterator
  {
    ColumnIterator((l.header + row) * l.columns + l.column)
  }

  lemma ExactDivision(n: nat, b: nat)
    requires b > 0
    ensures n * b / b == n
  {
    DivRest(n, 0, b);
  }

  lemma RowDifference(l: Layout, a: int, b: int)
    requires l.Ok()
    ensures AtRow(l, b).i - AtRow(l, a).i == (b - a) * l.columns
    ensures a < b ==> (b - a) * l.columns > 0
  {
    MulSum(l.header + a, b - a, l.columns);
    if a < b {
      MulMonotone(1, b - a, l.columns);
    }
  }

  lemma RowDistance(l: Layout, a: int, b: int)
    requires l.Ok()
    ensures AtRow(l, b).Minus(l, AtRow(l, a)) == b - a
  {
    RowDifference(l, a, b);
    RowDifference(l, b, a);
    ExactDivision(if a <= b then b - a else a - b, l.columns);
  }

  /** Rows can be counted with cell numbers. */
  lemma RowArithmetic(l: Layout, a: int, b: int)
    requires l.Ok()
    ensures AtRow(l, b).Minus(l, AtRow(l, a)) == b - a
    ensures AtRow(l, a).Advance(l, b - a) == AtRow(l, b)
    ensures AtRow(l, a).Next(l) == AtRow(l, a + 1)
    ensures AtRow(l, a) == AtRow(l, b) <==> a == b
  {
    RowDistance(l, a, b);
    RowDifference(l, a, b);
    RowDifference(l, b, a);
    RowDifference(l, a, a + 1);
    hide AtRow;
  }

  function Sum(rows: seq<nat>): nat
  {
    if rows == [] then 0 else Sum(rows[..|rows| - 1]) + rows[|rows| - 1]
  }

  /** The rows before file i. */
  function Before(rows: seq<nat>, i: nat): nat
    requires i <= |rows|
  {
    Sum(rows[..i])
  }

  lemma BeforeNext(rows: seq<nat>, i: nat)
    requires i < |rows|
    ensures Before(rows, i + 1) == Before(rows, i) + rows[i]
  {
    assert rows[..i + 1][..i] == rows[..i];
  }

  lemma {:induction false} BeforeMonotone(rows: seq<nat>, i: nat, j: nat)
    requires i <= j <= |rows|
    ensures Before(rows, i) <= Before(rows, j)
    ensures Before(rows, |rows|) == Sum(rows)
    decreases j - i
  {
    assert rows[..|rows|] == rows;
    if i < j {
      BeforeMonotone(rows, i, j - 1);
      BeforeNext(rows, j - 1);
    }
  }

  /** Row `row` of file i is where a cursor rests: a real row, or the end of the last file. Without rows it rests at the start. */
  predicate Canonical(rows: seq<nat>, i: nat, row: nat)
  {
    i < |rows| && row <= rows[i] &&
    if Sum(rows) == 0 then i == 0 else row < rows[i] || i == |rows| - 1
  }

  function Position(rows: seq<nat>, i: nat, row: nat): nat
    requires i < |rows|
  {
    Before(rows, i) + row
  }

  /** Resting places are told apart by their position. */
  lemma OnePlacePerPosition(rows: seq<nat>, i: nat, row: nat, j: nat, row': nat)
    requires Canonical(rows, i, row) && Canonical(rows, j, row')
    ensures Position(rows, i, row) == Position(rows, j, row') <==> i == j && row == row'
  {
    if i < j {
      EarlierFileEarlierPosition(rows, i, row, j);
    } else if j < i {
      EarlierFileEarlierPosition(rows, j, row', i);
    }
  }

  lemma EarlierFileEarlierPosition(rows: seq<nat>, i: nat, row: nat, j: nat)
    requires Canonical(rows, i, row) && i < j < |rows| && (Sum(rows) == 0 ==> j == 0)
    ensures Position(rows, i, row) < Before(rows, j)
  {
    BeforeNext(rows, i);
    BeforeMonotone(rows, i + 1, j);
  }

  lemma PositionBounded(rows: seq<nat>, i: nat, row: nat)
    requires i < |rows| && row <= rows[i]
    ensures Position(rows, i, row) <= Sum(rows)
  {
    BeforeNext(rows, i);
    BeforeMonotone(rows, i + 1, |rows|);
  }

  /** A row still to come means that the cursor rests on a real row. */
  lemma NotAtEnd(rows: seq<nat>, i: nat, row: nat)
    requires Canonical(rows, i, row) && Position(rows, i, row) < Sum(rows)
    ensures row < rows[i]
  {
    BeforeNext(rows, i);
    if i == |rows| - 1 {
      BeforeMonotone(rows, i + 1, |rows|);
    }
  }

  /** The first row at or after the start of file i, or the end of the last file. */
  function Enter(rows: seq<nat>, i: nat): (r: (nat, int))
    requires i < |rows|
    ensures r.0 < |rows| && r.1 == 0
    decreases |rows| - i
  {
    if rows[i] == 0 && i < |rows| - 1 then Enter(rows, i + 1) else (i, 0)
  }

  /** Where the cursor goes from row `row` of file i. */
  function NextPlace(rows: seq<nat>, i: nat, row: int): (r: (nat, int))
    requires i < |rows|
    ensures r.0 < |rows|
  {
    if row + 1 == rows[i] && i < |rows| - 1 then Enter(rows, i + 1) else (i, row + 1)
  }

  /** One turn of the loop that advances by n. */
  function Turn(rows: seq<nat>, i: nat, row: int, n: int): (r: (nat, int, int))
    requires i < |rows|
    ensures r.0 < |rows|
  {
    var diff := rows[i] - row;
    if n < diff then (i, row + n, 0)
    else
      var next := NextPlace(rows, i, row + (diff - 1));
      (next.0, next.1, n - diff)
  }

  /** The loop after at most k turns. */
  function Turns(rows: seq<nat>, i: nat, row: int, n: int, k: nat): (r: (nat, int, int))
    requires i < |rows|
    ensures r.0 < |rows|
  {
    if k == 0 then (i, row, n)
    else
      var s := Turns(rows, i, row, n, k - 1);
      if s.2 > 0 then Turn(rows, s.0, s.1, s.2) else s
  }

  lemma {:induction false} EnterKeepsPosition(rows: seq<nat>, i: nat)
    requires i < |rows|
    ensures Before(rows, Enter(rows, i).0) == Before(rows, i)
    ensures rows[Enter(rows, i).0] > 0 || Enter(rows, i).0 == |rows| - 1
    decreases |rows| - i
  {
    if rows[i] == 0 && i < |rows| - 1 {
      BeforeNext(rows, i);
      EnterKeepsPosition(rows, i + 1);
    }
  }

  /** A turn moves as many rows on as it takes off n. */
  lemma TurnKeepsTotal(rows: seq<nat>, i: nat, row: int, n: int)
    requires i < |rows| && 0 <= row <= rows[i] && n > 0
    ensures var s := Turn(rows, i, row, n);
            0 <= s.1 <= rows[s.0] && s.2 >= 0 && Before(rows, s.0) + s.1 + s.2 == Before(rows, i) + row + n
    ensures Canonical(rows, i, row) && Before(rows, i) + row < Sum(rows) ==>
              Turn(rows, i, row, n).2 < n && Canonical(rows, Turn(rows, i, row, n).0, Turn(rows, i, row, n).1)
  {
    BeforeNext(rows, i);
    if i < |rows| - 1 {
      EnterKeepsPosition(rows, i + 1);
    }
    if Canonical(rows, i, row) && Before(rows, i) + row < Sum(rows) {
      NotAtEnd(rows, i, row);
    }
  }

  lemma {:induction false} TurnsKeepTotal(rows: seq<nat>, i: nat, row: int, n: int, k: nat)
    requires i < |rows| && 0 <= row <= rows[i] && n >= 0
    ensures var s := Turns(rows, i, row, n, k);
            0 <= s.1 <= rows[s.0] && s.2 >= 0 && Before(rows, s.0) + s.1 + s.2 == Before(rows, i) + row + n
  {
    if k > 0 {
      TurnsKeepTotal(rows, i, row, n, k - 1);
      var s := Turns(rows, i, row, n, k - 1);
      if s.2 > 0 {
        TurnKeepsTotal(rows, s.0, s.1, s.2);
      }
    }
  }

  lemma {:induction false} TurnsFinish(rows: seq<nat>, i: nat, row: nat, n: nat, k: nat)
    requires Canonical(rows, i, row) && n <= Sum(rows) - Position(rows, i, row)
    ensures var s := Turns(rows, i, row, n, k);
            s.2 <= (if n > k then n - k else 0) && (s.1 >= 0 && Canonical(rows, s.0, s.1))
  {
    if k > 0 {
      TurnsFinish(rows, i, row, n, k - 1);
      TurnsKeepTotal(rows, i, row, n, k - 1);
      var s := Turns(rows, i, row, n, k - 1);
      if s.2 > 0 {
        TurnKeepsTotal(rows, s.0, s.1, s.2);
      }
    }
  }

  /** Advancing terminates if and only if n is no more than the rows that are left. */
  lemma AdvanceTerminatesIff(rows: seq<nat>, i: nat, row: nat, n: nat)
    requires Canonical(rows, i, row)
    ensures (exists k: nat :: Turns(rows, i, row, n, k).2 == 0) <==> n <= Sum(rows) - Position(rows, i, row)
  {
    if n <= Sum(rows) - Position(rows, i, row) {
      TurnsFinish(rows, i, row, n, n);
      TurnsKeepTotal(rows, i, row, n, n);
      assert Turns(rows, i, row, n, n).2 == 0;
    } else {
      forall k: nat
        ensures Turns(rows, i, row, n, k).2 != 0
      {
        TurnsKeepTotal(rows, i, row, n, k);
        var s := Turns(rows, i, row, n, k);
        PositionBounded(rows, s.0, s.1);
      }
    }
  }

  class FullIterator {
    const l: Layout
    const rows: seq<nat>
    const end: nat
    var i: nat
    var it: ColumnIterator
    var itEnd: ColumnIterator
    var itStart: ColumnIterator
    ghost var row: nat

    ghost predicate Valid()
      reads this
    {
      l.Ok() && Canonical(rows, i, row) && end == |rows| - 1 &&
      it == AtRow(l, row) && itEnd == AtRow(l, rows[i]) && itStart == AtRow(l, 0)
    }

    /** The row number in the concatenation of all files. */
    ghost function At(): nat
      reads this
      requires Valid()
    {
      Position(rows, i, row)
    }

    constructor (l: Layout, rows: seq<nat>)
      requires l.Ok() && rows != []
      ensures Valid() && this.l == l && this.rows == rows && At() == 0
    {
      this.l, this.rows := l, rows;
      end := |rows| - 1;
      i := 0;
      new;
      var current := rows[i];
      BeforeNext(rows, 0);
      BeforeMonotone(rows, 0, |rows|);
      if current == 0 && |rows| > 1 && Sum(rows) > 0 {
        while current == 0
          invariant 0 <= i < |rows| && current == rows[i]
          invariant Before(rows, i) == 0
          invariant Sum(rows) > 0 && this.l == l && this.rows == rows && end == |rows| - 1
          decreases |rows| - i
        {
          BeforeNext(rows, i);
          BeforeMonotone(rows, i + 1, |rows|);
          i := i + 1;
          current := rows[i];
        }
      }
      it := AtRow(l, 0);
      itEnd := AtRow(l, current);
      itStart := AtRow(l, 0);
      row := 0;
    }

    method Next()
      requires Valid() && At() < Sum(rows)
      modifies this
      ensures Valid() && At() == old(At()) + 1
      ensures (i, row as int) == NextPlace(rows, old(i), old(row))
    {
      NotAtEnd(rows, i, row);
      RowArithmetic(l, row, row);
      it := it.Next(l);
      row := row + 1;
      RowArithmetic(l, row, rows[i]);
      while it == itEnd && i < end
        invariant i < |rows| && row <= rows[i] && end == |rows| - 1 && l.Ok()
        invariant it == AtRow(l, row) && itEnd == AtRow(l, rows[i]) && itStart == AtRow(l, 0)
        invariant Position(rows, i, row) == old(At()) + 1
        invariant (i == old(i) && row == old(row) + 1) ||
                  (i > old(i) && row == 0 && Enter(rows, i) == NextPlace(rows, old(i), old(row)))
        decreases |rows| - i
      {
        RowArithmetic(l, row, rows[i]);
        BeforeNext(rows, i);
        i := i + 1;
        it := AtRow(l, 0);
        itEnd := AtRow(l, rows[i]);
        row := 0;
      }
      RowArithmetic(l, row, rows[i]);
    }

    /** Advancing by a negative number throws; by no more than the rows that are left it terminates at the right place. */
    method Advance(n0: int) returns (threw: bool)
      requires Valid() && n0 <= Sum(rows) - At()
      modifies this
      ensures threw <==> n0 < 0
      ensures Valid() && At() == old(At()) + if n0 < 0 then 0 else n0
    {
      hide AtRow, Sum, Enter;
      threw := false;
      var n := n0;
      if n == 0 {
        return;
      }
      if n > 0 {
        ghost var turns := 0;
        while n > 0
          invariant n >= 0 && Valid() && At() + n == old(At()) + n0
          invariant (i, row as int, n) == Turns(rows, old(i), old(row), n0, turns)
        {
          ghost var turn := Turn(rows, i, row, n);
          turns := turns + 1;
          NotAtEnd(rows, i, row);
          RowArithmetic(l, row, rows[i]);
          var diff := itEnd.Minus(l, it);
          if n < diff {
            RowArithmetic(l, row, row + n);
            it := it.Advance(l, n);
            row := row + n;
            assert (i, row as int, 0) == turn;
            return;
          }
          RowArithmetic(l, row, row + diff - 1);
          it := it.Advance(l, diff - 1);
          row := row + diff - 1;
          n := n - diff;
          AtLastRow(rows, i, row);
          Next();
        }
        return;
      }
      if n < 0 {
        threw := true;
      }
    }

    /** The exact signed distance, in both directions. */
    method DistanceTo(that: FullIterator) returns (count: int)
      requires Valid() && that.Valid() && that.rows == rows && that.l == l
      ensures count == that.At() - At()
    {
      if i == that.i {
        RowArithmetic(l, row, that.row);
        return that.it.Minus(l, it);
      }
      count := 0;
      var j := i;
      if i < that.i {
        RowArithmetic(l, row, rows[i]);
        count := itEnd.Minus(l, it);
        BeforeNext(rows, i);
        j := j + 1;
        while j < that.i
          invariant i < j <= that.i
          invariant count == Before(rows, j) - At()
        {
          count := count + rows[j];
          BeforeNext(rows, j);
          j := j + 1;
        }
        RowArithmetic(l, 0, that.row);
        count := count + that.it.Minus(l, AtRow(l, 0));
        return;
      }
      RowArithmetic(l, row, 0);
      count := itStart.Minus(l, it);
      j := j - 1;
      while j > that.i
        invariant that.i <= j < i
        invariant count == Before(rows, j + 1) - At()
      {
        count := count - rows[j];
        BeforeNext(rows, j);
        j := j - 1;
      }
      BeforeNext(rows, j);
      RowArithmetic(l, rows[j], that.row);
      count := count + that.it.Minus(l, AtRow(l, rows[j]));
    }

    /** Iterators are equal exactly when they stand at the same row of the concatenation. */
    method EqualTo(that: FullIterator) returns (r: bool)
      requires Valid() && that.Valid() && that.rows == rows && that.l == l
      ensures r <==> At() == that.At()
    {
      OnePlacePerPosition(rows, i, row, that.i, that.row);
      RowArithmetic(l, row, that.row);
      r := i == that.i && it == that.it;
    }
  }

  lemma AtLastRow(rows: seq<nat>, i: nat, row: nat)
    requires i < |rows| && row < rows[i]
    ensures Position(rows, i, row) < Sum(rows) && Canonical(rows, i, row)
  {
    PositionBounded(rows, i, row + 1);
  }

  /** The file and row that positional access picks for a row of the concatenation. */
  method Get(rows: seq<nat>, n: nat) returns (i: nat, row: nat)
    requires n < Sum(rows)
    ensures i < |rows| && row < rows[i] && Position(rows, i, row) == n
  {
    i, row := 0, n;
    BeforeMonotone(rows, 0, |rows|);
    while i < |rows| && row >= rows[i]
      invariant 0 <= i <= |rows|
      invariant Before(rows, i) + row == n
      invariant i == |rows| ==> n >= Sum(rows)
    {
      BeforeNext(rows, i);
      BeforeMonotone(rows, i + 1, |rows|);
      row := row - rows[i];
      i := i + 1;
    }
  }

  /** Positional access and a cursor at the same place read the same cell. */
  lemma CursorAgreesWithGet(rows: seq<nat>, i: nat, row: nat, j: nat, row': nat)
    requires Canonical(rows, i, row) && j < |rows| && row' < rows[j]
    requires Position(rows, i, row) == Position(rows, j, row')
    ensures i == j && row == row'
  {
    AtLastRow(rows, j, row');
    OnePlacePerPosition(rows, i, row, j, row');
  }

  /** A whole column has as many rows as all files together. */
  method ColumnSize(l: Layout, rows: seq<nat>) returns (size: int)
    requires l.Ok() && rows != []
    ensures size == Sum(rows)
  {
    var begin := new FullIterator(l, rows);
    var end := new FullIterator(l, rows);
    var _ := end.Advance(Sum(rows));
    size := begin.DistanceTo(end);
  }
}
