/**
 Lazy subsets of a column. An iterator over a subset keeps a cached cursor into what it is a
 subset of; whatever moved that cursor before, positional access, iteration over slices and
 the composed index vectors agree.
 */
module Subset {
  import opened Seqs
  import opened ParallelIndex
  import CellAccess

  /**
   Iterators are copied by value, caches included. Base stands at a row of the column itself;
   Sub stands at position i of its index vector, with `it` cached where start + prev would be.
   */
  datatype Iter = Base(row: int) | Sub(i: int, prev: nat, it: Iter, start: Iter, indexes: seq<nat>)

  function Depth(x: Iter): nat
  {
    match x
    case Base(_) => 0
    case Sub(_, _, it, start, _) => 1 + (if Depth(it) > Depth(start) then Depth(it) else Depth(start))
  }

  function Plus(x: Iter, n: int): (r: Iter)
    ensures Depth(r) == Depth(x)
  {
    match x
    case Base(row) => Base(row + n)
    case Sub(i, prev, it, start, indexes) => Sub(i + n, prev, it, start, indexes)
  }

  /** The same iterator but for its caches. */
  predicate Alike(a: Iter, b: Iter)
    decreases a
  {
    match (a, b)
    case (Base(r), Base(s)) => r == s
    case (Sub(i, _, _, s, v), Sub(j, _, _, t, w)) => i == j && v == w && Alike(s, t)
    case _ => false
  }

  /** The row of the column x stands for; caches do not matter. */
  function RowOf(x: Iter): Option<int>
    decreases Depth(x)
  {
    match x
    case Base(row) => Some(row)
    case Sub(i, _, _, start, indexes) =>
      if 0 <= i < |indexes| then RowOf(Plus(start, indexes[i])) else None
  }

  /** The invariant of the cache, at every level. */
  predicate Valid(x: Iter)
  {
    match x
    case Base(_) => true
    case Sub(_, prev, it, start, _) => Valid(it) && Valid(start) && Alike(it, Plus(start, prev))
  }

  /** Can x be dereferenced? */
  predicate Readable(x: Iter)
  {
    RowOf(x).Some?
  }

  /** Dereferencing moves the cached cursor forward by the difference, or afresh from the start when it lies behind. */
  function Deref(x: Iter): (r: (int, Iter))
    requires Readable(x) && Valid(x)
    ensures Valid(r.1) && Alike(r.1, x) && RowOf(x) == Some(r.0)
    decreases Depth(x)
  {
    match x
    case Base(row) => (row, x)
    case Sub(i, prev, it, start, indexes) =>
      var cur := indexes[i];
      var diff := cur - prev;
      var moved := if diff < 0 then Plus(start, cur) else Plus(it, diff);
      MovedCursor(x);
      var inner := Deref(moved);
      AlikeReflexive(start);
      (inner.0, Sub(i, cur, inner.1, start, indexes))
  }

  lemma {:induction false} AlikeReflexive(a: Iter)
    ensures Alike(a, a)
  {
    if a.Sub? {
      AlikeReflexive(a.start);
    }
  }

  lemma AdvanceValid(a: Iter, n: int)
    requires Valid(a)
    ensures Valid(Plus(a, n))
  {
  }

  /** Iterators alike stand for the same row. */
  lemma {:induction false} AlikeSameRow(a: Iter, b: Iter)
    requires Alike(a, b)
    ensures RowOf(a) == RowOf(b)
    decreases Depth(a)
  {
    if a.Sub? && 0 <= a.i < |a.indexes| {
      AlikeSameRow(Plus(a.start, a.indexes[a.i]), Plus(b.start, b.indexes[b.i]));
    }
  }

  /** The moved cursor stands where start + cur does. */
  lemma MovedCursor(x: Iter)
    requires x.Sub? && Readable(x) && Valid(x)
    ensures var cur := x.indexes[x.i];
            var diff := cur - x.prev;
            var moved := if diff < 0 then Plus(x.start, cur) else Plus(x.it, diff);
            Valid(moved) && Alike(moved, Plus(x.start, cur)) && RowOf(moved) == RowOf(x) && Depth(moved) < Depth(x)
  {
    var cur := x.indexes[x.i];
    var diff := cur - x.prev;
    if diff < 0 {
      AdvanceValid(x.start, cur);
      AlikeReflexive(Plus(x.start, cur));
    } else {
      AdvanceValid(x.it, diff);
      AlikeSameRow(Plus(x.it, diff), Plus(x.start, cur));
    }
  }

  /** Positional access goes through the caches' index vectors and pays no heed to where anything stands. */
  function At(x: Iter, n: nat): Option<int>
    decreases Depth(x)
  {
    match x
    case Base(_) => Some(n)
    case Sub(_, _, it, _, indexes) => if n < |indexes| then At(it, indexes[n]) else None
  }

  /** The same index vectors at every level. */
  predicate Kin(a: Iter, b: Iter)
    decreases a
  {
    match (a, b)
    case (Base(_), Base(_)) => true
    case (Sub(_, _, _, s, v), Sub(_, _, _, t, w)) => v == w && Kin(s, t)
    case _ => false
  }

  lemma {:induction false} AlikeIsKin(a: Iter, b: Iter)
    requires Alike(a, b)
    ensures Kin(a, b)
    decreases a
  {
    if a.Sub? {
      AlikeIsKin(a.start, b.start);
    }
  }

  lemma {:induction false} KinTransitive(a: Iter, b: Iter, c: Iter)
    requires Kin(a, b) && Kin(b, c)
    ensures Kin(a, c)
    decreases a
  {
    if a.Sub? {
      KinTransitive(a.start, b.start, c.start);
    }
  }

  /** The subset of a subset of ... of a column, never read. */
  function Nest(vectors: seq<seq<nat>>): (r: Iter)
    ensures Valid(r)
  {
    if vectors == [] then Base(0)
    else
      var inner := Nest(vectors[..|vectors| - 1]);
      AlikeReflexive(inner);
      Sub(0, 0, inner, inner, vectors[|vectors| - 1])
  }

  /** Position i of the outermost subset, taken through all index vectors. */
  function Compose(vectors: seq<seq<nat>>, i: nat): Option<nat>
  {
    if vectors == [] then Some(i)
    else
      var last := vectors[|vectors| - 1];
      if i < |last| then Compose(vectors[..|vectors| - 1], last[i]) else None
  }

  /** Iteration from the start of a subset follows the composed index vectors. */
  lemma {:induction false} RowIsComposed(vectors: seq<seq<nat>>, i: nat)
    ensures RowOf(Plus(Nest(vectors), i)) == Compose(vectors, i)
    decreases |vectors|
  {
    if vectors != [] {
      var last := vectors[|vectors| - 1];
      if i < |last| {
        RowIsComposed(vectors[..|vectors| - 1], last[i]);
      }
    }
  }

  /** So does positional access, wherever the iterator and its caches stand. */
  lemma {:induction false} AtIsComposed(x: Iter, vectors: seq<seq<nat>>, n: nat)
    requires Valid(x) && Kin(x, Nest(vectors))
    ensures At(x, n) == Compose(vectors, n)
    decreases |vectors|
  {
    if vectors != [] && n < |vectors[|vectors| - 1]| {
      var inner := vectors[..|vectors| - 1];
      AlikeIsKin(x.it, Plus(x.start, x.prev));
      KinAdvance(x.start, x.prev);
      KinTransitive(x.it, Plus(x.start, x.prev), x.start);
      KinTransitive(x.it, x.start, Nest(inner));
      AtIsComposed(x.it, inner, vectors[|vectors| - 1][n]);
    }
  }

  lemma {:induction false} KinReflexive(a: Iter)
    ensures Kin(a, a)
  {
    if a.Sub? {
      KinReflexive(a.start);
    }
  }

  lemma KinAdvance(a: Iter, n: int)
    ensures Kin(Plus(a, n), a) && Kin(a, Plus(a, n))
  {
    if a.Sub? {
      KinReflexive(a.start);
    }
  }

  /** What a caller may do to an iterator. */
  datatype Op = Forward(n: int) | Dereference

  function Apply(x: Iter, op: Op): (r: Iter)
    requires Valid(x)
    ensures Valid(r)
  {
    match op
    case Forward(n) => AdvanceValid(x, n); Plus(x, n)
    case Dereference => if Readable(x) then Deref(x).1 else x
  }

  function ApplyAll(x: Iter, ops: seq<Op>): (r: Iter)
    requires Valid(x)
    ensures Valid(r)
  {
    if ops == [] then x else Apply(ApplyAll(x, ops[..|ops| - 1]), ops[|ops| - 1])
  }

  /** How far the iterator has been moved. */
  function Moved(ops: seq<Op>): int
  {
    if ops == [] then 0
    else Moved(ops[..|ops| - 1]) + match ops[|ops| - 1] case Forward(n) => n case Dereference => 0
  }

  /** Whatever was done before, the iterator is where the moves alone would have taken it. */
  lemma {:induction false} HistoryDoesNotMatter(x: Iter, ops: seq<Op>)
    requires Valid(x)
    ensures Alike(ApplyAll(x, ops), Plus(x, Moved(ops)))
  {
    if ops == [] {
      AlikeReflexive(x);
      AlikeReflexive(Plus(x, 0));
    } else {
      var before := ApplyAll(x, ops[..|ops| - 1]);
      HistoryDoesNotMatter(x, ops[..|ops| - 1]);
    }
  }

  /** The main result: after any history, dereferencing at position p yields what positional access and the composed vectors yield. */
  lemma LazyAccessAgrees(vectors: seq<seq<nat>>, ops: seq<Op>, p: nat)
    requires Moved(ops) == p && Compose(vectors, p).Some?
    ensures var x := ApplyAll(Nest(vectors), ops);
            Readable(x) && Some(Deref(x).0) == Compose(vectors, p) == At(x, p)
  {
    var root := Nest(vectors);
    var x := ApplyAll(root, ops);
    HistoryDoesNotMatter(root, ops);
    AlikeSameRow(x, Plus(root, p));
    RowIsComposed(vectors, p);
    AlikeIsKin(x, Plus(root, p));
    KinAdvance(root, p);
    KinTransitive(x, Plus(root, p), root);
    AtIsComposed(x, vectors, p);
  }

  /** The subset iterator as an object whose methods change its position and its cache. */
  class SubsetIterator {
    var i: int
    var prev: nat
    var it: Iter
    const start: Iter
    const indexes: seq<nat>

    function AsIter(): Iter
      reads this
    {
      Sub(i, prev, it, start, indexes)
    }

    constructor (it: Iter, indexes: seq<nat>)
      requires Valid(it)
      ensures AsIter() == Sub(0, 0, it, it, indexes) && Valid(AsIter())
    {
      i, prev := 0, 0;
      this.it, start, this.indexes := it, it, indexes;
      AlikeReflexive(it);
    }

    method Next()
      requires Valid(AsIter())
      modifies this
      ensures AsIter() == Plus(old(AsIter()), 1) && Valid(AsIter())
    {
      i := i + 1;
    }

    method Advance(n: int)
      requires Valid(AsIter())
      modifies this
      ensures AsIter() == Plus(old(AsIter()), n) && Valid(AsIter())
    {
      i := i + n;
    }

    method Value() returns (row: int)
      requires Valid(AsIter()) && Readable(AsIter())
      modifies this`it, this`prev
      ensures Valid(AsIter()) && Alike(AsIter(), old(AsIter())) && Some(row) == RowOf(old(AsIter()))
      ensures prev == indexes[i]
    {
      ghost var before := AsIter();
      MovedCursor(before);
      var cur := indexes[i];
      var diff := cur - prev;
      if diff < 0 {
        it := Plus(start, cur);
      } else {
        it := Plus(it, diff);
      }
      prev := cur;
      ghost var moved := it;
      var r := Deref(it);
      row, it := r.0, r.1;
      AlikeReflexive(start);
    }
  }

  /** Reading a column into a vector: every range of parallel_for is a slice that is iterated over. */
  method Materialise(vectors: seq<seq<nat>>, n: nat, threads: nat) returns (out: seq<int>)
    requires threads > 0 && forall p :: 0 <= p < n ==> Compose(vectors, p).Some?
    ensures |out| == n
    ensures forall p :: 0 <= p < n ==> Some(out[p]) == Compose(vectors, p)
  {
    out := [];
    var column := Nest(vectors);
    var ranges := ParallelFor(n, threads);
    var id := 0;
    while id < threads
      invariant 0 <= id <= threads && |out| == Bound(n, threads, id)
      invariant forall p :: 0 <= p < |out| ==> Some(out[p]) == Compose(vectors, p)
    {
      BoundMonotone(n, threads, id, id + 1);
      out := ReadSlice(vectors, n, ranges[id].start, ranges[id].end, column, out);
      id := id + 1;
    }
  }

  method ReadSlice(vectors: seq<seq<nat>>, ghost n: nat, start: nat, end: nat, column: Iter, out0: seq<int>)
    returns (out: seq<int>)
    requires start <= end <= n && column == Nest(vectors) && |out0| == start
    requires forall p :: 0 <= p < n ==> Compose(vectors, p).Some?
    requires forall p :: 0 <= p < |out0| ==> Some(out0[p]) == Compose(vectors, p)
    ensures |out| == end
    ensures forall p :: 0 <= p < |out| ==> Some(out[p]) == Compose(vectors, p)
  {
    out := out0;
    var b := Plus(column, start);
    AdvanceValid(column, start);
    AlikeReflexive(b);
    var p := start;
    while p < end
      invariant start <= p <= end && |out| == p && Valid(b) && Alike(b, Plus(column, p))
      invariant forall q :: 0 <= q < |out| ==> Some(out[q]) == Compose(vectors, q)
    {
      AlikeSameRow(b, Plus(column, p));
      RowIsComposed(vectors, p);
      var r := Deref(b);
      AdvanceValid(r.1, 1);
      out := out + [r.0];
      b := Plus(r.1, 1);
      p := p + 1;
    }
  }

  /** The row that an error is reported for: that of the innermost cached cursor. */
  function ReportedRow(x: Iter): int
  {
    match x
    case Base(row) => row
    case Sub(_, _, it, _, _) => ReportedRow(it)
  }

  /** After dereferencing, the reported row is the row that was read. */
  lemma {:induction false} DereferencedReportsItsRow(x: Iter)
    requires Valid(x) && Readable(x)
    ensures ReportedRow(Deref(x).1) == Deref(x).0
    decreases Depth(x)
  {
    if x.Sub? {
      MovedCursor(x);
      var cur := x.indexes[x.i];
      var diff := cur - x.prev;
      DereferencedReportsItsRow(if diff < 0 then Plus(x.start, cur) else Plus(x.it, diff));
    }
  }

  /** A parsed value, None where it is missing, and the errors it gave rise to. */
  datatype Parsed<V> = Parsed(value: Option<V>, errors: seq<(int, string)>)

  /** The text is missing, parses, or is reported for a row. */
  function ParseText<V>(text: string, row: int, na: seq<string>, parse: string -> Option<V>): Parsed<V>
  {
    if text in na then Parsed(None, [])
    else if parse(text).None? then Parsed(None, [(row, text)])
    else Parsed(parse(text), [])
  }

  /** Parsing the value an iterator stands at. */
  function ParseByIterator<V>(data: int -> string, x: Iter, na: seq<string>, parse: string -> Option<V>): Parsed<V>
    requires Valid(x) && Readable(x)
  {
    var (row, after) := Deref(x);
    ParseText(data(row), ReportedRow(after), na, parse)
  }

  /** Parsing by position: an error is reported for a fresh iterator that was moved but not dereferenced. */
  function ParseByPosition<V>(data: int -> string, begin: Iter, n: nat, na: seq<string>, parse: string -> Option<V>): Parsed<V>
    requires At(begin, n).Some?
  {
    ParseText(data(At(begin, n).value), ReportedRow(Plus(begin, n)), na, parse)
  }

  /** Both ways of parsing yield the same value, and report it for the row their iterators stand at. */
  lemma ParsingByRows<V>(
    data: int -> string, vectors: seq<seq<nat>>, ops: seq<Op>, begin: Iter, p: nat, na: seq<string>,
    parse: string -> Option<V>)
    requires Moved(ops) == p && Compose(vectors, p).Some? && Valid(begin) && Kin(begin, Nest(vectors))
    ensures var x := ApplyAll(Nest(vectors), ops);
            Readable(x) && At(begin, p).Some? &&
            var a, b := ParseByIterator(data, x, na, parse), ParseByPosition(data, begin, p, na, parse);
            a.value == b.value &&
            (a == b <==> a.errors == [] || ReportedRow(Plus(begin, p)) == Compose(vectors, p).value)
  {
    var x := ApplyAll(Nest(vectors), ops);
    LazyAccessAgrees(vectors, ops, p);
    DereferencedReportsItsRow(x);
    AtIsComposed(begin, vectors, p);
  }

  /** On a fresh subset the row reported by position is that of the column's start, whatever the position. */
  lemma SubsetReportsItsStart(vectors: seq<seq<nat>>, p: nat)
    requires vectors != []
    ensures ReportedRow(Plus(Nest(vectors), p)) == 0
    decreases |vectors|
  {
    var inner := vectors[..|vectors| - 1];
    if inner != [] {
      SubsetReportsItsStart(inner, 0);
    }
  }

  /**
   Both ways of parsing yield the same value, whatever was read before. They report the same
   errors if and only if there are none, the column is no subset, or the value lies in row 0:
   the start of a column is never dereferenced, and its cached cursor stays where it was made.
   */
  lemma ParsingAgrees<V>(
    data: int -> string, vectors: seq<seq<nat>>, ops: seq<Op>, p: nat, na: seq<string>, parse: string -> Option<V>)
    requires Moved(ops) == p && Compose(vectors, p).Some?
    ensures var begin, x := Nest(vectors), ApplyAll(Nest(vectors), ops);
            Readable(x) && At(begin, p).Some? &&
            var a, b := ParseByIterator(data, x, na, parse), ParseByPosition(data, begin, p, na, parse);
            a.value == b.value &&
            (a == b <==> a.errors == [] || vectors == [] || Compose(vectors, p) == Some(0))
  {
    KinReflexive(Nest(vectors));
    ParsingByRows(data, vectors, ops, Nest(vectors), p, na, parse);
    if vectors != [] {
      SubsetReportsItsStart(vectors, p);
    }
  }

  /** One row of a subset for which the two disagree. */
  lemma WrongRowReported()
    ensures Compose([[1]], 0) == Some(1) && ReportedRow(Plus(Nest([[1]]), 0)) == 0
  {
    assert [[1]][..0] == [];
  }

  /** A whole number stored in the program's unsigned size type. */
  function ToSize(n: int): (r: nat)
    ensures 0 <= n < CellAccess.SIZE_MAX ==> r == n
    ensures 0 <= n + CellAccess.SIZE_MAX < CellAccess.SIZE_MAX ==> r == CellAccess.SIZE_MAX + n
  {
    if 0 <= n < CellAccess.SIZE_MAX then n
    else if 0 <= n + CellAccess.SIZE_MAX < CellAccess.SIZE_MAX then CellAccess.SIZE_MAX + n
    else n % CellAccess.SIZE_MAX
  }

  /** A one-based position as it comes from the caller. */
  datatype Position = Missing | Whole(number: int) | Double(quantity: real)
  {
    function Value(): real
      requires !Missing?
    {
      match this
      case Whole(n) => n as real
      case Double(x) => x
    }
  }

  /** A number without its fraction. */
  function Truncated(x: real): int
  {
    if x >= 0.0 then x.Floor else -(-x).Floor
  }

  /** The index stored for a position: one less, cut to a whole number, in the size type. */
  function ToIndex(p: Position): nat
    requires !p.Missing?
  {
    match p
    case Whole(n) => ToSize(n - 1)
    case Double(x) => ToSize(Truncated(x - 1.0))
  }

  /** A position in the column gives a row of the column; zero and negative ones give none. */
  lemma RowsComeFromPositions(p: Position, length: nat)
    requires !p.Missing? && length < CellAccess.SIZE_MAX / 2
    requires -((CellAccess.SIZE_MAX / 2) as real) <= p.Value() <= length as real
    ensures ToIndex(p) < length <==> p.Value() > 0.0
    ensures p.Value() >= 1.0 ==> ToIndex(p) == p.Value().Floor - 1
  {
    if p.Double? {
      TruncatedBelow(p.quantity, length);
    }
  }

  lemma TruncatedBelow(x: real, length: nat)
    requires x <= length as real
    ensures if x <= 0.0 then x - 2.0 < Truncated(x - 1.0) as real <= -1.0
            else 0 <= Truncated(x - 1.0) < length && (x >= 1.0 ==> Truncated(x - 1.0) == x.Floor - 1)
  {
  }

  /** The positions turned into an index vector; None where the subset cannot be lazy. */
  method GetSubsetIndex(positions: seq<Position>, length: nat) returns (r: Option<seq<nat>>)
    ensures r.None? <==> exists k :: 0 <= k < |positions| && (positions[k].Missing? || positions[k].Value() > length as real)
    ensures r.Some? ==> |r.value| == |positions| && forall k :: 0 <= k < |positions| ==>
              !positions[k].Missing? && positions[k].Value() <= length as real && r.value[k] == ToIndex(positions[k])
  {
    var idx: seq<nat> := [];
    var k := 0;
    while k < |positions|
      invariant 0 <= k <= |positions| && |idx| == k
      invariant forall j :: 0 <= j < k ==>
                  !positions[j].Missing? && positions[j].Value() <= length as real && idx[j] == ToIndex(positions[j])
    {
      if positions[k].Missing? || positions[k].Value() > length as real {
        return None;
      }
      idx := idx + [ToIndex(positions[k])];
      k := k + 1;
    }
    return Some(idx);
  }
}
