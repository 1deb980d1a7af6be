/**
 The two buffers of a connection. A read goes into the vector first, which is brought to the
 size of the read afterwards: where the vector has to grow, its new elements are zeroes, whatever
 the read has put there.
 */
module ReadBuffers {
  import opened Seqs

  /** What a vector of a given size holds once a read has gone into it and it has been resized. */
  function Resized(size: nat, read: string): (r: string)
    ensures |r| == |read|
  {
    if |read| <= size then read else read[..size] + Fill('\0', |read| - size)
  }

  /** What a connection yields: reads of at least one byte, each leaving room for one byte more. */
  predicate AreReads(arrived: seq<string>, size: nat)
  {
    forall k :: 0 <= k < |arrived| ==> 0 < |arrived[k]| < size
  }

  /** The size of its vector when read k goes into it: that of the read two before, and one byte more. */
  function SizeBefore(arrived: seq<string>, size: nat, k: nat): nat
    requires k <= |arrived|
  {
    if k < 2 then size else |arrived[k - 2]| + 1
  }

  function HeldAt(arrived: seq<string>, k: nat): (r: string)
    requires k < |arrived|
    ensures |r| == |arrived[k]|
  {
    if k < 2 then arrived[k] else Resized(|arrived[k - 2]| + 1, arrived[k])
  }

  /** What the buffers hold of each read. */
  function Held(arrived: seq<string>): (r: seq<string>)
    ensures |r| == |arrived|
  {
    seq(|arrived|, k requires 0 <= k < |arrived| => HeldAt(arrived, k))
  }

  /** The chunks are what the buffers hold, read by read; new vectors have the given size. */
  ghost predicate AreHeld(arrived: seq<string>, size: nat, chunks: seq<string>)
  {
    |chunks| == |arrived| && AreReads(arrived, size) && forall k :: 0 <= k < |arrived| ==> IsHeld(arrived, size, chunks, k)
  }

  predicate IsHeld(arrived: seq<string>, size: nat, chunks: seq<string>, k: nat)
    requires |chunks| == |arrived| && k < |arrived|
  {
    chunks[k] == Resized(SizeBefore(arrived, size, k), arrived[k])
  }

  /** The first two reads fill new vectors, all the others one that has been used. */
  lemma HeldAreHeld(arrived: seq<string>, size: nat, chunks: seq<string>)
    requires AreReads(arrived, size)
    ensures AreHeld(arrived, size, chunks) <==> chunks == Held(arrived)
  {
    hide Resized;
    if |chunks| == |arrived| {
      forall k | 0 <= k < |arrived|
        ensures IsHeld(arrived, size, chunks, k) <==> chunks[k] == Held(arrived)[k]
      {
        HeldAtIsResized(arrived, size, k);
      }
    }
  }

  lemma HeldAtIsResized(arrived: seq<string>, size: nat, k: nat)
    requires AreReads(arrived, size) && k < |arrived|
    ensures HeldAt(arrived, k) == Resized(SizeBefore(arrived, size, k), arrived[k])
  {
  }

  /** What lies behind the old size of the vector is zero already. */
  predicate Survives(arrived: seq<string>, k: nat)
    requires k < |arrived|
  {
    k >= 2 ==> forall i :: |arrived[k - 2]| + 1 <= i < |arrived[k]| ==> arrived[k][i] == '\0'
  }

  predicate AllSurvive(arrived: seq<string>)
  {
    forall k :: 0 <= k < |arrived| ==> Survives(arrived, k)
  }

  /** A read is two or more bytes longer than the one two before. */
  predicate Grows(arrived: seq<string>, k: nat)
    requires k < |arrived|
  {
    k >= 2 && |arrived[k]| > |arrived[k - 2]| + 1
  }

  lemma HeldAtIff(arrived: seq<string>, k: nat)
    requires k < |arrived|
    ensures HeldAt(arrived, k) == arrived[k] <==> Survives(arrived, k)
  {
    if k >= 2 && |arrived[k]| > |arrived[k - 2]| + 1 {
      var size, held := |arrived[k - 2]| + 1, HeldAt(arrived, k);
      assert forall i :: 0 <= i < |held| ==> held[i] == if i < size then arrived[k][i] else '\0';
    }
  }

  /** Every buffer holds what was read, if and only if no read is harmed. */
  lemma HeldIff(arrived: seq<string>)
    ensures Held(arrived) == arrived <==> AllSurvive(arrived)
  {
    forall k | 0 <= k < |arrived|
      ensures Held(arrived)[k] == arrived[k] <==> Survives(arrived, k)
    {
      HeldAtIff(arrived, k);
    }
  }

  /** A text without NUL survives if and only if no read is two or more bytes longer than the one two before. */
  lemma TextSurvivesIff(arrived: seq<string>)
    requires forall k :: 0 <= k < |arrived| ==> '\0' !in arrived[k]
    ensures AllSurvive(arrived) <==> forall k :: 0 <= k < |arrived| ==> !Grows(arrived, k)
  {
    forall k | 0 <= k < |arrived|
      ensures Survives(arrived, k) <==> !Grows(arrived, k)
    {
      if Grows(arrived, k) {
        assert arrived[k][|arrived[k - 2]| + 1] in arrived[k];
      }
    }
  }

  /** Pieces of the same lengths put together are the same text if and only if they are the same. */
  lemma {:induction false} SameTextIff(a: seq<string>, b: seq<string>)
    requires |a| == |b| && forall k {:trigger a[k]} {:trigger b[k]} :: 0 <= k < |a| ==> |a[k]| == |b[k]|
    ensures |Flatten(a)| == |Flatten(b)|
    ensures Flatten(a) == Flatten(b) <==> a == b
  {
    if a != [] {
      var m := |a| - 1;
      SameTextIff(a[..m], b[..m]);
      var x, y := Flatten(a[..m]), Flatten(b[..m]);
      assert Flatten(a) == x + a[m] && Flatten(b) == y + b[m];
      hide Flatten;
      SamePieces(x, a[m], y, b[m]);
      assert a == a[..m] + [a[m]] && b == b[..m] + [b[m]];
    }
  }

  lemma SamePieces(a: string, b: string, c: string, d: string)
    requires |a| == |c|
    ensures a + b == c + d <==> a == c && b == d
  {
    assert (a + b)[..|a|] == a && (a + b)[|a|..] == b;
    assert (c + d)[..|c|] == c && (c + d)[|c|..] == d;
  }

  /** The text that the buffers have held is the text that was read, if and only if no read is harmed. */
  lemma CopyIsInputIff(arrived: seq<string>)
    ensures |Flatten(Held(arrived))| == |Flatten(arrived)|
    ensures Flatten(Held(arrived)) == Flatten(arrived) <==> AllSurvive(arrived)
  {
    HeldIff(arrived);
    SameTextIff(Held(arrived), arrived);
  }
}
