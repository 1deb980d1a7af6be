/** The ring buffer of the logging queue. One slot stays free to tell a full buffer from an empty one. */
module CircularQueue {
  import opened Arith

  /** What a ring of slots holds between head and tail. */
  function Ring<T>(v: seq<T>, head: nat, tail: nat): (r: seq<T>)
    requires head <= |v| && tail <= |v|
  {
    if head <= tail then v[head..tail] else v[head..] + v[..tail]
  }

  function Following(i: nat, m: nat): nat
  {
    if i + 1 == m then 0 else i + 1
  }

  /** Storing at the tail appends, if the tail does not catch up with the head. */
  lemma StoreWithRoom<T>(v: seq<T>, head: nat, tail: nat, x: T)
    requires head < |v| && tail < |v| && Following(tail, |v|) != head
    ensures Ring(v[tail := x], head, Following(tail, |v|)) == Ring(v, head, tail) + [x]
    ensures |Ring(v, head, tail)| < |v| - 1
  {
    var w := v[tail := x];
    if head <= tail {
      if tail + 1 < |v| {
        assert w[head..tail + 1] == v[head..tail] + [x];
      } else {
        assert w[head..] == v[head..tail] + [x];
      }
    } else {
      assert w[head..] == v[head..];
      assert w[..tail + 1] == v[..tail] + [x];
    }
  }

  /** When it does catch up, the ring was full, and the oldest item gives way. */
  lemma StoreWhenFull<T>(v: seq<T>, head: nat, tail: nat, x: T)
    requires head < |v| && tail < |v| && Following(tail, |v|) == head
    ensures Ring(v[tail := x], Following(head, |v|), head) == (Ring(v, head, tail) + [x])[1..]
    ensures |Ring(v, head, tail)| == |v| - 1
  {
    var a, b := Ring(v[tail := x], Following(head, |v|), head), (Ring(v, head, tail) + [x])[1..];
    assert |a| == |b|;
    forall i | 0 <= i < |a|
      ensures a[i] == b[i]
    {
    }
  }

  /** What storing at the tail does, when the head gives way to a tail that catches up with it. */
  lemma Stored<T>(v: seq<T>, head: nat, tail: nat, x: T)
    requires head < |v| && tail < |v|
    ensures var next, full := Following(tail, |v|), Following(tail, |v|) == head;
            var before := Ring(v, head, tail);
            next == (tail + 1) % |v| < |v| && Following(head, |v|) == (head + 1) % |v| < |v| &&
            (full <==> |before| == |v| - 1) && |before| <= |v| - 1 &&
            Ring(v[tail := x], if full then Following(head, |v|) else head, next)
            == if full then (before + [x])[1..] else before + [x]
  {
    WrapOnce(tail + 1, |v|);
    WrapOnce(head + 1, |v|);
    if Following(tail, |v|) == head {
      StoreWhenFull(v, head, tail, x);
    } else {
      StoreWithRoom(v, head, tail, x);
    }
  }

  class CircularQ<T(0)> {
    var maxItems: nat
    var head: nat
    var tail: nat
    var overrunCounter: nat
    var v: array<T>
    ghost var pushed: nat
    ghost var popped: nat

    ghost predicate Valid()
      reads this
    {
      v.Length == maxItems && (if maxItems == 0 then head == tail == 0 else head < maxItems && tail < maxItems)
    }

    /** The stored items, oldest first. */
    function Contents(): seq<T>
      reads this, v
      requires Valid()
    {
      Ring(v[..], head, tail)
    }

    /** How many items fit; a disabled queue takes none. */
    function Capacity(): nat
      reads this
    {
      if maxItems == 0 then 0 else maxItems - 1
    }

    /** No item is lost without being counted. */
    ghost predicate Conserved()
      reads this, v
      requires Valid()
    {
      pushed == popped + |Contents()| + overrunCounter
    }

    constructor Disabled()
      ensures Valid() && Contents() == [] && Capacity() == 0 && overrunCounter == 0 && Conserved() && fresh(v)
    {
      maxItems, head, tail, overrunCounter := 0, 0, 0, 0;
      v := new T[0];
      pushed, popped := 0, 0;
    }

    constructor (items: nat)
      ensures Valid() && Contents() == [] && Capacity() == items && maxItems == items + 1 && overrunCounter == 0 && Conserved() && fresh(v)
    {
      maxItems, head, tail, overrunCounter := items + 1, 0, 0, 0;
      v := new T[items + 1];
      pushed, popped := 0, 0;
    }

    /** The item goes to the back; where there is no room the oldest item is dropped and counted. */
    method PushBack(item: T)
      requires Valid() && Conserved()
      modifies this, v
      ensures Valid() && Conserved() && v == old(v) && maxItems == old(maxItems) && popped == old(popped)
      ensures maxItems == 0 ==> Contents() == old(Contents()) && overrunCounter == old(overrunCounter)
      ensures maxItems > 0 && |old(Contents())| < Capacity() ==>
                Contents() == old(Contents()) + [item] && overrunCounter == old(overrunCounter)
      ensures maxItems > 0 && |old(Contents())| == Capacity() ==>
                Contents() == (old(Contents()) + [item])[1..] && overrunCounter == old(overrunCounter) + 1
    {
      if maxItems > 0 {
        Stored(v[..], head, tail, item);
        hide Ring, Following;
        v[tail] := item;
        assert v[..] == old(v[..])[old(tail) := item];
        tail := (tail + 1) % maxItems;
        pushed := pushed + 1;
        if tail == head {
          head := (head + 1) % maxItems;
          overrunCounter := overrunCounter + 1;
        }
      }
    }

    method Front() returns (item: T)
      requires Valid() && Contents() != []
      ensures item == Contents()[0]
    {
      item := v[head];
    }

    method Size() returns (n: nat)
      requires Valid()
      ensures n == |Contents()|
    {
      if tail >= head {
        n := tail - head;
      } else {
        n := maxItems - (head - tail);
      }
    }

    method PopFront()
      requires Valid() && Contents() != [] && Conserved()
      modifies this
      ensures Valid() && Conserved() && v == old(v) && maxItems == old(maxItems)
      ensures Contents() == old(Contents())[1..] && overrunCounter == old(overrunCounter) && popped == old(popped) + 1
    {
      WrapOnce(head + 1, maxItems);
      head := (head + 1) % maxItems;
      popped := popped + 1;
    }

    method Empty() returns (r: bool)
      requires Valid()
      ensures r <==> Contents() == []
    {
      r := tail == head;
    }

    /** A queue is full when it holds as many items as fit; a disabled queue is never full. */
    method Full() returns (r: bool)
      requires Valid()
      ensures r <==> maxItems > 0 && |Contents()| == Capacity()
    {
      if maxItems > 0 {
        WrapOnce(tail + 1, maxItems);
        return (tail + 1) % maxItems == head;
      }
      return false;
    }

    /** The items move over, in order, and the other queue is left disabled. */
    method CopyMoveable(other: CircularQ<T>)
      requires Valid() && other.Valid() && other.Conserved() && other != this
      modifies this, other
      ensures Valid() && Conserved() && other.Valid() && other.Conserved()
      ensures Contents() == old(other.Contents()) && maxItems == old(other.maxItems)
      ensures overrunCounter == old(other.overrunCounter)
      ensures other.Contents() == [] && other.Capacity() == 0 && other.overrunCounter == 0
    {
      maxItems, head, tail, overrunCounter := other.maxItems, other.head, other.tail, other.overrunCounter;
      v := other.v;
      pushed, popped := other.pushed, other.popped;
      other.maxItems, other.head, other.tail, other.overrunCounter := 0, 0, 0, 0;
      other.v := new T[0];
      other.pushed, other.popped := 0, 0;
    }
  }
}
