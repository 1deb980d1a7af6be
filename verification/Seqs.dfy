/** Sequence functions shared by the other modules. */
module Seqs {

  datatype Option<+T> = None | Some(value: T)

  lemma Associative<T>(a: seq<T>, b: seq<T>, c: seq<T>)
    ensures a + b + c == a + (b + c)
  {
  }

  lemma SameFront<T>(a: seq<T>, b: seq<T>, c: seq<T>)
    ensures a + b == a + c <==> b == c
  {
    assert (a + b)[|a|..] == b && (a + c)[|a|..] == c;
  }

  /** The concatenation of a sequence of sequences. */
  function Flatten<T>(ss: seq<seq<T>>): seq<T>
  {
    if ss == [] then [] else Flatten(ss[..|ss| - 1]) + ss[|ss| - 1]
  }

  lemma FlattenPush<T>(ss: seq<seq<T>>, s: seq<T>)
    ensures Flatten(ss + [s]) == Flatten(ss) + s
  {
    assert (ss + [s])[..|ss|] == ss;
  }

  lemma {:induction false} FlattenAppend<T>(a: seq<seq<T>>, b: seq<seq<T>>)
    ensures Flatten(a + b) == Flatten(a) + Flatten(b)
  {
    if b == [] {
      assert a + b == a;
    } else {
      var m := |b| - 1;
      FlattenAppend(a, b[..m]);
      assert a + b == a + b[..m] + [b[m]];
      FlattenPush(a + b[..m], b[m]);
    }
  }

  lemma FlattenHead<T>(s: seq<T>, b: seq<seq<T>>)
    ensures Flatten([s] + b) == s + Flatten(b)
  {
    FlattenAppend([s], b);
    FlattenPush([], s);
  }

  /** n copies of x. */
  function Fill<T>(x: T, n: nat): (s: seq<T>)
    ensures |s| == n
    ensures forall i :: 0 <= i < n ==> s[i] == x
  {
    seq(n, _ => x)
  }

  /** The parts of `parts` with `sep` between neighbours. */
  function Join(parts: seq<string>, sep: string): string
  {
    if parts == [] then ""
    else if |parts| == 1 then parts[0]
    else Join(parts[..|parts| - 1], sep) + sep + parts[|parts| - 1]
  }

  /** The first position at or after pos that holds c, or |src| when there is none. */
  function IndexFrom(src: string, pos: nat, c: char): (r: nat)
    requires pos <= |src|
    ensures pos <= r <= |src|
    ensures r < |src| ==> src[r] == c
    ensures forall i :: pos <= i < r ==> src[i] != c
    decreases |src| - pos
  {
    if pos == |src| || src[pos] == c then pos else IndexFrom(src, pos + 1, c)
  }
}
