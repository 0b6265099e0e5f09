/** Small facts about sequences of sequences, shared by the other modules. */
module Seqs {

  function Min(a: int, b: int): int
  {
    if a <= b then a else b
  }

  lemma AppendAssoc<T>(a: seq<T>, b: seq<T>, c: seq<T>)
    ensures (a + b) + c == a + (b + c)
  {
  }

  lemma SliceJoin<T>(s: seq<T>, i: nat, j: nat, k: nat)
    requires i <= j <= k <= |s|
    ensures s[i..j] + s[j..k] == s[i..k]
  {
  }

  /** All the inner sequences, one after the other, in order. */
  function Concat<T>(ss: seq<seq<T>>): seq<T>
  {
    if ss == [] then [] else ss[0] + Concat(ss[1..])
  }

  lemma {:induction false} ConcatAppend<T>(a: seq<seq<T>>, b: seq<seq<T>>)
    ensures Concat(a + b) == Concat(a) + Concat(b)
  {
    if a == [] {
      assert a + b == b;
    } else {
      assert (a + b)[1..] == a[1..] + b;
      ConcatAppend(a[1..], b);
    }
  }

  lemma ConcatSnoc<T>(a: seq<seq<T>>, s: seq<T>)
    ensures Concat(a + [s]) == Concat(a) + s
  {
    ConcatAppend(a, [s]);
    assert Concat([s]) == s + Concat([s][1..]);
  }

  lemma {:induction false} ConcatUniformLength<T>(ss: seq<seq<T>>, width: nat)
    requires forall k :: 0 <= k < |ss| ==> |ss[k]| == width
    ensures |Concat(ss)| == |ss| * width
  {
    if ss != [] {
      ConcatUniformLength(ss[1..], width);
      assert |ss| * width == width + (|ss| - 1) * width;
    }
  }

  /** Row-major flattening of rows that all have the same width: row k, column j lands at k * width + j. */
  lemma {:induction false} ConcatUniformAt<T>(ss: seq<seq<T>>, width: nat, k: nat, j: nat)
    requires forall i :: 0 <= i < |ss| ==> |ss[i]| == width
    requires k < |ss| && j < width
    ensures k * width + j < |Concat(ss)|
    ensures Concat(ss)[k * width + j] == ss[k][j]
  {
    ConcatUniformLength(ss, width);
    if k > 0 {
      ConcatUniformAt(ss[1..], width, k - 1, j);
      assert (k - 1) * width == k * width - width;
      assert ss[1..][k - 1] == ss[k];
    }
  }
}
