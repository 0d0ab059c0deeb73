/**
 * Sequence helpers shared by the modules: JavaScript's `Array.prototype.findIndex`,
 * list concatenation (`flat`, Python's repeated `append`) and subsequences (`filter`).
 */
module Seqs {

  /** `s.findIndex(p)`: the first index whose element satisfies `p`, or -1. */
  function FindIndex<T>(s: seq<T>, p: T -> bool): (i: int)
    ensures -1 <= i < |s|
    ensures i == -1 ==> forall k :: 0 <= k < |s| ==> !p(s[k])
    ensures 0 <= i ==> p(s[i]) && forall k :: 0 <= k < i ==> !p(s[k])
  {
    if |s| == 0 then -1
    else if p(s[0]) then 0
    else
      var j := FindIndex(s[1..], p);
      assert forall k :: 1 <= k < |s| ==> s[k] == s[1..][k - 1];
      if j == -1 then -1 else j + 1
  }

  /** The concatenation of a list of lists, in order. */
  function Flatten<T>(ss: seq<seq<T>>): seq<T>
  {
    if |ss| == 0 then [] else Flatten(ss[..|ss| - 1]) + ss[|ss| - 1]
  }

  /** The sum of the lengths of the inner lists. */
  function SumLengths<T>(ss: seq<seq<T>>): nat
  {
    if |ss| == 0 then 0 else SumLengths(ss[..|ss| - 1]) + |ss[|ss| - 1]|
  }

  lemma FlattenSnoc<T>(ss: seq<seq<T>>, s: seq<T>)
    ensures Flatten(ss + [s]) == Flatten(ss) + s
  {
    assert (ss + [s])[..|ss|] == ss;
  }

  /** Flattening is compatible with splitting the outer list anywhere. */
  lemma {:induction false} FlattenAppend<T>(ss: seq<seq<T>>, tt: seq<seq<T>>)
    ensures Flatten(ss + tt) == Flatten(ss) + Flatten(tt)
    decreases |tt|
  {
    if |tt| == 0 {
      assert ss + tt == ss;
    } else {
      var init := tt[..|tt| - 1];
      assert ss + tt == (ss + init) + [tt[|tt| - 1]];
      FlattenSnoc(ss + init, tt[|tt| - 1]);
      FlattenAppend(ss, init);
      FlattenSnoc(init, tt[|tt| - 1]);
      assert tt == init + [tt[|tt| - 1]];
    }
  }

  /** The flattened list is as long as all inner lists together. */
  lemma {:induction false} FlattenLength<T>(ss: seq<seq<T>>)
    ensures |Flatten(ss)| == SumLengths(ss)
  {
    if |ss| > 0 {
      FlattenLength(ss[..|ss| - 1]);
    }
  }

  /**
   * Element `i` of inner list `k` sits in the flattened list right after all
   * elements of the lists before it.
   */
  lemma {:induction false} FlattenAt<T>(ss: seq<seq<T>>, k: nat, i: nat)
    requires k < |ss| && i < |ss[k]|
    ensures SumLengths(ss[..k]) + i < |Flatten(ss)|
    ensures Flatten(ss)[SumLengths(ss[..k]) + i] == ss[k][i]
    decreases |ss|
  {
    var n := |ss| - 1;
    var init := ss[..n];
    FlattenLength(init);
    if k == n {
      assert ss[..k] == init;
    } else {
      assert init[..k] == ss[..k];
      FlattenAt(init, k, i);
    }
  }

  /** `a` is obtained from `b` by deleting elements, keeping the order. */
  predicate IsSubsequence<T(==)>(a: seq<T>, b: seq<T>)
    decreases |b|
  {
    if |a| == 0 then true
    else if |b| == 0 then false
    else if a[0] == b[0] then IsSubsequence(a[1..], b[1..])
    else IsSubsequence(a, b[1..])
  }
}
