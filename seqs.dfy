/** Generic facts about sequences shared by the classifiers and the poll loop. */
module Seqs {

  /**
   * The index Python's `max(d, key=d.get)` picks when `d` holds `values` in
   * iteration order: the first maximal one (a later entry replaces the
   * current best only when it is strictly greater).
   */
  function FirstArgmax(values: seq<int>): (i: nat)
    requires |values| > 0
    ensures i < |values|
    ensures forall j :: 0 <= j < |values| ==> values[j] <= values[i]
    ensures forall j :: 0 <= j < i ==> values[j] < values[i]
    decreases |values|
  {
    if |values| == 1 then 0
    else
      var best := FirstArgmax(values[..|values| - 1]);
      if values[|values| - 1] > values[best] then |values| - 1 else best
  }

  /** The first maximal entry is determined by the two properties above. */
  lemma FirstArgmaxUnique(values: seq<int>, i: nat)
    requires i < |values|
    requires forall j :: 0 <= j < |values| ==> values[j] <= values[i]
    requires forall j :: 0 <= j < i ==> values[j] < values[i]
    ensures FirstArgmax(values) == i
  {
  }

  /** `a` keeps a selection of the elements of `b`, in the order `b` has them. */
  predicate IsSubsequence<T(==)>(a: seq<T>, b: seq<T>)
    decreases |b|
  {
    if a == [] then true
    else if b == [] then false
    else if a[0] == b[0] then IsSubsequence(a[1..], b[1..])
    else IsSubsequence(a, b[1..])
  }

  /** Dropping the first element of a subsequence leaves a subsequence. */
  lemma {:induction false} SubsequenceDropFirst<T>(a: seq<T>, b: seq<T>)
    requires a != [] && IsSubsequence(a, b)
    ensures IsSubsequence(a[1..], b)
    decreases |b|, 0
  {
    assert [b[0]] + b[1..] == b;
    if a[0] == b[0] {
      SubsequenceWiden(a[1..], b[1..], b[0]);
    } else {
      SubsequenceDropFirst(a, b[1..]);
      SubsequenceWiden(a[1..], b[1..], b[0]);
    }
  }

  /** A subsequence of `b` is a subsequence of `b` with one more element in front. */
  lemma {:induction false} SubsequenceWiden<T>(a: seq<T>, b: seq<T>, x: T)
    requires IsSubsequence(a, b)
    ensures IsSubsequence(a, [x] + b)
    decreases |b|, 1
  {
    assert ([x] + b)[1..] == b;
    if a != [] && a[0] == x {
      SubsequenceDropFirst(a, b);
    }
  }

  /** No element occurs twice. */
  predicate NoDuplicates<T(==)>(s: seq<T>)
  {
    forall i, j :: 0 <= i < j < |s| ==> s[i] != s[j]
  }

  /** The elements in the opposite order: what repeated `list.pop()` yields. */
  function Reversed<T>(s: seq<T>): (r: seq<T>)
    ensures |r| == |s|
    ensures forall k :: 0 <= k < |s| ==> r[k] == s[|s| - 1 - k]
    decreases |s|
  {
    if s == [] then [] else [s[|s| - 1]] + Reversed(s[..|s| - 1])
  }
}
