/** Small sequence vocabulary shared by the models. */
module Sequences {

  datatype Option<+T> = None | Some(value: T)

  /** All batches, first to last, laid end to end. */
  function Flatten<T>(xss: seq<seq<T>>): seq<T> {
    if xss == [] then [] else Flatten(xss[..|xss| - 1]) + xss[|xss| - 1]
  }

  lemma FlattenSnoc<T>(xss: seq<seq<T>>, xs: seq<T>)
    ensures Flatten(xss + [xs]) == Flatten(xss) + xs
  {
    assert (xss + [xs])[..|xss|] == xss;
  }

  /** The elements of xs at the given positions, in the order of the positions. */
  ghost function Pick<T>(xs: seq<T>, at: seq<nat>): (r: seq<T>)
    requires forall i :: i in at ==> i < |xs|
    ensures |r| == |at| && forall k :: 0 <= k < |at| ==> at[k] in at && r[k] == xs[at[k]]
  {
    seq(|at|, k requires 0 <= k < |at| => assert at[k] in at; xs[at[k]])
  }

  lemma PickExtend<T>(xs: seq<T>, ys: seq<T>, at: seq<nat>)
    requires forall i :: i in at ==> i < |xs|
    requires xs <= ys
    ensures Pick(ys, at) == Pick(xs, at)
  {
    assert forall i :: 0 <= i < |xs| ==> ys[i] == xs[i];
  }

  lemma PickConcat<T>(xs: seq<T>, a: seq<nat>, b: seq<nat>)
    requires forall i :: i in a + b ==> i < |xs|
    ensures forall i :: i in a || i in b ==> i < |xs|
    ensures Pick(xs, a + b) == Pick(xs, a) + Pick(xs, b)
  {
    assert forall i :: i in a || i in b ==> i in a + b;
  }

  /** xs without its j-th element. */
  function Without<T>(xs: seq<T>, j: nat): (r: seq<T>)
    requires j < |xs|
    ensures |r| == |xs| - 1
    ensures forall k :: 0 <= k < |r| ==> r[k] == xs[if k < j then k else k + 1]
    ensures forall x :: x in r ==> x in xs
    ensures forall x :: x in xs ==> x == xs[j] || x in r
    ensures multiset(xs) == multiset{xs[j]} + multiset(r)
  {
    assert xs == xs[..j] + [xs[j]] + xs[j + 1..];
    xs[..j] + xs[j + 1..]
  }

  ghost predicate Distinct<T>(xs: seq<T>) {
    forall i, j :: 0 <= i < j < |xs| ==> xs[i] != xs[j]
  }
}
