/** Sequential numbering: one more than the largest number in use, or 1 when none is. */
module Numbering {
  /** The largest element, or 0 for none (the `or 0` of an empty aggregate). */
  function MaxOr0(xs: seq<nat>): (m: nat)
    ensures forall i :: 0 <= i < |xs| ==> xs[i] <= m
    ensures xs == [] ==> m == 0
    ensures xs != [] ==> m in xs
  {
    if xs == [] then 0
    else
      var rest := MaxOr0(xs[1..]);
      if xs[0] >= rest then xs[0] else rest
  }

  /** max + 1, or 1 when there is no number yet. */
  function NextNumber(xs: seq<nat>): (r: nat)
    ensures r >= 1
    ensures forall i :: 0 <= i < |xs| ==> xs[i] < r
    ensures xs == [] ==> r == 1
    ensures xs != [] ==> r - 1 in xs
  {
    MaxOr0(xs) + 1
  }

  /** The next number is the least number above every number in use. */
  lemma NextNumberIsLeast(xs: seq<nat>, n: nat)
    requires n >= 1
    requires forall i :: 0 <= i < |xs| ==> xs[i] < n
    ensures NextNumber(xs) <= n
  {
  }
}
