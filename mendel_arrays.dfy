/**
 * Mendel/Mendel/Array+extensions.swift: the second snapshot of the subrange helpers. Its
 * code is the same as the Classes copy, so its methods are specified by the same
 * functions, `ClassesArrays.SubrangeOf` and `ClassesArrays.Spliced`, and inherit their
 * lemmas (swapping twice restores both parents, lengths are kept).
 */
module MendelArrays {
  import Dice
  import opened ClassesArrays

  /** `randomSubrange`: two draws from `0..<count`, swapped into order; an empty array traps. */
  method RandomSubrange<E>(a: seq<E>, u1: real, u2: real) returns (lower: nat, upper: nat)
    requires |a| > 0 && 0.0 <= u1 < 1.0 && 0.0 <= u2 < 1.0
    ensures (lower, upper) == SubrangeOf(|a|, u1, u2)
    ensures lower <= upper <= |a| - 1
  {
    var i1 := Dice.UniformIndex(|a|, u1);
    var i2 := Dice.UniformIndex(|a|, u2);
    if i1 > i2 {
      i1, i2 := i2, i1;
    }
    lower, upper := i1, i2;
  }

  /** `swapRange`: copies both parents and replaces the range of each copy with the other's slice. */
  method SwapRange<E>(a: seq<E>, b: seq<E>, lo: nat, hi: nat) returns (children: seq<seq<E>>)
    requires lo <= hi <= |a| && hi <= |b|
    ensures children == [Spliced(a, b, lo, hi), Spliced(b, a, lo, hi)]
  {
    var childA := a;
    var childB := b;
    childA := childA[..lo] + b[lo..hi] + childA[hi..];
    childB := childB[..lo] + a[lo..hi] + childB[hi..];
    children := [childA, childB];
  }

  /** `swapRandomSubrange`: `swapRange` over a range drawn from `a`'s length. */
  method SwapRandomSubrange<E>(a: seq<E>, b: seq<E>, u1: real, u2: real) returns (children: seq<seq<E>>)
    requires |a| > 0 && 0.0 <= u1 < 1.0 && 0.0 <= u2 < 1.0
    requires SubrangeOf(|a|, u1, u2).1 <= |b|
    ensures var (lo, hi) := SubrangeOf(|a|, u1, u2);
      children == [Spliced(a, b, lo, hi), Spliced(b, a, lo, hi)]
    ensures |children| == 2 && |children[0]| == |a| && |children[1]| == |b|
  {
    var lo, hi := RandomSubrange(a, u1, u2);
    children := SwapRange(a, b, lo, hi);
  }
}
