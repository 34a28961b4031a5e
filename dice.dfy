/**
 * Mendel/Classes/Dice.swift: the probability helpers. Every random draw is an explicit
 * argument: a uniform integer draw from `0..<n` is a real `u` in [0, 1) mapped to
 * `Floor(u · n)`, and `Probability.random(in: 0.0...1.0)` is a real in the closed [0, 1].
 */
module Dice {
  import opened Wrappers

  /** `Probability` is a Swift `Float`, modelled as an exact real. */
  type Probability = real

  /** A draw of `Int.random(in: 0..<n)` (or `arc4random_uniform(n)` for `n > 0`). */
  function UniformIndex(n: nat, u: real): (r: nat)
    requires n > 0 && 0.0 <= u < 1.0
    ensures r < n
    ensures r as real <= u * n as real < r as real + 1.0
  {
    MulBelow(u, n);
    (u * n as real).Floor
  }

  lemma MulBelow(u: real, n: nat)
    requires 0.0 <= u < 1.0
    ensures 0.0 <= u * n as real
    ensures n > 0 ==> u * n as real < n as real
  {
  }

  /** Every index is drawn for some `u`: `k / n` maps to `k`. */
  lemma UniformIndexIsOnto(n: nat, k: nat)
    requires k < n
    ensures 0.0 <= k as real / n as real < 1.0
    ensures UniformIndex(n, k as real / n as real) == k
  {
    var u := k as real / n as real;
    assert u * n as real == k as real;
  }

  /** `arc4random_uniform(n)`: a value in `0..<n`, and 0 when `n` is 0. */
  function Arc4RandomUniform(n: nat, u: real): (r: nat)
    requires 0.0 <= u < 1.0
    ensures n == 0 ==> r == 0
    ensures n > 0 ==> r < n
  {
    if n == 0 then 0 else UniformIndex(n, u)
  }

  /** `coinFlip`: heads on the lower half of the draw. */
  function CoinFlip(u: real): (r: bool)
    requires 0.0 <= u < 1.0
    ensures r <==> u < 0.5
  {
    Arc4RandomUniform(2, u) == 0
  }

  /** `roll`: certain at probability 1, impossible at 0, otherwise true when the draw is below `p`. */
  function Roll(p: Probability, u: real): (r: bool)
    requires 0.0 <= u <= 1.0
    ensures p == 1.0 ==> r
    ensures p == 0.0 ==> !r
    ensures p != 0.0 && p != 1.0 ==> (r <==> u < p)
    ensures r ==> p > 0.0
    ensures p > 1.0 ==> r
  {
    if p == 1.0 then true
    else if p == 0.0 then false
    else p > u
  }

  /** A larger probability succeeds on every draw a smaller one succeeds on. */
  lemma RollIsMonotone(p: Probability, q: Probability, u: real)
    requires 0.0 <= u <= 1.0 && p <= q
    requires Roll(p, u)
    ensures Roll(q, u)
  {
  }

  /** `random(from:to:)` for `Int`: a value in the closed range. An empty range traps. */
  function RandomInt(from: int, to: int, u: real): (r: int)
    requires from <= to && 0.0 <= u < 1.0
    ensures from <= r <= to
  {
    from + UniformIndex(to - from + 1, u)
  }

  /** Every value of the closed range can be drawn. */
  lemma RandomIntIsOnto(from: int, to: int, v: int)
    requires from <= v <= to
    ensures exists u :: 0.0 <= u < 1.0 && RandomInt(from, to, u) == v
  {
    UniformIndexIsOnto(to - from + 1, v - from);
    var u := (v - from) as real / (to - from + 1) as real;
    assert RandomInt(from, to, u) == v;
  }

  /** `random(from:to:)` for `Float` and `Double`: a real in the closed range. */
  function RandomReal(from: real, to: real, u: real): (r: real)
    requires from <= to && 0.0 <= u <= 1.0
    ensures from <= r <= to
    ensures u == 0.0 ==> r == from
    ensures u == 1.0 ==> r == to
  {
    var d := to - from;
    MulBetween(u, d);
    from + u * d
  }

  lemma MulBetween(u: real, d: real)
    requires 0.0 <= u <= 1.0 && 0.0 <= d
    ensures 0.0 <= u * d <= d
  {
  }

  /** `pickRandom`: an element at an index in `0..<count`; an empty array traps. */
  function PickRandom<T>(a: seq<T>, u: real): (r: T)
    requires |a| > 0 && 0.0 <= u < 1.0
    ensures r in a
  {
    a[UniformIndex(|a|, u)]
  }

  /** Every element of the array can be picked. */
  lemma PickRandomIsOnto<T>(a: seq<T>, k: nat)
    requires k < |a|
    ensures exists u :: 0.0 <= u < 1.0 && PickRandom(a, u) == a[k]
  {
    UniformIndexIsOnto(|a|, k);
    assert PickRandom(a, k as real / |a| as real) == a[k];
  }

  /** `withProbability`: the value when the roll succeeds, nil otherwise. */
  function WithProbability<R>(p: Probability, u: real, f: R): (r: Option<R>)
    requires 0.0 <= u <= 1.0
    ensures r.Some? <==> Roll(p, u)
    ensures r.Some? ==> r.value == f
  {
    if Roll(p, u) then Some(f) else None
  }

  /** `chooseWithProbability`: `f` when the roll succeeds, `g` otherwise. */
  function ChooseWithProbability<R>(p: Probability, u: real, f: R, g: R): (r: R)
    requires 0.0 <= u <= 1.0
    ensures Roll(p, u) ==> r == f
    ensures !Roll(p, u) ==> r == g
    ensures p == 1.0 ==> r == f
    ensures p == 0.0 ==> r == g
  {
    if Roll(p, u) then f else g
  }

  /** The two helpers agree: choosing is withProbability with `g` as the fallback. */
  lemma ChooseIsWithProbabilityOrElse<R>(p: Probability, u: real, f: R, g: R)
    requires 0.0 <= u <= 1.0
    ensures ChooseWithProbability(p, u, f, g) ==
      match WithProbability(p, u, f) case Some(x) => x case None => g
  {
  }

  /**
   * `pickFromRange`: walks `lo..<hi` in order, keeping `i` when the roll on draw
   * `draws[i - lo]` succeeds. The result is strictly increasing and holds exactly the
   * indices whose roll succeeded.
   */
  method PickFromRange(lo: int, hi: int, p: Probability, draws: seq<real>) returns (selected: seq<int>)
    requires lo <= hi && |draws| >= hi - lo
    requires forall k :: 0 <= k < |draws| ==> 0.0 <= draws[k] <= 1.0
    ensures forall a, b :: 0 <= a < b < |selected| ==> selected[a] < selected[b]
    ensures forall k :: 0 <= k < |selected| ==> lo <= selected[k] < hi
    ensures forall i :: lo <= i < hi ==> (i in selected <==> Roll(p, draws[i - lo]))
    ensures p == 1.0 ==> |selected| == hi - lo && forall k :: 0 <= k < |selected| ==> selected[k] == lo + k
    ensures p == 0.0 ==> selected == []
  {
    selected := [];
    var i := lo;
    while i < hi
      invariant lo <= i <= hi
      invariant forall a, b :: 0 <= a < b < |selected| ==> selected[a] < selected[b]
      invariant forall k :: 0 <= k < |selected| ==> lo <= selected[k] < i
      invariant forall j :: lo <= j < i ==> (j in selected <==> Roll(p, draws[j - lo]))
      invariant p == 1.0 ==> |selected| == i - lo && forall k :: 0 <= k < |selected| ==> selected[k] == lo + k
      invariant p == 0.0 ==> selected == []
    {
      var picked := WithProbability(p, draws[i - lo], i);
      if picked.Some? {
        selected := selected + [picked.value];
      }
      i := i + 1;
    }
  }
}
