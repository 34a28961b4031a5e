/**
 * Mendel/Classes/Array+extensions.swift: random subranges, two-point subrange swapping,
 * roulette-wheel index choice over weights, and normalisation.
 */
module ClassesArrays {
  import opened Core
  import Dice

  /**
   * The range `randomSubrange` returns for draws `u1`, `u2`: two indices drawn from
   * `0..<count`, ordered. The upper bound is at most `count - 1`, so the last element
   * is never inside the range.
   */
  function SubrangeOf(count: nat, u1: real, u2: real): (r: (nat, nat))
    requires count > 0 && 0.0 <= u1 < 1.0 && 0.0 <= u2 < 1.0
    ensures r.0 <= r.1 < count
    ensures {r.0, r.1} == {Dice.UniformIndex(count, u1), Dice.UniformIndex(count, u2)}
  {
    var i1 := Dice.UniformIndex(count, u1);
    var i2 := Dice.UniformIndex(count, u2);
    if i1 > i2 then (i2, i1) else (i1, i2)
  }

  /** `randomSubrange`: draws two indices and swaps them into order. An empty array traps. */
  method RandomSubrange<E>(a: seq<E>, u1: real, u2: real) returns (lo: nat, hi: nat)
    requires |a| > 0 && 0.0 <= u1 < 1.0 && 0.0 <= u2 < 1.0
    ensures (lo, hi) == SubrangeOf(|a|, u1, u2)
    ensures lo <= hi <= |a| - 1
  {
    var i1 := Dice.UniformIndex(|a|, u1);
    var i2 := Dice.UniformIndex(|a|, u2);
    if i1 > i2 {
      i1, i2 := i2, i1;
    }
    lo, hi := i1, i2;
  }

  /**
   * `x.replaceSubrange(lo..<hi, with: y[lo..<hi])`: `x` outside the range, `y` inside it.
   * The range must lie within both arrays, or the slice or the replacement traps.
   */
  function Spliced<E>(x: seq<E>, y: seq<E>, lo: nat, hi: nat): (r: seq<E>)
    requires lo <= hi <= |x| && hi <= |y|
    ensures |r| == |x|
    ensures forall i :: 0 <= i < |x| ==> r[i] == if lo <= i < hi then y[i] else x[i]
  {
    x[..lo] + y[lo..hi] + x[hi..]
  }

  /**
   * `swapRange`: two children, `a` with `b`'s slice `lo..<hi` and `b` with `a`'s. Both
   * keep their lengths.
   */
  method SwapRange<E>(a: seq<E>, b: seq<E>, lo: nat, hi: nat) returns (children: seq<seq<E>>)
    requires lo <= hi <= |a| && hi <= |b|
    ensures children == [Spliced(a, b, lo, hi), Spliced(b, a, lo, hi)]
    ensures |children[0]| == |a| && |children[1]| == |b|
  {
    var childA := a;
    var childB := b;
    childA := childA[..lo] + b[lo..hi] + childA[hi..];
    childB := childB[..lo] + a[lo..hi] + childB[hi..];
    children := [childA, childB];
  }

  /** Swapping the same range twice gives back both parents. */
  lemma {:induction false} SwapTwiceRestores<E>(a: seq<E>, b: seq<E>, lo: nat, hi: nat)
    requires lo <= hi <= |a| && hi <= |b|
    ensures Spliced(Spliced(a, b, lo, hi), Spliced(b, a, lo, hi), lo, hi) == a
    ensures Spliced(Spliced(b, a, lo, hi), Spliced(a, b, lo, hi), lo, hi) == b
  {
    var ca := Spliced(a, b, lo, hi);
    var cb := Spliced(b, a, lo, hi);
    var ra := Spliced(ca, cb, lo, hi);
    var rb := Spliced(cb, ca, lo, hi);
    assert forall i :: 0 <= i < |a| ==> ra[i] == a[i];
    assert forall i :: 0 <= i < |b| ==> rb[i] == b[i];
  }

  /** Together the children hold exactly the parents' genes at each position. */
  lemma SwapKeepsGenesPerPosition<E>(a: seq<E>, b: seq<E>, lo: nat, hi: nat, i: nat)
    requires lo <= hi <= |a| && hi <= |b| && i < |a| && i < |b|
    ensures multiset{Spliced(a, b, lo, hi)[i], Spliced(b, a, lo, hi)[i]} == multiset{a[i], b[i]}
  {
  }

  /**
   * `swapRandomSubrange`: `swapRange` over a range drawn from `a`'s length, so `b` must
   * reach at least that range's upper bound.
   */
  method SwapRandomSubrange<E>(a: seq<E>, b: seq<E>, u1: real, u2: real) returns (children: seq<seq<E>>)
    requires |a| > 0 && 0.0 <= u1 < 1.0 && 0.0 <= u2 < 1.0
    requires SubrangeOf(|a|, u1, u2).1 <= |b|
    ensures var (lo, hi) := SubrangeOf(|a|, u1, u2);
      children == [Spliced(a, b, lo, hi), Spliced(b, a, lo, hi)]
    ensures |children| == 2 && |children[0]| == |a| && |children[1]| == |b|
    ensures children[0][|a| - 1] == a[|a| - 1]
  {
    var lo, hi := RandomSubrange(a, u1, u2);
    children := SwapRange(a, b, lo, hi);
  }

  /** The running total of `weightedRandomIndex` after index `i`: `w[0] + … + w[i]` in IEEE terms. */
  function RunningTotal(ws: seq<Double>, i: nat): (t: Double)
    requires i < |ws| && forall k :: 0 <= k < |ws| ==> NotNegative(ws[k])
    ensures NotNegative(t)
    ensures (forall k :: 0 <= k <= i ==> ws[k].Real?) ==> t.Real?
  {
    if i == 0 then ws[0] else Add(RunningTotal(ws, i - 1), ws[i])
  }

  /** Index `i >= 1` takes over the choice when its draw is at most its share of the running total. */
  predicate Accepts(ws: seq<Double>, draws: seq<real>, i: nat)
    requires 1 <= i < |ws| && |draws| >= |ws| - 1
    requires forall k :: 0 <= k < |ws| ==> NotNegative(ws[k])
  {
    AtMost(Real(draws[i - 1]), Div(ws[i], RunningTotal(ws, i)))
  }

  /** The choice after index `i`: the last accepting index up to `i`, or 0. */
  function Chosen(ws: seq<Double>, draws: seq<real>, i: nat): (r: nat)
    requires i < |ws| && |draws| >= |ws| - 1
    requires forall k :: 0 <= k < |ws| ==> NotNegative(ws[k])
    ensures r <= i
    ensures r > 0 ==> Accepts(ws, draws, r)
    ensures forall j :: r < j <= i ==> !Accepts(ws, draws, j)
  {
    if i == 0 then 0
    else if Accepts(ws, draws, i) then i
    else Chosen(ws, draws, i - 1)
  }

  /**
   * `weightedRandomIndex` (Double): a running total starting at `self[0]`; each later
   * index replaces the choice when its draw is at most `self[i] / total`. A non-empty
   * array is required (`self[0]`); weights are non-negative.
   */
  method WeightedRandomIndex(ws: seq<Double>, draws: seq<real>) returns (selected: nat)
    requires |ws| > 0 && |draws| >= |ws| - 1
    requires forall k :: 0 <= k < |ws| ==> NotNegative(ws[k])
    requires forall k :: 0 <= k < |draws| ==> 0.0 <= draws[k] <= 1.0
    ensures selected < |ws|
    ensures selected == Chosen(ws, draws, |ws| - 1)
    ensures |ws| == 1 ==> selected == 0
  {
    selected := 0;
    var total := ws[0];
    for i := 1 to |ws|
      invariant total == RunningTotal(ws, i - 1)
      invariant selected == Chosen(ws, draws, i - 1)
    {
      total := Add(total, ws[i]);
      if AtMost(Real(draws[i - 1]), Div(ws[i], total)) {
        selected := i;
      }
    }
  }

  /**
   * A zero weight after the first is chosen only by a draw of exactly 0, and then only
   * while the total is still finite and positive.
   */
  lemma ZeroWeightNeedsZeroDraw(ws: seq<Double>, draws: seq<real>, i: nat)
    requires 1 <= i < |ws| && |draws| >= |ws| - 1
    requires forall k :: 0 <= k < |ws| ==> NotNegative(ws[k])
    requires forall k :: 0 <= k < |draws| ==> 0.0 <= draws[k] <= 1.0
    requires ws[i] == Real(0.0)
    requires Accepts(ws, draws, i)
    ensures draws[i - 1] == 0.0
  {
  }

  /**
   * Once the running total is infinite, no later index can take over except on a draw
   * of 0, and an infinite weight after the first is never chosen at all.
   */
  lemma InfiniteTotalBlocks(ws: seq<Double>, draws: seq<real>, i: nat)
    requires 1 <= i < |ws| && |draws| >= |ws| - 1
    requires forall k :: 0 <= k < |ws| ==> NotNegative(ws[k])
    requires forall k :: 0 <= k < |draws| ==> 0.0 <= draws[k] <= 1.0
    requires RunningTotal(ws, i).PosInf?
    ensures ws[i].PosInf? ==> !Accepts(ws, draws, i)
    ensures Accepts(ws, draws, i) ==> draws[i - 1] == 0.0
  {
  }

  /** A positive finite weight is accepted whenever the draw is below its share. */
  lemma PositiveShareCanWin(ws: seq<Double>, draws: seq<real>, i: nat)
    requires 1 <= i < |ws| && |draws| >= |ws| - 1
    requires forall k :: 0 <= k < |ws| ==> ws[k].Real? && ws[k].v >= 0.0
    requires ws[i].v > 0.0
    ensures RunningTotal(ws, i).Real? && RunningTotal(ws, i).v >= ws[i].v
    ensures Accepts(ws, draws, i) <==> draws[i - 1] * RunningTotal(ws, i).v <= ws[i].v
  {
    TotalIsSum(ws, i);
    var t := RunningTotal(ws, i).v;
    assert t > 0.0;
    DivShare(draws[i - 1], ws[i].v, t);
  }

  lemma DivShare(u: real, w: real, t: real)
    requires t > 0.0
    ensures u <= w / t <==> u * t <= w
  {
    assert (w / t) * t == w;
    if u <= w / t {
      assert u * t <= (w / t) * t;
    } else {
      assert u * t > (w / t) * t;
    }
  }

  /** With finite non-negative weights the running total is their sum and bounds each of them. */
  lemma {:induction false} TotalIsSum(ws: seq<Double>, i: nat)
    requires i < |ws|
    requires forall k :: 0 <= k < |ws| ==> ws[k].Real? && ws[k].v >= 0.0
    ensures RunningTotal(ws, i).Real? && RunningTotal(ws, i).v >= 0.0
    ensures forall k :: 0 <= k <= i ==> ws[k].v <= RunningTotal(ws, i).v
  {
    if i > 0 {
      TotalIsSum(ws, i - 1);
    }
  }

  /** The `Float` overload converts each weight to `Double` and delegates. */
  method WeightedRandomIndexFloat(ws: seq<real>, draws: seq<real>) returns (selected: nat)
    requires |ws| > 0 && |draws| >= |ws| - 1
    requires forall k :: 0 <= k < |ws| ==> ws[k] >= 0.0
    requires forall k :: 0 <= k < |draws| ==> 0.0 <= draws[k] <= 1.0
    ensures selected < |ws|
    ensures selected == Chosen(AsDoubles(ws), draws, |ws| - 1)
  {
    selected := WeightedRandomIndex(AsDoubles(ws), draws);
  }

  function AsDoubles(ws: seq<real>): (ds: seq<Double>)
    ensures |ds| == |ws| && forall k :: 0 <= k < |ws| ==> ds[k] == Real(ws[k])
  {
    seq(|ws|, k requires 0 <= k < |ws| => Real(ws[k]))
  }

  /** `reduce(0, +)`. */
  function Sum(xs: seq<real>): real
  {
    if xs == [] then 0.0 else Sum(xs[..|xs| - 1]) + xs[|xs| - 1]
  }

  /** Each element divided by the sum. */
  function Scaled(xs: seq<real>, s: real): (r: seq<real>)
    requires s != 0.0
    ensures |r| == |xs| && forall k :: 0 <= k < |xs| ==> r[k] * s == xs[k]
  {
    seq(|xs|, k requires 0 <= k < |xs| => xs[k] / s)
  }

  /** Each element's complement `1 - x`. */
  function Complements(xs: seq<real>): (r: seq<real>)
    ensures |r| == |xs| && forall k :: 0 <= k < |xs| ==> r[k] + xs[k] == 1.0
  {
    seq(|xs|, k requires 0 <= k < |xs| => 1.0 - xs[k])
  }

  /**
   * `normalized(inverted:)`: each weight divided by the sum; the inverted variant
   * normalises `1 - x` of those shares again. A zero sum (NaN shares in the source) is
   * excluded, and so, for the inverted variant, is a single weight, whose complements
   * sum to 0.
   */
  function Normalized(xs: seq<real>, inverted: bool): (r: seq<real>)
    requires Sum(xs) != 0.0
    requires inverted ==> |xs| != 1
    ensures |r| == |xs|
    ensures Sum(r) == 1.0
    ensures !inverted ==> forall k :: 0 <= k < |xs| ==> r[k] * Sum(xs) == xs[k]
    ensures inverted ==> forall k :: 0 <= k < |xs| ==> r[k] == (1.0 - xs[k] / Sum(xs)) / (|xs| as real - 1.0)
  {
    var shares := Scaled(xs, Sum(xs));
    SharesSumToOne(xs);
    if inverted then
      var cs := Complements(shares);
      InvertedEntries(xs);
      SharesSumToOne(cs);
      Scaled(cs, Sum(cs))
    else
      shares
  }

  /**
   * The complements of the shares sum to `n - 1`, so each renormalised complement is
   * `(1 - x / sum) / (n - 1)`.
   */
  lemma InvertedEntries(xs: seq<real>)
    requires Sum(xs) != 0.0 && |xs| != 1
    ensures var cs := Complements(Scaled(xs, Sum(xs)));
      Sum(cs) == |xs| as real - 1.0 && Sum(cs) != 0.0
      && forall k :: 0 <= k < |xs| ==> Scaled(cs, Sum(cs))[k] == (1.0 - xs[k] / Sum(xs)) / (|xs| as real - 1.0)
  {
    var s := Sum(xs);
    var shares := Scaled(xs, s);
    var cs := Complements(shares);
    SharesSumToOne(xs);
    SumComplements(shares);
    assert |xs| >= 2;
    var t := Sum(cs);
    assert t == |xs| as real - 1.0;
    forall k | 0 <= k < |xs|
      ensures Scaled(cs, t)[k] == (1.0 - xs[k] / s) / (|xs| as real - 1.0)
    {
      assert shares[k] == xs[k] / s;
      assert cs[k] == 1.0 - xs[k] / s;
      InvertedEntryAt(xs, s, cs, t, k);
    }
  }

  /** One renormalised complement, with the sums already known. */
  lemma InvertedEntryAt(xs: seq<real>, s: real, cs: seq<real>, t: real, k: nat)
    requires s != 0.0 && t != 0.0 && t == |xs| as real - 1.0
    requires k < |xs| == |cs| && cs[k] == 1.0 - xs[k] / s
    ensures Scaled(cs, t)[k] == (1.0 - xs[k] / s) / (|xs| as real - 1.0)
  {
  }

  /** Dividing every element by a non-zero sum gives shares that sum to 1. */
  lemma SharesSumToOne(xs: seq<real>)
    requires Sum(xs) != 0.0
    ensures Sum(Scaled(xs, Sum(xs))) == 1.0
  {
    SumScaled(xs, Sum(xs));
    DivSelf(Sum(xs));
  }

  /** Under inversion a smaller weight gets a larger share. */
  lemma NormalizedInvertedReversesOrder(xs: seq<real>, i: nat, j: nat)
    requires Sum(xs) > 0.0 && |xs| > 1
    requires i < |xs| && j < |xs| && xs[i] < xs[j]
    ensures Normalized(xs, true)[i] > Normalized(xs, true)[j]
  {
    var s := Sum(xs);
    var shares := Scaled(xs, s);
    var cs := Complements(shares);
    SumComplements(shares);
    SumScaled(xs, s);
    DivSelf(s);
    var t := Sum(cs);
    assert t == |xs| as real - 1.0;
    assert Normalized(xs, true) == Scaled(cs, t);
    DivMonotone(xs[i], xs[j], s);
    assert cs[i] > cs[j];
    DivMonotone(cs[j], cs[i], t);
  }

  lemma DivSelf(s: real)
    requires s != 0.0
    ensures s / s == 1.0
  {
  }

  lemma DivMonotone(a: real, b: real, s: real)
    requires a < b && s > 0.0
    ensures a / s < b / s
  {
  }

  lemma {:induction false} SumScaled(xs: seq<real>, s: real)
    requires s != 0.0
    ensures Sum(Scaled(xs, s)) == Sum(xs) / s
  {
    if xs != [] {
      var n := |xs| - 1;
      assert Scaled(xs, s)[..n] == Scaled(xs[..n], s);
      SumScaled(xs[..n], s);
    }
  }

  lemma {:induction false} SumComplements(xs: seq<real>)
    ensures Sum(Complements(xs)) == |xs| as real - Sum(xs)
  {
    if xs != [] {
      var n := |xs| - 1;
      assert Complements(xs)[..n] == Complements(xs[..n]);
      SumComplements(xs[..n]);
    }
  }
}
