/**
 * Mendel/Classes/Operators.swift: pairwise crossover over a shuffled population and
 * per-individual mutation. The shuffle and the genome's own `cross`/`mutate` draws are
 * inputs: `shuffled` is the permutation `pop.shuffled()` produced, and each pair or
 * individual receives a roll draw and a draw of type `D` for the genome operator.
 */
module Operators {
  import Dice

  /** The individuals one pair contributes: crossed children when the roll succeeds, the pair otherwise. */
  function PairResult<I, D>(p: Dice.Probability, a: I, b: I, draw: (real, D), cross: (I, I, D) -> seq<I>): (r: seq<I>)
    requires 0.0 <= draw.0 <= 1.0
    ensures Dice.Roll(p, draw.0) ==> r == cross(a, b, draw.1)
    ensures !Dice.Roll(p, draw.0) ==> r == [a, b]
  {
    Dice.ChooseWithProbability(p, draw.0, cross(a, b, draw.1), [a, b])
  }

  predicate ValidRolls<D>(draws: seq<(real, D)>)
  {
    forall k :: 0 <= k < |draws| ==> 0.0 <= draws[k].0 <= 1.0
  }

  /** The results of the first `k` consecutive pairs `(s[0], s[1]), (s[2], s[3]), …`, in pair order. */
  function Pairs<I, D>(p: Dice.Probability, s: seq<I>, draws: seq<(real, D)>, cross: (I, I, D) -> seq<I>, k: nat): seq<I>
    requires 2 * k <= |s| && k <= |draws| && ValidRolls(draws)
  {
    if k == 0 then []
    else Pairs(p, s, draws, cross, k - 1) + PairResult(p, s[2 * k - 2], s[2 * k - 1], draws[k - 1], cross)
  }

  /** The whole crossover output: all pairs, then an odd last individual as it is. */
  function Crossed<I, D>(p: Dice.Probability, s: seq<I>, draws: seq<(real, D)>, cross: (I, I, D) -> seq<I>): seq<I>
    requires |draws| >= |s| / 2 && ValidRolls(draws)
  {
    Pairs(p, s, draws, cross, |s| / 2) + (if |s| % 2 == 1 then [s[|s| - 1]] else [])
  }

  /**
   * `Operators.Crossover`: consumes the shuffled population two at a time, crossing each
   * pair with probability `p`; with an odd count the last individual is appended as it is.
   */
  method Crossover<I, D>(p: Dice.Probability, pop: seq<I>, shuffled: seq<I>, draws: seq<(real, D)>,
                         cross: (I, I, D) -> seq<I>) returns (result: seq<I>)
    requires multiset(shuffled) == multiset(pop)
    requires |draws| >= |shuffled| / 2 && ValidRolls(draws)
    ensures result == Crossed(p, shuffled, draws, cross)
  {
    result := [];
    var i := 0;
    while i + 1 < |shuffled|
      invariant 0 <= i <= |shuffled| && i % 2 == 0
      invariant result == Pairs(p, shuffled, draws, cross, i / 2)
    {
      var a := shuffled[i];
      var b := shuffled[i + 1];
      var crossed := Dice.ChooseWithProbability(p, draws[i / 2].0, cross(a, b, draws[i / 2].1), [a, b]);
      result := result + crossed;
      i := i + 2;
    }
    if i < |shuffled| {
      result := result + [shuffled[i]];
    }
  }

  /** With probability 0 every pair passes through: the pairs' output is the consumed prefix. */
  lemma {:induction false} PairsWithoutCrossing<I, D>(s: seq<I>, draws: seq<(real, D)>, cross: (I, I, D) -> seq<I>, k: nat)
    requires 2 * k <= |s| && k <= |draws| && ValidRolls(draws)
    ensures Pairs(0.0, s, draws, cross, k) == s[..2 * k]
  {
    if k > 0 {
      PairsWithoutCrossing(s, draws, cross, k - 1);
      assert s[..2 * k] == s[..2 * k - 2] + [s[2 * k - 2], s[2 * k - 1]];
    }
  }

  /** Crossover with probability 0 returns the shuffled population, a permutation of the input. */
  lemma {:induction false} CrossoverWithoutCrossingPermutes<I, D>(pop: seq<I>, shuffled: seq<I>, draws: seq<(real, D)>,
                                                                  cross: (I, I, D) -> seq<I>)
    requires multiset(shuffled) == multiset(pop)
    requires |draws| >= |shuffled| / 2 && ValidRolls(draws)
    ensures Crossed(0.0, shuffled, draws, cross) == shuffled
    ensures multiset(Crossed(0.0, shuffled, draws, cross)) == multiset(pop)
  {
    var n := |shuffled|;
    var h := n / 2;
    assert n == 2 * h + n % 2;
    PairsWithoutCrossing(shuffled, draws, cross, h);
    var out := Pairs(0.0, shuffled, draws, cross, h);
    assert out == shuffled[..2 * h];
    if n % 2 == 1 {
      assert 2 * h == n - 1;
      assert shuffled[..n - 1] + [shuffled[n - 1]] == shuffled;
    } else {
      assert 2 * h == n;
      assert shuffled[..n] == shuffled;
    }
  }

  /** When `cross` always returns two children, each pair contributes exactly two individuals. */
  lemma {:induction false} PairsKeepLength<I, D>(p: Dice.Probability, s: seq<I>, draws: seq<(real, D)>,
                                                cross: (I, I, D) -> seq<I>, k: nat)
    requires 2 * k <= |s| && k <= |draws| && ValidRolls(draws)
    requires forall a, b, d :: |cross(a, b, d)| == 2
    ensures |Pairs(p, s, draws, cross, k)| == 2 * k
  {
    if k > 0 {
      PairsKeepLength(p, s, draws, cross, k - 1);
    }
  }

  /**
   * When `cross` always returns two children, crossover keeps the population size; with
   * an odd size the last shuffled individual is the last one out, untouched.
   */
  lemma {:induction false} CrossoverKeepsLength<I, D>(p: Dice.Probability, shuffled: seq<I>, draws: seq<(real, D)>,
                                                      cross: (I, I, D) -> seq<I>)
    requires |draws| >= |shuffled| / 2 && ValidRolls(draws)
    requires forall a, b, d :: |cross(a, b, d)| == 2
    ensures |Crossed(p, shuffled, draws, cross)| == |shuffled|
    ensures |shuffled| % 2 == 1 ==> Crossed(p, shuffled, draws, cross)[|shuffled| - 1] == shuffled[|shuffled| - 1]
  {
    PairsKeepLength(p, shuffled, draws, cross, |shuffled| / 2);
  }

  /** Every pair's result sits at its place in the output: pair `j`'s output starts where pairs `0..j` end. */
  lemma {:induction false} PairsArePrefixes<I, D>(p: Dice.Probability, s: seq<I>, draws: seq<(real, D)>,
                                                 cross: (I, I, D) -> seq<I>, j: nat, k: nat)
    requires j <= k && 2 * k <= |s| && k <= |draws| && ValidRolls(draws)
    ensures Pairs(p, s, draws, cross, j) <= Pairs(p, s, draws, cross, k)
    decreases k - j
  {
    if j < k {
      PairsArePrefixes(p, s, draws, cross, j, k - 1);
    }
  }

  /**
   * `Operators.Mutation`: each individual is replaced by its mutation when its roll
   * succeeds and kept otherwise; the result has the input's length.
   */
  method Mutation<I, D>(p: Dice.Probability, pop: seq<I>, draws: seq<(real, D)>, mutate: (I, D) -> I)
    returns (result: seq<I>)
    requires |draws| >= |pop| && ValidRolls(draws)
    ensures |result| == |pop|
    ensures forall i :: 0 <= i < |pop| ==>
      result[i] == if Dice.Roll(p, draws[i].0) then mutate(pop[i], draws[i].1) else pop[i]
    ensures p == 0.0 ==> result == pop
    ensures p == 1.0 ==> forall i :: 0 <= i < |pop| ==> result[i] == mutate(pop[i], draws[i].1)
  {
    result := [];
    for i := 0 to |pop|
      invariant |result| == i
      invariant forall j :: 0 <= j < i ==>
        result[j] == if Dice.Roll(p, draws[j].0) then mutate(pop[j], draws[j].1) else pop[j]
    {
      var mutated := Dice.ChooseWithProbability(p, draws[i].0, mutate(pop[i], draws[i].1), pop[i]);
      result := result + [mutated];
    }
  }
}
