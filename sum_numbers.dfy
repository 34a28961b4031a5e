/**
 * Example-iOS/Example-iOS/SumNumbersViewController.swift: the `Numbers` genome (a list
 * of integers), its fitness (distance of the sum from a target) and the termination
 * test of the demo run. Random draws are explicit arguments.
 */
module SumNumbers {
  import Dice
  import ClassesArrays
  import opened Core
  import Engine

  datatype Numbers = Numbers(genes: seq<int>)

  /** The gene range of a fresh individual. */
  const MinGene := 0
  const MaxGene := 100

  /** The target and length the demo runs with. */
  const DemoTarget := 42
  const DemoLength := 10

  predicate IndexDraws(draws: seq<real>)
  {
    forall k :: 0 <= k < |draws| ==> 0.0 <= draws[k] < 1.0
  }

  /** `arbitraryOfLength`: `length` genes, the k-th drawn uniformly from `MinGene...MaxGene` by `draws[k]`. */
  function ArbitraryOfLength(length: nat, draws: seq<real>): (r: Numbers)
    requires |draws| >= length && IndexDraws(draws)
    ensures |r.genes| == length
    ensures forall k :: 0 <= k < length ==> MinGene <= r.genes[k] <= MaxGene
    ensures forall k :: 0 <= k < length ==> r.genes[k] == Dice.RandomInt(MinGene, MaxGene, draws[k])
  {
    Numbers(seq(length, k requires 0 <= k < length => Dice.RandomInt(MinGene, MaxGene, draws[k])))
  }

  /** Every gene value of the range can be drawn. */
  lemma ArbitraryReachesEveryGene(v: int)
    requires MinGene <= v <= MaxGene
    ensures exists u :: 0.0 <= u < 1.0 && ArbitraryOfLength(1, [u]).genes == [v]
  {
    Dice.RandomIntIsOnto(MinGene, MaxGene, v);
    var u :| 0.0 <= u < 1.0 && Dice.RandomInt(MinGene, MaxGene, u) == v;
    assert ArbitraryOfLength(1, [u]).genes == [v];
  }

  /**
   * `cross`: the two children of `swapRandomSubrange` on the parents' genes. An empty
   * first parent traps, and so does a second parent shorter than the drawn range.
   */
  method Cross(parentA: Numbers, parentB: Numbers, u1: real, u2: real) returns (children: seq<Numbers>)
    requires |parentA.genes| > 0 && 0.0 <= u1 < 1.0 && 0.0 <= u2 < 1.0
    requires ClassesArrays.SubrangeOf(|parentA.genes|, u1, u2).1 <= |parentB.genes|
    ensures var (lo, hi) := ClassesArrays.SubrangeOf(|parentA.genes|, u1, u2);
      children == [Numbers(ClassesArrays.Spliced(parentA.genes, parentB.genes, lo, hi)),
                   Numbers(ClassesArrays.Spliced(parentB.genes, parentA.genes, lo, hi))]
    ensures |children| == 2
    ensures |children[0].genes| == |parentA.genes| && |children[1].genes| == |parentB.genes|
  {
    var swapped := ClassesArrays.SwapRandomSubrange(parentA.genes, parentB.genes, u1, u2);
    children := [Numbers(swapped[0]), Numbers(swapped[1])];
  }

  /** A mutated gene: with probability 0.5 (`rollDraw`) it moves by -1, 0 or +1 (`stepDraw`). */
  function MutatedGene(g: int, rollDraw: real, stepDraw: real): (r: int)
    requires 0.0 <= rollDraw <= 1.0 && 0.0 <= stepDraw < 1.0
    ensures -1 <= r - g <= 1
    ensures !Dice.Roll(0.5, rollDraw) ==> r == g
  {
    g + (if Dice.Roll(0.5, rollDraw) then Dice.RandomInt(-1, 1, stepDraw) else 0)
  }

  predicate MutationDraws(draws: seq<(real, real)>)
  {
    forall k :: 0 <= k < |draws| ==> 0.0 <= draws[k].0 <= 1.0 && 0.0 <= draws[k].1 < 1.0
  }

  /**
   * `mutate`: every gene independently moves by at most one. The gene count is kept, and
   * a gene whose roll fails is unchanged.
   */
  function Mutate(individual: Numbers, draws: seq<(real, real)>): (r: Numbers)
    requires |draws| >= |individual.genes| && MutationDraws(draws)
    ensures |r.genes| == |individual.genes|
    ensures forall k :: 0 <= k < |r.genes| ==> -1 <= r.genes[k] - individual.genes[k] <= 1
    ensures forall k :: 0 <= k < |r.genes| ==> !Dice.Roll(0.5, draws[k].0) ==> r.genes[k] == individual.genes[k]
  {
    Numbers(seq(|individual.genes|, k requires 0 <= k < |individual.genes| =>
      MutatedGene(individual.genes[k], draws[k].0, draws[k].1)))
  }

  /** `reduce(0, +)` over the genes. */
  function GeneSum(genes: seq<int>): int
  {
    if genes == [] then 0 else GeneSum(genes[..|genes| - 1]) + genes[|genes| - 1]
  }

  /** Mutation moves the sum by at most one per gene. */
  lemma {:induction false} MutateMovesSumByAtMostLength(genes: seq<int>, mutated: seq<int>)
    requires |mutated| == |genes|
    requires forall k :: 0 <= k < |genes| ==> -1 <= mutated[k] - genes[k] <= 1
    ensures -|genes| <= GeneSum(mutated) - GeneSum(genes) <= |genes|
  {
    if genes != [] {
      var n := |genes| - 1;
      MutateMovesSumByAtMostLength(genes[..n], mutated[..n]);
    }
  }

  /** The evaluation closure: the distance of the gene sum from the target, whatever the population. */
  function Evaluation(target: int, individual: Numbers, population: seq<Numbers>): (r: real)
    ensures r >= 0.0
    ensures r == 0.0 <==> GeneSum(individual.genes) == target
    ensures r == (GeneSum(individual.genes) - target) as real || r == (target - GeneSum(individual.genes)) as real
  {
    var d := GeneSum(individual.genes) - target;
    (if d < 0 then -d else d) as real
  }

  /** The evaluation ignores the population, so the engine's elitism keeps the best sum distance. */
  lemma EvaluationIgnoresPopulation(target: int)
    ensures Engine.PopulationIndependent((individual: Numbers, population: seq<Numbers>) => Evaluation(target, individual, population))
  {
  }

  /** The termination closure: the best candidate has fitness 0. */
  predicate Solved(data: IterationData<Numbers>)
  {
    data.bestCandidateFitness == 0.0
  }

  /**
   * On the demo's Inverted sorted population of evaluated individuals, the run stops
   * exactly when the best candidate's genes add up to the target.
   */
  lemma SolvedIffSumHitsTarget(target: int, iterationNum: nat, pop: seq<Score<Numbers>>, stats: seq<real> -> Moments)
    requires |pop| > 0 && pop[0].fitness == Evaluation(target, pop[0].individual, [])
    ensures var data := MakeIterationData(iterationNum, pop, Inverted, stats);
      Solved(data) <==> GeneSum(data.bestCandidate.genes) == target
  {
  }

  /**
   * The termination closure agrees with the stock `FitnessThreshold` idea only up to
   * strictness: a fitness of exactly 0 stops the demo, although no fitness is below 0.
   */
  lemma SolvedIsBestPossible(target: int, individual: Numbers, population: seq<Numbers>, other: Numbers)
    requires Evaluation(target, individual, population) == 0.0
    ensures !Better(Inverted, Evaluation(target, other, population), Evaluation(target, individual, population))
  {
  }
}
