/**
 * The engine's core types and helper functions, Mendel/Mendel/Engine.swift up to its
 * "Generational Engine" section: fitness kinds and their comparison, adjusted fitness,
 * scores, per-generation data, the initial population, population evaluation and sorting.
 */
module Core {

  /** Whether a greater fitness is better (`Natural`) or worse (`Inverted`). */
  datatype FitnessKind = Natural | Inverted

  /** `FitnessKind.comparisonOp`: fitness `a` is strictly better than fitness `b`. */
  predicate Better(kind: FitnessKind, a: real, b: real)
  {
    match kind
    case Natural => a > b
    case Inverted => a < b
  }

  /** `comparisonOp` is a strict total order: equal fitnesses are never better than each other. */
  lemma BetterIsStrictTotalOrder(kind: FitnessKind, a: real, b: real, c: real)
    ensures !Better(kind, a, a)
    ensures Better(kind, a, b) ==> !Better(kind, b, a)
    ensures Better(kind, a, b) && Better(kind, b, c) ==> Better(kind, a, c)
    ensures a != b ==> Better(kind, a, b) || Better(kind, b, a)
  {
  }

  /**
   * A Swift `Double` as proportional selection meets it, in exact arithmetic: a finite
   * real, positive infinity, or NaN. Rounding, signed zeros and negative infinity are
   * not modelled; the operations below are only defined for operands that are not
   * negative reals, where no negative infinity can arise.
   */
  datatype Double = Real(v: real) | PosInf | NaN

  predicate NotNegative(d: Double)
  {
    !(d.Real? && d.v < 0.0)
  }

  /** IEEE addition: NaN absorbs, +∞ absorbs every real. */
  function Add(a: Double, b: Double): Double
  {
    if a.NaN? || b.NaN? then NaN
    else if a.Real? && b.Real? then Real(a.v + b.v)
    else PosInf
  }

  /** IEEE multiplication of non-negative values: 0 · ∞ is NaN. */
  function Mul(a: Double, b: Double): (r: Double)
    requires NotNegative(a) && NotNegative(b)
    ensures NotNegative(r)
  {
    if a.NaN? || b.NaN? then NaN
    else if a.Real? && b.Real? then Real(a.v * b.v)
    else if a == Real(0.0) || b == Real(0.0) then NaN
    else PosInf
  }

  /** IEEE division of non-negative values: 0/0 and ∞/∞ are NaN, x/0 is +∞, x/∞ is 0. */
  function Div(a: Double, b: Double): (r: Double)
    requires NotNegative(a) && NotNegative(b)
    ensures NotNegative(r)
  {
    if a.NaN? || b.NaN? then NaN
    else if a.Real? && b.Real? then
      if b.v != 0.0 then Real(a.v / b.v) else if a.v == 0.0 then NaN else PosInf
    else if a.Real? then Real(0.0)
    else if b.Real? then PosInf
    else NaN
  }

  /** IEEE `a > b`: false whenever NaN is involved. */
  predicate Greater(a: Double, b: Double)
  {
    if a.Real? && b.Real? then a.v > b.v else a.PosInf? && b.Real?
  }

  /** IEEE `a <= b`: false whenever NaN is involved. */
  predicate AtMost(a: Double, b: Double)
  {
    if a.Real? && b.Real? then a.v <= b.v else !a.NaN? && b.PosInf?
  }

  /**
   * `FitnessKind.adjustedFitness`: a weight for which larger means more likely to be
   * selected. Natural keeps the fitness; Inverted takes its reciprocal, +∞ for a fitness of 0.
   */
  function AdjustedFitness(kind: FitnessKind, fitness: real): (r: Double)
    ensures !r.NaN?
    ensures kind.Natural? ==> r == Real(fitness)
    ensures kind.Inverted? ==> (r.PosInf? <==> fitness == 0.0)
    ensures kind.Inverted? && fitness != 0.0 ==> r.Real? && r.v * fitness == 1.0
  {
    match kind
    case Natural => Real(fitness)
    case Inverted => if fitness == 0.0 then PosInf else Real(1.0 / fitness)
  }

  /** Over non-negative fitnesses, a strictly better fitness gets a strictly larger weight. */
  lemma AdjustedFitnessRespectsBetter(kind: FitnessKind, a: real, b: real)
    requires kind.Inverted? ==> 0.0 <= a && 0.0 <= b
    requires Better(kind, a, b)
    ensures Greater(AdjustedFitness(kind, a), AdjustedFitness(kind, b))
  {
    if kind.Inverted? && a != 0.0 {
      assert 0.0 < a < b;
      assert 1.0 / a - 1.0 / b == (b - a) / (a * b);
      assert (b - a) / (a * b) > 0.0;
    }
  }

  /** An evaluated individual. */
  datatype Score<I> = Score(fitness: real, individual: I)
  {
    /** `Score.fitterIndividual`: this score's individual only when it is strictly better. */
    function FitterIndividual(kind: FitnessKind, other: Score<I>): (r: I)
      ensures Better(kind, fitness, other.fitness) ==> r == individual
      ensures !Better(kind, fitness, other.fitness) ==> r == other.individual
    {
      if Better(kind, fitness, other.fitness) then individual else other.individual
    }
  }

  /** The fitter individual comes from a score the other one does not beat; ties go to `other`. */
  lemma FitterIndividualIsNotBeaten<I>(kind: FitnessKind, s: Score<I>, other: Score<I>)
    ensures var r := s.FitterIndividual(kind, other);
      (r == s.individual && !Better(kind, other.fitness, s.fitness))
      || (r == other.individual && !Better(kind, s.fitness, other.fitness))
    ensures s.fitness == other.fitness ==> s.FitterIndividual(kind, other) == other.individual
  {
  }

  function Fitnesses<I>(pop: seq<Score<I>>): (fs: seq<real>)
    ensures |fs| == |pop| && forall k :: 0 <= k < |pop| ==> fs[k] == pop[k].fitness
  {
    seq(|pop|, k requires 0 <= k < |pop| => pop[k].fitness)
  }

  function Individuals<I>(pop: seq<Score<I>>): (inds: seq<I>)
    ensures |inds| == |pop| && forall k :: 0 <= k < |pop| ==> inds[k] == pop[k].individual
  {
    seq(|pop|, k requires 0 <= k < |pop| => pop[k].individual)
  }

  /** Arithmetic mean and standard deviation, as the `Stats` class (not part of this model) computes them. */
  datatype Moments = Moments(mean: real, stdev: real)

  /** The per-generation snapshot handed to the iteration callback and to termination predicates. */
  datatype IterationData<I> = IterationData(
    iterationNum: nat,
    bestCandidate: I,
    bestCandidateFitness: real,
    fitnessMean: real,
    fitnessStDev: real,
    fitnessKind: FitnessKind)

  /**
   * `IterationData.init`: the best candidate is the first score of the population (which
   * traps when it is empty); mean and deviation come from the statistics collaborator.
   */
  function MakeIterationData<I>(iterationNum: nat, pop: seq<Score<I>>, kind: FitnessKind,
                                stats: seq<real> -> Moments): (d: IterationData<I>)
    requires |pop| > 0
    ensures d.iterationNum == iterationNum && d.fitnessKind == kind
    ensures d.bestCandidate == pop[0].individual && d.bestCandidateFitness == pop[0].fitness
    ensures d.fitnessMean == stats(Fitnesses(pop)).mean && d.fitnessStDev == stats(Fitnesses(pop)).stdev
  {
    var m := stats(Fitnesses(pop));
    IterationData(iterationNum, pop[0].individual, pop[0].fitness, m.mean, m.stdev, kind)
  }

  /** On a sorted population the reported best candidate is beaten by no one. */
  lemma BestCandidateIsUnbeaten<I>(iterationNum: nat, pop: seq<Score<I>>, kind: FitnessKind,
                                   stats: seq<real> -> Moments, k: nat)
    requires Ordered(kind, pop) && k < |pop|
    ensures !Better(kind, pop[k].fitness, MakeIterationData(iterationNum, pop, kind, stats).bestCandidateFitness)
  {
    if k > 0 {
      assert !Better(kind, pop[k].fitness, pop[0].fitness);
    }
  }

  /** `primordialSoup`: `size` individuals, the k-th made by the factory from the k-th draw. */
  function PrimordialSoup<I>(size: nat, factory: nat -> I, draws: seq<nat>): (pop: seq<I>)
    requires |draws| >= size
    ensures |pop| == size
    ensures forall k :: 0 <= k < size ==> pop[k] == factory(draws[k])
  {
    seq(size, k requires 0 <= k < size => factory(draws[k]))
  }

  /**
   * `evaluatePopulation`, in its sequential meaning: the population is cut into
   * `count / stride` chunks of `stride` individuals plus a remainder, and every individual
   * is scored once against the whole population. The source runs the chunks concurrently
   * and appends their scores in completion order; this model appends them in chunk order.
   */
  method EvaluatePopulation<I>(population: seq<I>, stride: int, evaluation: (I, seq<I>) -> real)
    returns (scores: seq<Score<I>>)
    requires stride > 0
    ensures |scores| == |population|
    ensures forall j :: 0 <= j < |population| ==>
      scores[j].individual == population[j] && scores[j].fitness == evaluation(population[j], population)
  {
    scores := [];
    var iterations := |population| / stride;
    ChunksFit(|population|, stride, iterations);
    var idx := 0;
    var done := 0;   // idx * stride, the start of chunk idx
    while idx < iterations
      invariant 0 <= idx <= iterations
      invariant done == idx * stride && done <= |population|
      invariant scores == Evaluated(population, evaluation, done)
    {
      ChunksFit(|population|, stride, idx + 1);
      NextChunk(idx, stride);
      var j := done;
      var jStop := j + stride;
      // The source's repeat-while; stride > 0, so it runs exactly while j < jStop.
      while j < jStop
        invariant done <= j <= jStop <= |population|
        invariant scores == Evaluated(population, evaluation, j)
      {
        var ind := population[j];
        var fitness := evaluation(ind, population);
        EvaluatedStep(population, evaluation, j);
        scores := scores + [Score(fitness, ind)];
        j := j + 1;
      }
      idx := idx + 1;
      done := jStop;
    }
    // the remainder
    var startIdx := iterations * stride;
    var remainder := seq(|population| - startIdx, k requires 0 <= k < |population| - startIdx =>
      Score(evaluation(population[startIdx + k], population), population[startIdx + k]));
    EvaluatedRest(population, evaluation, startIdx, remainder);
    scores := scores + remainder;
  }

  /** The first `n` individuals, each scored against the whole population. */
  function Evaluated<I>(population: seq<I>, evaluation: (I, seq<I>) -> real, n: nat): (scores: seq<Score<I>>)
    requires n <= |population|
    ensures |scores| == n
    ensures forall j :: 0 <= j < n ==>
      scores[j].individual == population[j] && scores[j].fitness == evaluation(population[j], population)
  {
    seq(n, j requires 0 <= j < n => Score(evaluation(population[j], population), population[j]))
  }

  lemma EvaluatedStep<I>(population: seq<I>, evaluation: (I, seq<I>) -> real, n: nat)
    requires n < |population|
    ensures Evaluated(population, evaluation, n + 1)
      == Evaluated(population, evaluation, n) + [Score(evaluation(population[n], population), population[n])]
  {
  }

  lemma EvaluatedRest<I>(population: seq<I>, evaluation: (I, seq<I>) -> real, n: nat, rest: seq<Score<I>>)
    requires n <= |population| && |rest| == |population| - n
    requires forall k :: 0 <= k < |rest| ==>
      rest[k] == Score(evaluation(population[n + k], population), population[n + k])
    ensures Evaluated(population, evaluation, n) + rest == Evaluated(population, evaluation, |population|)
  {
  }

  /** Chunks up to `k <= count / stride` lie inside the population. */
  lemma ChunksFit(count: nat, stride: int, k: int)
    requires stride > 0 && 0 <= k <= count / stride
    ensures 0 <= k * stride <= count
  {
    MulMonotone(k, count / stride, stride);
  }

  lemma NextChunk(idx: int, stride: int)
    ensures (idx + 1) * stride == idx * stride + stride
  {
  }

  lemma MulMonotone(a: int, b: int, c: int)
    requires 0 <= a <= b && c >= 0
    ensures 0 <= a * c <= b * c
  {
  }

  /**
   * The chunks partition the indices: an index below `(count / stride) · stride` lies in
   * chunk `j / stride`, every other index lies in the remainder, and no index lies in two
   * chunks.
   */
  lemma ChunkOfIndex(count: nat, stride: int, j: nat)
    requires stride > 0 && j < count
    ensures j < (count / stride) * stride ==>
      j / stride < count / stride && (j / stride) * stride <= j < (j / stride) * stride + stride
    ensures j >= (count / stride) * stride ==> (count / stride) * stride <= j < count
  {
    var q := j / stride;
    assert j == q * stride + j % stride;
    if j < (count / stride) * stride {
      if q >= count / stride {
        MulMonotone(count / stride, q, stride);
      }
    }
  }

  /** No index lies in two chunks. */
  lemma ChunkIsUnique(stride: int, j: nat, k: nat)
    requires stride > 0 && k * stride <= j < k * stride + stride
    ensures k == j / stride
  {
    var q := j / stride;
    assert j == q * stride + j % stride;
    if k < q {
      MulMonotone(k + 1, q, stride);
    } else if q < k {
      MulMonotone(q + 1, k, stride);
    }
  }

  /** No later score is strictly better than an earlier one. */
  ghost predicate Ordered<I>(kind: FitnessKind, s: seq<Score<I>>)
  {
    forall i, j :: 0 <= i < j < |s| ==> !Better(kind, s[j].fitness, s[i].fitness)
  }

  /** Inserts `x` before the first score that does not beat it. */
  function Insert<I>(kind: FitnessKind, x: Score<I>, s: seq<Score<I>>): (r: seq<Score<I>>)
    requires Ordered(kind, s)
    ensures |r| == |s| + 1
    ensures Ordered(kind, r)
    ensures multiset(r) == multiset(s) + multiset{x}
  {
    if s == [] || !Better(kind, s[0].fitness, x.fitness) then [x] + s
    else
      var rest := Insert(kind, x, s[1..]);
      assert s == [s[0]] + s[1..];
      forall k | 0 <= k < |rest|
        ensures !Better(kind, rest[k].fitness, s[0].fitness)
      {
        assert rest[k] in multiset(s[1..]) + multiset{x};
        if rest[k] != x {
          var m :| 0 <= m < |s[1..]| && s[1..][m] == rest[k];
          assert s[m + 1] == rest[k];
        }
      }
      ConsOrdered(kind, s[0], rest);
      [s[0]] + rest
  }

  /** A head that no score of an ordered tail beats keeps the sequence ordered. */
  lemma ConsOrdered<I>(kind: FitnessKind, h: Score<I>, t: seq<Score<I>>)
    requires Ordered(kind, t)
    requires forall k :: 0 <= k < |t| ==> !Better(kind, t[k].fitness, h.fitness)
    ensures Ordered(kind, [h] + t)
  {
    var r := [h] + t;
    forall i, j | 0 <= i < j < |r|
      ensures !Better(kind, r[j].fitness, r[i].fitness)
    {
      if i > 0 {
        assert r[i] == t[i - 1] && r[j] == t[j - 1];
      } else {
        assert r[j] == t[j - 1];
      }
    }
  }

  /**
   * `sortEvaluatedPopulation`: a permutation of the scores in which no later score is
   * strictly better than an earlier one (non-increasing fitness under Natural,
   * non-decreasing under Inverted).
   */
  function SortEvaluatedPopulation<I>(kind: FitnessKind, pop: seq<Score<I>>): (r: seq<Score<I>>)
    ensures |r| == |pop|
    ensures multiset(r) == multiset(pop)
    ensures Ordered(kind, r)
  {
    if pop == [] then []
    else
      assert pop == [pop[0]] + pop[1..];
      Insert(kind, pop[0], SortEvaluatedPopulation(kind, pop[1..]))
  }
}
