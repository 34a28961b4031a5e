/**
 * Mendel/Classes/Selection.swift: the selection strategies. Each takes the sorted scored
 * population, the fitness kind and the number of individuals wanted; random draws are
 * explicit arguments.
 */
module Selection {
  import opened Wrappers
  import opened Core
  import Dice
  import ClassesArrays
  import ClassesUtilities
  import MendelUtilities

  // ---------------------------------------------------------------- truncation

  /**
   * `truncation`: the individuals of the first `count` scores, in order. The truncation
   * point is ignored, and asking for more than the population traps.
   */
  function Truncation<I>(truncationPoint: real, pop: seq<Score<I>>, kind: FitnessKind, count: nat): (r: seq<I>)
    requires count <= |pop|
    ensures |r| == count
    ensures forall k :: 0 <= k < count ==> r[k] == pop[k].individual
  {
    Individuals(pop[..count])
  }

  /** On a sorted population truncation keeps the fittest: no score left out beats a kept one. */
  lemma TruncationKeepsFittest<I>(truncationPoint: real, pop: seq<Score<I>>, kind: FitnessKind, count: nat, i: nat, j: nat)
    requires count <= |pop| && Ordered(kind, pop)
    requires i < count <= j < |pop|
    ensures Truncation(truncationPoint, pop, kind, count)[i] == pop[i].individual
    ensures !Better(kind, pop[j].fitness, pop[i].fitness)
  {
  }

  // ---------------------------------------------------------------- random

  predicate IndexDraws(draws: seq<real>)
  {
    forall k :: 0 <= k < |draws| ==> 0.0 <= draws[k] < 1.0
  }

  /** `random`: `count` picks, the k-th at the index drawn by `draws[k]`. Picking from an empty population traps. */
  method Random<I>(pop: seq<Score<I>>, kind: FitnessKind, count: nat, draws: seq<real>) returns (selected: seq<I>)
    requires count > 0 ==> |pop| > 0
    requires |draws| >= count && IndexDraws(draws)
    ensures |selected| == count
    ensures forall k :: 0 <= k < count ==>
      selected[k] == Dice.PickRandom(pop, draws[k]).individual && selected[k] in Individuals(pop)
  {
    selected := [];
    for k := 0 to count
      invariant |selected| == k
      invariant forall j :: 0 <= j < k ==>
        selected[j] == Dice.PickRandom(pop, draws[j]).individual && selected[j] in Individuals(pop)
    {
      var score := Dice.PickRandom(pop, draws[k]);
      assert score.individual == Individuals(pop)[Dice.UniformIndex(|pop|, draws[k])];
      selected := selected + [score.individual];
    }
  }

  // ---------------------------------------------------------------- tournament

  /** One tournament's contestants: `size` scores picked by the round's draws. */
  function Contestants<I>(pop: seq<Score<I>>, size: nat, draws: seq<real>): (c: seq<Score<I>>)
    requires |pop| > 0 && |draws| >= size && IndexDraws(draws)
    ensures |c| == size && forall j :: 0 <= j < size ==> c[j] in pop
  {
    seq(size, j requires 0 <= j < size => Dice.PickRandom(pop, draws[j]))
  }

  /** The first of the contestants sorted best first: a contestant no other contestant beats. */
  function Winner<I>(kind: FitnessKind, contestants: seq<Score<I>>): (w: Score<I>)
    requires |contestants| > 0
    ensures w in contestants
    ensures forall j :: 0 <= j < |contestants| ==> !Better(kind, contestants[j].fitness, w.fitness)
  {
    var sorted := SortEvaluatedPopulation(kind, contestants);
    assert sorted[0] in multiset(contestants);
    assert forall j :: 0 <= j < |contestants| ==> contestants[j] in multiset(sorted);
    sorted[0]
  }

  /** Number of rounds `iterateWhile` runs: at least one, because `next` runs before the condition. */
  function Rounds(count: nat): nat
  {
    if count == 0 then 1 else count
  }

  /**
   * `tournament`: `iterateWhile` with condition `i < count` from 0, whose `next` holds one
   * tournament among `size` picks, appends its winner and returns the new selection count.
   * So `count` winners are chosen, and one when `count` is 0. An empty tournament or
   * population traps.
   */
  method Tournament<I>(size: nat, pop: seq<Score<I>>, kind: FitnessKind, count: nat, draws: seq<seq<real>>)
    returns (selection: seq<I>)
    requires size >= 1 && |pop| > 0
    requires |draws| >= Rounds(count)
    requires forall k :: 0 <= k < |draws| ==> |draws[k]| >= size && IndexDraws(draws[k])
    ensures |selection| == Rounds(count)
    ensures forall k :: 0 <= k < |selection| ==>
      selection[k] == Winner(kind, Contestants(pop, size, draws[k])).individual
  {
    selection := [];
    var done := false;
    while !done
      invariant !done ==> |selection| < Rounds(count)
      invariant done ==> |selection| == Rounds(count)
      invariant forall k :: 0 <= k < |selection| ==>
        selection[k] == Winner(kind, Contestants(pop, size, draws[k])).individual
      decreases Rounds(count) - |selection|
    {
      var individuals := Contestants(pop, size, draws[|selection|]);
      var sorted := SortEvaluatedPopulation(kind, individuals);
      selection := selection + [sorted[0].individual];
      var i := |selection|;
      done := !(i < count);
    }
  }

  /** Each winner is one of its tournament's contestants, and none of them beats it. */
  lemma TournamentWinnerIsUnbeaten<I>(size: nat, pop: seq<Score<I>>, kind: FitnessKind, draws: seq<real>)
    requires size >= 1 && |pop| > 0 && |draws| >= size && IndexDraws(draws)
    ensures var c := Contestants(pop, size, draws);
      exists j :: 0 <= j < size && Winner(kind, c) == c[j]
        && forall m :: 0 <= m < size ==> !Better(kind, c[m].fitness, c[j].fitness)
  {
    var c := Contestants(pop, size, draws);
    var w := Winner(kind, c);
    var j :| 0 <= j < size && c[j] == w;
  }

  /** With a population of one, every tournament is won by its only member. */
  lemma TournamentOfOne<I>(size: nat, pop: seq<Score<I>>, kind: FitnessKind, draws: seq<real>)
    requires size >= 1 && |pop| == 1 && |draws| >= size && IndexDraws(draws)
    ensures Winner(kind, Contestants(pop, size, draws)) == pop[0]
  {
    var c := Contestants(pop, size, draws);
    assert c[0] == pop[0];
  }

  /**
   * Tournament selection as evidently intended: the condition is tested before each
   * tournament, so exactly `count` winners are chosen, none when `count` is 0.
   */
  method TournamentCorrected<I>(size: nat, pop: seq<Score<I>>, kind: FitnessKind, count: nat, draws: seq<seq<real>>)
    returns (selection: seq<I>)
    requires size >= 1 && |pop| > 0
    requires |draws| >= count
    requires forall k :: 0 <= k < |draws| ==> |draws[k]| >= size && IndexDraws(draws[k])
    ensures |selection| == count
    ensures forall k :: 0 <= k < count ==>
      selection[k] == Winner(kind, Contestants(pop, size, draws[k])).individual
  {
    selection := [];
    while |selection| < count
      invariant |selection| <= count
      invariant forall k :: 0 <= k < |selection| ==>
        selection[k] == Winner(kind, Contestants(pop, size, draws[k])).individual
    {
      var individuals := Contestants(pop, size, draws[|selection|]);
      var sorted := SortEvaluatedPopulation(kind, individuals);
      selection := selection + [sorted[0].individual];
    }
  }

  /** `tournament2`: a tournament of size 2. */
  method Tournament2<I>(pop: seq<Score<I>>, kind: FitnessKind, count: nat, draws: seq<seq<real>>)
    returns (selection: seq<I>)
    requires |pop| > 0 && |draws| >= Rounds(count)
    requires forall k :: 0 <= k < |draws| ==> |draws[k]| >= 2 && IndexDraws(draws[k])
    ensures |selection| == Rounds(count)
    ensures forall k :: 0 <= k < |selection| ==>
      selection[k] == Winner(kind, Contestants(pop, 2, draws[k])).individual
  {
    selection := Tournament(2, pop, kind, count, draws);
  }

  function TournamentRank(count: nat): int -> nat
  {
    x => if x < count then count - x else 0
  }

  /**
   * The counter `iterateWhile` reaches in `tournament`: from `init`, stepping by one while
   * the next value is below `count`, it stops at `count - 1`, or at `init` when the first
   * step already fails.
   */
  lemma {:induction false} TournamentCounter(count: nat, init: nat)
    requires forall x :: ClassesUtilities.Continues((y: int) => y < count, (y: int) => Some(y + 1), x) ==>
      TournamentRank(count)(Some(x + 1).value) < TournamentRank(count)(x)
    ensures ClassesUtilities.IterateWhile((y: int) => y < count, init, (y: int) => Some(y + 1), TournamentRank(count))
      == if init + 1 < count then count - 1 else init
    decreases count - init
  {
    if init + 1 < count {
      TournamentCounter(count, init + 1);
    }
  }

  /** So `next` runs `Rounds(count)` times: the final counter from 0, plus the call that failed the condition. */
  lemma TournamentRunsNextRoundsTimes(count: nat)
    ensures forall x :: ClassesUtilities.Continues((y: int) => y < count, (y: int) => Some(y + 1), x) ==>
      TournamentRank(count)(Some(x + 1).value) < TournamentRank(count)(x)
    ensures ClassesUtilities.IterateWhile((y: int) => y < count, 0, (y: int) => Some(y + 1), TournamentRank(count)) + 1
      == Rounds(count)
  {
    TournamentCounter(count, 0);
  }

  // ---------------------------------------------------------------- roulette wheels

  predicate NonNegativeFitness<I>(pop: seq<Score<I>>)
  {
    forall k :: 0 <= k < |pop| ==> pop[k].fitness >= 0.0
  }

  /** `pop.map { adjustedFitness($0.fitness) }`. */
  function AdjustedWeights<I>(kind: FitnessKind, pop: seq<Score<I>>): (ws: seq<Double>)
    requires NonNegativeFitness(pop)
    ensures |ws| == |pop|
    ensures forall k :: 0 <= k < |pop| ==>
      ws[k] == AdjustedFitness(kind, pop[k].fitness) && NotNegative(ws[k]) && !ws[k].NaN?
  {
    seq(|pop|, k requires 0 <= k < |pop| => AdjustedFitness(kind, pop[k].fitness))
  }

  predicate WheelDraws(draws: seq<real>)
  {
    forall k :: 0 <= k < |draws| ==> 0.0 <= draws[k] <= 1.0
  }

  /**
   * `rouletteWheelNew`: `count` spins of `weightedRandomIndex` over the adjusted
   * fitnesses, spin `k` using `draws[k]`. An empty population traps at the first spin.
   */
  method RouletteWheelNew<I>(pop: seq<Score<I>>, kind: FitnessKind, count: nat, draws: seq<seq<real>>)
    returns (selection: seq<I>)
    requires NonNegativeFitness(pop)
    requires count > 0 ==> |pop| > 0
    requires |draws| >= count
    requires forall k :: 0 <= k < |draws| ==> |draws[k]| >= |pop| - 1 && WheelDraws(draws[k])
    ensures |selection| == count
    ensures forall k :: 0 <= k < count ==>
      selection[k] == pop[ClassesArrays.Chosen(AdjustedWeights(kind, pop), draws[k], |pop| - 1)].individual
  {
    var fitnesses := AdjustedWeights(kind, pop);
    selection := [];
    while |selection| < count
      invariant |selection| <= count
      invariant forall k :: 0 <= k < |selection| ==>
        selection[k] == pop[ClassesArrays.Chosen(fitnesses, draws[k], |pop| - 1)].individual
    {
      var idx := ClassesArrays.WeightedRandomIndex(fitnesses, draws[|selection|]);
      selection := selection + [pop[idx].individual];
    }
  }

  /** The step `rouletteWheelBroken` scans with: add the adjusted fitness of the next raw fitness. */
  function CumulativeStep(kind: FitnessKind): (Double, Double) -> Double
  {
    (acc: Double, val: Double) => if val.Real? && val.v >= 0.0 then Add(acc, AdjustedFitness(kind, val.v)) else NaN
  }

  /** The cumulative array: the first entry is the raw first fitness, later ones add adjusted fitnesses. */
  function Cumulative<I>(kind: FitnessKind, pop: seq<Score<I>>): (c: seq<Double>)
    ensures |c| == |pop|
  {
    MendelUtilities.Scan(ClassesArrays.AsDoubles(Fitnesses(pop)), CumulativeStep(kind))
  }

  /** The first cumulative entry is the unadjusted fitness, under either kind; the others add adjusted fitnesses. */
  lemma CumulativeEntries<I>(kind: FitnessKind, pop: seq<Score<I>>, i: nat)
    requires NonNegativeFitness(pop) && 0 < i < |pop|
    ensures Cumulative(kind, pop)[0] == Real(pop[0].fitness)
    ensures Cumulative(kind, pop)[i] == Add(Cumulative(kind, pop)[i - 1], AdjustedFitness(kind, pop[i].fitness))
  {
    MendelUtilities.ScanRecurrence(ClassesArrays.AsDoubles(Fitnesses(pop)), CumulativeStep(kind), i);
  }

  /** With non-negative fitnesses every cumulative entry is a non-negative weight. */
  lemma {:induction false} CumulativeNotNegative<I>(kind: FitnessKind, pop: seq<Score<I>>, i: nat)
    requires NonNegativeFitness(pop) && i < |pop|
    ensures NotNegative(Cumulative(kind, pop)[i])
  {
    if i == 0 {
      if |pop| > 1 {
        CumulativeEntries(kind, pop, 1);
      } else {
        assert Cumulative(kind, pop) == [Real(pop[0].fitness)];
      }
    } else {
      CumulativeEntries(kind, pop, i);
      CumulativeNotNegative(kind, pop, i - 1);
    }
  }

  /** The key of one spin: the draw times the last cumulative entry. */
  function BrokenKey<I>(kind: FitnessKind, pop: seq<Score<I>>, u: real): Double
    requires NonNegativeFitness(pop) && |pop| > 0 && 0.0 <= u <= 1.0
  {
    CumulativeNotNegative(kind, pop, |pop| - 1);
    Mul(Real(u), Cumulative(kind, pop)[|pop| - 1])
  }

  /**
   * `rouletteWheelBroken`: builds the cumulative array with `scanl1`, then for each spin
   * binary-searches the key among the raw fitnesses, not the cumulative array. The
   * result still has `count` individuals of the population. An empty population traps.
   */
  method RouletteWheelBroken<I>(pop: seq<Score<I>>, kind: FitnessKind, count: nat, draws: seq<real>)
    returns (selection: seq<I>)
    requires NonNegativeFitness(pop)
    requires count > 0 ==> |pop| > 0
    requires |draws| >= count && WheelDraws(draws)
    ensures |selection| == count
    ensures forall k :: 0 <= k < count ==>
      selection[k] == pop[ClassesUtilities.Search(Fitnesses(pop), BrokenKey(kind, pop, draws[k]), 0, |pop| - 1)].individual
  {
    var fitnesses := Fitnesses(pop);
    var cumulative := MendelUtilities.Scanl1(ClassesArrays.AsDoubles(fitnesses), CumulativeStep(kind));
    selection := [];
    while |selection| < count
      invariant |selection| <= count
      invariant forall k :: 0 <= k < |selection| ==>
        selection[k] == pop[ClassesUtilities.Search(fitnesses, BrokenKey(kind, pop, draws[k]), 0, |pop| - 1)].individual
    {
      CumulativeNotNegative(kind, pop, |pop| - 1);
      var randomFitness := Mul(Real(draws[|selection|]), cumulative[|cumulative| - 1]);
      var idx := ClassesUtilities.InsertionPoint(fitnesses, randomFitness);
      selection := selection + [pop[idx].individual];
    }
  }

  /**
   * The broken wheel ignores the wheel's slices: on the sorted Natural population with
   * fitnesses 3, 2, 1 and a draw of 0.5, the key is 3, whose slice of the cumulative
   * array 3, 5, 6 is the first individual's, yet the search among the raw fitnesses
   * picks the last, least fit individual.
   */
  lemma BrokenWheelPicksOutsideTheSlice<I>(a: I, b: I, c: I)
    ensures var pop := [Score(3.0, a), Score(2.0, b), Score(1.0, c)];
      Cumulative(Natural, pop) == [Real(3.0), Real(5.0), Real(6.0)]
      && BrokenKey(Natural, pop, 0.5) == Real(3.0)
      && ClassesUtilities.Search(Fitnesses(pop), BrokenKey(Natural, pop, 0.5), 0, 2) == 2
  {
    var pop := [Score(3.0, a), Score(2.0, b), Score(1.0, c)];
    CumulativeEntries(Natural, pop, 1);
    CumulativeEntries(Natural, pop, 2);
    assert Fitnesses(pop) == [3.0, 2.0, 1.0];
    ClassesUtilities.SearchOnDescendingDomain();
  }

  /** `cloneBest`: `count` copies of the first (best) individual; an empty population traps. */
  method CloneBest<I>(pop: seq<Score<I>>, kind: FitnessKind, count: nat) returns (selection: seq<I>)
    requires count > 0 ==> |pop| > 0
    ensures |selection| == count
    ensures forall k :: 0 <= k < count ==> selection[k] == pop[0].individual
  {
    selection := [];
    while |selection| < count
      invariant |selection| <= count
      invariant forall k :: 0 <= k < |selection| ==> selection[k] == pop[0].individual
    {
      selection := selection + [pop[0].individual];
    }
  }

  // ---------------------------------------------------------------- stochastic universal sampling

  /** `reduce(0, +)` over IEEE weights. */
  function WeightSum(ws: seq<Double>): Double
  {
    if ws == [] then Real(0.0) else Add(WeightSum(ws[..|ws| - 1]), ws[|ws| - 1])
  }

  predicate AllFinite(ws: seq<Double>)
  {
    forall k :: 0 <= k < |ws| ==> ws[k].Real?
  }

  function Values(ws: seq<Double>): (vs: seq<real>)
    requires AllFinite(ws)
    ensures |vs| == |ws| && forall k :: 0 <= k < |ws| ==> ws[k] == Real(vs[k])
  {
    seq(|ws|, k requires 0 <= k < |ws| => ws[k].v)
  }

  /** The case in which SUS samples: all weights finite, with a positive total. */
  predicate Proportional(ws: seq<Double>)
  {
    AllFinite(ws) && ClassesArrays.Sum(Values(ws)) > 0.0
  }

  /** The IEEE sum of non-negative weights is their real sum when all are finite, +∞ otherwise. */
  lemma {:induction false} WeightSumCases(ws: seq<Double>)
    requires forall k :: 0 <= k < |ws| ==> NotNegative(ws[k]) && !ws[k].NaN?
    ensures AllFinite(ws) ==> WeightSum(ws) == Real(ClassesArrays.Sum(Values(ws)))
    ensures !AllFinite(ws) ==> WeightSum(ws) == PosInf
  {
    if ws != [] {
      var n := |ws| - 1;
      WeightSumCases(ws[..n]);
      if AllFinite(ws) {
        assert Values(ws)[..n] == Values(ws[..n]);
      }
    }
  }

  /** The total of non-negative, non-NaN weights is itself non-negative and not NaN. */
  lemma WeightSumNotNegative(ws: seq<Double>)
    requires forall k :: 0 <= k < |ws| ==> NotNegative(ws[k]) && !ws[k].NaN?
    ensures NotNegative(WeightSum(ws)) && !WeightSum(ws).NaN?
  {
    WeightSumCases(ws);
    if AllFinite(ws) {
      SumNonNegative(Values(ws));
    }
  }

  /** Non-negative reals that sum to zero are all zero; their sum bounds each of them. */
  lemma {:induction false} SumBoundsEach(vs: seq<real>, k: nat)
    requires forall j :: 0 <= j < |vs| ==> vs[j] >= 0.0
    requires k < |vs|
    ensures 0.0 <= vs[k] <= ClassesArrays.Sum(vs)
  {
    var n := |vs| - 1;
    SumNonNegative(vs[..n]);
    if k < n {
      SumBoundsEach(vs[..n], k);
    }
  }

  lemma {:induction false} SumNonNegative(vs: seq<real>)
    requires forall j :: 0 <= j < |vs| ==> vs[j] >= 0.0
    ensures ClassesArrays.Sum(vs) >= 0.0
  {
    if vs != [] {
      SumNonNegative(vs[..|vs| - 1]);
    }
  }

  /** `x` rounded up. */
  function Ceil(x: real): (r: int)
    ensures r as real - 1.0 < x <= r as real
  {
    -((-x).Floor)
  }

  /** How many selection points `offset + n` (n = 0, 1, …) lie strictly below cumulative expectation `c`. */
  function Hits(c: real, offset: real): (h: nat)
    requires offset >= 0.0
  {
    if c <= offset then 0 else Ceil(c - offset)
  }

  /** `n` points lie below `c` exactly when point `n` does. */
  lemma HitsCharacterization(c: real, offset: real, n: nat)
    requires offset >= 0.0
    ensures n < Hits(c, offset) <==> offset + n as real < c
  {
  }

  lemma HitsMonotone(c: real, d: real, offset: real)
    requires offset >= 0.0 && c <= d
    ensures Hits(c, offset) <= Hits(d, offset)
  {
    if Hits(c, offset) > 0 {
      HitsCharacterization(c, offset, Hits(c, offset) - 1);
      HitsCharacterization(d, offset, Hits(c, offset) - 1);
    }
  }

  /** For offsets in [0, 1) the number of points below `c >= 0` is `c - offset` rounded up. */
  lemma HitsBracket(c: real, offset: real)
    requires 0.0 <= offset < 1.0 && c >= 0.0
    ensures c - offset <= Hits(c, offset) as real < c - offset + 1.0
  {
  }

  /** The cumulative expectation after the first `i` individuals: each adds `w / sum · count`. */
  function Expectation(vs: seq<real>, s: real, count: nat, i: nat): real
    requires i <= |vs| && s > 0.0
  {
    if i == 0 then 0.0 else Expectation(vs, s, count, i - 1) + vs[i - 1] / s * count as real
  }

  lemma ExpectationStepNonNegative(v: real, s: real, count: nat)
    requires v >= 0.0 && s > 0.0
    ensures v / s * count as real >= 0.0
  {
  }

  lemma {:induction false} ExpectationNonNegative(vs: seq<real>, s: real, count: nat, i: nat)
    requires i <= |vs| && s > 0.0
    requires forall j :: 0 <= j < |vs| ==> vs[j] >= 0.0
    ensures Expectation(vs, s, count, i) >= 0.0
  {
    if i > 0 {
      ExpectationNonNegative(vs, s, count, i - 1);
      ExpectationStepNonNegative(vs[i - 1], s, count);
    }
  }

  /** The cumulative expectation is the prefix sum scaled by `count / sum`. */
  lemma {:induction false} ExpectationIsScaledPrefixSum(vs: seq<real>, s: real, count: nat, i: nat)
    requires i <= |vs| && s > 0.0
    ensures Expectation(vs, s, count, i) == ClassesArrays.Sum(vs[..i]) / s * count as real
  {
    if i > 0 {
      ExpectationIsScaledPrefixSum(vs, s, count, i - 1);
      assert vs[..i][..i - 1] == vs[..i - 1];
      var a := ClassesArrays.Sum(vs[..i - 1]);
      assert ClassesArrays.Sum(vs[..i]) == a + vs[i - 1];
      Distribute(a, vs[i - 1], s, count as real);
    }
  }

  lemma Distribute(a: real, b: real, s: real, c: real)
    requires s > 0.0
    ensures a / s * c + b / s * c == (a + b) / s * c
  {
  }

  /** Copies of the same individual, `n` of them. */
  function Repeat<I>(x: I, n: nat): (r: seq<I>)
    ensures |r| == n && forall k :: 0 <= k < n ==> r[k] == x
  {
    seq(n, _ => x)
  }

  /**
   * What SUS emits for finite weights `vs` with total `s`: for each individual in
   * population order, one copy per selection point its slice of the expectation covers.
   */
  function SusSpec<I>(pop: seq<Score<I>>, vs: seq<real>, s: real, count: nat, offset: real, i: nat): seq<I>
    requires |vs| == |pop| && i <= |pop| && s > 0.0 && offset >= 0.0
    requires forall j :: 0 <= j < |vs| ==> vs[j] >= 0.0
  {
    if i == 0 then []
    else
      var before := Hits(Expectation(vs, s, count, i - 1), offset);
      var after := Hits(Expectation(vs, s, count, i), offset);
      ExpectationStepNonNegative(vs[i - 1], s, count);
      HitsMonotone(Expectation(vs, s, count, i - 1), Expectation(vs, s, count, i), offset);
      SusSpec(pop, vs, s, count, offset, i - 1) + Repeat(pop[i - 1].individual, after - before)
  }

  /** The number of copies SUS gives individual `i`. */
  function Copies(vs: seq<real>, s: real, count: nat, offset: real, i: nat): nat
    requires i < |vs| && s > 0.0 && offset >= 0.0
    requires forall j :: 0 <= j < |vs| ==> vs[j] >= 0.0
  {
    ExpectationStepNonNegative(vs[i], s, count);
    HitsMonotone(Expectation(vs, s, count, i), Expectation(vs, s, count, i + 1), offset);
    Hits(Expectation(vs, s, count, i + 1), offset) - Hits(Expectation(vs, s, count, i), offset)
  }

  /** The emitted list is as long as the number of selection points below the final expectation. */
  lemma {:induction false} SusSpecLength<I>(pop: seq<Score<I>>, vs: seq<real>, s: real, count: nat, offset: real, i: nat)
    requires |vs| == |pop| && i <= |pop| && s > 0.0 && offset >= 0.0
    requires forall j :: 0 <= j < |vs| ==> vs[j] >= 0.0
    ensures |SusSpec(pop, vs, s, count, offset, i)| == Hits(Expectation(vs, s, count, i), offset)
  {
    if i > 0 {
      SusSpecLength(pop, vs, s, count, offset, i - 1);
    }
  }

  /**
   * SUS emits exactly `count` individuals when the offset is below 1, and one fewer
   * (never below none) when the closed-range draw gives an offset of exactly 1.
   */
  lemma SusCount<I>(pop: seq<Score<I>>, vs: seq<real>, count: nat, offset: real)
    requires |vs| == |pop| && 0.0 <= offset <= 1.0
    requires forall j :: 0 <= j < |vs| ==> vs[j] >= 0.0
    requires ClassesArrays.Sum(vs) > 0.0
    ensures offset < 1.0 ==> |SusSpec(pop, vs, ClassesArrays.Sum(vs), count, offset, |pop|)| == count
    ensures offset == 1.0 ==> |SusSpec(pop, vs, ClassesArrays.Sum(vs), count, offset, |pop|)| == if count == 0 then 0 else count - 1
  {
    var s := ClassesArrays.Sum(vs);
    SusSpecLength(pop, vs, s, count, offset, |pop|);
    assert Expectation(vs, s, count, |pop|) == count as real by {
      ExpectationIsScaledPrefixSum(vs, s, count, |pop|);
      assert vs[..|pop|] == vs;
      WholeIsCount(s, count);
    }
    HitsOfCount(count, offset);
  }

  lemma WholeIsCount(s: real, count: nat)
    requires s > 0.0
    ensures s / s * count as real == count as real
  {
    assert s / s == 1.0;
  }

  /** Below an expectation of exactly `count`: `count` points from an offset under 1, one fewer from 1. */
  lemma HitsOfCount(count: nat, offset: real)
    requires 0.0 <= offset <= 1.0
    ensures offset < 1.0 ==> Hits(count as real, offset) == count
    ensures offset == 1.0 ==> Hits(count as real, offset) == if count == 0 then 0 else count - 1
  {
  }

  /** In the proportional case SUS emits `count` individuals for offsets below 1, one fewer at 1. */
  lemma SusResultCount<I>(pop: seq<Score<I>>, ws: seq<Double>, count: nat, offset: real)
    requires |ws| == |pop| && 0.0 <= offset <= 1.0 && Weights(ws) && Proportional(ws)
    ensures offset < 1.0 ==> |SusResult(pop, ws, count, offset)| == count
    ensures offset == 1.0 ==> |SusResult(pop, ws, count, offset)| == if count == 0 then 0 else count - 1
  {
    SusCount(pop, Values(ws), count, offset);
  }

  /**
   * Each individual's number of copies is within one of its expectation `w / sum · count`
   * (offset below 1); in particular a zero weight gets no copy.
   */
  lemma SusCopiesNearExpectation(vs: seq<real>, s: real, count: nat, offset: real, i: nat)
    requires i < |vs| && s > 0.0 && 0.0 <= offset < 1.0
    requires forall j :: 0 <= j < |vs| ==> vs[j] >= 0.0
    ensures vs[i] / s * count as real - 1.0 < Copies(vs, s, count, offset, i) as real < vs[i] / s * count as real + 1.0
    ensures vs[i] == 0.0 ==> Copies(vs, s, count, offset, i) == 0
  {
    ExpectationNonNegative(vs, s, count, i);
    ExpectationNonNegative(vs, s, count, i + 1);
    HitsBracket(Expectation(vs, s, count, i), offset);
    HitsBracket(Expectation(vs, s, count, i + 1), offset);
  }

  /** The emitted list is the population order with each individual's copies side by side. */
  lemma {:induction false} SusSpecBlocks<I>(pop: seq<Score<I>>, vs: seq<real>, s: real, count: nat, offset: real, i: nat)
    requires |vs| == |pop| && i < |pop| && s > 0.0 && offset >= 0.0
    requires forall j :: 0 <= j < |vs| ==> vs[j] >= 0.0
    ensures SusSpec(pop, vs, s, count, offset, i + 1)
      == SusSpec(pop, vs, s, count, offset, i) + Repeat(pop[i].individual, Copies(vs, s, count, offset, i))
  {
  }

  predicate Weights(ws: seq<Double>)
  {
    forall k :: 0 <= k < |ws| ==> NotNegative(ws[k]) && !ws[k].NaN?
  }

  /**
   * What SUS returns for the weights `ws`: the proportional sample when the weights are
   * finite with a positive total, nothing otherwise.
   */
  function SusResult<I>(pop: seq<Score<I>>, ws: seq<Double>, count: nat, offset: real): seq<I>
    requires |ws| == |pop| && offset >= 0.0 && Weights(ws)
  {
    if Proportional(ws) then
      var vs := Values(ws);
      SusSpec(pop, vs, ClassesArrays.Sum(vs), count, offset, |pop|)
    else []
  }

  /** In the proportional case one pass step turns the running expectation `E(i)` into `E(i + 1)`. */
  lemma ProportionalStep(ws: seq<Double>, count: nat, i: nat)
    requires Weights(ws) && Proportional(ws) && i < |ws|
    ensures var vs := Values(ws); var s := ClassesArrays.Sum(vs);
      WeightSum(ws) == Real(s)
      && Add(Real(Expectation(vs, s, count, i)), Mul(Div(ws[i], WeightSum(ws)), Real(count as real)))
         == Real(Expectation(vs, s, count, i + 1))
  {
    WeightSumCases(ws);
  }

  /**
   * One pass step in the proportional case: the running expectation moves from `E(i)` to
   * `E(i + 1)`, the points below it do not decrease, and the emitted list grows by the
   * copies of individual `i`.
   */
  lemma ProportionalAdvance<I>(pop: seq<Score<I>>, ws: seq<Double>, count: nat, offset: real, i: nat)
    requires |ws| == |pop| && offset >= 0.0 && Weights(ws) && Proportional(ws) && i < |ws|
    ensures var vs := Values(ws); var s := ClassesArrays.Sum(vs);
      var before := Expectation(vs, s, count, i); var after := Expectation(vs, s, count, i + 1);
      WeightSum(ws) == Real(s)
      && Add(Real(before), Mul(Div(ws[i], WeightSum(ws)), Real(count as real))) == Real(after)
      && Hits(before, offset) <= Hits(after, offset)
      && SusSpec(pop, vs, s, count, offset, i + 1)
         == SusSpec(pop, vs, s, count, offset, i) + Repeat(pop[i].individual, Hits(after, offset) - Hits(before, offset))
  {
    var vs := Values(ws);
    var s := ClassesArrays.Sum(vs);
    ProportionalStep(ws, count, i);
    ExpectationStepNonNegative(vs[i], s, count);
    HitsMonotone(Expectation(vs, s, count, i), Expectation(vs, s, count, i + 1), offset);
  }

  /**
   * Outside the proportional case each step adds 0 (a finite weight over an infinite
   * sum) or NaN (∞/∞, or 0/0 when all weights are 0), so the running expectation stays
   * 0 or NaN.
   */
  lemma {:induction false} DegenerateStep(ws: seq<Double>, count: nat, i: nat, cum: Double)
    requires Weights(ws) && !Proportional(ws) && i < |ws|
    requires cum == Real(0.0) || cum.NaN?
    ensures WeightSum(ws) == Real(0.0) || WeightSum(ws) == PosInf
    ensures var next := Add(cum, Mul(Div(ws[i], WeightSum(ws)), Real(count as real)));
      next == Real(0.0) || next.NaN?
  {
    WeightSumCases(ws);
    if AllFinite(ws) {
      SumNonNegative(Values(ws));
      SumBoundsEach(Values(ws), i);
    }
  }

  /**
   * The inner loop of `stochasticUniversalSampling`: appends `individual` while the
   * running expectation `cum` exceeds the next selection point `offset + idx`. A finite
   * expectation advances `idx` to the number of points below it (never backwards); NaN
   * passes no point.
   */
  method EmitCopies<I>(individual: I, cum: Double, offset: real, idx: nat, selection: seq<I>)
    returns (idx': nat, selection': seq<I>)
    requires offset >= 0.0 && !cum.PosInf?
    ensures idx' == if cum.Real? && Hits(cum.v, offset) > idx then Hits(cum.v, offset) else idx
    ensures selection' == selection + Repeat(individual, idx' - idx)
  {
    idx' := idx;
    selection' := selection;
    while Greater(cum, Real(offset + idx' as real))
      invariant idx <= idx'
      invariant cum.Real? ==> idx' <= if Hits(cum.v, offset) > idx then Hits(cum.v, offset) else idx
      invariant !cum.Real? ==> idx' == idx
      invariant selection' == selection + Repeat(individual, idx' - idx)
      decreases if cum.Real? then Hits(cum.v, offset) - idx' else 0
    {
      HitsCharacterization(cum.v, offset, idx');
      selection' := selection' + [individual];
      idx' := idx' + 1;
    }
    if cum.Real? {
      HitsCharacterization(cum.v, offset, idx');
    }
  }

  /**
   * `stochasticUniversalSampling`: one pass over the population accumulating each
   * individual's expectation `adjusted / sum · count`, emitting the individual while the
   * running expectation exceeds the next selection point `offset + idx`, where the offset
   * is drawn from the closed [0, 1]. Weights that include +∞ (an Inverted fitness of 0)
   * or that total 0 (including an empty population) make the running expectation NaN,
   * and nothing is emitted.
   */
  method StochasticUniversalSampling<I>(pop: seq<Score<I>>, kind: FitnessKind, count: nat, offset: real)
    returns (selection: seq<I>)
    requires NonNegativeFitness(pop) && 0.0 <= offset <= 1.0
    ensures selection == SusResult(pop, AdjustedWeights(kind, pop), count, offset)
    ensures !Proportional(AdjustedWeights(kind, pop)) ==> selection == []
  {
    var adjustedFitnesses := AdjustedWeights(kind, pop);
    var sum := WeightSum(adjustedFitnesses);
    WeightSumNotNegative(adjustedFitnesses);
    var cumulativeExpectation := Real(0.0);
    var idx: nat := 0;
    selection := [];
    for i := 0 to |pop|
      invariant SusPass(pop, adjustedFitnesses, count, offset, i, cumulativeExpectation, idx, selection)
    {
      var adjusted := AdjustedFitness(kind, pop[i].fitness);
      assert adjusted == adjustedFitnesses[i];
      SusPassAdvance(pop, adjustedFitnesses, count, offset, i, cumulativeExpectation, idx, selection);
      cumulativeExpectation := Add(cumulativeExpectation, Mul(Div(adjusted, sum), Real(count as real)));
      idx, selection := EmitCopies(pop[i].individual, cumulativeExpectation, offset, idx, selection);
    }
    SusPassComplete(pop, adjustedFitnesses, count, offset, cumulativeExpectation, idx, selection);
  }

  /**
   * The state of the SUS pass after the first `i` individuals: in the proportional case
   * the running expectation is `E(i)`, `idx` counts the points below it and the selection
   * is the specification's; otherwise the expectation is 0 or NaN and nothing is emitted.
   */
  ghost predicate SusPass<I>(pop: seq<Score<I>>, ws: seq<Double>, count: nat, offset: real, i: nat,
                             cum: Double, idx: nat, selection: seq<I>)
    requires |ws| == |pop| && offset >= 0.0 && Weights(ws) && i <= |pop|
  {
    if Proportional(ws) then
      var vs := Values(ws);
      var s := ClassesArrays.Sum(vs);
      cum == Real(Expectation(vs, s, count, i))
      && idx == Hits(Expectation(vs, s, count, i), offset)
      && selection == SusSpec(pop, vs, s, count, offset, i)
    else
      (cum == Real(0.0) || cum.NaN?) && idx == 0 && selection == []
  }

  /** After the whole population the pass has emitted exactly `SusResult`. */
  lemma SusPassComplete<I>(pop: seq<Score<I>>, ws: seq<Double>, count: nat, offset: real,
                           cum: Double, idx: nat, selection: seq<I>)
    requires |ws| == |pop| && offset >= 0.0 && Weights(ws)
    requires SusPass(pop, ws, count, offset, |pop|, cum, idx, selection)
    ensures selection == SusResult(pop, ws, count, offset)
    ensures !Proportional(ws) ==> selection == []
  {
  }

  /** One iteration of the SUS pass, followed by its inner loop, keeps `SusPass`. */
  lemma SusPassAdvance<I>(pop: seq<Score<I>>, ws: seq<Double>, count: nat, offset: real, i: nat,
                          cum: Double, idx: nat, selection: seq<I>)
    requires |ws| == |pop| && offset >= 0.0 && Weights(ws) && i < |pop|
    requires SusPass(pop, ws, count, offset, i, cum, idx, selection)
    ensures NotNegative(cum) && NotNegative(WeightSum(ws))
    ensures var next := Add(cum, Mul(Div(ws[i], WeightSum(ws)), Real(count as real)));
      !next.PosInf?
      && var idx' := if next.Real? && Hits(next.v, offset) > idx then Hits(next.v, offset) else idx;
      SusPass(pop, ws, count, offset, i + 1, next, idx', selection + Repeat(pop[i].individual, idx' - idx))
  {
    WeightSumNotNegative(ws);
    if Proportional(ws) {
      var vs := Values(ws);
      var s := ClassesArrays.Sum(vs);
      ExpectationNonNegative(vs, s, count, i);
      ProportionalAdvance(pop, ws, count, offset, i);
    } else {
      DegenerateStep(ws, count, i, cum);
    }
  }

  /**
   * SUS as evidently intended, with the offset drawn from the half-open [0, 1): in the
   * proportional case exactly `count` individuals are emitted.
   */
  method StochasticUniversalSamplingCorrected<I>(pop: seq<Score<I>>, kind: FitnessKind, count: nat, offset: real)
    returns (selection: seq<I>)
    requires NonNegativeFitness(pop) && 0.0 <= offset < 1.0
    ensures selection == SusResult(pop, AdjustedWeights(kind, pop), count, offset)
    ensures Proportional(AdjustedWeights(kind, pop)) ==> |selection| == count
  {
    selection := StochasticUniversalSampling(pop, kind, count, offset);
    if Proportional(AdjustedWeights(kind, pop)) {
      SusResultCount(pop, AdjustedWeights(kind, pop), count, offset);
    }
  }

  /** An Inverted population containing a perfect fitness of 0 gets an empty SUS selection. */
  lemma SusEmptyOnPerfectInvertedFitness<I>(pop: seq<Score<I>>, k: nat)
    requires NonNegativeFitness(pop) && k < |pop| && pop[k].fitness == 0.0
    ensures !Proportional(AdjustedWeights(Inverted, pop))
  {
  }

  // ---------------------------------------------------------------- sigma scaling

  /**
   * `sigmaScaled`: with no spread every individual gets expectation 1; otherwise
   * `1 + (f - mean) / (2 stdev)`, floored to 0.1 when that is not positive. The result is
   * always positive; above-average fitness gets at least 1, below-average less than 1.
   */
  function SigmaScaled(fitness: real, mean: real, stdev: real): (r: real)
    ensures r > 0.0
    ensures stdev == 0.0 ==> r == 1.0
    ensures stdev > 0.0 && fitness >= mean ==> r >= 1.0
    ensures stdev > 0.0 && fitness < mean ==> r < 1.0
    ensures stdev != 0.0 ==> r == 0.1 || r == 1.0 + (fitness - mean) / (2.0 * stdev)
  {
    if stdev == 0.0 then 1.0
    else
      var scaled := 1.0 + (fitness - mean) / (2.0 * stdev);
      if scaled > 0.0 then scaled else 0.1
  }

  /** The population with sigma-scaled fitnesses, individuals and order unchanged. */
  function SigmaScaledPop<I>(pop: seq<Score<I>>, m: Moments): (r: seq<Score<I>>)
    ensures |r| == |pop| && NonNegativeFitness(r)
    ensures forall k :: 0 <= k < |pop| ==>
      r[k] == Score(SigmaScaled(pop[k].fitness, m.mean, m.stdev), pop[k].individual)
  {
    seq(|pop|, k requires 0 <= k < |pop| => Score(SigmaScaled(pop[k].fitness, m.mean, m.stdev), pop[k].individual))
  }

  /** Sigma-scaled weights are positive and finite under either kind: always the proportional case. */
  lemma {:induction false} SigmaScaledIsProportional<I>(kind: FitnessKind, pop: seq<Score<I>>, m: Moments)
    requires |pop| > 0
    ensures Proportional(AdjustedWeights(kind, SigmaScaledPop(pop, m)))
  {
    var ws := AdjustedWeights(kind, SigmaScaledPop(pop, m));
    assert AllFinite(ws);
    var vs := Values(ws);
    assert forall k :: 0 <= k < |vs| ==> vs[k] >= 0.0;
    PositiveEntryPositiveSum(vs, 0);
  }

  lemma {:induction false} PositiveEntryPositiveSum(vs: seq<real>, k: nat)
    requires k < |vs| && vs[k] > 0.0
    requires forall j :: 0 <= j < |vs| ==> vs[j] >= 0.0
    ensures ClassesArrays.Sum(vs) > 0.0
  {
    var n := |vs| - 1;
    SumNonNegative(vs[..n]);
    if k < n {
      PositiveEntryPositiveSum(vs[..n], k);
    }
  }

  /**
   * `sigmaScaling`: replaces each fitness by its sigma-scaled value, using the mean and
   * deviation the statistics collaborator gives for the fitnesses, and delegates to SUS.
   * A non-empty population always yields exactly `count` individuals (offset below 1).
   */
  method SigmaScaling<I>(pop: seq<Score<I>>, kind: FitnessKind, count: nat, offset: real, stats: seq<real> -> Moments)
    returns (selection: seq<I>)
    requires 0.0 <= offset <= 1.0
    ensures var scaledPop := SigmaScaledPop(pop, stats(Fitnesses(pop)));
      selection == SusResult(scaledPop, AdjustedWeights(kind, scaledPop), count, offset)
    ensures pop == [] ==> selection == []
    ensures |pop| > 0 && offset < 1.0 ==> |selection| == count
  {
    var fitnesses := Fitnesses(pop);
    var m := stats(fitnesses);
    var scaledPop := SigmaScaledPop(pop, m);
    selection := StochasticUniversalSampling(scaledPop, kind, count, offset);
    if |pop| > 0 {
      SigmaScaledIsProportional(kind, pop, m);
      SusResultCount(scaledPop, AdjustedWeights(kind, scaledPop), count, offset);
    }
  }

  // ---------------------------------------------------------------- rank selection

  /** `rankMapped`: population size minus the 1-based rank. */
  function RankMapped(rank: int, populationSize: int): (r: real)
    ensures rank == 1 ==> r == (populationSize - 1) as real
    ensures rank == populationSize ==> r == 0.0
  {
    (populationSize - rank) as real
  }

  /** The population with the score at index `i` replaced by `rankMapped(i + 1, n)`. */
  function RankedPop<I>(pop: seq<Score<I>>): (r: seq<Score<I>>)
    ensures |r| == |pop| && NonNegativeFitness(r)
    ensures forall k :: 0 <= k < |pop| ==> r[k] == Score(RankMapped(k + 1, |pop|), pop[k].individual)
  {
    seq(|pop|, k requires 0 <= k < |pop| => Score(RankMapped(k + 1, |pop|), pop[k].individual))
  }

  /** Rank mapping keeps individuals and order; the best gets n - 1, each next one less, the last 0. */
  lemma RankedPopIsLinear<I>(pop: seq<Score<I>>, i: nat, j: nat)
    requires i < j < |pop|
    ensures Individuals(RankedPop(pop)) == Individuals(pop)
    ensures RankedPop(pop)[0].fitness == (|pop| - 1) as real
    ensures RankedPop(pop)[|pop| - 1].fitness == 0.0
    ensures RankedPop(pop)[i].fitness - RankedPop(pop)[j].fitness == (j - i) as real
  {
  }

  /** Under Natural the rank weights of two or more individuals total n(n-1)/2 > 0. */
  lemma {:induction false} RankWeightsAreProportional<I>(pop: seq<Score<I>>)
    requires |pop| >= 2
    ensures Proportional(AdjustedWeights(Natural, RankedPop(pop)))
  {
    var ws := AdjustedWeights(Natural, RankedPop(pop));
    var vs := Values(ws);
    assert vs[0] == (|pop| - 1) as real;
    PositiveEntryPositiveSum(vs, 0);
  }

  /** Under Inverted the last rank weight is 1/0 = +∞, so rank weights are never proportional. */
  lemma RankWeightsInvertedAreInfinite<I>(pop: seq<Score<I>>)
    requires |pop| >= 1
    ensures AdjustedWeights(Inverted, RankedPop(pop))[|pop| - 1] == PosInf
    ensures !Proportional(AdjustedWeights(Inverted, RankedPop(pop)))
  {
  }

  /**
   * `rankSelection`, as written: maps ranks and delegates to SUS with the caller's
   * fitness kind. Under Natural, with two or more individuals, it samples the rank
   * weights and emits `count` individuals (offset below 1); under Inverted the last rank
   * weight becomes +∞ and the selection is always empty, so the engine falls back to
   * uniformly random picks.
   */
  method RankSelection<I>(pop: seq<Score<I>>, kind: FitnessKind, count: nat, offset: real) returns (selection: seq<I>)
    requires 0.0 <= offset <= 1.0
    ensures selection == SusResult(RankedPop(pop), AdjustedWeights(kind, RankedPop(pop)), count, offset)
    ensures kind.Inverted? ==> selection == []
    ensures kind.Natural? && |pop| >= 2 && offset < 1.0 ==> |selection| == count
  {
    var mappedPop := RankedPop(pop);
    selection := StochasticUniversalSampling(mappedPop, kind, count, offset);
    if kind.Inverted? && |pop| >= 1 {
      RankWeightsInvertedAreInfinite(pop);
    }
    if kind.Natural? && |pop| >= 2 {
      RankWeightsAreProportional(pop);
      SusResultCount(mappedPop, AdjustedWeights(Natural, mappedPop), count, offset);
    }
  }

  /**
   * Rank selection as evidently intended: rank weights already grow with fitness, so they
   * are sampled as Natural weights whatever the engine's kind. With two or more
   * individuals it emits exactly `count` individuals (offset below 1), under either kind.
   */
  method RankSelectionCorrected<I>(pop: seq<Score<I>>, kind: FitnessKind, count: nat, offset: real)
    returns (selection: seq<I>)
    requires 0.0 <= offset <= 1.0
    ensures selection == SusResult(RankedPop(pop), AdjustedWeights(Natural, RankedPop(pop)), count, offset)
    ensures |pop| >= 2 && offset < 1.0 ==> |selection| == count
  {
    var mappedPop := RankedPop(pop);
    selection := StochasticUniversalSampling(mappedPop, Natural, count, offset);
    if |pop| >= 2 {
      RankWeightsAreProportional(pop);
      SusResultCount(mappedPop, AdjustedWeights(Natural, mappedPop), count, offset);
    }
  }
}
