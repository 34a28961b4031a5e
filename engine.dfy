/**
 * Mendel/Mendel/Engine.swift from `SimpleEngine` on: the generational engine. Its
 * closures (factory, selection, genetic operator) draw random numbers; here each takes
 * the draw or seed it consumes as an extra argument, and every generation's draws come
 * from the `StepDraws` the caller supplies.
 */
module Engine {
  import opened Wrappers
  import opened Core
  import Dice
  import Selection

  /** `Configuration`: population size and how many of the best survive unchanged. */
  datatype Configuration = Configuration(size: nat, eliteCount: nat)

  /** The default configuration: 250 individuals, one elite. */
  const DefaultConfiguration := Configuration(250, 1)

  /** The random input of one generation. */
  datatype StepDraws = StepDraws(
    selectionSeed: nat,      // consumed by the selection closure
    fill: nat -> real,       // the k-th uniformly random back-fill pick
    opSeed: nat,             // consumed by the genetic operator
    spawn: nat -> nat)       // the k-th factory call topping up the population

  ghost predicate ValidStepDraws(d: StepDraws)
  {
    forall k: nat :: 0.0 <= d.fill(k) < 1.0
  }

  /**
   * The selection topped up to `normalCount` with uniformly random picks from the
   * population (`Selections.Random`); a selection that is long enough is kept as it is.
   */
  function Backfilled<I>(pop: seq<Score<I>>, selected: seq<I>, normalCount: nat, fill: nat -> real): (r: seq<I>)
    requires normalCount <= |pop|
    requires forall k: nat :: 0.0 <= fill(k) < 1.0
    ensures |r| == if |selected| < normalCount then normalCount else |selected|
    ensures selected <= r
    ensures forall k :: |selected| <= k < |r| ==> r[k] in Individuals(pop)
  {
    if |selected| < normalCount then
      var picks := seq(normalCount - |selected|, k requires 0 <= k < normalCount - |selected| =>
        Dice.PickRandom(Individuals(pop), fill(k)));
      assert forall k :: 0 <= k < |picks| ==> 0.0 <= fill(k) < 1.0;
      assert forall k :: 0 <= k < |picks| ==> picks[k] == Dice.PickRandom(Individuals(pop), fill(k));
      selected + picks
    else selected
  }

  /** The operator's output topped up to `normalCount` with new individuals from the factory. */
  function Replenished<I>(mutated: seq<I>, normalCount: nat, factory: nat -> I, spawn: nat -> nat): (r: seq<I>)
    ensures |r| == if |mutated| < normalCount then normalCount else |mutated|
    ensures mutated <= r
    ensures forall k :: |mutated| <= k < |r| ==> r[k] == factory(spawn(k - |mutated|))
  {
    if |mutated| < normalCount then
      mutated + seq(normalCount - |mutated|, k requires 0 <= k < normalCount - |mutated| => factory(spawn(k)))
    else mutated
  }

  /**
   * `step`'s back-fill loop: while the selection is short, it appends `Selections.Random`
   * picks for the missing individuals. The loop computes `Backfilled`.
   */
  method Backfill<I>(pop: seq<Score<I>>, kind: FitnessKind, selected: seq<I>, normalCount: nat, fill: nat -> real)
    returns (r: seq<I>)
    requires normalCount <= |pop|
    requires forall k: nat :: 0.0 <= fill(k) < 1.0
    ensures r == Backfilled(pop, selected, normalCount, fill)
  {
    r := selected;
    while |r| < normalCount
      invariant r == selected || r == Backfilled(pop, selected, normalCount, fill)
      invariant |r| < normalCount ==> r == selected
      decreases normalCount - |r|
    {
      var deficit := normalCount - |r|;
      var extra := Selection.Random(pop, kind, deficit, seq(deficit, k requires 0 <= k < deficit => fill(k)));
      assert extra == seq(deficit, k requires 0 <= k < deficit => Dice.PickRandom(Individuals(pop), fill(k)));
      r := r + extra;
    }
  }

  /**
   * `step`'s top-up loop: while the operator's output is short, it appends a new
   * individual from the factory. The loop computes `Replenished`.
   */
  method Replenish<I>(mutated: seq<I>, normalCount: nat, factory: nat -> I, spawn: nat -> nat)
    returns (r: seq<I>)
    ensures r == Replenished(mutated, normalCount, factory, spawn)
  {
    r := mutated;
    var made := 0;
    while |r| < normalCount
      invariant made == |r| - |mutated| && |mutated| <= |r|
      invariant |mutated| < normalCount ==> |r| <= normalCount
      invariant |mutated| >= normalCount ==> r == mutated
      invariant mutated <= r
      invariant forall k :: |mutated| <= k < |r| ==> r[k] == factory(spawn(k - |mutated|))
      decreases normalCount - |r|
    {
      r := r + [factory(spawn(made))];
      made := made + 1;
    }
    ghost var replenished := Replenished(mutated, normalCount, factory, spawn);
    assert |r| == |replenished|;
    assert forall k :: 0 <= k < |r| ==> r[k] == replenished[k];
  }

  /**
   * The individuals of the next generation: the first `eliteCount` of the sorted
   * population, then the selected (and back-filled) individuals after the genetic
   * operator, topped up by the factory. The elites come first and unchanged, and the
   * next generation is never smaller than the current one.
   */
  function NextIndividuals<I>(pop: seq<Score<I>>, eliteCount: nat, kind: FitnessKind,
                              selection: (seq<Score<I>>, FitnessKind, nat, nat) -> seq<I>,
                              op: (seq<I>, nat) -> seq<I>, factory: nat -> I, d: StepDraws): (r: seq<I>)
    requires eliteCount <= |pop| && ValidStepDraws(d)
    ensures |r| >= |pop|
    ensures r[..eliteCount] == Individuals(pop[..eliteCount])
  {
    var normalCount := |pop| - eliteCount;
    var selected := Backfilled(pop, selection(pop, kind, normalCount, d.selectionSeed), normalCount, d.fill);
    Individuals(pop[..eliteCount]) + Replenished(op(selected, d.opSeed), normalCount, factory, d.spawn)
  }

  /**
   * When the selection never returns more than asked and the operator never returns more
   * individuals than it is given (a shortfall is topped up by the factory), the
   * population size stays the same from one generation to the next.
   */
  lemma NextIndividualsKeepsSize<I>(pop: seq<Score<I>>, eliteCount: nat, kind: FitnessKind,
                                    selection: (seq<Score<I>>, FitnessKind, nat, nat) -> seq<I>,
                                    op: (seq<I>, nat) -> seq<I>, factory: nat -> I, d: StepDraws)
    requires eliteCount <= |pop| && ValidStepDraws(d)
    requires |selection(pop, kind, |pop| - eliteCount, d.selectionSeed)| <= |pop| - eliteCount
    requires forall x, seed :: |op(x, seed)| <= |x|
    ensures |NextIndividuals(pop, eliteCount, kind, selection, op, factory, d)| == |pop|
  {
    var normalCount := |pop| - eliteCount;
    var selected := Backfilled(pop, selection(pop, kind, normalCount, d.selectionSeed), normalCount, d.fill);
    assert |op(selected, d.opSeed)| <= normalCount;
  }

  /**
   * When the selection returns nothing (as rank selection does under Inverted), every
   * selected slot is a uniformly random pick from the population.
   */
  lemma EmptySelectionIsRandom<I>(pop: seq<Score<I>>, eliteCount: nat, kind: FitnessKind,
                                  selection: (seq<Score<I>>, FitnessKind, nat, nat) -> seq<I>,
                                  d: StepDraws, k: nat)
    requires eliteCount <= |pop| && ValidStepDraws(d)
    requires selection(pop, kind, |pop| - eliteCount, d.selectionSeed) == []
    requires k < |pop| - eliteCount
    ensures Backfilled(pop, [], |pop| - eliteCount, d.fill)[k] == Dice.PickRandom(Individuals(pop), d.fill(k))
  {
  }

  /** `evaluation` scores an individual the same against every population. */
  ghost predicate PopulationIndependent<I(!new)>(evaluation: (I, seq<I>) -> real)
  {
    forall a, p, q :: evaluation(a, p) == evaluation(a, q)
  }

  /** Termination asked for: a termination predicate is set and holds. */
  predicate Stops<I>(termination: Option<IterationData<I> -> bool>, data: IterationData<I>)
  {
    termination.Some? && termination.value(data)
  }

  /**
   * Elitism: when the best score of one generation reappears with the same fitness in the
   * next, sorted generation, the next best fitness is at least as good.
   */
  lemma {:induction false} ElitismKeepsBest<I>(kind: FitnessKind, best: Score<I>, next: seq<Score<I>>, j: nat)
    requires Ordered(kind, next) && j < |next| && next[j].fitness == best.fitness
    ensures !Better(kind, best.fitness, next[0].fitness)
  {
    if j > 0 {
      assert !Better(kind, next[j].fitness, next[0].fitness);
    }
  }

  /** "Not worse than" is transitive under either fitness kind. */
  lemma NotWorseIsTransitive(kind: FitnessKind, a: real, b: real, c: real)
    requires !Better(kind, a, b) && !Better(kind, b, c)
    ensures !Better(kind, a, c)
  {
  }

  /** The sorted population holds the same scores, so each keeps its fitness-to-individual relation. */
  lemma SortedKeepsScores<I>(kind: FitnessKind, pop: seq<Score<I>>, evaluation: (I, seq<I>) -> real, k: nat)
    requires forall j :: 0 <= j < |pop| ==> pop[j].fitness == evaluation(pop[j].individual, [])
    requires k < |pop|
    ensures SortEvaluatedPopulation(kind, pop)[k].fitness == evaluation(SortEvaluatedPopulation(kind, pop)[k].individual, [])
  {
    var sorted := SortEvaluatedPopulation(kind, pop);
    assert sorted[k] in multiset(pop);
  }

  /**
   * With a population-independent evaluation, scoring a population gives every
   * individual the fitness it has on its own, and sorting keeps that.
   */
  lemma IndependentScores<I(!new)>(kind: FitnessKind, inds: seq<I>, evaluated: seq<Score<I>>, evaluation: (I, seq<I>) -> real)
    requires PopulationIndependent(evaluation)
    requires |evaluated| == |inds| && forall j :: 0 <= j < |inds| ==> evaluated[j] == Score(evaluation(inds[j], inds), inds[j])
    ensures forall j :: 0 <= j < |evaluated| ==>
      SortEvaluatedPopulation(kind, evaluated)[j].fitness == evaluation(SortEvaluatedPopulation(kind, evaluated)[j].individual, [])
  {
    forall j | 0 <= j < |evaluated|
      ensures evaluated[j].fitness == evaluation(evaluated[j].individual, [])
    {
      assert evaluation(inds[j], inds) == evaluation(inds[j], []);
    }
    var sorted := SortEvaluatedPopulation(kind, evaluated);
    forall j | 0 <= j < |sorted|
      ensures sorted[j].fitness == evaluation(sorted[j].individual, [])
    {
      SortedKeepsScores(kind, evaluated, evaluation, j);
    }
  }

  /**
   * One generation under elitism with a population-independent evaluation: the previous
   * best individual is rescored with the same fitness, so the best of the next sorted
   * generation is at least as good.
   */
  lemma ElitismStep<I(!new)>(kind: FitnessKind, previous: seq<Score<I>>, eliteCount: nat, inds: seq<I>,
                             evaluated: seq<Score<I>>, evaluation: (I, seq<I>) -> real)
    requires PopulationIndependent(evaluation) && 1 <= eliteCount <= |previous|
    requires previous[0].fitness == evaluation(previous[0].individual, [])
    requires |inds| >= |previous| && inds[..eliteCount] == Individuals(previous[..eliteCount])
    requires |evaluated| == |inds| && forall j :: 0 <= j < |inds| ==> evaluated[j] == Score(evaluation(inds[j], inds), inds[j])
    ensures !Better(kind, previous[0].fitness, SortEvaluatedPopulation(kind, evaluated)[0].fitness)
  {
    assert inds[..eliteCount][0] == Individuals(previous[..eliteCount])[0];
    var elite := evaluated[0];
    assert elite.fitness == evaluation(inds[0], []);
    var sorted := SortEvaluatedPopulation(kind, evaluated);
    assert elite in multiset(sorted);
    var j :| 0 <= j < |sorted| && sorted[j] == elite;
    ElitismKeepsBest(kind, previous[0], sorted, j);
  }

  /** A report that did not stop the run, appended after others that did not, keeps it running. */
  lemma AppendKeepsRunning<I>(termination: Option<IterationData<I> -> bool>, reports: seq<IterationData<I>>,
                              data: IterationData<I>)
    requires |reports| >= 1 && !Stops(termination, reports[|reports| - 1])
    requires forall k :: 0 <= k < |reports| - 1 ==> !Stops(termination, reports[k])
    ensures var extended := reports + [data];
      forall k :: 0 <= k < |extended| - 1 ==> !Stops(termination, extended[k])
  {
    var extended := reports + [data];
    forall k | 0 <= k < |extended| - 1
      ensures !Stops(termination, extended[k])
    {
      assert extended[k] == reports[k];
    }
  }

  /**
   * A report whose best fitness is no worse than the last one's, appended to reports whose
   * best fitnesses never get worse, keeps them from getting worse.
   */
  lemma AppendKeepsImproving<I>(kind: FitnessKind, reports: seq<IterationData<I>>, data: IterationData<I>)
    requires |reports| >= 1
    requires forall i, j :: 0 <= i < j < |reports| ==>
      !Better(kind, reports[i].bestCandidateFitness, reports[j].bestCandidateFitness)
    requires !Better(kind, reports[|reports| - 1].bestCandidateFitness, data.bestCandidateFitness)
    ensures var extended := reports + [data];
      forall i, j :: 0 <= i < j < |extended| ==>
        !Better(kind, extended[i].bestCandidateFitness, extended[j].bestCandidateFitness)
  {
    var extended := reports + [data];
    forall i, j | 0 <= i < j < |extended|
      ensures !Better(kind, extended[i].bestCandidateFitness, extended[j].bestCandidateFitness)
    {
      assert extended[i] == reports[i];
      if j < |reports| {
        assert extended[j] == reports[j];
      } else if i < |reports| - 1 {
        NotWorseIsTransitive(kind, reports[i].bestCandidateFitness,
                             reports[|reports| - 1].bestCandidateFitness, data.bestCandidateFitness);
      }
    }
  }

  /** `SimpleEngine`: a generational engine; the closures are fixed, termination and configuration can be changed. */
  class SimpleEngine<I(!new)> {
    const threads: nat := 8

    const factory: nat -> I
    const fitnessKind: FitnessKind
    const selection: (seq<Score<I>>, FitnessKind, nat, nat) -> seq<I>
    const op: (seq<I>, nat) -> seq<I>
    const evaluation: (I, seq<I>) -> real
    /** The statistics collaborator behind `IterationData`'s mean and deviation. */
    const stats: seq<real> -> Moments

    var termination: Option<IterationData<I> -> bool>
    var config: Configuration

    /** `init`: stores the closures; no termination predicate and the default configuration. */
    constructor(factory: nat -> I, evaluation: (I, seq<I>) -> real, fitnessKind: FitnessKind,
                selection: (seq<Score<I>>, FitnessKind, nat, nat) -> seq<I>, op: (seq<I>, nat) -> seq<I>,
                stats: seq<real> -> Moments)
      ensures this.factory == factory && this.evaluation == evaluation && this.fitnessKind == fitnessKind
      ensures this.selection == selection && this.op == op && this.stats == stats
      ensures termination == None && config == DefaultConfiguration
    {
      this.factory := factory;
      this.evaluation := evaluation;
      this.fitnessKind := fitnessKind;
      this.selection := selection;
      this.op := op;
      this.stats := stats;
      this.termination := None;
      this.config := DefaultConfiguration;
    }

    /**
     * `step`: keeps the elites, selects `normalCount` individuals (back-filling with
     * uniformly random picks while the selection falls short), applies the genetic
     * operator, tops up with new individuals, and scores the new population with a
     * stride of a `threads`-th of it. Too many elites trap at the slice, and a new
     * population smaller than `threads` traps on a zero stride.
     */
    method Step(pop: seq<Score<I>>, d: StepDraws) returns (next: seq<Score<I>>)
      requires config.eliteCount <= |pop| && ValidStepDraws(d)
      requires |NextIndividuals(pop, config.eliteCount, fitnessKind, selection, op, factory, d)| >= threads
      ensures var inds := NextIndividuals(pop, config.eliteCount, fitnessKind, selection, op, factory, d);
        |next| == |inds|
        && forall j :: 0 <= j < |inds| ==> next[j] == Score(evaluation(inds[j], inds), inds[j])
    {
      var elites := Individuals(pop[..config.eliteCount]);
      var normalCount := |pop| - |elites|;
      var selectedPop := selection(pop, fitnessKind, normalCount, d.selectionSeed);
      selectedPop := Backfill(pop, fitnessKind, selectedPop, normalCount, d.fill);
      var mutatedPop := op(selectedPop[0..|selectedPop|], d.opSeed);
      assert selectedPop[0..|selectedPop|] == selectedPop;
      mutatedPop := Replenish(mutatedPop, normalCount, factory, d.spawn);
      assert elites + mutatedPop == NextIndividuals(pop, config.eliteCount, fitnessKind, selection, op, factory, d);
      var newPop := elites + mutatedPop;
      var stride := |newPop| / threads;
      next := EvaluatePopulation(newPop, stride, evaluation);
    }

    /**
     * `next` is what one pass of `evolve`'s loop makes of `prev` on the draws `d`: the
     * next generation's individuals, each scored against that generation, sorted.
     */
    ghost predicate Successor(prev: seq<Score<I>>, d: StepDraws, next: seq<Score<I>>)
      reads this
    {
      config.eliteCount <= |prev| && ValidStepDraws(d) &&
      var inds := NextIndividuals(prev, config.eliteCount, fitnessKind, selection, op, factory, d);
      next == SortEvaluatedPopulation(fitnessKind, Evaluated(inds, evaluation, |inds|))
    }

    /** The primordial population of `evolve`, scored and sorted. */
    ghost function Primordial(soup: seq<nat>): (pop: seq<Score<I>>)
      reads this
      requires |soup| >= config.size
      ensures |pop| == config.size && Ordered(fitnessKind, pop)
    {
      var inds := PrimordialSoup(config.size, factory, soup);
      SortEvaluatedPopulation(fitnessKind, Evaluated(inds, evaluation, |inds|))
    }

    /**
     * `pops` and `reports` are the first generations of `evolve` on `soup` and `steps`:
     * the primordial population first, each later one the successor of the one before,
     * and report `k` built from population `k`.
     */
    ghost predicate History(soup: seq<nat>, steps: nat -> StepDraws, pops: seq<seq<Score<I>>>,
                            reports: seq<IterationData<I>>)
      reads this
    {
      |soup| >= config.size && |pops| == |reports| >= 1 && pops[0] == Primordial(soup)
      && (forall k :: 0 <= k < |pops| ==>
            |pops[k]| >= config.size && |pops[k]| > 0 && reports[k] == MakeIterationData(k, pops[k], fitnessKind, stats))
      && (forall k :: 0 <= k < |pops| - 1 ==> Successor(pops[k], steps(k), pops[k + 1]))
    }

    /** One more generation, the successor of the last, extends the history. */
    lemma HistoryExtends(soup: seq<nat>, steps: nat -> StepDraws, pops: seq<seq<Score<I>>>,
                         reports: seq<IterationData<I>>, next: seq<Score<I>>, data: IterationData<I>)
      requires History(soup, steps, pops, reports)
      requires Successor(pops[|pops| - 1], steps(|pops| - 1), next)
      requires |next| >= config.size && |next| > 0
      requires data == MakeIterationData(|pops|, next, fitnessKind, stats)
      ensures History(soup, steps, pops + [next], reports + [data])
    {
      var pops', reports' := pops + [next], reports + [data];
      forall k | 0 <= k < |pops'|
        ensures |pops'[k]| >= config.size && |pops'[k]| > 0
          && reports'[k] == MakeIterationData(k, pops'[k], fitnessKind, stats)
      {
        if k < |pops| {
          assert pops'[k] == pops[k] && reports'[k] == reports[k];
        }
      }
      forall k | 0 <= k < |pops'| - 1
        ensures Successor(pops'[k], steps(k), pops'[k + 1])
      {
        if k < |pops| - 1 {
          assert pops'[k] == pops[k] && pops'[k + 1] == pops[k + 1];
        }
      }
    }

    /**
     * One pass of `evolve`'s loop before the new report: step the sorted population and
     * sort the result. The result is the sorted, scored successor of the input; it never
     * shrinks and comes back sorted; with an
     * evaluation that ignores the rest of the population every score is the individual's
     * own fitness, and with at least one elite the new best is no worse than the old.
     */
    method Generation(sortedPop: seq<Score<I>>, d: StepDraws) returns (nextSorted: seq<Score<I>>)
      requires config.eliteCount <= |sortedPop| && |sortedPop| >= threads && ValidStepDraws(d)
      requires PopulationIndependent(evaluation) ==>
        forall j :: 0 <= j < |sortedPop| ==> sortedPop[j].fitness == evaluation(sortedPop[j].individual, [])
      ensures Successor(sortedPop, d, nextSorted)
      ensures |nextSorted| >= |sortedPop| && Ordered(fitnessKind, nextSorted)
      ensures PopulationIndependent(evaluation) ==>
        forall j :: 0 <= j < |nextSorted| ==> nextSorted[j].fitness == evaluation(nextSorted[j].individual, [])
      ensures PopulationIndependent(evaluation) && config.eliteCount >= 1 ==>
        !Better(fitnessKind, sortedPop[0].fitness, nextSorted[0].fitness)
    {
      ghost var inds := NextIndividuals(sortedPop, config.eliteCount, fitnessKind, selection, op, factory, d);
      var evaluatedPop := Step(sortedPop, d);
      assert evaluatedPop == Evaluated(inds, evaluation, |inds|);
      nextSorted := SortEvaluatedPopulation(fitnessKind, evaluatedPop);
      if PopulationIndependent(evaluation) {
        IndependentScores(fitnessKind, inds, evaluatedPop, evaluation);
        if config.eliteCount >= 1 {
          ElitismStep(fitnessKind, sortedPop, config.eliteCount, inds, evaluatedPop, evaluation);
        }
      }
    }

    /**
     * The start of `evolve`: the primordial population, scored against itself with a
     * stride of a `threads`-th of it, and sorted. With an evaluation that ignores the rest
     * of the population every score is the individual's own fitness.
     */
    method Populate(soup: seq<nat>) returns (sorted: seq<Score<I>>)
      requires config.size >= threads && |soup| >= config.size
      ensures sorted == Primordial(soup)
      ensures PopulationIndependent(evaluation) ==>
        forall j :: 0 <= j < |sorted| ==> sorted[j].fitness == evaluation(sorted[j].individual, [])
    {
      var pop := PrimordialSoup(config.size, factory, soup);
      var stride := |pop| / threads;
      var evaluatedPop := EvaluatePopulation(pop, stride, evaluation);
      assert evaluatedPop == Evaluated(pop, evaluation, |pop|);
      sorted := SortEvaluatedPopulation(fitnessKind, evaluatedPop);
      if PopulationIndependent(evaluation) {
        IndependentScores(fitnessKind, pop, evaluatedPop, evaluation);
      }
    }

    /**
     * One pass of `evolve`'s loop: the next sorted generation and its report, which extend
     * the history. With an evaluation that ignores the rest of the population the scores
     * stay each individual's own fitness, and with at least one elite the best fitness
     * does not get worse.
     */
    method Advance(soup: seq<nat>, steps: nat -> StepDraws, ghost pops: seq<seq<Score<I>>>,
                   reports: seq<IterationData<I>>, sortedPop: seq<Score<I>>)
      returns (next: seq<Score<I>>, data: IterationData<I>)
      requires config.size >= threads && config.eliteCount <= config.size
      requires History(soup, steps, pops, reports) && pops[|pops| - 1] == sortedPop
      requires ValidStepDraws(steps(|pops| - 1))
      requires PopulationIndependent(evaluation) ==>
        forall j :: 0 <= j < |sortedPop| ==> sortedPop[j].fitness == evaluation(sortedPop[j].individual, [])
      ensures History(soup, steps, pops + [next], reports + [data])
      ensures |next| >= config.size && data == MakeIterationData(|reports|, next, fitnessKind, stats)
      ensures PopulationIndependent(evaluation) ==>
        forall j :: 0 <= j < |next| ==> next[j].fitness == evaluation(next[j].individual, [])
      ensures PopulationIndependent(evaluation) && config.eliteCount >= 1 ==>
        !Better(fitnessKind, reports[|reports| - 1].bestCandidateFitness, data.bestCandidateFitness)
    {
      assert |sortedPop| >= config.size;
      next := Generation(sortedPop, steps(|reports| - 1));
      data := MakeIterationData(|reports|, next, fitnessKind, stats);
      HistoryExtends(soup, steps, pops, reports, next, data);
    }

    /**
     * `evolve`'s loop from the scored, sorted primordial population `first`: steps
     * generation after generation until a termination predicate is set and holds (or
     * `fuel` steps are taken), reporting every generation. The reports and populations
     * form a `History`; only the last report may satisfy the termination predicate; and
     * with at least one elite and an evaluation that ignores the rest of the population,
     * no generation's best fitness is worse than an earlier one's.
     */
    method Generations(soup: seq<nat>, steps: nat -> StepDraws, fuel: nat, first: seq<Score<I>>)
      returns (reports: seq<IterationData<I>>, ghost pops: seq<seq<Score<I>>>)
      requires config.size >= threads && config.eliteCount <= config.size
      requires |soup| >= config.size && first == Primordial(soup)
      requires PopulationIndependent(evaluation) ==>
        forall j :: 0 <= j < |first| ==> first[j].fitness == evaluation(first[j].individual, [])
      requires forall k: nat :: ValidStepDraws(steps(k))
      ensures 1 <= |reports| <= fuel + 1
      ensures History(soup, steps, pops, reports)
      ensures forall k :: 0 <= k < |reports| - 1 ==> !Stops(termination, reports[k])
      ensures Stops(termination, reports[|reports| - 1]) || |reports| == fuel + 1
      ensures config.eliteCount >= 1 && PopulationIndependent(evaluation) ==>
        forall i, j :: 0 <= i < j < |reports| ==>
          !Better(fitnessKind, reports[i].bestCandidateFitness, reports[j].bestCandidateFitness)
    {
      var sortedEvaluatedPop := first;
      ghost var independent := PopulationIndependent(evaluation);
      var iterationIdx: nat := 0;
      var data := MakeIterationData(iterationIdx, sortedEvaluatedPop, fitnessKind, stats);
      reports := [data];
      pops := [sortedEvaluatedPop];
      assert History(soup, steps, pops, reports);
      while !Stops(termination, data) && iterationIdx < fuel
        invariant |sortedEvaluatedPop| >= config.size
        invariant |reports| == iterationIdx + 1 <= fuel + 1
        invariant History(soup, steps, pops, reports) && pops[iterationIdx] == sortedEvaluatedPop
        invariant data == reports[iterationIdx]
        invariant forall k :: 0 <= k < |reports| - 1 ==> !Stops(termination, reports[k])
        invariant independent ==> forall j :: 0 <= j < |sortedEvaluatedPop| ==>
          sortedEvaluatedPop[j].fitness == evaluation(sortedEvaluatedPop[j].individual, [])
        invariant config.eliteCount >= 1 && independent ==> forall i, j :: 0 <= i < j < |reports| ==>
          !Better(fitnessKind, reports[i].bestCandidateFitness, reports[j].bestCandidateFitness)
      {
        sortedEvaluatedPop, data := Advance(soup, steps, pops, reports, sortedEvaluatedPop);
        AppendKeepsRunning(termination, reports, data);
        if config.eliteCount >= 1 && independent {
          AppendKeepsImproving(fitnessKind, reports, data);
        }
        iterationIdx := iterationIdx + 1;
        reports := reports + [data];
        pops := pops + [sortedEvaluatedPop];
      }
    }

    /**
     * `evolve`: scores and sorts a primordial population, then steps generation after
     * generation until a termination predicate is set and holds, reporting every
     * generation's `IterationData` and returning the best candidate of the last one.
     * `pops` are the sorted populations behind the reports: the first is the primordial
     * one, and each later one is the successor of the one before on that step's draws.
     * With at least one elite and an evaluation that does not depend on the rest of the
     * population, no generation's best fitness is worse than an earlier one's.
     * The source loops without bound; here at most `fuel` steps are taken. The first
     * population needs at least `threads` individuals (a smaller one traps on a zero
     * stride).
     */
    method Evolve(soup: seq<nat>, steps: nat -> StepDraws, fuel: nat) returns (best: I, reports: seq<IterationData<I>>, ghost pops: seq<seq<Score<I>>>)
      requires config.size >= threads && config.eliteCount <= config.size
      requires |soup| >= config.size
      requires forall k: nat :: ValidStepDraws(steps(k))
      ensures 1 <= |reports| <= fuel + 1
      ensures |pops| == |reports| && pops[0] == Primordial(soup)
      ensures forall k :: 0 <= k < |pops| ==>
        |pops[k]| >= config.size && reports[k] == MakeIterationData(k, pops[k], fitnessKind, stats)
      ensures forall k :: 0 <= k < |pops| - 1 ==> Successor(pops[k], steps(k), pops[k + 1])
      ensures best == pops[|pops| - 1][0].individual
      ensures forall k :: 0 <= k < |reports| ==> reports[k].iterationNum == k && reports[k].fitnessKind == fitnessKind
      ensures best == reports[|reports| - 1].bestCandidate
      ensures forall k :: 0 <= k < |reports| - 1 ==> !Stops(termination, reports[k])
      ensures Stops(termination, reports[|reports| - 1]) || |reports| == fuel + 1
      ensures termination == None ==> |reports| == fuel + 1
      ensures config.eliteCount >= 1 && PopulationIndependent(evaluation) ==>
        forall i, j :: 0 <= i < j < |reports| ==>
          !Better(fitnessKind, reports[i].bestCandidateFitness, reports[j].bestCandidateFitness)
    {
      var sortedEvaluatedPop := Populate(soup);
      reports, pops := Generations(soup, steps, fuel, sortedEvaluatedPop);
      best := reports[|reports| - 1].bestCandidate;
    }
  }
}
