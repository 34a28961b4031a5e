/**
 * Mendel/Classes/Termination.swift: the stock termination predicates, each reading the
 * iteration data of the latest generation. `OnDate` reads the wall clock and is not
 * part of this model.
 */
module Termination {
  import opened Core

  /** `NumberOfIterations`: stop once the generation counter has reached `maxNum`. */
  predicate NumberOfIterations<I>(maxNum: int, data: IterationData<I>)
  {
    data.iterationNum >= maxNum
  }

  /** Once the iteration limit is reached it stays reached for every later generation. */
  lemma NumberOfIterationsStaysTrue<I>(maxNum: int, data: IterationData<I>, later: IterationData<I>)
    requires NumberOfIterations(maxNum, data)
    requires later.iterationNum >= data.iterationNum
    ensures NumberOfIterations(maxNum, later)
  {
  }

  /**
   * On generations numbered 0, 1, 2, … the limit first holds at generation `max(maxNum, 0)`:
   * it fails before and holds there.
   */
  lemma NumberOfIterationsFirstHolds<I>(maxNum: int, data: IterationData<I>)
    ensures data.iterationNum < maxNum ==> !NumberOfIterations(maxNum, data)
    ensures data.iterationNum == (if maxNum < 0 then 0 else maxNum) ==> NumberOfIterations(maxNum, data)
  {
  }

  /** `FitnessThreshold`: stop once the best fitness is strictly better than the threshold. */
  predicate FitnessThreshold<I>(threshold: real, kind: FitnessKind, data: IterationData<I>)
  {
    Better(kind, data.bestCandidateFitness, threshold)
  }

  /**
   * The threshold is strict: Natural needs a best fitness above it, Inverted one below
   * it, and reaching it exactly does not stop the run.
   */
  lemma FitnessThresholdIsStrict<I>(threshold: real, kind: FitnessKind, data: IterationData<I>)
    ensures kind.Natural? ==> (FitnessThreshold(threshold, kind, data) <==> data.bestCandidateFitness > threshold)
    ensures kind.Inverted? ==> (FitnessThreshold(threshold, kind, data) <==> data.bestCandidateFitness < threshold)
    ensures data.bestCandidateFitness == threshold ==> !FitnessThreshold(threshold, kind, data)
  {
  }

  /** A best fitness that is at least as good as one that met the threshold meets it too. */
  lemma FitnessThresholdIsMonotone<I>(threshold: real, kind: FitnessKind, data: IterationData<I>, later: IterationData<I>)
    requires FitnessThreshold(threshold, kind, data)
    requires !Better(kind, data.bestCandidateFitness, later.bestCandidateFitness)
    ensures FitnessThreshold(threshold, kind, later)
  {
  }

  /** `ReferenceIndividual`: stop once the best candidate equals the reference. */
  predicate ReferenceIndividual<I(==)>(reference: I, data: IterationData<I>)
  {
    data.bestCandidate == reference
  }

  /** The reference test holds exactly for generations whose best candidate is the reference. */
  lemma ReferenceIndividualExact<I>(reference: I, data: IterationData<I>, other: I)
    ensures ReferenceIndividual(reference, data.(bestCandidate := reference))
    ensures other != reference ==> !ReferenceIndividual(reference, data.(bestCandidate := other))
  {
  }
}
