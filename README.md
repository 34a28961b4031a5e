# Mendel, modelled in Dafny

Mendel is a generic genetic-algorithm engine written in Swift. A caller supplies a
factory for random individuals, an evaluation that scores an individual against its
population, a fitness kind (`Natural`: higher is better, `Inverted`: lower is better),
a selection strategy and a genetic operator. `SimpleEngine.evolve` then runs
generation after generation until a termination predicate holds. Each generation keeps
the elites, selects parents, crosses and mutates them, tops the population up, and
scores and sorts the result.

This project models that engine and the code around it:

- the engine helpers and the generational step (`Core`, `Engine`);
- the selection strategies (`Selection`);
- the crossover and mutation operators (`Operators`);
- the probability helpers (`Dice`);
- the array and search utilities, both snapshots (`ClassesArrays`, `MendelArrays`,
  `ClassesUtilities`, `MendelUtilities`);
- the termination predicates (`Termination`);
- the pure parts of two example genomes (`SumNumbers`, `Painting`, `ImageMatching`).

Randomness is never drawn inside the model. Every draw is an explicit argument:

- an integer draw from `0..<n` (`Int.random`, `arc4random_uniform`) is a real `u` in
  [0, 1) mapped to `Floor(u · n)` (`Dice.UniformIndex`);
- a `Float`/`Double` draw from the closed [0, 1] is a real in that range;
- `arc4random()` is an integer up to `UInt32.max`;
- `shuffled()` is a caller-supplied permutation.

The engine's closures take their draws as an extra seed argument. The draws of one
generation are an `Engine.StepDraws` value.

Fitness is a Dafny `real`. Where proportional selection divides by fitness sums, values
are `Core.Double`: a finite real, +∞ or NaN, with IEEE rules for `+`, `*`, `/` and the
comparisons, but without rounding. This is what makes SUS return nothing when an
`Inverted` fitness is 0. The weight is then +∞, the running expectation becomes NaN,
and every comparison with NaN is false.

Loops in the source are loops here, proved against specification functions:

- `EvaluatePopulation` walks its chunks;
- `Step` tops up its selection and its operator output;
- `Evolve` runs generations: `Populate` builds the first, `Generations` loops, and `Advance` is one pass;
- the selection strategies and the operators append to a result;
- `WeightedRandomIndex`, `InsertionPoint` and `Scanl1` walk the array.

Expressions stay functions. `SimpleEngine` is a class: its termination predicate and
its configuration are fields the caller may change between runs.

The two snapshots of the library (`Mendel/Classes` and `Mendel/Mendel`) duplicate
`randomSubrange`, `swapRange`, `swapRandomSubrange`, `iterateWhile` and
`insertionPoint`. Each copy is modelled by its own member, and the members of both
copies are specified by the same functions: `ClassesArrays.SubrangeOf`,
`ClassesArrays.Spliced` and `ClassesUtilities.Search`. So both copies satisfy the same
lemmas. `MendelUtilities.IterateWhileSnapshotsAgree` proves that the two
`iterateWhile`s agree on every input.

The iOS genome file Example-iOS/Example-iOS/ImageMatching.swift repeats the text of
Example/Mendel/Painting.swift for these helpers:

- `Color.drift` (lines 183-192);
- `CGPoint.drift` (lines 219-226);
- `UInt8.arbitrary` (lines 358-362);
- `arbitraryOfLength` (lines 327-335).

Those helpers are modelled once, by the `Painting` members cited below. The iOS copy's
own `cross` and `mutate` are separate methods, proved to compute the same paintings.

## Model

| member | source | states |
|---|---|---|
| `Core.BetterIsStrictTotalOrder` | Mendel/Mendel/Engine.swift:73-80 | `comparisonOp` is irreflexive, asymmetric and transitive (equal fitnesses are never better), and total on distinct fitnesses |
| `Core.AdjustedFitness` | Mendel/Mendel/Engine.swift:82-93 | identity under Natural; under Inverted +∞ exactly when the fitness is 0, otherwise the reciprocal (`r · f == 1`); never NaN |
| `Core.AdjustedFitnessRespectsBetter` | Mendel/Mendel/Engine.swift:73-93 | over non-negative fitnesses a strictly better fitness gets a strictly larger adjusted weight, under both kinds |
| `Core.Score.FitterIndividual` | Mendel/Mendel/Engine.swift:106-112 | returns this score's individual exactly when it is strictly better, the other individual otherwise |
| `Core.FitterIndividualIsNotBeaten` | Mendel/Mendel/Engine.swift:106-112 | the returned individual's score is not beaten by the other score; ties go to `other` |
| `Core.MakeIterationData` | Mendel/Mendel/Engine.swift:117-131 | the snapshot's best candidate and best fitness come from the first score; the kind and the generation number are the ones given; mean and deviation come from the statistics collaborator |
| `Core.BestCandidateIsUnbeaten` | Mendel/Mendel/Engine.swift:117-123 | on a sorted population no score beats the reported best fitness |
| `Core.PrimordialSoup` | Mendel/Mendel/Engine.swift:152-156 | exactly `size` individuals, the k-th made by the k-th factory call |
| `Core.EvaluatePopulation` | Mendel/Mendel/Engine.swift:161-205 | with stride > 0, every index is scored exactly once, pairing the individual with `evaluation(individual, whole population)` |
| `Core.ChunkOfIndex` | Mendel/Mendel/Engine.swift:172-196 | every index lies in chunk `j / stride` when it is below `(count / stride) · stride`, and in the remainder otherwise |
| `Core.ChunkIsUnique` | Mendel/Mendel/Engine.swift:173-185 | no index lies in two chunks |
| `Core.SortEvaluatedPopulation` | Mendel/Mendel/Engine.swift:208-212 | a permutation (same multiset) of the scores in which no later score strictly beats an earlier one |
| `Engine.Backfilled` | Mendel/Mendel/Engine.swift:304-309 | a short selection is extended to exactly `normalCount` with uniformly random members of the population; a long enough one is kept as it is (always a prefix of the result) |
| `Engine.Replenished` | Mendel/Mendel/Engine.swift:311-316 | a short operator output is extended to `normalCount` with factory individuals; a long enough one is kept; the output is always a prefix |
| `Engine.Backfill` | Mendel/Mendel/Engine.swift:307-309 | the back-fill loop, which appends uniformly random picks while the selection is short, computes exactly `Backfilled` |
| `Engine.Replenish` | Mendel/Mendel/Engine.swift:314-316 | the top-up loop, which appends factory individuals while the operator's output is short, computes exactly `Replenished` |
| `Engine.NextIndividuals` | Mendel/Mendel/Engine.swift:298-318 | the next generation starts with the first `eliteCount` individuals unchanged and in order, and is never smaller than the current one |
| `Engine.NextIndividualsKeepsSize` | Mendel/Mendel/Engine.swift:302-318 | if selection returns at most `normalCount` and the operator does not lengthen what it is given, the population size stays exactly the same (a shortened output is topped up) |
| `Engine.EmptySelectionIsRandom` | Mendel/Mendel/Engine.swift:304-309 | when selection returns nothing, every selected slot is a uniformly random pick |
| `Engine.ElitismKeepsBest` | Mendel/Mendel/Engine.swift:298-323 | an elite that reappears with its fitness in a sorted generation bounds that generation's best |
| `Engine.SortedKeepsScores` | Mendel/Mendel/Engine.swift:208-212 | sorting keeps each score's individual-to-fitness pairing |
| `Engine.IndependentScores` | Mendel/Mendel/Engine.swift:320-321 | with a population-independent evaluation, every sorted score is the individual's own fitness |
| `Engine.ElitismStep` | Mendel/Mendel/Engine.swift:298-323 | with at least one elite and a population-independent evaluation, the next generation's best is no worse than the previous best |
| `Engine.SimpleEngine.constructor` | Mendel/Mendel/Engine.swift:251-262 | stores the closures, no termination predicate, and the default configuration of 250 individuals and one elite |
| `Engine.SimpleEngine.Step` | Mendel/Mendel/Engine.swift:298-324 | the loops compute exactly `NextIndividuals`, and every individual is scored against the new population; too many elites, or fewer than 8 new individuals (stride 0), trap |
| `Engine.SimpleEngine.Generation` | Mendel/Mendel/Engine.swift:283-287 | a step plus a sort: the result is exactly the sorted `NextIndividuals` of its input, each scored against that new population (`Successor`); it is sorted and no smaller; with elitism and a population-independent evaluation, the best does not get worse |
| `Engine.SimpleEngine.Populate` | Mendel/Mendel/Engine.swift:272-276 | the primordial soup of `size` factory individuals, each scored against the whole soup, then sorted (`Primordial`); with a population-independent evaluation each score is the individual's own fitness |
| `Engine.SimpleEngine.Advance` | Mendel/Mendel/Engine.swift:283-291 | the next sorted generation is the `Successor` of the last one on that generation's draws, and its report, numbered one higher, is built from it, so the history grows by one; with elitism the best fitness does not get worse |
| `Engine.SimpleEngine.Generations` | Mendel/Mendel/Engine.swift:278-292 | the loop's reports and sorted populations form a `History`: population 0 is the primordial one, each later one is the `Successor` of the one before, and report k is built from population k; only the last report may satisfy the termination predicate; with elitism the best fitness never gets worse |
| `Engine.SimpleEngine.Evolve` | Mendel/Mendel/Engine.swift:271-295 | the sorted populations behind the reports start at the scored primordial soup, and each later one is the `Successor` of the one before on that generation's draws; report k is built from population k and numbered k; termination is checked before each step and holds only at the last report; the result is the best candidate of the last sorted population; with elitism the best fitness never gets worse |
| `Selection.Truncation` | Mendel/Classes/Selection.swift:13-20 | exactly the individuals of the first `count` scores, in order; `truncationPoint` is ignored; `count > pop.count` traps |
| `Selection.TruncationKeepsFittest` | Mendel/Classes/Selection.swift:13-20 | on a sorted population, no score that is left out beats a kept one |
| `Selection.Random` | Mendel/Classes/Selection.swift:22-31 | exactly `count` individuals, each a uniform pick from the population |
| `Selection.Contestants` | Mendel/Classes/Selection.swift:48 | `size` contestants, each a member of the population |
| `Selection.Winner` | Mendel/Classes/Selection.swift:49-50 | the winner is a contestant that no contestant strictly beats |
| `Selection.Tournament` | Mendel/Classes/Selection.swift:38-56 | `count` winners, and one when `count` is 0; winner k is the winner of tournament k |
| `Selection.TournamentCorrected` | Mendel/Classes/Selection.swift:38-56 | the intended tournament selection: exactly `count` winners |
| `Selection.TournamentWinnerIsUnbeaten` | Mendel/Classes/Selection.swift:47-53 | each winner is one of its `size` draws and none of them beats it |
| `Selection.TournamentOfOne` | Mendel/Classes/Selection.swift:47-53 | with a population of one, every tournament is won by that individual |
| `Selection.Tournament2` | Mendel/Classes/Selection.swift:33-36 | a tournament of size 2, with the same count and winners |
| `Selection.TournamentCounter` | Mendel/Classes/Selection.swift:47-53 | the counter of `iterateWhile` stops at `count − 1`, or at its start value when the first step already fails |
| `Selection.TournamentRunsNextRoundsTimes` | Mendel/Classes/Selection.swift:47-53 | `iterateWhile` runs `next` max(count, 1) times, because it calls `next` before testing the condition |
| `Selection.AdjustedWeights` | Mendel/Classes/Selection.swift:63 | each weight is the adjusted fitness of the score at the same index; none is negative or NaN |
| `Selection.RouletteWheelNew` | Mendel/Classes/Selection.swift:60-69 | exactly `count` individuals; spin k picks the index `weightedRandomIndex` chooses on the adjusted weights |
| `Selection.Cumulative` | Mendel/Classes/Selection.swift:91-93 | the cumulative array has one entry per score |
| `Selection.CumulativeEntries` | Mendel/Classes/Selection.swift:91-93 | the first entry is the raw (unadjusted) first fitness; every later entry adds the next adjusted fitness |
| `Selection.CumulativeNotNegative` | Mendel/Classes/Selection.swift:91-93 | with non-negative fitnesses every cumulative entry is non-negative |
| `Selection.RouletteWheelBroken` | Mendel/Classes/Selection.swift:71-104 | exactly `count` individuals of the population; each key is binary-searched among the raw fitnesses, not the cumulative array |
| `Selection.BrokenWheelPicksOutsideTheSlice` | Mendel/Classes/Selection.swift:97-101 | on fitnesses 3, 2, 1 a draw of 0.5 falls in the first individual's slice, yet the last individual is picked |
| `Selection.CloneBest` | Mendel/Classes/Selection.swift:106-114 | `count` copies of the first individual |
| `Selection.SusCount` | Mendel/Classes/Selection.swift:116-139 | with a positive sum, `count` items are emitted for an offset below 1, and one fewer for an offset of exactly 1 |
| `Selection.SusResultCount` | Mendel/Classes/Selection.swift:123-136 | the same count statement for the adjusted weights in the finite, positive-sum case |
| `Selection.SusCopiesNearExpectation` | Mendel/Classes/Selection.swift:128-136 | each individual gets within one copy of its expectation `w / sum · count`; a zero weight gets none |
| `Selection.SusSpecBlocks` | Mendel/Classes/Selection.swift:128-136 | the output follows population order, with each individual's copies side by side |
| `Selection.EmitCopies` | Mendel/Classes/Selection.swift:132-135 | the inner loop advances `idx` to the number of selection points below a finite expectation, and emits that many copies; a NaN expectation emits none |
| `Selection.StochasticUniversalSampling` | Mendel/Classes/Selection.swift:116-139 | the output is the proportional sample of the adjusted weights; when they include +∞ or sum to 0 (NaN arithmetic), the output is empty |
| `Selection.StochasticUniversalSamplingCorrected` | Mendel/Classes/Selection.swift:116-139 | with an offset from the half-open [0, 1), exactly `count` items in the proportional case |
| `Selection.SusEmptyOnPerfectInvertedFitness` | Mendel/Classes/Selection.swift:119-123 | an Inverted population with a fitness of 0 is never sampled proportionally |
| `Selection.SigmaScaled` | Mendel/Classes/Selection.swift:159-166 | 1 when stdev is 0; otherwise `1 + (f − mean)/(2·stdev)` if that is positive, else 0.1; always > 0; at least 1 exactly for fitness at or above the mean (stdev > 0) |
| `Selection.SigmaScaledPop` | Mendel/Classes/Selection.swift:151-154 | individuals and order are kept, and each fitness is sigma-scaled |
| `Selection.SigmaScaledIsProportional` | Mendel/Classes/Selection.swift:151-156 | sigma-scaled weights are finite with a positive sum, under both kinds |
| `Selection.SigmaScaling` | Mendel/Classes/Selection.swift:142-157 | SUS over the sigma-scaled population; a non-empty population yields exactly `count` individuals for an offset below 1 |
| `Selection.RankMapped` | Mendel/Classes/Selection.swift:177-179 | rank 1 maps to n − 1 and rank n maps to 0 |
| `Selection.RankedPop` | Mendel/Classes/Selection.swift:169-172 | the score at index i becomes `n − (i + 1)`; individuals are kept |
| `Selection.RankedPopIsLinear` | Mendel/Classes/Selection.swift:168-179 | individuals and order are kept; the best gets n − 1, the last gets 0, and the weights fall by one per rank |
| `Selection.RankWeightsAreProportional` | Mendel/Classes/Selection.swift:168-175 | under Natural, with two or more individuals, the rank weights have a positive finite sum |
| `Selection.RankWeightsInvertedAreInfinite` | Mendel/Classes/Selection.swift:168-175 | under Inverted the last rank weight is +∞, so the weights are never proportional |
| `Selection.RankSelection` | Mendel/Classes/Selection.swift:168-175 | SUS over the rank weights; empty under Inverted; `count` individuals under Natural with n ≥ 2 and an offset below 1 |
| `Selection.RankSelectionCorrected` | Mendel/Classes/Selection.swift:168-175 | rank weights sampled as Natural weights: `count` individuals under either kind (n ≥ 2, offset below 1) |
| `Operators.PairResult` | Mendel/Classes/Operators.swift:21 | a pair gives the crossed children when the roll succeeds, and the two parents otherwise |
| `Operators.Crossover` | Mendel/Classes/Operators.swift:13-30 | the output is the per-pair results of the shuffled list, in pair order, followed by an odd last individual untouched |
| `Operators.PairsWithoutCrossing` | Mendel/Classes/Operators.swift:19-23 | with probability 0 the pairs pass through as the consumed prefix |
| `Operators.CrossoverWithoutCrossingPermutes` | Mendel/Classes/Operators.swift:17-27 | with probability 0 the output is the shuffled list, a permutation of the input |
| `Operators.PairsKeepLength` | Mendel/Classes/Operators.swift:19-23 | when `cross` always returns two children, each pair contributes two |
| `Operators.CrossoverKeepsLength` | Mendel/Classes/Operators.swift:19-27 | when `cross` always returns two children, crossover keeps the length; with an odd length the last shuffled individual comes out last and untouched |
| `Operators.PairsArePrefixes` | Mendel/Classes/Operators.swift:19-29 | the results of earlier pairs form a prefix of the output |
| `Operators.Mutation` | Mendel/Classes/Operators.swift:32-44 | same length; output[i] is `mutate(pop[i])` when its roll succeeds and `pop[i]` otherwise; probability 0 gives the input, probability 1 maps `mutate` |
| `Dice.UniformIndex` | Mendel/Classes/Dice.swift:45 | a draw from `0..<n` is an index below n, namely `u · n` rounded down |
| `Dice.UniformIndexIsOnto` | Mendel/Classes/Dice.swift:45 | every index in `0..<n` is drawn by some `u` |
| `Dice.Arc4RandomUniform` | Mendel/Classes/Dice.swift:13-15 | a value below n, and 0 when n is 0 |
| `Dice.CoinFlip` | Mendel/Classes/Dice.swift:13-15 | heads exactly when the draw is in the lower half |
| `Dice.Roll` | Mendel/Classes/Dice.swift:17-26 | always true at 1, always false at 0; otherwise true exactly when `p > draw` |
| `Dice.RollIsMonotone` | Mendel/Classes/Dice.swift:17-26 | a larger probability succeeds on every draw on which a smaller one does |
| `Dice.RandomInt` | Mendel/Classes/Dice.swift:32-34 | a value in the closed range [from, to] |
| `Dice.RandomIntIsOnto` | Mendel/Classes/Dice.swift:32-34 | every value of the closed range can be drawn |
| `Dice.RandomReal` | Mendel/Classes/Dice.swift:36-42 | a value in the closed range; a draw of 0 gives `from` and a draw of 1 gives `to` |
| `Dice.PickRandom` | Mendel/Classes/Dice.swift:44-46 | an element of the array (index in `0..<count`); an empty array traps |
| `Dice.PickRandomIsOnto` | Mendel/Classes/Dice.swift:44-46 | every element can be picked |
| `Dice.WithProbability` | Mendel/Classes/Dice.swift:48-54 | `f()` exactly when the roll succeeds, nil otherwise |
| `Dice.ChooseWithProbability` | Mendel/Classes/Dice.swift:56-62 | `f()` when the roll succeeds and `g()` otherwise |
| `Dice.ChooseIsWithProbabilityOrElse` | Mendel/Classes/Dice.swift:48-62 | choosing is `withProbability` with `g` as the fallback |
| `Dice.PickFromRange` | Mendel/Classes/Dice.swift:64-74 | a strictly increasing list of range members, holding exactly those whose roll succeeded; probability 1 gives the whole range, probability 0 gives nothing |
| `ClassesArrays.SubrangeOf` | Mendel/Classes/Array+extensions.swift:12-18 | the two drawn indices in order, `lower ≤ upper ≤ count − 1` |
| `ClassesArrays.RandomSubrange` | Mendel/Classes/Array+extensions.swift:12-18 | the swap-into-order code returns exactly `SubrangeOf`; an empty array traps |
| `ClassesArrays.Spliced` | Mendel/Classes/Array+extensions.swift:24-25 | `replaceSubrange` with the other array's slice keeps the length, takes the other's elements inside the range and keeps its own outside it |
| `ClassesArrays.SwapRange` | Mendel/Classes/Array+extensions.swift:21-27 | exactly two children: `a` with `b`'s range, and `b` with `a`'s; lengths are kept |
| `ClassesArrays.SwapTwiceRestores` | Mendel/Classes/Array+extensions.swift:21-27 | swapping the same range twice gives back both parents |
| `ClassesArrays.SwapKeepsGenesPerPosition` | Mendel/Classes/Array+extensions.swift:21-27 | at each position, the children hold exactly the parents' two elements |
| `ClassesArrays.SwapRandomSubrange` | Mendel/Classes/Array+extensions.swift:30-32 | `swapRange` over a range drawn from `a`'s length (so `b` must reach it); the last element of `a` is never swapped |
| `ClassesArrays.Chosen` | Mendel/Classes/Array+extensions.swift:45-48 | the choice is the last index whose draw is at most its share of the running total, or 0 |
| `ClassesArrays.WeightedRandomIndex` | Mendel/Classes/Array+extensions.swift:40-51 | an index of the array, namely `Chosen`; a one-element array gives 0 |
| `ClassesArrays.ZeroWeightNeedsZeroDraw` | Mendel/Classes/Array+extensions.swift:45-48 | a zero weight after the first is chosen only on a draw of exactly 0 |
| `ClassesArrays.InfiniteTotalBlocks` | Mendel/Classes/Array+extensions.swift:45-48 | once the total is +∞, a later +∞ weight is never chosen, and any later index only on a draw of 0 |
| `ClassesArrays.PositiveShareCanWin` | Mendel/Classes/Array+extensions.swift:45-48 | a positive finite weight is chosen exactly when `draw · total ≤ weight` |
| `ClassesArrays.WeightedRandomIndexFloat` | Mendel/Classes/Array+extensions.swift:67-69 | the Float version is the Double version on the converted weights |
| `ClassesArrays.Normalized` | Mendel/Classes/Array+extensions.swift:53-61 | same length, and the shares sum to 1; not inverted, each element is its share times the sum; inverted, entry k is `(1 − x_k/sum)/(n − 1)`, the complement of its share renormalised over the `n − 1` that the complements sum to |
| `ClassesArrays.NormalizedInvertedReversesOrder` | Mendel/Classes/Array+extensions.swift:56-57 | under inversion a smaller weight gets a larger share |
| `MendelArrays.RandomSubrange` | Mendel/Mendel/Array+extensions.swift:12-18 | the same range as the Classes copy, with `lower ≤ upper ≤ count − 1` |
| `MendelArrays.SwapRange` | Mendel/Mendel/Array+extensions.swift:21-27 | the same two children as the Classes copy |
| `MendelArrays.SwapRandomSubrange` | Mendel/Mendel/Array+extensions.swift:30-32 | `swapRange` over a range drawn from `a`; lengths are kept |
| `ClassesUtilities.IterateWhile` | Mendel/Classes/Utilities.swift:11-21 | returns the start value when the next value is nil or fails the condition; the result is the start value or passes the condition, and no further step is possible from it |
| `ClassesUtilities.TruncDiv2` | Mendel/Classes/Utilities.swift:28 | Swift's truncating `/ 2`: (−1)/2 is 0 |
| `ClassesUtilities.Search` | Mendel/Classes/Utilities.swift:27-44 | the binary search from given bounds terminates (the bounds close in) at an index of the domain |
| `ClassesUtilities.SearchOnDescendingDomain` | Mendel/Classes/Utilities.swift:23-45 | on the unsorted domain [3, 2, 1] the search for 3 ends at index 2 |
| `ClassesUtilities.SearchBrackets` | Mendel/Classes/Utilities.swift:23-45 | on an ascending domain the result is an insertion point: nothing before it is above the key and nothing after it is below |
| `ClassesUtilities.SearchFindsPresentKey` | Mendel/Classes/Utilities.swift:31-32 | on an ascending domain that contains the key, the result holds the key |
| `ClassesUtilities.InsertionPoint` | Mendel/Classes/Utilities.swift:23-45 | the `while(true)` loop returns `Search` from the full bounds, an in-bounds index; an empty domain traps |
| `MendelUtilities.IterateWhile` | Mendel/Mendel/Utilities.swift:11-21 | the same contract as the Classes copy |
| `MendelUtilities.IterateWhileSnapshotsAgree` | Mendel/Mendel/Utilities.swift:11-21 | the two copies return the same value on every input |
| `MendelUtilities.Scan` | Mendel/Mendel/Utilities.swift:24-36 | the scan has the input's length |
| `MendelUtilities.ScanRecurrence` | Mendel/Mendel/Utilities.swift:26-35 | `out[0] = in[0]` and `out[i] = f(out[i−1], in[i])` |
| `MendelUtilities.Scanl1` | Mendel/Mendel/Utilities.swift:24-36 | the map with a captured accumulator computes `Scan`; an empty input gives an empty output |
| `MendelUtilities.InsertionPoint` | Mendel/Mendel/Utilities.swift:38-60 | the same in-bounds index as the Classes copy |
| `Termination.NumberOfIterationsStaysTrue` | Mendel/Classes/Termination.swift:14-16 | once true, it stays true for every later generation number |
| `Termination.NumberOfIterationsFirstHolds` | Mendel/Classes/Termination.swift:14-16 | false below `maxNum`, true at `maxNum` |
| `Termination.FitnessThresholdIsStrict` | Mendel/Classes/Termination.swift:23-25 | Natural needs best > threshold and Inverted needs best < threshold; reaching the threshold exactly does not terminate |
| `Termination.FitnessThresholdIsMonotone` | Mendel/Classes/Termination.swift:23-25 | a best fitness no worse than one that met the threshold meets it too |
| `Termination.ReferenceIndividualExact` | Mendel/Classes/Termination.swift:27-29 | true exactly when the best candidate equals the reference |
| `SumNumbers.ArbitraryOfLength` | Example-iOS/Example-iOS/SumNumbersViewController.swift:74-77 | n genes, each in [0, 100] |
| `SumNumbers.ArbitraryReachesEveryGene` | Example-iOS/Example-iOS/SumNumbersViewController.swift:74-77 | every value in [0, 100] can be drawn |
| `SumNumbers.Cross` | Example-iOS/Example-iOS/SumNumbersViewController.swift:79-83 | exactly two children from `swapRandomSubrange`, with the parents' lengths |
| `SumNumbers.MutatedGene` | Example-iOS/Example-iOS/SumNumbersViewController.swift:89 | a gene moves by at most 1, and is unchanged when its roll fails |
| `SumNumbers.Mutate` | Example-iOS/Example-iOS/SumNumbersViewController.swift:85-91 | the gene count is kept and every gene moves by at most 1 |
| `SumNumbers.MutateMovesSumByAtMostLength` | Example-iOS/Example-iOS/SumNumbersViewController.swift:85-91 | mutation moves the gene sum by at most the gene count |
| `SumNumbers.Evaluation` | Example-iOS/Example-iOS/SumNumbersViewController.swift:22-24 | `\|sum − target\|`: at least 0, and 0 exactly when the sum hits the target |
| `SumNumbers.EvaluationIgnoresPopulation` | Example-iOS/Example-iOS/SumNumbersViewController.swift:22-24 | the evaluation does not depend on the population, so the engine's elitism lemmas apply |
| `SumNumbers.SolvedIffSumHitsTarget` | Example-iOS/Example-iOS/SumNumbersViewController.swift:45-47 | the run stops exactly when the best candidate's sum equals the target |
| `SumNumbers.SolvedIsBestPossible` | Example-iOS/Example-iOS/SumNumbersViewController.swift:45-47 | no individual beats a fitness of 0 |
| `Painting.ArbitraryByte` | Example/Mendel/Painting.swift:259-261 | a byte in [0, 254]: 255 is never produced |
| `Painting.ArbitraryByteReaches` | Example/Mendel/Painting.swift:259-261 | every byte below 255 can be drawn |
| `Painting.ArbitraryColor` | Example/Mendel/Painting.swift:253-255 | four fresh channels, none of them 255 |
| `Painting.ColorMutate` | Example/Mendel/Painting.swift:155-162 | a fresh colour that does not depend on the parent |
| `Painting.WrappingAdd` | Example/Mendel/Painting.swift:165 | `&+` on UInt8: the sum, or the sum minus 256 |
| `Painting.WrappingSub` | Example/Mendel/Painting.swift:165 | `&-` on UInt8: the difference, or the difference plus 256 |
| `Painting.ColorDrift` | Example/Mendel/Painting.swift:164-173 | one coin moves all four channels by the same +1 or −1, modulo 256; every channel changes |
| `Painting.ColorDriftsCancel` | Example/Mendel/Painting.swift:164-173 | a drift up followed by a drift down restores the colour |
| `Painting.RandomCGFloat` | Example/Mendel/Painting.swift:265-267 | a value in [from, to], reaching both ends |
| `Painting.RandomUnit` | Example/Mendel/Painting.swift:269-271 | a value in [0, 1] |
| `Painting.RandomPoint` | Example/Mendel/Painting.swift:275-277 | both coordinates lie in [from, to] |
| `Painting.RandomUnitPoint` | Example/Mendel/Painting.swift:279-282 | a point in [−0.5, 1.5]² |
| `Painting.Clamp` | Example/Mendel/Painting.swift:204 | `min(1.5, max(−0.5, v))` lies in [−0.5, 1.5] and is v when v already does |
| `Painting.PointDrift` | Example/Mendel/Painting.swift:201-206 | clamped into [−0.5, 1.5]; a point already on the canvas moves by at most 0.01 per coordinate, in the coin's direction |
| `Painting.PointDriftInsideIsExact` | Example/Mendel/Painting.swift:201-206 | away from the edges, the drift is exactly ±0.01 on both coordinates |
| `Painting.ArbitraryTriangle` | Example/Mendel/Painting.swift:177-179 | three canvas points |
| `Painting.TriangleMutate` | Example/Mendel/Painting.swift:183-189 | a fresh triangle that does not depend on the parent |
| `Painting.TriangleDrift` | Example/Mendel/Painting.swift:191-197 | each corner drifts on its own coin and stays on the canvas |
| `Painting.ArbitraryGene` | Example/Mendel/Painting.swift:244-249 | a fresh colour and a canvas triangle |
| `Painting.GeneMutate` | Example/Mendel/Painting.swift:146-151 | colour and triangle are each replaced with probability 0.1 and drift otherwise; the triangle stays on the canvas |
| `Painting.MutatedGene` | Example/Mendel/Painting.swift:134-138 | a gene is kept when its roll fails and is `Gene.mutate(gene)` otherwise |
| `Painting.Mutated` | Example/Mendel/Painting.swift:130-142 | the gene count is kept; each gene is kept or replaced by `Gene.mutate(gene)`; a painting on the canvas stays on it |
| `Painting.Mutate` | Example/Mendel/Painting.swift:130-142 | the appending loop computes `Mutated` |
| `Painting.CrossPoints` | Example/Mendel/Painting.swift:110-115 | `p1 ≤ p2 < geneCount` after the swap (both 0 for an empty painting) |
| `Painting.Crossed` | Example/Mendel/Painting.swift:118-124 | two children: A with `[p1, p2)` from B, and B with `[p1, p2)` from A; each keeps its parent's length and stays on the canvas |
| `Painting.Cross` | Example/Mendel/Painting.swift:106-125 | the code computes `Crossed`; a second parent shorter than `p2` traps |
| `Painting.CrossTwiceRestores` | Example/Mendel/Painting.swift:106-125 | crossing the children again on the same draws gives back the parents |
| `Painting.ArbitraryOfLength` | Example/Mendel/Painting.swift:228-234 | n fresh genes on the canvas |
| `ImageMatching.Cross` | Example-iOS/Example-iOS/ImageMatching.swift:125-144 | the same children as `Painting.Crossed`: `p1 ≤ p2 < c` and the `[p1, p2)` slices swapped |
| `ImageMatching.Mutate` | Example-iOS/Example-iOS/ImageMatching.swift:149-161 | the same painting as `Painting.Mutated`: gene count kept, each gene kept or `Gene.mutate`d |
| `ImageMatching.Distance` | Example-iOS/Example-iOS/ImageMatching.swift:237-243 | the sum of squared r, g, b differences: at least 0, 0 exactly when r, g and b match, at most 3·255² |
| `ImageMatching.DistanceSymmetricIgnoringAlpha` | Example-iOS/Example-iOS/ImageMatching.swift:237-243 | symmetric, and independent of alpha |

## Findings

| source | as written | input that shows it | evidently intended | confidence | as-written member | corrected member |
|---|---|---|---|---|---|---|
| Mendel/Classes/Selection.swift:168-175 | `rankSelection` passes the caller's fitness kind to SUS over rank weights | any Inverted engine: the last rank weight `0` becomes `1/0 = +∞`, so SUS returns an empty list | rank weights already grow with fitness, so they are sampled as Natural weights | high (not executed) | `Selection.RankSelection` | `Selection.RankSelectionCorrected` |
| Mendel/Classes/Selection.swift:47-53 | `tournament` drives its rounds with `iterateWhile`, which runs `next` before testing `i < count` | `count = 0`, e.g. a step with `eliteCount == size`: one individual is returned | exactly `count` winners | high (not executed) | `Selection.TournamentRunsNextRoundsTimes` | `Selection.TournamentCorrected` |
| Mendel/Classes/Selection.swift:124 | SUS draws its offset from the closed `0...1` | offset `1.0` with positive finite weights: `count − 1` items | an offset in `[0, 1)`, giving exactly `count` items | medium (not executed) | `Selection.SusResultCount` | `Selection.StochasticUniversalSamplingCorrected` |

## Left out

- Concurrency in `evaluatePopulation` (`concurrentPerform`, the dispatch group, the serial write queue) is not modelled. Its sequential meaning is: every index is scored once against the whole population. The source appends scores in completion order; the model appends them in chunk order. Only the multiset of scores is meaningful, and the next step sorts them anyway.
- Core.EvaluatePopulation: the stride is required to be positive. The engine's stride is `count / 8`, so a population smaller than 8 traps; `Step` and `Evolve` require at least 8 individuals instead of modelling the trap.
- `Stats` (mean, standard deviation) is not part of this model. It is a function parameter (`seq<real> -> Moments`) of `IterationData` and `sigmaScaling`.
- IEEE-754 rounding of `Double` and `Float` is not modelled. Reals are exact, and `Core.Double` adds only +∞ and NaN. So the exact counts of SUS hold only in exact arithmetic.
- Negative fitnesses in proportional selection are not modelled. The roulette wheels and SUS require non-negative fitnesses, because negative weights would need −∞ in the IEEE model.
- Random sources (`arc4random_uniform`, `Int/Float/Double.random`, `shuffled()`) are not modelled. Each draw is an argument constrained only to its range. Probabilistic claims (selection frequencies, bias, convergence speed) are left out.
- Core.SortEvaluatedPopulation, Selection.Winner: Swift's `sorted` is not stable, and the order of tied scores is unspecified. The model fixes one sorted permutation (an insertion sort). The contracts state only "permutation, and no later score beats an earlier one".
- Engine.SimpleEngine.Evolve: the source loops without bound. The model takes at most `fuel` steps, with one `StepDraws` per generation. The iteration callback is modelled by the list of reports it would receive. A termination predicate flipped from another thread is not modelled.
- ClassesUtilities.IterateWhile, MendelUtilities.IterateWhile: the source recursion has no termination argument. The model requires a caller-supplied `rank` that every continuing step decreases.
- ClassesArrays.Normalized: a zero sum (which makes the source divide by 0 and produce NaN shares) is excluded. So is a single weight in the inverted variant, whose complements sum to 0.
- `TerminationConditions.OnDate` reads the wall clock, so it is left out.
- Rendering, image I/O and the pixel-buffer and `sqrt` fitness closures (`drawInContext`, `imageOfSize`, `distanceFromTargetImageAtURL`, `distanceFromTargetImageData`) are not modelled; only the pure pixel `distance` is.
- Example/Mendel/ImageMatching.swift, the view controllers, `ImageGrid`, `TestViewController` and the `testSumNumbers` timing loop are demo glue, not part of this model.
- `description` strings are not modelled.
- Swift `Int` overflow is not modelled. Counts and sizes are `nat`, so a negative `count` is not modelled either.
