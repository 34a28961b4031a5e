/**
 * Example/Mendel/Painting.swift: the `Painting` genome of the image-matching demo, a list
 * of coloured triangles, with its crossover, its mutation and its random constructors.
 * Every random draw is an explicit argument: `arc4random_uniform` and `coinFlip` take a
 * draw in [0, 1), `roll` a draw in [0, 1], and `arc4random` an integer up to `UInt32Max`.
 */
module Painting {
  import Dice
  import ClassesArrays

  newtype UInt8 = x: int | 0 <= x < 256

  const UInt8Max: nat := 255
  const UInt32Max: nat := 0xFFFF_FFFF

  /** The corners of the area a triangle may occupy, in unit coordinates. */
  const CanvasLow: real := -0.5
  const CanvasHigh: real := 1.5

  /** How far one drift moves a point coordinate. */
  const DriftStep: real := 0.01

  /** The probabilities `mutate` rolls with: per gene, then per colour and per triangle. */
  const GeneMutationProbability: Dice.Probability := 0.1
  const FreshPartProbability: Dice.Probability := 0.1

  datatype Color = Color(r: UInt8, g: UInt8, b: UInt8, a: UInt8)
  datatype Point = Point(x: real, y: real)
  datatype Triangle = Triangle(a: Point, b: Point, c: Point)
  datatype Gene = Gene(color: Color, triangle: Triangle)
  datatype Painting = Painting(genes: seq<Gene>)

  // ---------------------------------------------------------------- draws

  /** Four `arc4random_uniform` draws, one per colour channel. */
  datatype ColorDraws = ColorDraws(r: real, g: real, b: real, a: real)
  /** Two `arc4random` results, for the x and y coordinates. */
  datatype PointDraws = PointDraws(x: nat, y: nat)
  datatype TriangleDraws = TriangleDraws(a: PointDraws, b: PointDraws, c: PointDraws)
  /** What `Gene.arbitrary` draws. */
  datatype GeneSeed = GeneSeed(color: ColorDraws, triangle: TriangleDraws)
  /**
   * What `Gene.mutate` may draw: the roll choosing a fresh colour, the fresh colour or the
   * drift's coin, and the same for the triangle with one coin per corner.
   */
  datatype GeneDraws = GeneDraws(colorRoll: real, freshColor: ColorDraws, colorCoin: real,
                                 triangleRoll: real, freshTriangle: TriangleDraws,
                                 coinA: real, coinB: real, coinC: real)

  predicate ValidColorDraws(d: ColorDraws)
  {
    0.0 <= d.r < 1.0 && 0.0 <= d.g < 1.0 && 0.0 <= d.b < 1.0 && 0.0 <= d.a < 1.0
  }

  predicate ValidPointDraws(d: PointDraws)
  {
    d.x <= UInt32Max && d.y <= UInt32Max
  }

  predicate ValidTriangleDraws(d: TriangleDraws)
  {
    ValidPointDraws(d.a) && ValidPointDraws(d.b) && ValidPointDraws(d.c)
  }

  predicate ValidGeneSeed(d: GeneSeed)
  {
    ValidColorDraws(d.color) && ValidTriangleDraws(d.triangle)
  }

  predicate ValidGeneDraws(d: GeneDraws)
  {
    0.0 <= d.colorRoll <= 1.0 && ValidColorDraws(d.freshColor) && 0.0 <= d.colorCoin < 1.0
    && 0.0 <= d.triangleRoll <= 1.0 && ValidTriangleDraws(d.freshTriangle)
    && 0.0 <= d.coinA < 1.0 && 0.0 <= d.coinB < 1.0 && 0.0 <= d.coinC < 1.0
  }

  // ---------------------------------------------------------------- the canvas invariant

  predicate PointOnCanvas(p: Point)
  {
    CanvasLow <= p.x <= CanvasHigh && CanvasLow <= p.y <= CanvasHigh
  }

  predicate TriangleOnCanvas(t: Triangle)
  {
    PointOnCanvas(t.a) && PointOnCanvas(t.b) && PointOnCanvas(t.c)
  }

  /** Every triangle of the painting lies in the area the random constructors and drift keep to. */
  predicate OnCanvas(p: Painting)
  {
    forall k :: 0 <= k < |p.genes| ==> TriangleOnCanvas(p.genes[k].triangle)
  }

  // ---------------------------------------------------------------- colours

  /** `UInt8.arbitrary`: `arc4random_uniform(255)`, so 255 itself is never drawn. */
  function ArbitraryByte(u: real): (r: UInt8)
    requires 0.0 <= u < 1.0
    ensures r as int < UInt8Max
  {
    Dice.Arc4RandomUniform(UInt8Max, u) as UInt8
  }

  /** Every byte below 255 can be drawn. */
  lemma ArbitraryByteReaches(v: nat)
    requires v < UInt8Max
    ensures exists u :: 0.0 <= u < 1.0 && ArbitraryByte(u) as int == v
  {
    Dice.UniformIndexIsOnto(UInt8Max, v);
    var u := v as real / UInt8Max as real;
    assert ArbitraryByte(u) as int == v;
  }

  predicate FreshColor(c: Color)
  {
    c.r as int < UInt8Max && c.g as int < UInt8Max && c.b as int < UInt8Max && c.a as int < UInt8Max
  }

  /** `Color.arbitrary`: four independent bytes, none of them 255. */
  function ArbitraryColor(d: ColorDraws): (c: Color)
    requires ValidColorDraws(d)
    ensures FreshColor(c)
  {
    Color(ArbitraryByte(d.r), ArbitraryByte(d.g), ArbitraryByte(d.b), ArbitraryByte(d.a))
  }

  /** `Color.mutate`: a fresh colour that owes nothing to the parent. */
  function ColorMutate(individual: Color, d: ColorDraws): (c: Color)
    requires ValidColorDraws(d)
    ensures c == ArbitraryColor(d)
  {
    Color(ArbitraryByte(d.r), ArbitraryByte(d.g), ArbitraryByte(d.b), ArbitraryByte(d.a))
  }

  /** Swift's `&+` on `UInt8`. */
  function WrappingAdd(x: UInt8, y: UInt8): (r: UInt8)
    ensures r as int == x as int + y as int || r as int == x as int + y as int - 256
  {
    ((x as int + y as int) % 256) as UInt8
  }

  /** Swift's `&-` on `UInt8`. */
  function WrappingSub(x: UInt8, y: UInt8): (r: UInt8)
    ensures r as int == x as int - y as int || r as int == x as int - y as int + 256
  {
    ((x as int - y as int) % 256) as UInt8
  }

  /** `r` is `c` with every channel moved by `delta`, modulo 256. */
  predicate Shifted(c: Color, r: Color, delta: int)
  {
    r.r as int == (c.r as int + delta) % 256 && r.g as int == (c.g as int + delta) % 256
    && r.b as int == (c.b as int + delta) % 256 && r.a as int == (c.a as int + delta) % 256
  }

  /**
   * `Color.drift`: one coin decides for all four channels whether they go up or down by
   * one, wrapping around at the ends of the byte.
   */
  function ColorDrift(individual: Color, coin: real): (r: Color)
    requires 0.0 <= coin < 1.0
    ensures Dice.CoinFlip(coin) ==> Shifted(individual, r, 1)
    ensures !Dice.CoinFlip(coin) ==> Shifted(individual, r, -1)
    ensures r.r != individual.r && r.g != individual.g && r.b != individual.b && r.a != individual.a
  {
    if Dice.CoinFlip(coin) then
      Color(WrappingAdd(individual.r, 1), WrappingAdd(individual.g, 1), WrappingAdd(individual.b, 1), WrappingAdd(individual.a, 1))
    else
      Color(WrappingSub(individual.r, 1), WrappingSub(individual.g, 1), WrappingSub(individual.b, 1), WrappingSub(individual.a, 1))
  }

  /** A drift up followed by a drift down, or the other way round, restores the colour. */
  lemma ColorDriftsCancel(c: Color, coin1: real, coin2: real)
    requires 0.0 <= coin1 < 1.0 && 0.0 <= coin2 < 1.0
    requires Dice.CoinFlip(coin1) != Dice.CoinFlip(coin2)
    ensures ColorDrift(ColorDrift(c, coin1), coin2) == c
  {
    var d := ColorDrift(c, coin1);
    var r := ColorDrift(d, coin2);
    assert r.r == c.r && r.g == c.g && r.b == c.b && r.a == c.a;
  }

  // ---------------------------------------------------------------- points and triangles

  /**
   * `CGFloat.random(from:to:)`: `from` plus the span scaled by `arc4random()` over
   * `UInt32.max`, so both ends can be hit.
   */
  function RandomCGFloat(from: real, to: real, n: nat): (r: real)
    requires from <= to && n <= UInt32Max
    ensures from <= r <= to
    ensures n == 0 ==> r == from
    ensures n == UInt32Max ==> r == to
  {
    Dice.RandomReal(from, to, n as real / UInt32Max as real)
  }

  /** `CGFloat.randomUnit`: a value in [0, 1]. */
  function RandomUnit(n: nat): (r: real)
    requires n <= UInt32Max
    ensures 0.0 <= r <= 1.0
  {
    RandomCGFloat(0.0, 1.0, n)
  }

  /** `CGPoint.random(from:to:)`: both coordinates drawn from the same range. */
  function RandomPoint(from: real, to: real, d: PointDraws): (p: Point)
    requires from <= to && ValidPointDraws(d)
    ensures from <= p.x <= to && from <= p.y <= to
  {
    Point(RandomCGFloat(from, to, d.x), RandomCGFloat(from, to, d.y))
  }

  /** `CGPoint.randomUnit`: a point of the canvas, which reaches half a unit past each edge. */
  function RandomUnitPoint(d: PointDraws): (p: Point)
    requires ValidPointDraws(d)
    ensures PointOnCanvas(p)
  {
    RandomPoint(CanvasLow, CanvasHigh, d)
  }

  /** `min(1.5, max(-0.5, v))`. */
  function Clamp(v: real): (r: real)
    ensures CanvasLow <= r <= CanvasHigh
    ensures CanvasLow <= v <= CanvasHigh ==> r == v
    ensures v < CanvasLow ==> r == CanvasLow
    ensures v > CanvasHigh ==> r == CanvasHigh
  {
    if CanvasHigh < (if CanvasLow > v then CanvasLow else v) then CanvasHigh
    else if CanvasLow > v then CanvasLow else v
  }

  /**
   * `CGPoint.drift`: one coin moves both coordinates up or both down by 0.01, then each is
   * clamped to the canvas. A point already on the canvas moves by at most 0.01 per
   * coordinate, in the coin's direction.
   */
  function PointDrift(p: Point, coin: real): (r: Point)
    requires 0.0 <= coin < 1.0
    ensures PointOnCanvas(r)
    ensures PointOnCanvas(p) && Dice.CoinFlip(coin) ==>
      p.x <= r.x <= p.x + DriftStep && p.y <= r.y <= p.y + DriftStep
    ensures PointOnCanvas(p) && !Dice.CoinFlip(coin) ==>
      p.x - DriftStep <= r.x <= p.x && p.y - DriftStep <= r.y <= p.y
  {
    var delta := if Dice.CoinFlip(coin) then DriftStep else -DriftStep;
    Point(Clamp(p.x + delta), Clamp(p.y + delta))
  }

  /** A point well inside the canvas drifts by exactly 0.01 in both coordinates. */
  lemma PointDriftInsideIsExact(p: Point, coin: real)
    requires 0.0 <= coin < 1.0
    requires CanvasLow + DriftStep <= p.x <= CanvasHigh - DriftStep
    requires CanvasLow + DriftStep <= p.y <= CanvasHigh - DriftStep
    ensures var delta := if Dice.CoinFlip(coin) then DriftStep else -DriftStep;
      PointDrift(p, coin) == Point(p.x + delta, p.y + delta)
  {
  }

  /** `Triangle.arbitrary`: three random canvas points. */
  function ArbitraryTriangle(d: TriangleDraws): (t: Triangle)
    requires ValidTriangleDraws(d)
    ensures TriangleOnCanvas(t)
  {
    Triangle(RandomUnitPoint(d.a), RandomUnitPoint(d.b), RandomUnitPoint(d.c))
  }

  /** `Triangle.mutate`: a fresh triangle that owes nothing to the parent. */
  function TriangleMutate(individual: Triangle, d: TriangleDraws): (t: Triangle)
    requires ValidTriangleDraws(d)
    ensures t == ArbitraryTriangle(d)
  {
    Triangle(RandomUnitPoint(d.a), RandomUnitPoint(d.b), RandomUnitPoint(d.c))
  }

  /** `Triangle.drift`: every corner drifts on its own coin and ends on the canvas. */
  function TriangleDrift(individual: Triangle, coinA: real, coinB: real, coinC: real): (t: Triangle)
    requires 0.0 <= coinA < 1.0 && 0.0 <= coinB < 1.0 && 0.0 <= coinC < 1.0
    ensures TriangleOnCanvas(t)
    ensures t.a == PointDrift(individual.a, coinA) && t.b == PointDrift(individual.b, coinB)
      && t.c == PointDrift(individual.c, coinC)
  {
    Triangle(PointDrift(individual.a, coinA), PointDrift(individual.b, coinB), PointDrift(individual.c, coinC))
  }

  // ---------------------------------------------------------------- genes

  /** `Gene.arbitrary`: a fresh colour and a fresh canvas triangle. */
  function ArbitraryGene(d: GeneSeed): (g: Gene)
    requires ValidGeneSeed(d)
    ensures FreshColor(g.color) && TriangleOnCanvas(g.triangle)
  {
    Gene(ArbitraryColor(d.color), ArbitraryTriangle(d.triangle))
  }

  /**
   * `Gene.mutate`: with probability 0.1 each, the colour and the triangle are replaced by
   * fresh ones; otherwise each drifts. The result lies on the canvas whatever the parent.
   */
  function GeneMutate(individual: Gene, d: GeneDraws): (g: Gene)
    requires ValidGeneDraws(d)
    ensures TriangleOnCanvas(g.triangle)
    ensures Dice.Roll(FreshPartProbability, d.colorRoll) ==> g.color == ArbitraryColor(d.freshColor)
    ensures !Dice.Roll(FreshPartProbability, d.colorRoll) ==> g.color == ColorDrift(individual.color, d.colorCoin)
    ensures Dice.Roll(FreshPartProbability, d.triangleRoll) ==> g.triangle == ArbitraryTriangle(d.freshTriangle)
    ensures !Dice.Roll(FreshPartProbability, d.triangleRoll) ==>
      g.triangle == TriangleDrift(individual.triangle, d.coinA, d.coinB, d.coinC)
  {
    var color := if Dice.Roll(FreshPartProbability, d.colorRoll) then ColorMutate(individual.color, d.freshColor)
                 else ColorDrift(individual.color, d.colorCoin);
    var triangle := if Dice.Roll(FreshPartProbability, d.triangleRoll) then TriangleMutate(individual.triangle, d.freshTriangle)
                    else TriangleDrift(individual.triangle, d.coinA, d.coinB, d.coinC);
    Gene(color, triangle)
  }

  // ---------------------------------------------------------------- paintings

  predicate ValidMutationDraws(draws: seq<(real, GeneDraws)>)
  {
    forall k :: 0 <= k < |draws| ==> 0.0 <= draws[k].0 <= 1.0 && ValidGeneDraws(draws[k].1)
  }

  /** A gene after `mutate`'s roll: mutated with probability 0.1, otherwise kept. */
  function MutatedGene(g: Gene, roll: real, d: GeneDraws): (r: Gene)
    requires 0.0 <= roll <= 1.0 && ValidGeneDraws(d)
    ensures !Dice.Roll(GeneMutationProbability, roll) ==> r == g
    ensures Dice.Roll(GeneMutationProbability, roll) ==> r == GeneMutate(g, d)
  {
    if Dice.Roll(GeneMutationProbability, roll) then GeneMutate(g, d) else g
  }

  /**
   * What `mutate` computes: the genes in order, each rolled for mutation on its own draws.
   * The gene count is kept and a painting on the canvas stays on it.
   */
  function Mutated(individual: Painting, draws: seq<(real, GeneDraws)>): (r: Painting)
    requires |draws| >= |individual.genes| && ValidMutationDraws(draws)
    ensures |r.genes| == |individual.genes|
    ensures forall k :: 0 <= k < |r.genes| ==>
      r.genes[k] == individual.genes[k] || r.genes[k] == GeneMutate(individual.genes[k], draws[k].1)
    ensures forall k :: 0 <= k < |r.genes| && !Dice.Roll(GeneMutationProbability, draws[k].0) ==>
      r.genes[k] == individual.genes[k]
    ensures OnCanvas(individual) ==> OnCanvas(r)
  {
    Painting(seq(|individual.genes|, k requires 0 <= k < |individual.genes| =>
      MutatedGene(individual.genes[k], draws[k].0, draws[k].1)))
  }

  /** `mutate`: a loop appending each gene, mutated or kept, to a fresh list. */
  method Mutate(individual: Painting, draws: seq<(real, GeneDraws)>) returns (r: Painting)
    requires |draws| >= |individual.genes| && ValidMutationDraws(draws)
    ensures r == Mutated(individual, draws)
  {
    var dna: seq<Gene> := [];
    for i := 0 to |individual.genes|
      invariant |dna| == i
      invariant forall k :: 0 <= k < i ==> dna[k] == MutatedGene(individual.genes[k], draws[k].0, draws[k].1)
    {
      var gene := individual.genes[i];
      if Dice.Roll(GeneMutationProbability, draws[i].0) {
        dna := dna + [GeneMutate(gene, draws[i].1)];
      } else {
        dna := dna + [gene];
      }
    }
    r := Painting(dna);
  }

  /**
   * The crossover points: two `arc4random_uniform(count)` draws in ascending order. With
   * genes they lie below the count and are the points `swapRandomSubrange` would draw;
   * without genes both are 0.
   */
  function CrossPoints(count: nat, u1: real, u2: real): (r: (nat, nat))
    requires 0.0 <= u1 < 1.0 && 0.0 <= u2 < 1.0
    ensures r.0 <= r.1
    ensures count > 0 ==> r.1 < count && r == ClassesArrays.SubrangeOf(count, u1, u2)
    ensures count == 0 ==> r == (0, 0)
  {
    var p1 := Dice.Arc4RandomUniform(count, u1);
    var p2 := Dice.Arc4RandomUniform(count, u2);
    if p1 > p2 then (p2, p1) else (p1, p2)
  }

  /**
   * What `cross` computes: the first child is the first parent with the second's genes
   * on `p1..<p2`, the second child the other way round. Each child keeps its parent's
   * length, every gene comes from the same position of one parent, and paintings on
   * the canvas have children on it.
   */
  function Crossed(parent1: Painting, parent2: Painting, u1: real, u2: real): (children: seq<Painting>)
    requires 0.0 <= u1 < 1.0 && 0.0 <= u2 < 1.0
    requires CrossPoints(|parent1.genes|, u1, u2).1 <= |parent2.genes|
    ensures |children| == 2
    ensures |children[0].genes| == |parent1.genes| && |children[1].genes| == |parent2.genes|
    ensures var (p1, p2) := CrossPoints(|parent1.genes|, u1, u2);
      (forall i :: 0 <= i < |parent1.genes| ==>
         children[0].genes[i] == if p1 <= i < p2 then parent2.genes[i] else parent1.genes[i])
      && (forall i :: 0 <= i < |parent2.genes| ==>
         children[1].genes[i] == if p1 <= i < p2 then parent1.genes[i] else parent2.genes[i])
    ensures OnCanvas(parent1) && OnCanvas(parent2) ==> OnCanvas(children[0]) && OnCanvas(children[1])
  {
    var (p1, p2) := CrossPoints(|parent1.genes|, u1, u2);
    [Painting(ClassesArrays.Spliced(parent1.genes, parent2.genes, p1, p2)),
     Painting(ClassesArrays.Spliced(parent2.genes, parent1.genes, p1, p2))]
  }

  /**
   * `cross`: the range is drawn from the first parent's length, so a shorter second
   * parent traps.
   */
  method Cross(parent1: Painting, parent2: Painting, u1: real, u2: real) returns (children: seq<Painting>)
    requires 0.0 <= u1 < 1.0 && 0.0 <= u2 < 1.0
    requires CrossPoints(|parent1.genes|, u1, u2).1 <= |parent2.genes|
    ensures children == Crossed(parent1, parent2, u1, u2)
  {
    var wordA := parent1.genes;
    var wordB := parent2.genes;
    var c := |wordA|;
    var p1 := Dice.Arc4RandomUniform(c, u1);
    var p2 := Dice.Arc4RandomUniform(c, u2);
    if p1 > p2 {
      p1, p2 := p2, p1;
    }
    var childB := wordB[..p1] + wordA[p1..p2] + wordB[p2..];
    var childA := wordA[..p1] + wordB[p1..p2] + wordA[p2..];
    children := [Painting(childA), Painting(childB)];
  }

  /** Crossing the two children again on the same draws gives back the parents. */
  lemma {:induction false} CrossTwiceRestores(parent1: Painting, parent2: Painting, u1: real, u2: real)
    requires 0.0 <= u1 < 1.0 && 0.0 <= u2 < 1.0
    requires |parent1.genes| == |parent2.genes|
    ensures var children := Crossed(parent1, parent2, u1, u2);
      Crossed(children[0], children[1], u1, u2) == [parent1, parent2]
  {
    var children := Crossed(parent1, parent2, u1, u2);
    var again := Crossed(children[0], children[1], u1, u2);
    assert again[0].genes == parent1.genes;
    assert again[1].genes == parent2.genes;
  }

  /** `arbitraryOfLength`: `length` fresh genes, so a fresh painting lies on the canvas. */
  function ArbitraryOfLength(length: nat, seeds: seq<GeneSeed>): (p: Painting)
    requires |seeds| >= length && forall k :: 0 <= k < |seeds| ==> ValidGeneSeed(seeds[k])
    ensures |p.genes| == length
    ensures OnCanvas(p)
    ensures forall k :: 0 <= k < length ==> FreshColor(p.genes[k].color)
  {
    Painting(seq(length, k requires 0 <= k < length => ArbitraryGene(seeds[k])))
  }
}
