/**
 * Example-iOS/Example-iOS/ImageMatching.swift: the iOS copy of the `Painting` genome and
 * the pixel distance behind the image-matching fitness. The genome code is the same text as
 * Example/Mendel/Painting.swift, so the datatypes and the pure constructors, mutations
 * and drifts are those of module `Painting`; this module holds the copy's own `cross`
 * and `mutate`, proved to compute the same paintings, and the pixel `distance`.
 */
module ImageMatching {
  import Dice
  import P = Painting

  /** `cross`, the iOS copy: the same children as the other snapshot. */
  method Cross(parent1: P.Painting, parent2: P.Painting, u1: real, u2: real) returns (children: seq<P.Painting>)
    requires 0.0 <= u1 < 1.0 && 0.0 <= u2 < 1.0
    requires P.CrossPoints(|parent1.genes|, u1, u2).1 <= |parent2.genes|
    ensures children == P.Crossed(parent1, parent2, u1, u2)
  {
    var wordA := parent1.genes;
    var wordB := parent2.genes;
    var c := |wordA|;
    var p1 := Dice.Arc4RandomUniform(c, u1);
    var p2 := Dice.Arc4RandomUniform(c, u2);
    if p1 > p2 {
      p1, p2 := p2, p1;
    }
    var childB := wordB[..p1] + wordA[p1..p2] + wordB[p2..];
    var childA := wordA[..p1] + wordB[p1..p2] + wordA[p2..];
    children := [P.Painting(childA), P.Painting(childB)];
  }

  /** `mutate`, the iOS copy: the same painting as the other snapshot. */
  method Mutate(individual: P.Painting, draws: seq<(real, P.GeneDraws)>) returns (r: P.Painting)
    requires |draws| >= |individual.genes| && P.ValidMutationDraws(draws)
    ensures r == P.Mutated(individual, draws)
  {
    var dna: seq<P.Gene> := [];
    for i := 0 to |individual.genes|
      invariant |dna| == i
      invariant forall k :: 0 <= k < i ==> dna[k] == P.MutatedGene(individual.genes[k], draws[k].0, draws[k].1)
    {
      var gene := individual.genes[i];
      if Dice.Roll(P.GeneMutationProbability, draws[i].0) {
        dna := dna + [P.GeneMutate(gene, draws[i].1)];
      } else {
        dna := dna + [gene];
      }
    }
    r := P.Painting(dna);
  }

  /**
   * A pixel of a bitmap, its fields in the order the source declares them. The bitmap's
   * bytes are red, green, blue and an unused fourth, so `blue` holds the green byte and
   * `green` the blue one; the distance sums both, so the swap does not change it.
   */
  datatype Pixel = Pixel(red: P.UInt8, blue: P.UInt8, green: P.UInt8, alpha: P.UInt8)

  /** Same colour: the three colour channels agree, whatever the fourth byte. */
  predicate SameColor(a: Pixel, b: Pixel)
  {
    a.red == b.red && a.green == b.green && a.blue == b.blue
  }

  /**
   * `distance`: the squared Euclidean distance of the two colours. The differences are
   * whole numbers below 256, so the `Double` arithmetic is exact.
   */
  function Distance(a: Pixel, b: Pixel): (d: int)
    ensures d >= 0
    ensures d == 0 <==> SameColor(a, b)
    ensures d <= 3 * 255 * 255
  {
    var r := a.red as int - b.red as int;
    var g := a.green as int - b.green as int;
    var bl := a.blue as int - b.blue as int;
    assert r * r <= 255 * 255 && g * g <= 255 * 255 && bl * bl <= 255 * 255 by {
      SquareBound(r);
      SquareBound(g);
      SquareBound(bl);
    }
    r * r + g * g + bl * bl
  }

  lemma SquareBound(x: int)
    requires -255 <= x <= 255
    ensures x * x <= 255 * 255
  {
    var a := if x < 0 then -x else x;
    assert x * x == a * a;
    MulLe(a, 255, a);
    MulLe(a, 255, 255);
  }

  lemma MulLe(a: nat, b: nat, c: nat)
    requires a <= b
    ensures a * c <= b * c
  {
  }

  /** The distance is symmetric and ignores the fourth byte. */
  lemma DistanceSymmetricIgnoringAlpha(a: Pixel, b: Pixel, alpha: P.UInt8)
    ensures Distance(a, b) == Distance(b, a)
    ensures Distance(a.(alpha := alpha), b) == Distance(a, b)
  {
  }
}
