/**
 * Mendel/Classes/Utilities.swift: `iterateWhile` and the `insertionPoint` binary search.
 */
module ClassesUtilities {
  import opened Wrappers
  import opened Core

  /** One more step of `iterateWhile` happens from `x`: `next` yields a value that passes `condition`. */
  predicate Continues<A>(condition: A -> bool, next: A -> Option<A>, x: A)
  {
    next(x).Some? && condition(next(x).value)
  }

  /**
   * `iterateWhile`: applies `next` while its result passes `condition` and returns the last
   * value reached. The source recurses without bound; `rank`, which every continuing
   * step must decrease, stands for the caller's reason why the recursion ends.
   */
  function IterateWhile<A(!new)>(condition: A -> bool, init: A, next: A -> Option<A>, rank: A -> nat): (r: A)
    requires forall x :: Continues(condition, next, x) ==> rank(next(x).value) < rank(x)
    ensures r == init || condition(r)
    ensures !Continues(condition, next, r)
    ensures !Continues(condition, next, init) ==> r == init
    decreases rank(init)
  {
    if Continues(condition, next, init) then IterateWhile(condition, next(init).value, next, rank)
    else init
  }

  /** Swift's `/` on `Int` truncates toward zero. */
  function TruncDiv2(x: int): (q: int)
    ensures x >= 0 ==> q == x / 2
    ensures x == -1 ==> q == 0
  {
    if x >= 0 then x / 2 else -((-x) / 2)
  }

  /** Swift's `domain[i] == key` for a `Double` key: false for NaN and infinities. */
  predicate Matches(d: real, key: Double)
  {
    key.Real? && d == key.v
  }

  /** Swift's `domain[i] > key` for a `Double` key: false for NaN and +∞. */
  predicate Above(d: real, key: Double)
  {
    key.Real? && d > key.v
  }

  /** Neither equal to nor above the key: the search moves right past it. */
  predicate Below(d: real, key: Double)
  {
    !Matches(d, key) && !Above(d, key)
  }

  predicate Ascending(domain: seq<real>)
  {
    forall i, j :: 0 <= i < j < |domain| ==> domain[i] <= domain[j]
  }

  /** The probe lies between the bounds, or at or below `lower` once they have crossed. */
  lemma Midpoint(lower: int, upper: int)
    requires 0 <= lower && lower - 1 <= upper
    ensures lower <= upper ==> lower <= TruncDiv2(lower + upper) <= upper
    ensures upper < lower ==> 0 <= TruncDiv2(lower + upper) <= lower
  {
  }

  /**
   * The index the binary search reaches from bounds `lower`, `upper`: probe the middle
   * (rounded toward zero), stop on a match or when the bounds meet, otherwise continue
   * in the half the comparison leaves.
   */
  function Search(domain: seq<real>, key: Double, lower: int, upper: int): (r: nat)
    requires 0 <= lower <= |domain| - 1 && lower - 1 <= upper <= |domain| - 1
    ensures r < |domain|
    decreases upper - lower + 2
  {
    var current := TruncDiv2(lower + upper);
    if Matches(domain[current], key) then current
    else if lower >= upper then lower
    else if Above(domain[current], key) then Search(domain, key, lower, current - 1)
    else Search(domain, key, current + 1, upper)
  }

  /** One step of `Search`: where the probe lies and which bounds the search continues from. */
  lemma SearchStep(domain: seq<real>, key: Double, lower: int, upper: int)
    requires 0 <= lower <= |domain| - 1 && lower - 1 <= upper <= |domain| - 1
    ensures var c := TruncDiv2(lower + upper);
      0 <= c < |domain|
      && (lower < upper ==> lower <= c < upper)
      && (Matches(domain[c], key) ==> Search(domain, key, lower, upper) == c)
      && (!Matches(domain[c], key) && lower >= upper ==> Search(domain, key, lower, upper) == lower)
      && (!Matches(domain[c], key) && lower < upper && Above(domain[c], key) ==>
            Search(domain, key, lower, upper) == Search(domain, key, lower, c - 1))
      && (!Matches(domain[c], key) && lower < upper && !Above(domain[c], key) ==>
            Search(domain, key, lower, upper) == Search(domain, key, c + 1, upper))
  {
    Midpoint(lower, upper);
  }

  /** On `[3, 2, 1]`, which is not ascending, the search for 3 ends at index 2, not at the 3. */
  lemma SearchOnDescendingDomain()
    ensures Search([3.0, 2.0, 1.0], Real(3.0), 0, 2) == 2
  {
    assert TruncDiv2(2) == 1;
    assert TruncDiv2(4) == 2;
    assert Search([3.0, 2.0, 1.0], Real(3.0), 2, 2) == 2;
  }

  /**
   * `r` is an insertion point for `key`: nothing before it is above the key and nothing
   * after it is below; when `domain[r]` does not match, everything before is below and
   * everything after is above.
   */
  predicate InsertionPointOf(domain: seq<real>, key: Double, r: nat)
    requires r < |domain|
  {
    (forall i :: 0 <= i < r ==> !Above(domain[i], key))
    && (forall i :: r < i < |domain| ==> !Below(domain[i], key))
    && (!Matches(domain[r], key) ==>
          (forall i :: 0 <= i < r ==> Below(domain[i], key))
          && (forall i :: r < i < |domain| ==> Above(domain[i], key)))
  }

  /** A matching element of an ascending domain is an insertion point for its key. */
  lemma MatchIsInsertionPoint(domain: seq<real>, key: Double, c: nat)
    requires c < |domain| && Ascending(domain) && Matches(domain[c], key)
    ensures InsertionPointOf(domain, key, c)
  {
    assert forall i :: 0 <= i < c ==> domain[i] <= domain[c];
    assert forall i :: c < i < |domain| ==> domain[c] <= domain[i];
  }

  /** Where everything to the left is below the key and everything to the right above it. */
  lemma GapIsInsertionPoint(domain: seq<real>, key: Double, r: nat)
    requires r < |domain| && !Matches(domain[r], key)
    requires forall i :: 0 <= i < r ==> Below(domain[i], key)
    requires forall i :: r < i < |domain| ==> Above(domain[i], key)
    ensures InsertionPointOf(domain, key, r)
  {
  }

  /**
   * On an ascending domain, from bounds outside of which the elements are already known
   * to be below (left) or above (right) the key, the search ends at an insertion point.
   */
  lemma {:induction false} SearchBrackets(domain: seq<real>, key: Double, lower: int, upper: int)
    requires 0 <= lower <= |domain| - 1 && lower - 1 <= upper <= |domain| - 1
    requires Ascending(domain)
    requires forall i :: 0 <= i < lower ==> Below(domain[i], key)
    requires forall i :: upper < i < |domain| ==> Above(domain[i], key)
    ensures InsertionPointOf(domain, key, Search(domain, key, lower, upper))
    decreases upper - lower + 2, 1
  {
    var current := TruncDiv2(lower + upper);
    Midpoint(lower, upper);
    if Matches(domain[current], key) {
      MatchIsInsertionPoint(domain, key, current);
    } else if lower >= upper {
      assert !Matches(domain[lower], key) by {
        if lower == upper { assert current == lower; }
      }
      GapIsInsertionPoint(domain, key, lower);
    } else if Above(domain[current], key) {
      SearchBracketsLeft(domain, key, lower, upper);
    } else {
      SearchBracketsRight(domain, key, lower, upper);
    }
  }

  /** The probe is above the key: the search continues left of it, and the right side is known. */
  lemma {:induction false} SearchBracketsLeft(domain: seq<real>, key: Double, lower: int, upper: int)
    requires 0 <= lower < upper <= |domain| - 1
    requires Ascending(domain)
    requires forall i :: 0 <= i < lower ==> Below(domain[i], key)
    requires forall i :: upper < i < |domain| ==> Above(domain[i], key)
    requires !Matches(domain[TruncDiv2(lower + upper)], key) && Above(domain[TruncDiv2(lower + upper)], key)
    ensures InsertionPointOf(domain, key, Search(domain, key, lower, upper))
    decreases upper - lower + 2, 0
  {
    var current := TruncDiv2(lower + upper);
    Midpoint(lower, upper);
    AboveToTheRight(domain, key, current);
    SearchBrackets(domain, key, lower, current - 1);
  }

  /** The probe is below the key: the search continues right of it, and the left side is known. */
  lemma {:induction false} SearchBracketsRight(domain: seq<real>, key: Double, lower: int, upper: int)
    requires 0 <= lower < upper <= |domain| - 1
    requires Ascending(domain)
    requires forall i :: 0 <= i < lower ==> Below(domain[i], key)
    requires forall i :: upper < i < |domain| ==> Above(domain[i], key)
    requires Below(domain[TruncDiv2(lower + upper)], key)
    ensures InsertionPointOf(domain, key, Search(domain, key, lower, upper))
    decreases upper - lower + 2, 0
  {
    var current := TruncDiv2(lower + upper);
    Midpoint(lower, upper);
    BelowToTheLeft(domain, key, current);
    SearchBrackets(domain, key, current + 1, upper);
  }

  /** In an ascending domain everything from an element above the key onwards is above it. */
  lemma AboveToTheRight(domain: seq<real>, key: Double, c: nat)
    requires c < |domain| && Ascending(domain) && Above(domain[c], key)
    ensures forall i :: c <= i < |domain| ==> Above(domain[i], key)
  {
    assert forall i :: c <= i < |domain| ==> domain[c] <= domain[i];
  }

  /** In an ascending domain everything up to an element below the key is below it. */
  lemma BelowToTheLeft(domain: seq<real>, key: Double, c: nat)
    requires c < |domain| && Ascending(domain) && Below(domain[c], key)
    ensures forall i :: 0 <= i <= c ==> Below(domain[i], key)
  {
    assert forall i :: 0 <= i <= c ==> domain[i] <= domain[c];
  }

  /** On an ascending domain a key that occurs is found. */
  lemma {:induction false} SearchFindsPresentKey(domain: seq<real>, key: Double, j: nat)
    requires j < |domain| && Ascending(domain) && Matches(domain[j], key)
    ensures Matches(domain[Search(domain, key, 0, |domain| - 1)], key)
  {
    SearchBrackets(domain, key, 0, |domain| - 1);
  }

  /**
   * `insertionPoint`: binary search of `key` in `domain`. An empty domain traps (the
   * first probe reads `domain[0]`); otherwise the result is the index `Search` reaches,
   * an index of the domain.
   */
  method InsertionPoint(domain: seq<real>, key: Double) returns (r: nat)
    requires |domain| > 0
    ensures r < |domain|
    ensures r == Search(domain, key, 0, |domain| - 1)
  {
    var lower := 0;
    var upper := |domain| - 1;
    while true
      invariant 0 <= lower <= |domain| - 1
      invariant lower - 1 <= upper <= |domain| - 1
      invariant Search(domain, key, lower, upper) == Search(domain, key, 0, |domain| - 1)
      decreases upper - lower + 2
    {
      SearchStep(domain, key, lower, upper);
      var current := TruncDiv2(lower + upper);
      if Matches(domain[current], key) {
        return current;
      } else if lower >= upper {
        return lower;
      } else if Above(domain[current], key) {
        upper := current - 1;
      } else {
        lower := current + 1;
      }
    }
  }
}
