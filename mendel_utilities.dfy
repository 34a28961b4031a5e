/**
 * Mendel/Mendel/Utilities.swift: the second snapshot of `iterateWhile` and
 * `insertionPoint`, and `scanl1`. Its `iterateWhile` agrees with the Classes copy on
 * every input, and its `insertionPoint` carries the same contract.
 */
module MendelUtilities {
  import opened Wrappers
  import opened Core
  import ClassesUtilities

  /** `iterateWhile`, with `rank` standing for the caller's termination argument. */
  function IterateWhile<A(!new)>(condition: A -> bool, init: A, next: A -> Option<A>, rank: A -> nat): (r: A)
    requires forall x :: ClassesUtilities.Continues(condition, next, x) ==> rank(next(x).value) < rank(x)
    ensures r == init || condition(r)
    ensures !ClassesUtilities.Continues(condition, next, r)
    ensures !ClassesUtilities.Continues(condition, next, init) ==> r == init
    decreases rank(init)
  {
    match next(init)
    case Some(x) => if condition(x) then IterateWhile(condition, x, next, rank) else init
    case None => init
  }

  /** The two snapshots compute the same value. */
  lemma {:induction false} IterateWhileSnapshotsAgree<A(!new)>(condition: A -> bool, init: A, next: A -> Option<A>, rank: A -> nat)
    requires forall x :: ClassesUtilities.Continues(condition, next, x) ==> rank(next(x).value) < rank(x)
    ensures IterateWhile(condition, init, next, rank) == ClassesUtilities.IterateWhile(condition, init, next, rank)
    decreases rank(init)
  {
    if ClassesUtilities.Continues(condition, next, init) {
      IterateWhileSnapshotsAgree(condition, next(init).value, next, rank);
    }
  }

  /**
   * What `scanl1` computes: the running combinations from the left, `out[0] = in[0]` and
   * `out[i] = f(out[i - 1], in[i])`.
   */
  function Scan<A>(input: seq<A>, f: (A, A) -> A): (out: seq<A>)
    ensures |out| == |input|
  {
    if |input| <= 1 then input
    else
      var prefix := Scan(input[..|input| - 1], f);
      prefix + [f(prefix[|prefix| - 1], input[|input| - 1])]
  }

  /** A prefix of the scan is the scan of the prefix. */
  lemma {:induction false} ScanPrefix<A>(input: seq<A>, f: (A, A) -> A, k: nat)
    requires k <= |input|
    ensures Scan(input, f)[..k] == Scan(input[..k], f)
    decreases |input|
  {
    if k < |input| {
      var n := |input| - 1;
      if |input| > 1 {
        ScanPrefix(input[..n], f, k);
        assert input[..n][..k] == input[..k];
        assert Scan(input, f)[..k] == Scan(input[..n], f)[..k];
      } else {
        assert k == 0;
      }
    } else {
      assert input[..k] == input;
    }
  }

  /** The recurrence `scanl1` is known by: first element kept, then each combined with its predecessor. */
  lemma {:induction false} ScanRecurrence<A>(input: seq<A>, f: (A, A) -> A, i: nat)
    requires 0 < i < |input|
    ensures Scan(input, f)[0] == input[0]
    ensures Scan(input, f)[i] == f(Scan(input, f)[i - 1], input[i])
  {
    var s := Scan(input, f);
    var p := input[..i + 1];
    ScanPrefix(input, f, i + 1);
    ScanPrefix(input, f, i);
    ScanPrefix(input, f, 1);
    assert p[..i] == input[..i];
    var q := Scan(input[..i], f);
    assert Scan(p, f) == q + [f(q[i - 1], p[i])];
    assert s[i] == Scan(p, f)[i];
    assert q[i - 1] == s[..i][i - 1];
    assert Scan(input[..1], f) == input[..1];
    assert s[0] == s[..1][0];
  }

  /**
   * `scanl1`: a map over the input whose closure keeps the last output in `running`;
   * the first element passes through, later ones are combined with it.
   */
  method Scanl1<A>(input: seq<A>, f: (A, A) -> A) returns (out: seq<A>)
    ensures out == Scan(input, f)
    ensures input == [] ==> out == []
  {
    var running: Option<A> := None;
    out := [];
    for i := 0 to |input|
      invariant out == Scan(input[..i], f)
      invariant running == if i == 0 then None else Some(out[i - 1])
    {
      var nv := input[i];
      assert input[..i + 1][..i] == input[..i];
      if running.Some? {
        var newVal := f(running.value, nv);
        running := Some(newVal);
        out := out + [newVal];
      } else {
        running := Some(nv);
        out := out + [nv];
      }
    }
    assert input[..|input|] == input;
  }

  /** `insertionPoint`, the same binary search as the Classes copy, so it reaches the same index. */
  method InsertionPoint(domain: seq<real>, key: Double) returns (r: nat)
    requires |domain| > 0
    ensures r < |domain|
    ensures r == ClassesUtilities.Search(domain, key, 0, |domain| - 1)
  {
    var lowerIndex := 0;
    var upperIndex := |domain| - 1;
    while true
      invariant 0 <= lowerIndex <= |domain| - 1
      invariant lowerIndex - 1 <= upperIndex <= |domain| - 1
      invariant ClassesUtilities.Search(domain, key, lowerIndex, upperIndex) == ClassesUtilities.Search(domain, key, 0, |domain| - 1)
      decreases upperIndex - lowerIndex + 2
    {
      ClassesUtilities.SearchStep(domain, key, lowerIndex, upperIndex);
      var currentIndex := ClassesUtilities.TruncDiv2(lowerIndex + upperIndex);
      if ClassesUtilities.Matches(domain[currentIndex], key) {
        return currentIndex;
      } else if lowerIndex >= upperIndex {
        return lowerIndex;
      } else if ClassesUtilities.Above(domain[currentIndex], key) {
        upperIndex := currentIndex - 1;
      } else {
        lowerIndex := currentIndex + 1;
      }
    }
  }
}
