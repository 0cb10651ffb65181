/**
 * `random.shuffle(x)`, with the random numbers it draws supplied by the caller.
 * Python's shuffle walks `i` from `len(x) - 1` down to 1, draws
 * `j = randbelow(i + 1)` and swaps `x[i]` with `x[j]`.
 */
module PyRandom {

  /** Draws that `randbelow` could have returned for a list of length `n`: `draws[i]` is the one drawn at step `i`, so it lies in `0..i`. */
  predicate ValidDraws(draws: seq<nat>, n: nat)
  {
    |draws| == n && forall i | 0 <= i < n :: draws[i] <= i
  }

  /** `x[i], x[j] = x[j], x[i]`. */
  function Swap<T>(s: seq<T>, i: nat, j: nat): (r: seq<T>)
    requires i < |s| && j < |s|
    ensures |r| == |s| && multiset(r) == multiset(s)
    ensures r[i] == s[j] && r[j] == s[i]
    ensures forall k | 0 <= k < |s| && k != i && k != j :: r[k] == s[k]
  {
    s[i := s[j]][j := s[i]]
  }

  /** The list after the shuffle's remaining steps, for positions `i - 1` down to 1, have run on `s`. */
  function StepsDown<T>(s: seq<T>, draws: seq<nat>, i: nat): (r: seq<T>)
    requires ValidDraws(draws, |s|) && i <= |s|
    ensures |r| == |s| && multiset(r) == multiset(s)
    decreases i
  {
    if i <= 1 then s else StepsDown(Swap(s, i - 1, draws[i - 1]), draws, i - 1)
  }

  /** What `random.shuffle` leaves in a list holding `s`: a permutation of `s`. */
  function Shuffle<T>(s: seq<T>, draws: seq<nat>): (r: seq<T>)
    requires ValidDraws(draws, |s|)
    ensures |r| == |s| && multiset(r) == multiset(s)
  {
    StepsDown(s, draws, |s|)
  }

  /** `random.shuffle(a)`: reorders `a` in place, one swap per step. */
  method ShuffleInPlace<T>(a: array<T>, draws: seq<nat>)
    requires ValidDraws(draws, a.Length)
    modifies a
    ensures a[..] == Shuffle(old(a[..]), draws)
    ensures multiset(a[..]) == multiset(old(a[..]))
  {
    var i := a.Length;
    while i > 1
      invariant 0 <= i <= a.Length
      invariant StepsDown(a[..], draws, i) == Shuffle(old(a[..]), draws)
    {
      ghost var before := a[..];
      i := i - 1;
      var j := draws[i];
      a[i], a[j] := a[j], a[i];
      assert a[..] == Swap(before, i, j);
    }
  }
}
