/**
 * `random.shuffle` as CPython runs it: a Fisher-Yates pass from the last index down
 * to 1, swapping position i with a position drawn below i + 1. The random draws
 * are a parameter; each is reduced into range, and a missing draw reads as 0.
 */
module Shuffling {

  function Draw(draws: seq<nat>): nat
  {
    if draws == [] then 0 else draws[0]
  }

  function Rest(draws: seq<nat>): seq<nat>
  {
    if draws == [] then [] else draws[1..]
  }

  function Swap<T>(s: seq<T>, i: nat, j: nat): (r: seq<T>)
    requires i < |s| && j < |s|
    ensures |r| == |s|
  {
    s[i := s[j]][j := s[i]]
  }

  /** A swap only rearranges. */
  lemma SwapPermutes<T>(s: seq<T>, i: nat, j: nat)
    requires i < |s| && j < |s|
    ensures multiset(Swap(s, i, j)) == multiset(s)
  {
    if i != j {
      calc {
        multiset(Swap(s, i, j));
        multiset(s[i := s[j]]) - multiset{s[i := s[j]][j]} + multiset{s[i]};
        multiset(s) - multiset{s[i]} + multiset{s[j]} - multiset{s[j]} + multiset{s[i]};
        multiset(s);
      }
    }
  }

  /** Positions i, i-1, ..., 1 still to visit. */
  function ShuffleDown<T>(s: seq<T>, i: nat, draws: seq<nat>): seq<T>
    requires i < |s|
    decreases i
  {
    if i == 0 then s
    else ShuffleDown(Swap(s, i, Draw(draws) % (i + 1)), i - 1, Rest(draws))
  }

  function Shuffle<T>(s: seq<T>, draws: seq<nat>): seq<T>
  {
    if |s| == 0 then s else ShuffleDown(s, |s| - 1, draws)
  }

  lemma {:induction false} ShuffleDownPermutes<T>(s: seq<T>, i: nat, draws: seq<nat>)
    requires i < |s|
    ensures |ShuffleDown(s, i, draws)| == |s|
    ensures multiset(ShuffleDown(s, i, draws)) == multiset(s)
    decreases i
  {
    if i > 0 {
      var t := Swap(s, i, Draw(draws) % (i + 1));
      SwapPermutes(s, i, Draw(draws) % (i + 1));
      ShuffleDownPermutes(t, i - 1, Rest(draws));
    }
  }

  /** Whatever the draws, the result is a rearrangement of the input. */
  lemma ShufflePermutes<T>(s: seq<T>, draws: seq<nat>)
    ensures |Shuffle(s, draws)| == |s|
    ensures multiset(Shuffle(s, draws)) == multiset(s)
  {
    if |s| > 0 {
      ShuffleDownPermutes(s, |s| - 1, draws);
    }
  }
}
