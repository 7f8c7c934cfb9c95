/**
 The optional shuffle of the loaded questions. The program hands
 `rand.Shuffle` a callback that swaps two questions; the library visits the
 positions from the last down to 1 and swaps each with a position drawn
 at random from 0 up to itself. The random source is a parameter here: the
 k-th draw picks the partner of the k-th position visited.
 */
module Sequencer {

  /** Exchanges the elements at `i` and `j`, as the swap callback does. */
  function Swap<T>(s: seq<T>, i: nat, j: nat): (r: seq<T>)
    requires i < |s| && j < |s|
    ensures |r| == |s|
    ensures r[i] == s[j] && r[j] == s[i]
    ensures forall k :: 0 <= k < |s| && k != i && k != j ==> r[k] == s[k]
  {
    s[i := s[j]][j := s[i]]
  }

  lemma SwapPermutes<T>(s: seq<T>, i: nat, j: nat)
    requires i < |s| && j < |s|
    ensures multiset(Swap(s, i, j)) == multiset(s)
  {
  }

  /** The partner drawn for position `top` by draw number `k`: any value the
      source yields is brought into 0..top; a source that has run dry yields 0. */
  function Pick(draws: seq<nat>, k: nat, top: nat): (j: nat)
    ensures j <= top
  {
    (if k < |draws| then draws[k] else 0) % (top + 1)
  }

  /** The swaps for positions `top` down to 1, starting with draw `k`. */
  function ShuffleFrom<T>(s: seq<T>, top: nat, draws: seq<nat>, k: nat): (r: seq<T>)
    requires top < |s|
    ensures |r| == |s|
    ensures forall m :: top < m < |s| ==> r[m] == s[m]
    decreases top
  {
    if top == 0 then s
    else ShuffleFrom(Swap(s, top, Pick(draws, k, top)), top - 1, draws, k + 1)
  }

  /** `rand.Shuffle` over the whole sequence. */
  function Shuffle<T>(s: seq<T>, draws: seq<nat>): (r: seq<T>)
    ensures |r| == |s|
    ensures |s| <= 1 ==> r == s
  {
    if |s| == 0 then s else ShuffleFrom(s, |s| - 1, draws, 0)
  }

  lemma {:induction false} ShuffleFromPermutes<T>(s: seq<T>, top: nat, draws: seq<nat>, k: nat)
    requires top < |s|
    ensures multiset(ShuffleFrom(s, top, draws, k)) == multiset(s)
    decreases top
  {
    if top > 0 {
      var j := Pick(draws, k, top);
      SwapPermutes(s, top, j);
      ShuffleFromPermutes(Swap(s, top, j), top - 1, draws, k + 1);
    }
  }

  /** Shuffling only reorders: the result holds the same questions, each as
      often as before. */
  lemma ShufflePermutes<T>(s: seq<T>, draws: seq<nat>)
    ensures multiset(Shuffle(s, draws)) == multiset(s)
  {
    if |s| > 0 {
      ShuffleFromPermutes(s, |s| - 1, draws, 0);
    }
  }
}
