/**
 * The two in-place Fisher–Yates (Durstenfeld) shuffles of level 3.
 *
 * Randomness is abstracted into a sequence `picks`: `picks[i]` is the random
 * index drawn when position `i` is swapped, and a legal draw lies in `[0, i]`
 * (`Math.floor(Math.random() * (i + 1))`). Both loops walk the positions from
 * the last one down; they therefore compute the same permutation, given by
 * the specification function `Shuffled`.
 */
module Shuffling {

  /** `picks` holds one legal random index per position of an `n`-element array. */
  predicate ValidPicks(picks: seq<nat>, n: nat) {
    |picks| == n && forall i :: 0 <= i < n ==> picks[i] <= i
  }

  /** Exchanges the elements at positions `i` and `j`. */
  function Swap<T>(s: seq<T>, i: nat, j: nat): (r: seq<T>)
    requires i < |s| && j < |s|
    ensures |r| == |s| && r[i] == s[j] && r[j] == s[i]
  {
    s[i := s[j]][j := s[i]]
  }

  /**
   * The result of swapping position `k - 1` with `picks[k - 1]`, then position
   * `k - 2` with `picks[k - 2]`, and so on down to position 0.
   */
  function Shuffled<T>(s: seq<T>, picks: seq<nat>, k: nat): (r: seq<T>)
    requires k <= |s| && ValidPicks(picks, |s|)
    ensures |r| == |s|
    decreases k
  {
    if k == 0 then s else Shuffled(Swap(s, k - 1, picks[k - 1]), picks, k - 1)
  }

  /** A swap only reorders: the multiset of elements is unchanged. */
  lemma SwapPermutes<T>(s: seq<T>, i: nat, j: nat)
    requires i < |s| && j < |s|
    ensures multiset(Swap(s, i, j)) == multiset(s)
  {
  }

  /** Any sequence of legal picks yields a permutation of the input. */
  lemma {:induction false} ShuffledPermutes<T>(s: seq<T>, picks: seq<nat>, k: nat)
    requires k <= |s| && ValidPicks(picks, |s|)
    ensures multiset(Shuffled(s, picks, k)) == multiset(s)
    decreases k
  {
    if k > 0 {
      SwapPermutes(s, k - 1, picks[k - 1]);
      ShuffledPermutes(Swap(s, k - 1, picks[k - 1]), picks, k - 1);
    }
  }

  /**
   * The final step at position 0 is a no-op, since its only legal pick is 0:
   * stopping the walk at position 1 gives the same permutation.
   */
  lemma ShuffledStop<T>(s: seq<T>, picks: seq<nat>, k: nat)
    requires k <= 1 && k <= |s| && ValidPicks(picks, |s|)
    ensures Shuffled(s, picks, k) == s
  {
    if k == 1 {
      assert Swap(s, 0, picks[0]) == s;
    }
  }

  /**
   * `shuffle(array)`: `for i from length - 1 down to 1, swap a[i] with a[j]`,
   * `j` a random index in `[0, i]`.
   */
  method Shuffle<T>(a: array<T>, picks: seq<nat>)
    requires ValidPicks(picks, a.Length)
    modifies a
    ensures a[..] == Shuffled(old(a[..]), picks, a.Length)
    ensures multiset(a[..]) == multiset(old(a[..]))
  {
    var i := a.Length - 1;
    while i > 0
      invariant -1 <= i < a.Length
      invariant Shuffled(a[..], picks, i + 1) == Shuffled(old(a[..]), picks, a.Length)
    {
      var j := picks[i];
      ghost var before := a[..];
      a[i], a[j] := a[j], a[i];
      assert a[..] == Swap(before, i, j);
      i := i - 1;
    }
    // The walk stops before position 0, whose only legal pick is 0.
    ShuffledStop(a[..], picks, i + 1);
    ShuffledPermutes(old(a[..]), picks, a.Length);
  }

  /**
   * `shuffleCards()`: while `currentIndex` is not 0, draw `randomIndex` in
   * `[0, currentIndex)`, decrement `currentIndex` and swap the two positions
   * through a temporary.
   */
  method ShuffleCards<T>(cards: array<T>, picks: seq<nat>)
    requires ValidPicks(picks, cards.Length)
    modifies cards
    ensures cards[..] == Shuffled(old(cards[..]), picks, cards.Length)
    ensures multiset(cards[..]) == multiset(old(cards[..]))
  {
    var currentIndex := cards.Length;
    while currentIndex != 0
      invariant 0 <= currentIndex <= cards.Length
      invariant Shuffled(cards[..], picks, currentIndex) == Shuffled(old(cards[..]), picks, cards.Length)
    {
      var randomIndex := picks[currentIndex - 1];
      currentIndex := currentIndex - 1;
      ghost var before := cards[..];
      var temporaryValue := cards[currentIndex];
      cards[currentIndex] := cards[randomIndex];
      assert cards[..] == before[currentIndex := before[randomIndex]];
      ghost var mid := cards[..];
      cards[randomIndex] := temporaryValue;
      assert cards[..] == mid[randomIndex := temporaryValue];
    }
    ShuffledPermutes(old(cards[..]), picks, cards.Length);
  }
}
