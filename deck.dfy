/**
 * Building the level-3 deck: pick 12 card definitions from the catalogue and
 * put each of them on the board twice.
 *
 * A card is identified by its name (the `data-name` attribute that matching
 * compares); the image reference is cosmetic and not modelled.
 */
module Deck {

  type Name = string

  /** Number of distinct cards, and so of pairs, in a level-3 round. */
  const PairCount: nat := 12

  function Min(a: nat, b: nat): nat {
    if a <= b then a else b
  }

  /** No name occurs twice. */
  predicate Distinct(s: seq<Name>) {
    forall x :: x in multiset(s) ==> multiset(s)[x] == 1
  }

  /** Every name that occurs at all occurs exactly twice: the board is made of pairs. */
  predicate EachTwice(s: seq<Name>) {
    forall x :: x in multiset(s) ==> multiset(s)[x] == 2
  }

  /**
   * `getRandomCards(data, count)`: the catalogue is first put in some order by
   * a sort with a random comparator, then the first `count` entries are kept
   * (`slice` stops early when there are fewer). `arranged` is that order.
   */
  function GetRandomCards(arranged: seq<Name>, count: nat): (r: seq<Name>)
    ensures |r| == Min(count, |arranged|)
    ensures multiset(r) <= multiset(arranged)
  {
    var n := Min(count, |arranged|);
    assert arranged == arranged[..n] + arranged[n..];
    arranged[..n]
  }

  /** `[...selectedCards, ...selectedCards]`: the selection followed by itself. */
  function BuildDeck(selected: seq<Name>): (deck: seq<Name>)
    ensures |deck| == 2 * |selected|
    ensures multiset(deck) == multiset(selected) + multiset(selected)
  {
    selected + selected
  }

  /**
   * Whatever order the random sort produced, a catalogue without repeated
   * names yields a selection without repeated names, drawn from the catalogue.
   */
  lemma SelectionFromCatalogue(catalogue: seq<Name>, arranged: seq<Name>, count: nat)
    requires multiset(arranged) == multiset(catalogue)
    requires Distinct(catalogue)
    ensures |GetRandomCards(arranged, count)| == Min(count, |catalogue|)
    ensures Distinct(GetRandomCards(arranged, count))
    ensures forall x :: x in GetRandomCards(arranged, count) ==> x in catalogue
  {
    var r := GetRandomCards(arranged, count);
    assert |arranged| == |multiset(arranged)| == |catalogue|;
    forall x | x in r ensures x in catalogue {
      assert x in multiset(r);
      assert x in multiset(catalogue);
    }
  }

  /** Doubling a selection without repeats puts every selected card on the board exactly twice. */
  lemma DeckIsPairs(selected: seq<Name>)
    requires Distinct(selected)
    ensures |BuildDeck(selected)| == 2 * |selected|
    ensures EachTwice(BuildDeck(selected))
    ensures forall x :: x in BuildDeck(selected) <==> x in selected
  {
    var deck := BuildDeck(selected);
    forall x | x in multiset(deck) ensures multiset(deck)[x] == 2 {
      assert multiset(selected)[x] == 1;
    }
  }

  /** Reordering a board of pairs leaves a board of pairs. */
  lemma EachTwicePermuted(a: seq<Name>, b: seq<Name>)
    requires EachTwice(a) && multiset(a) == multiset(b)
    ensures EachTwice(b) && |b| == |a|
  {
    assert |a| == |multiset(a)|;
  }

  /**
   * With a catalogue of at least 12 distinct names, the deck is 24 cards in
   * which each of the 12 selected names occurs exactly twice.
   */
  lemma FullDeck(catalogue: seq<Name>, arranged: seq<Name>)
    requires multiset(arranged) == multiset(catalogue)
    requires Distinct(catalogue) && |catalogue| >= PairCount
    ensures |BuildDeck(GetRandomCards(arranged, PairCount))| == 2 * PairCount
    ensures EachTwice(BuildDeck(GetRandomCards(arranged, PairCount)))
  {
    SelectionFromCatalogue(catalogue, arranged, PairCount);
    DeckIsPairs(GetRandomCards(arranged, PairCount));
  }
}
