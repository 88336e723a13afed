/**
 * The hard level as the page runs it: the module-level variables of the
 * level become the fields of one `Game` object, the `cards` array is
 * shuffled in place, and every handler is a method that updates the fields.
 *
 * The methods are specified by the pure state machine of module `Rules`:
 * the postcondition of each method that models a `Rules` function says that
 * the abstract state `State()` afterwards is that function of the state
 * before, so everything proved there about the functions holds of those
 * methods. `ShowEndPopupFor` and `GenerateCards` state their new state
 * directly, as an update of the old one.
 */
module Level3 {
  import opened Shuffling
  import opened Deck
  import opened Rules

  class Game {
    /** The 24 card names, in board order. */
    const cards: array<Name>
    /** Per card: its click listener has been removed (pair found). */
    var matched: seq<bool>
    /** Per card: it carries the "flipped" class (face up). */
    var flipped: seq<bool>
    var firstCard: Option<nat>
    var secondCard: Option<nat>
    var lockBoard: bool
    var gameEnded: bool
    var score: int
    var matchedPairs: int
    var timeLeft: int
    /** `timeInterval` is set and not cleared. */
    var ticking: bool
    /** The end-of-round popup on screen. */
    var outcome: Outcome

    /** The abstract state the handlers are specified on. */
    function State(): Round
      reads this, cards
    {
      Round(cards[..], matched, flipped, firstCard, secondCard, lockBoard, gameEnded,
            score, matchedPairs, timeLeft, ticking, outcome)
    }

    ghost predicate Valid()
      reads this, cards
    {
      Inv(State())
    }

    /**
     * The page's start-up once `cards.json` is loaded: pick 12 cards
     * (`arranged` is the catalogue as the random sort left it), double them,
     * `shuffle` the array with the given picks, lay the cards out face down
     * and start the 50-second timer.
     */
    constructor (arranged: seq<Name>, picks: seq<nat>)
      requires ValidPicks(picks, 2 * Min(PairCount, |arranged|))
      ensures Valid()
      ensures State() == NewRound(Shuffled(BuildDeck(GetRandomCards(arranged, PairCount)), picks, |picks|))
    {
      var selectedCards := GetRandomCards(arranged, PairCount);
      var deck := BuildDeck(selectedCards);
      cards := new Name[|deck|](k requires 0 <= k < |deck| => deck[k]);
      matched := FaceDown(|deck|);
      flipped := FaceDown(|deck|);
      firstCard, secondCard := None, None;
      lockBoard, gameEnded := false, false;
      score, matchedPairs := 0, 0;
      timeLeft := StartTime;
      ticking := true;
      outcome := NoOutcome;
      new;
      assert cards[..] == deck;
      Shuffle(cards, picks);
      ghost var start := NewRound(Shuffled(deck, picks, |picks|));
      assert cards[..] == start.deck;
      assert State() == start;
    }

    /** `flipCard`, run by a click on card `i`. */
    method FlipCard(i: nat)
      requires Valid() && i < cards.Length
      modifies this
      ensures Valid()
      ensures State() == Flip(old(State()), i)
    {
      ghost var before := State();
      if matched[i] {
        return; // the listener was removed by disableCards
      }
      if lockBoard || gameEnded {
        return;
      }
      if firstCard == Some(i) {
        return;
      }
      flipped := flipped[i := true];
      if firstCard.None? {
        firstCard := Some(i);
        return;
      }
      secondCard := Some(i);
      score := score + 1;
      lockBoard := true;
      ghost var attempt := before.(flipped := before.flipped[i := true], second := Some(i),
                                   score := before.score + 1, lockBoard := true);
      assert State() == attempt;
      CheckForMatch();
      assert Flip(before, i) == Rules.CheckForMatch(attempt);
    }

    /**
     * `checkForMatch`: compares the two names. On a mismatch, `unflipCards`
     * only schedules its callback, which is `ResolveMismatch` below.
     */
    method CheckForMatch()
      requires Comparing(State())
      modifies this
      ensures State() == Rules.CheckForMatch(old(State()))
    {
      var isMatch := cards[firstCard.value] == cards[secondCard.value];
      if isMatch {
        DisableCards();
      }
    }

    /**
     * `disableCards`. When the pair count reaches 12 it schedules the end of
     * the round, which is `FinishRound` below.
     */
    method DisableCards()
      requires Comparing(State())
      modifies this
      ensures State() == Rules.DisableCards(old(State()))
    {
      matched := matched[firstCard.value := true][secondCard.value := true];
      matchedPairs := matchedPairs + 1;
      IncreaseTime(MatchBonus);
      ResetBoard();
    }

    /** The callback of `unflipCards`, one second after a mismatch. */
    method ResolveMismatch()
      requires Valid() && secondCard.Some?
      modifies this
      ensures Valid()
      ensures State() == Rules.ResolveMismatch(old(State()))
    {
      flipped := flipped[firstCard.value := false][secondCard.value := false];
      ResetBoard();
    }

    /** `resetBoard`. */
    method ResetBoard()
      modifies this
      ensures State() == Rules.ResetBoard(old(State()))
    {
      firstCard := None;
      secondCard := None;
      lockBoard := false;
    }

    /** `increaseTime(seconds)`. */
    method IncreaseTime(seconds: int)
      modifies this
      ensures State() == Rules.IncreaseTime(old(State()), seconds)
    {
      timeLeft := timeLeft + seconds;
    }

    /** `endgame(result)`. */
    method EndGame(result: string)
      modifies this
      ensures State() == Rules.EndGame(old(State()), result)
    {
      gameEnded := true;
      if result == "fail" {
        outcome := Fail;
      }
    }

    /** The body of the `setInterval` callback of `startTimer`. */
    method Tick()
      requires Valid() && ticking
      modifies this
      ensures Valid()
      ensures State() == Rules.Tick(old(State()))
    {
      timeLeft := timeLeft - 1;
      if timeLeft <= 0 {
        ticking := false;
        EndGame("fail");
      }
    }

    /**
     * The callback `disableCards` schedules on the twelfth pair:
     * `clearInterval`, then `showEndPopup(score)`, which stops the timer again,
     * ends the round and shows the popup of the score's band.
     */
    method FinishRound()
      requires Valid() && matchedPairs == PairCount
      modifies this
      ensures Valid()
      ensures State() == ShowEndPopup(old(State()))
    {
      ticking := false;
      ShowEndPopupFor(score);
    }

    /** `showEndPopup(score)`. */
    method ShowEndPopupFor(finalScore: int)
      modifies this
      ensures State() == old(State()).(ticking := false, gameEnded := true,
        outcome := if Classify(finalScore) == NoOutcome then old(outcome) else Classify(finalScore))
    {
      ticking := false;
      gameEnded := true;
      if finalScore >= 12 && finalScore <= 22 {
        outcome := Win;
      } else if finalScore >= 23 && finalScore <= 32 {
        outcome := Average;
      } else if finalScore >= 33 {
        outcome := Fail;
      }
    }

    /** `restart`, run by the "Try Again" buttons. */
    method Restart(picks: seq<nat>)
      requires ValidPicks(picks, cards.Length)
      modifies this, cards
      ensures Valid()
      ensures State() == Rules.Restart(old(State()), picks)
    {
      ghost var before := State();
      outcome := NoOutcome;          // the three popups are hidden
      ticking := false;              // clearInterval
      timeLeft := StartTime;
      ticking := true;               // startTimer
      gameEnded := false;
      matchedPairs := 0;
      ResetBoard();
      ghost var cleared := State();
      ShuffleCards(cards, picks);
      score := 0;
      GenerateCards();
      ghost var after := Rules.Restart(before, picks);
      assert cards[..] == after.deck;
      assert matched == after.matched && flipped == after.flipped;
      assert firstCard == cleared.first == None && secondCard == cleared.second == None && !lockBoard;
      assert State() == after;
    }

    /** `generateCards` on an emptied grid: every card laid out anew, face down and clickable. */
    method GenerateCards()
      modifies this
      ensures State() == old(State()).(matched := FaceDown(cards.Length), flipped := FaceDown(cards.Length))
    {
      matched := FaceDown(cards.Length);
      flipped := FaceDown(cards.Length);
    }
  }
}
