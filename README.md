# Level 3 of the memory-matching game, in Dafny

Level 3 is the hard level of a browser memory game. Twelve cards are drawn from the card catalogue. Each is put on the
board twice and the 24 cards are shuffled. The player turns cards over two at a time, looking for pairs.

- Every pair attempt costs one point of score; lower is better.
- Every pair found adds three seconds to a 50-second countdown.
- When the clock reaches zero the round fails.
- When all twelve pairs are found, the end popup grades the score:
  - Win for 12–22;
  - Average for 23–32;
  - Fail from 33 on.
- A restart reshuffles the same cards and starts over.

The project has five modules:

- `Shuffling` (`shuffling.dfy`) holds the two in-place Fisher–Yates shuffles, `shuffle` and `shuffleCards`.
  - Both are methods over an `array`.
  - The random draws are passed in as a sequence `picks`. Each draw is constrained to its legal range: the draw for
    position `i` lies in `[0, i]`.
  - Both methods are proved to compute the specification function `Shuffled`, which is a permutation of its input.
- `Deck` (`deck.dfy`) builds the deck: a prefix of the catalogue, as the random sort arranged it, put on the board
  twice. It proves that a catalogue without repeated names gives a board on which every name occurs exactly twice.
- `Counting` (`counting.dfy`) counts the `true` entries of a flag sequence. It is used to tie the pair counter to the
  matched cards.
- `Rules` (`rules.dfy`) is the round as a pure state machine. A `Round` value holds:
  - the deck;
  - per-card "matched" (listener removed) and "flipped" flags;
  - `firstCard`, `secondCard`, `lockBoard`, `gameEnded`, the score, the pair count and the clock;
  - whether the interval runs, and which popup is shown.

  Every handler is a function. Those that run as events — `Flip`, `ResolveMismatch`, `Tick`, `ShowEndPopup` and
  `Restart` — preserve the invariant `Inv`. The delayed callbacks and the timer ticks are
  events, and `Run` plays a sequence of events. The lemmas state what one handler does and what holds across whole
  runs.
- `Level3` (`level3.dfy`) is the page as it runs: a class `Game` whose fields are the level's variables, with the
  card `array` shuffled in place.
  - Each handler is a method.
  - The postcondition of each method that models a `Rules` function says that the abstract state `State()`
    afterwards is that function of the state before. So every `Rules` lemma applies to those methods.
    `ShowEndPopupFor` and `GenerateCards` state their new state directly, as an update of the old one.

A card is identified by its position on the board, which in the page is its DOM element. Two cards match when
their names (`data-name`) are equal. The card image is cosmetic and is not modelled.

Below a score of 12, `showEndPopup` shows no popup at all. `Rules.EndOfRound` proves that this cannot happen at the
end of a round: twelve pairs take at least twelve attempts.

The twelfth pair leaves the timer running with at least four seconds on the clock (`Rules.TwelfthPairLeavesTime`),
and the end-of-round callback comes one second later, so in the page the clock cannot run out first. The model does
not bound how many ticks fit into that delay, so it also allows the clock to expire before the callback. In that
model-only case the callback still shows the popup of the score's band.

The pair counter stays a plain `int`: JavaScript numbers are exact at these magnitudes. The same holds for the score
and the clock.

## Model

| member | source | states |
|---|---|---|
| Shuffling.Shuffled | level3.js:47-68 | the permutation both shuffles compute: swap the last position with its draw, then the one before it, down to position 0; same length as the input |
| Shuffling.ShuffledPermutes | level3.js:47-68 | any legal draws yield a permutation: the multiset of elements is unchanged |
| Shuffling.ShuffledStop | level3.js:48 | `shuffle` may stop before position 0, because its only legal draw is 0 and that swap is a no-op |
| Shuffling.Shuffle | level3.js:47-52 | the loop from the last index down to 1, swapping with a draw in `[0, i]`, leaves the array equal to `Shuffled` of the old contents, a permutation of them |
| Shuffling.ShuffleCards | level3.js:57-68 | the `while (currentIndex !== 0)` loop with its temporary swap leaves the array equal to `Shuffled` of the old contents, a permutation of them |
| Deck.GetRandomCards | level3.js:40-43 | the selection has `min(count, catalogue size)` entries, all drawn from the catalogue, whatever order the random sort produced |
| Deck.BuildDeck | level3.js:31 | the deck is twice as long as the selection and holds each selected card twice as often |
| Deck.SelectionFromCatalogue | level3.js:40-43 | a catalogue without repeated names gives a selection of `min(count, size)` distinct names, each from the catalogue |
| Deck.DeckIsPairs | level3.js:31 | doubling a selection of distinct names puts every name on the board exactly twice and no other name |
| Deck.FullDeck | level3.js:27-32 | with a catalogue of at least 12 distinct names, the deck is 24 cards, each name exactly twice |
| Deck.EachTwicePermuted | level3.js:31-32 | reordering a board of pairs, as either shuffle does, leaves a board of pairs |
| Rules.Classify | level3.js:201-218 | the four bands: Win iff 12..22, Average iff 23..32, Fail iff at least 33, no popup iff below 12 |
| Rules.ClassifyMonotone | level3.js:200-218 | a higher score never earns a better band |
| Rules.ResetBoard | level3.js:148-152 | no card pending, board unlocked, nothing else changed |
| Rules.IncreaseTime | level3.js:258-261 | the clock gains exactly `seconds`, nothing else changed |
| Rules.DisableCards | level3.js:123-128 | both cards taken out of play, one more pair, three more seconds, turn reset; nothing else changes (score, deck, face-up cards, timer, popup) |
| Rules.CheckForMatch | level3.js:114-118 | a pair is counted exactly when the two names agree; then both cards leave play, the pair count rises by 1, the clock by 3, and the turn ends with the board unlocked, nothing else changed. On a mismatch nothing changes, so the board stays locked. Deck, face-up cards and score are untouched either way (the click as a whole is `Rules.FlipPairAttempt`) |
| Rules.Flip | level3.js:93-118 | a click, with `checkForMatch` and `disableCards`, preserves the invariant `Inv` |
| Rules.FlipGuards | level3.js:93-95 | a click changes nothing exactly when the board is locked, the round has ended, the card is the first card or its listener was removed; any other click turns a face-down card up |
| Rules.FlipFirstCard | level3.js:97-102 | the first card of a turn is only turned up and recorded: no score, no lock |
| Rules.FlipPairAttempt | level3.js:104-128 | the second card raises the score by exactly 1 and is turned up. On equal names both cards leave play, the pair count rises by 1, the clock by 3, and the turn resets. On different names the card is recorded as second and the board is locked. Either way nothing else changes (the whole new state is given) |
| Rules.ResolveMismatch | level3.js:139-145 | the delayed unflip preserves `Inv` |
| Rules.ResolveMismatchUnflips | level3.js:139-145 | exactly the two cards are turned back; the turn is reset and no card awaits resolution; nothing else changes (deck, matched cards, counters, clock, timer, popup) |
| Rules.EndGame | level3.js:264-277 | the round is over; "fail" shows the fail popup, any other result leaves the popup as it was; nothing else changes |
| Rules.Tick | level3.js:245-254 | a timer tick preserves `Inv` |
| Rules.TickCountsDown | level3.js:245-254 | a tick takes exactly one second off. At zero or below the timer stops and the round fails whatever the score, with nothing else changed. Otherwise nothing else changes at all |
| Rules.ShowEndPopup | level3.js:184-218 | the end-of-round callback preserves `Inv` |
| Rules.EndOfRound | level3.js:184-218 | with twelve pairs found the timer stops, the cards freeze and the popup is the score's band, which is never "no popup" because each pair took an attempt; cards, turn, counters and clock are unchanged |
| Rules.FaceDown | level3.js:74-87 | freshly generated cards: none face up, none out of play |
| Rules.NewRound | level3.js:27-35 | the state at the start of a round satisfies `Inv` |
| Rules.Restart | level3.js:155-181 | the state after a restart satisfies `Inv` |
| Rules.RestartResets | level3.js:155-181 | restart: clock 50 and running, round not ended, score and pairs 0, turn cleared, no popup, every card face down and in play, the same cards reshuffled |
| Rules.LockedIffTwoUnresolved | level3.js:104-110 | the board is locked exactly when two face-up cards await resolution, and never more than two do |
| Rules.MatchedPairsBounded | level3.js:126 | no more pairs are counted than the board holds |
| Rules.TwelvePairsClearTheBoard | level3.js:126-130 | on a 24-card board the twelfth pair leaves no card in play |
| Rules.Step | level3.js:93-254 | every event the page reacts to preserves `Inv` |
| Rules.Run | level3.js:93-254 | every sequence of events preserves `Inv` |
| Rules.StepMonotone | level3.js:93-136 | short of a restart, one event keeps the deck, never lowers score or pair count and never un-matches a card |
| Rules.RunMonotone | level3.js:93-136 | within a round, score and pair count only grow and matched cards stay matched |
| Rules.StepScore | level3.js:104-105 | short of a restart, one event raises the score by 1 exactly when it completes a pair attempt |
| Rules.ScoreCountsAttempts | level3.js:104-105 | within a round the score equals its start value plus the number of pair attempts |
| Rules.StepKeepsCards | level3.js:155-181 | any event, restart included, keeps the multiset of cards |
| Rules.RunKeepsCards | level3.js:155-181 | over any run, restarts included, the board only changes order |
| Rules.RunKeepsPairs | level3.js:31 | a board of pairs stays a board of pairs however often the round restarts |
| Rules.EndedRoundIsFrozen | level3.js:264-265 | once the round has ended, and until a restart, the score, the pair count and the matched cards are frozen |
| Rules.StepKeepsMismatch | level3.js:93-145 | while a mismatch waits, an event other than its callback or a restart keeps the turn, the lock, the face-up cards, the score and the pair count |
| Rules.MismatchLockedUntilResolved | level3.js:93-145 | a mismatched pair stays face up and locked, whatever is clicked, until the unflip callback runs; score and pair count stay as they were |
| Rules.EndTimeoutOnce | level3.js:130-134 | the end-of-round callback, run a second time, changes nothing |
| Rules.TwelfthPairLeavesTime | level3.js:126-134 | the click that finds the twelfth pair leaves the timer running with at least four seconds left, one second of play plus the three-second bonus |
| Rules.StartingBoardIsPairs | level3.js:27-35 | with a catalogue of at least 12 distinct names, the board the page starts with is 24 cards, each name exactly twice, and so is every board after it, restarts included |
| Level3.Game.constructor | level3.js:27-35 | start-up: the deck built from the first 12 entries of the catalogue in the order the random sort left it, shuffled by `shuffle`, laid out face down, timer at 50 and running, and the state satisfies `Inv` |
| Level3.Game.FlipCard | level3.js:93-110 | `flipCard` updates the fields as `Rules.Flip` does and keeps `Inv` |
| Level3.Game.CheckForMatch | level3.js:114-118 | `checkForMatch` updates the fields as `Rules.CheckForMatch` does |
| Level3.Game.DisableCards | level3.js:123-128 | `disableCards` updates the fields as `Rules.DisableCards` does |
| Level3.Game.ResolveMismatch | level3.js:140-144 | the unflip callback updates the fields as `Rules.ResolveMismatch` does and keeps `Inv` |
| Level3.Game.ResetBoard | level3.js:148-152 | `resetBoard` updates the fields as `Rules.ResetBoard` does |
| Level3.Game.IncreaseTime | level3.js:258-261 | `increaseTime` updates the fields as `Rules.IncreaseTime` does |
| Level3.Game.EndGame | level3.js:264-277 | `endgame` updates the fields as `Rules.EndGame` does |
| Level3.Game.Tick | level3.js:245-254 | the interval callback updates the fields as `Rules.Tick` does and keeps `Inv` |
| Level3.Game.FinishRound | level3.js:131-134 | the end-of-round callback updates the fields as `Rules.ShowEndPopup` does and keeps `Inv` |
| Level3.Game.ShowEndPopupFor | level3.js:184-218 | `showEndPopup(score)` stops the timer, ends the round and shows the popup of `Classify(score)`, if any |
| Level3.Game.Restart | level3.js:155-181 | `restart` updates the fields and reshuffles the array in place as `Rules.Restart` does, and the result satisfies `Inv` |
| Level3.Game.GenerateCards | level3.js:74-87 | the emptied grid is regenerated: every card face down and clickable, nothing else changed |

## Left out

- The page itself is not modelled:
  - the DOM, CSS classes and score and timer text;
  - audio;
  - the home button and the popups' navigation buttons;
  - the "click outside the game" alert;
  - the card images.

  The model keeps the state they display.
- `fetch` of `cards.json` and JSON parsing are not modelled. The catalogue is a parameter of the constructor.
- `Math.random` is not modelled.
  - The random sort in `getRandomCards` is abstracted as an arbitrary arrangement of the catalogue. Only "a prefix of
    some arrangement" is captured; whether every selection is equally likely is not.
  - The shuffles' draws are a `picks` parameter whose entries lie in their legal ranges. The uniformity of the
    shuffles is not stated.
- Real time is not modelled. The 1-second delays of `setTimeout` and the 1-second period of `setInterval` become
  events that may occur whenever their callback is pending, in any order relative to clicks. The model does not say
  how many ticks fit into a delay.
- A restart may come at any time. Callbacks still pending from before a restart are not modelled. The delayed
  unflip and the end-of-round callback are only enabled in states where they would have been scheduled, so a
  callback scheduled before a restart is dropped. The end-of-round callback stays enabled after it has run, since
  the pair count stays 12; `Rules.EndTimeoutOnce` proves that running it again changes nothing.
- The popups' close buttons (level3.js:224-235) are not modelled. Closing only hides a popup; `outcome` keeps the
  last popup shown.
- Ticks per delay are not bounded. The model therefore allows the clock to run out between the twelfth pair and the
  end-of-round callback, which the page cannot do. In that case `outcome` keeps the later popup, the score's band.
