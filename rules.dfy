/**
 * The round logic of level 3 as a pure state machine.
 *
 * A `Round` value holds everything the level's handlers read and write: the
 * deck of card names (a card is identified by its position on the board),
 * per-card flags, the turn state (`first`, `second`, `lockBoard`), the
 * counters and the timer. Each handler of the level is a function from the
 * old `Round` to the new one; the delayed callbacks (`setTimeout`) and the
 * timer ticks (`setInterval`) are events of their own.
 */
module Rules {
  import opened Shuffling
  import opened Deck
  import opened Counting

  /** Seconds on the clock at the start of a round. */
  const StartTime := 50
  /** Seconds added for each matched pair. */
  const MatchBonus := 3

  datatype Option<T> = None | Some(value: T)

  /** Which end-of-round popup is on screen. */
  datatype Outcome = NoOutcome | Win | Average | Fail

  datatype Round = Round(
    deck: seq<Name>,
    matched: seq<bool>,      // the card's click listener has been removed (pair found)
    flipped: seq<bool>,      // the card shows its face ("flipped" class)
    first: Option<nat>,      // firstCard
    second: Option<nat>,     // secondCard
    lockBoard: bool,
    gameEnded: bool,
    score: int,
    matchedPairs: int,
    timeLeft: int,
    ticking: bool,           // the countdown interval is active
    outcome: Outcome)

  /** Positions of the cards that are face up but not yet resolved as a pair. */
  function Unresolved(s: Round): set<int> {
    set k | 0 <= k < |s.flipped| && k < |s.matched| && s.flipped[k] && !s.matched[k]
  }

  /** Positions `first` and `second` hold a card of the board. */
  predicate TurnInRange(s: Round) {
    && |s.matched| == |s.deck| && |s.flipped| == |s.deck|
    && (s.first.Some? ==> s.first.value < |s.deck|)
    && (s.second.Some? ==> s.second.value < |s.deck|)
  }

  /**
   * What holds of every state the level can reach.
   *  - a matched card stays face up;
   *  - the only face-up unmatched cards are `first` and `second`;
   *  - `second` is only set while a mismatched pair waits to be turned back,
   *    and exactly then is the board locked;
   *  - `matchedPairs` counts the matched cards two by two, and no more pairs
   *    were found than attempts were made;
   *  - the round has ended exactly when the countdown is stopped; while it
   *    runs, time is left and no popup is shown.
   */
  ghost predicate Inv(s: Round) {
    && TurnInRange(s)
    && (forall k :: 0 <= k < |s.deck| && s.matched[k] ==> s.flipped[k])
    && (forall k :: 0 <= k < |s.deck| && s.flipped[k] && !s.matched[k] ==>
          s.first == Some(k) || s.second == Some(k))
    && (s.first.Some? ==> s.flipped[s.first.value] && !s.matched[s.first.value])
    && (s.second.Some? ==>
          && s.first.Some? && s.second.value != s.first.value
          && s.flipped[s.second.value] && !s.matched[s.second.value]
          && s.deck[s.first.value] != s.deck[s.second.value])
    && (s.lockBoard <==> s.second.Some?)
    && 0 <= s.matchedPairs <= s.score
    && 2 * s.matchedPairs == CountTrue(s.matched)
    && (s.gameEnded <==> !s.ticking)
    && (s.ticking ==> s.timeLeft > 0 && s.outcome == NoOutcome)
  }

  // ---------------------------------------------------------------- outcome

  /** The score bands of `showEndPopup`: fewer attempts is better. */
  function Classify(score: int): (o: Outcome)
    ensures o == Win <==> 12 <= score <= 22
    ensures o == Average <==> 23 <= score <= 32
    ensures o == Fail <==> score >= 33
    ensures o == NoOutcome <==> score < 12
  {
    if 12 <= score <= 22 then Win
    else if 23 <= score <= 32 then Average
    else if score >= 33 then Fail
    else NoOutcome
  }

  function Rank(o: Outcome): nat {
    match o
    case NoOutcome => 0
    case Win => 1
    case Average => 2
    case Fail => 3
  }

  /** A higher score never earns a better band. */
  lemma ClassifyMonotone(a: int, b: int)
    requires a <= b
    ensures Rank(Classify(a)) <= Rank(Classify(b))
  {
  }

  // ------------------------------------------------------------ turn state

  /** `resetBoard`: no card pending, board unlocked. */
  function ResetBoard(s: Round): (t: Round)
    ensures t.first.None? && t.second.None? && !t.lockBoard
    ensures t == s.(first := t.first, second := t.second, lockBoard := t.lockBoard)
  {
    s.(first := None, second := None, lockBoard := false)
  }

  /** `increaseTime(seconds)`. */
  function IncreaseTime(s: Round, seconds: int): (t: Round)
    ensures t.timeLeft - s.timeLeft == seconds
    ensures t == s.(timeLeft := t.timeLeft)
  {
    s.(timeLeft := s.timeLeft + seconds)
  }

  /**
   * The state `checkForMatch` is called in: both cards recorded, distinct,
   * face up and unmatched.
   */
  ghost predicate Comparing(s: Round) {
    && TurnInRange(s)
    && s.first.Some? && s.second.Some? && s.first.value != s.second.value
    && !s.matched[s.first.value] && !s.matched[s.second.value]
  }

  /**
   * `disableCards`: both cards lose their click listener, one more pair is
   * counted, three seconds are added and the turn is reset. (The delayed end
   * of round when the twelfth pair is found is the `ShowEndPopup` event.)
   */
  function DisableCards(s: Round): (t: Round)
    requires Comparing(s)
    ensures t.matched == s.matched[s.first.value := true][s.second.value := true]
    ensures t.matchedPairs == s.matchedPairs + 1
    ensures t.timeLeft == s.timeLeft + MatchBonus
    ensures t.first.None? && t.second.None? && !t.lockBoard
    ensures t == s.(matched := t.matched, matchedPairs := t.matchedPairs, timeLeft := t.timeLeft,
                    first := None, second := None, lockBoard := false)
  {
    var m := s.matched[s.first.value := true][s.second.value := true];
    ResetBoard(IncreaseTime(s.(matched := m, matchedPairs := s.matchedPairs + 1), MatchBonus))
  }

  /**
   * `checkForMatch`: the two cards match when their names agree. A match is
   * resolved at once; a mismatch stays on the board, untouched and locked,
   * until the delayed `ResolveMismatch` event.
   */
  function CheckForMatch(s: Round): (t: Round)
    requires Comparing(s)
    ensures t.matchedPairs == s.matchedPairs + 1 <==> s.deck[s.first.value] == s.deck[s.second.value]
    ensures s.deck[s.first.value] == s.deck[s.second.value] ==>
      t == s.(matched := s.matched[s.first.value := true][s.second.value := true],
              matchedPairs := s.matchedPairs + 1, timeLeft := s.timeLeft + MatchBonus,
              first := None, second := None, lockBoard := false)
    ensures s.deck[s.first.value] != s.deck[s.second.value] ==> t == s
    ensures t.deck == s.deck && t.flipped == s.flipped && t.score == s.score
  {
    var isMatch := s.deck[s.first.value] == s.deck[s.second.value];
    if isMatch then DisableCards(s) else s
  }

  /** A click on card `i` is not acted upon. */
  predicate Ignored(s: Round, i: nat)
    requires i < |s.matched|
  {
    s.matched[i] || s.lockBoard || s.gameEnded || s.first == Some(i)
  }

  /**
   * A click on card `i`: `flipCard`, which is no longer attached to a matched
   * card, returns early while the board is locked, after the round ended and
   * on a second click of the first card; otherwise it turns the card face up
   * and either records it as the first card or completes a pair attempt.
   */
  function Flip(s: Round, i: nat): (t: Round)
    requires Inv(s) && i < |s.deck|
    ensures Inv(t)
  {
    if Ignored(s, i) then s
    else
      var up := s.(flipped := s.flipped[i := true]);
      if s.first.None? then up.(first := Some(i))
      else
        var attempt := up.(second := Some(i), score := s.score + 1, lockBoard := true);
        var t := CheckForMatch(attempt);
        FlipPreservesInv(s, i, attempt, t);
        t
  }

  /** The delayed body of `unflipCards`: both cards turned back, turn reset. */
  function ResolveMismatch(s: Round): (t: Round)
    requires Inv(s) && s.second.Some?
    ensures Inv(t)
  {
    var f := s.flipped[s.first.value := false][s.second.value := false];
    ResetBoard(s.(flipped := f))
  }

  // ------------------------------------------------------------ end of round

  /** `endgame(result)`: the cards stop responding; "fail" shows the fail popup. */
  function EndGame(s: Round, result: string): (t: Round)
    ensures t.gameEnded
    ensures t.outcome == if result == "fail" then Fail else s.outcome
    ensures t == s.(gameEnded := true, outcome := t.outcome)
  {
    var t := s.(gameEnded := true);
    if result == "fail" then t.(outcome := Fail) else t
  }

  /** One `setInterval` tick: a second less; at zero the timer stops and the round fails. */
  function Tick(s: Round): (t: Round)
    requires Inv(s) && s.ticking
    ensures Inv(t)
  {
    var t := s.(timeLeft := s.timeLeft - 1);
    if t.timeLeft <= 0 then EndGame(t.(ticking := false), "fail") else t
  }

  /**
   * The callback `disableCards` schedules when the twelfth pair is found: the
   * timer stops and `showEndPopup(score)` ends the round and shows the popup
   * of the score's band (none below 12).
   */
  function ShowEndPopup(s: Round): (t: Round)
    requires Inv(s) && s.matchedPairs == PairCount
    ensures Inv(t)
  {
    var band := Classify(s.score);
    s.(ticking := false, gameEnded := true,
       outcome := if band == NoOutcome then s.outcome else band)
  }

  // ---------------------------------------------------------------- restart

  /** `n` cards as `generateCards` lays them out: face down, each with its click listener. */
  function FaceDown(n: nat): (flags: seq<bool>)
    ensures |flags| == n && CountTrue(flags) == 0
  {
    CountNone(n);
    seq(n, _ => false)
  }

  /** The state once a deck is laid out and the timer started: all cards face down, counters at zero. */
  function NewRound(deck: seq<Name>): (r: Round)
    ensures Inv(r)
  {
    var down := FaceDown(|deck|);
    Round(deck, down, down, None, None, false, false, 0, 0, StartTime, true, NoOutcome)
  }

  /**
   * `restart`: popups hidden, timer back to 50 and running, counters and turn
   * reset, the same deck reshuffled by `shuffleCards` and laid out anew.
   */
  function Restart(s: Round, picks: seq<nat>): (t: Round)
    requires ValidPicks(picks, |s.deck|)
    ensures Inv(t)
  {
    NewRound(Shuffled(s.deck, picks, |s.deck|))
  }

  // ---------------------------------------------------- invariant proofs

  /** Marking two unmatched cards as matched adds exactly two to the count. */
  lemma MatchTwo(m: seq<bool>, a: nat, b: nat)
    requires a < |m| && b < |m| && a != b && !m[a] && !m[b]
    ensures CountTrue(m[a := true][b := true]) == CountTrue(m) + 2
  {
    CountUpdate(m, a, true);
    CountUpdate(m[a := true], b, true);
  }

  lemma FlipPreservesInv(s: Round, i: nat, attempt: Round, t: Round)
    requires Inv(s) && i < |s.deck| && !Ignored(s, i) && s.first.Some?
    requires attempt == s.(flipped := s.flipped[i := true], second := Some(i),
                           score := s.score + 1, lockBoard := true)
    requires Comparing(attempt)
    requires t == CheckForMatch(attempt)
    ensures Inv(t)
  {
    if attempt.deck[s.first.value] == attempt.deck[i] {
      MatchTwo(s.matched, s.first.value, i);
    }
  }

  // ------------------------------------------------- what one step does

  /**
   * A click changes nothing exactly when the board is locked, the round has
   * ended, the card is the turn's first card or its pair was found; any other
   * click turns a face-down card face up.
   */
  lemma FlipGuards(s: Round, i: nat)
    requires Inv(s) && i < |s.deck|
    ensures Flip(s, i) == s <==> Ignored(s, i)
    ensures !Ignored(s, i) ==> !s.flipped[i] && Flip(s, i).flipped[i]
  {
    if !Ignored(s, i) {
      assert Flip(s, i).flipped[i] != s.flipped[i];
    }
  }

  /** A click on the first card of a turn only records it: no score, no lock. */
  lemma FlipFirstCard(s: Round, i: nat)
    requires Inv(s) && i < |s.deck| && !Ignored(s, i) && s.first.None?
    ensures Flip(s, i).first == Some(i) && Flip(s, i).flipped[i]
    ensures Flip(s, i).score == s.score && !Flip(s, i).lockBoard
    ensures Flip(s, i) == s.(flipped := s.flipped[i := true], first := Some(i))
  {
  }

  /**
   * A click that completes a pair attempt raises the score by exactly one
   * whether or not the names agree. A match takes both cards out of play,
   * counts a pair, adds three seconds and ends the turn; a mismatch leaves
   * the board locked with both cards face up and the counters untouched.
   */
  lemma FlipPairAttempt(s: Round, i: nat)
    requires Inv(s) && i < |s.deck| && !Ignored(s, i) && s.first.Some?
    ensures Flip(s, i).score == s.score + 1
    ensures s.deck[s.first.value] == s.deck[i] ==>
      Flip(s, i) == s.(flipped := s.flipped[i := true],
                       matched := s.matched[s.first.value := true][i := true],
                       matchedPairs := s.matchedPairs + 1, timeLeft := s.timeLeft + MatchBonus,
                       score := s.score + 1, first := None, second := None, lockBoard := false)
    ensures s.deck[s.first.value] != s.deck[i] ==>
      Flip(s, i) == s.(flipped := s.flipped[i := true], second := Some(i),
                       score := s.score + 1, lockBoard := true)
  {
  }

  /** The delayed mismatch resolution turns exactly the two cards back and ends the turn. */
  lemma ResolveMismatchUnflips(s: Round)
    requires Inv(s) && s.second.Some?
    ensures var t := ResolveMismatch(s);
      && !t.flipped[s.first.value] && !t.flipped[s.second.value]
      && (forall k :: 0 <= k < |s.deck| && k != s.first.value && k != s.second.value ==>
            t.flipped[k] == s.flipped[k])
      && t.first.None? && t.second.None? && !t.lockBoard
      && t.matched == s.matched && t.score == s.score && t.matchedPairs == s.matchedPairs
      && |Unresolved(t)| == 0
      && t == s.(flipped := t.flipped, first := None, second := None, lockBoard := false)
  {
    var t := ResolveMismatch(s);
    LockedIffTwoUnresolved(t);
  }

  /**
   * A tick takes exactly one second off the clock. When the clock reaches
   * zero, whatever the score, the timer stops and the round ends in the
   * fail popup; otherwise nothing else changes.
   */
  lemma TickCountsDown(s: Round)
    requires Inv(s) && s.ticking
    ensures Tick(s).timeLeft == s.timeLeft - 1
    ensures Tick(s).score == s.score && Tick(s).matchedPairs == s.matchedPairs
    ensures Tick(s).timeLeft <= 0 ==> Tick(s).gameEnded && !Tick(s).ticking && Tick(s).outcome == Fail
    ensures Tick(s).timeLeft <= 0 ==>
      Tick(s) == s.(timeLeft := s.timeLeft - 1, ticking := false, gameEnded := true, outcome := Fail)
    ensures Tick(s).timeLeft > 0 ==> Tick(s) == s.(timeLeft := s.timeLeft - 1)
  {
  }

  /**
   * The end of a round with all twelve pairs found: timer stopped, cards
   * frozen, and the popup is the score's band. Since every pair cost an
   * attempt, the score is at least 12 and a popup is always shown.
   */
  lemma EndOfRound(s: Round)
    requires Inv(s) && s.matchedPairs == PairCount
    ensures ShowEndPopup(s).gameEnded && !ShowEndPopup(s).ticking
    ensures ShowEndPopup(s).outcome == Classify(s.score) != NoOutcome
    ensures ShowEndPopup(s) == s.(ticking := false, gameEnded := true, outcome := Classify(s.score))
  {
  }

  /** Restart: fresh counters and clock, no card face up or out of play, and the same cards reshuffled. */
  lemma RestartResets(s: Round, picks: seq<nat>)
    requires Inv(s) && ValidPicks(picks, |s.deck|)
    ensures var t := Restart(s, picks);
      && t.timeLeft == StartTime && t.ticking && !t.gameEnded
      && t.score == 0 && t.matchedPairs == 0
      && t.first.None? && t.second.None? && !t.lockBoard
      && t.outcome == NoOutcome
      && (forall k :: 0 <= k < |t.deck| ==> !t.matched[k] && !t.flipped[k])
      && |t.deck| == |s.deck| && multiset(t.deck) == multiset(s.deck)
  {
    ShuffledPermutes(s.deck, picks, |s.deck|);
  }

  // ------------------------------------------------ consequences of Inv

  /** The board is locked exactly when two face-up cards await resolution; never more than two do. */
  lemma LockedIffTwoUnresolved(s: Round)
    requires Inv(s)
    ensures s.lockBoard <==> |Unresolved(s)| == 2
    ensures |Unresolved(s)| <= 2
  {
    if s.second.Some? {
      assert Unresolved(s) == {s.first.value, s.second.value};
    } else if s.first.Some? {
      assert Unresolved(s) == {s.first.value};
    } else {
      assert Unresolved(s) == {};
    }
  }

  /** No more pairs are counted than the board holds. */
  lemma MatchedPairsBounded(s: Round)
    requires Inv(s)
    ensures 2 * s.matchedPairs <= |s.deck|
  {
  }

  /** On a 24-card board, the twelfth pair leaves no card in play. */
  lemma TwelvePairsClearTheBoard(s: Round)
    requires Inv(s) && |s.deck| == 2 * PairCount && s.matchedPairs == PairCount
    ensures forall k :: 0 <= k < |s.deck| ==> s.matched[k]
  {
    forall k | 0 <= k < |s.deck| ensures s.matched[k] {
      if !s.matched[k] {
        CountMissing(s.matched, k);
        assert false;
      }
    }
  }

  // ---------------------------------------------------------------- events

  /** What can happen next: a click, one of the two delayed callbacks, a timer tick, the restart button. */
  datatype Event =
    | Click(card: nat)
    | UnflipTimeout
    | EndTimeout
    | TimerTick
    | RestartClick(picks: seq<nat>)

  /**
   * Whether the event can occur: a click lands on a card of the board; the
   * unflip callback is pending exactly while a mismatch is on the board; the
   * end-of-round callback is scheduled once the twelfth pair is found; ticks
   * come while the interval runs; a restart may come at any time and draws
   * one legal pick per card.
   */
  predicate Enabled(s: Round, e: Event) {
    match e
    case Click(i) => i < |s.deck|
    case UnflipTimeout => s.second.Some?
    case EndTimeout => s.matchedPairs == PairCount
    case TimerTick => s.ticking
    case RestartClick(picks) => ValidPicks(picks, |s.deck|)
  }

  /** The level's reaction to one event; an event that cannot occur leaves the state as it is. */
  function Step(s: Round, e: Event): (t: Round)
    requires Inv(s)
    ensures Inv(t)
  {
    if !Enabled(s, e) then s
    else
      match e
      case Click(i) => Flip(s, i)
      case UnflipTimeout => ResolveMismatch(s)
      case EndTimeout => ShowEndPopup(s)
      case TimerTick => Tick(s)
      case RestartClick(picks) => Restart(s, picks)
  }

  /** The state after a sequence of events. */
  function Run(s: Round, events: seq<Event>): (t: Round)
    requires Inv(s)
    ensures Inv(t)
    decreases |events|
  {
    if events == [] then s else Run(Step(s, events[0]), events[1..])
  }

  predicate NoRestart(events: seq<Event>) {
    forall k :: 0 <= k < |events| ==> !events[k].RestartClick?
  }

  /** A click that completes a pair attempt. */
  predicate IsAttempt(s: Round, e: Event) {
    && e.Click? && e.card < |s.deck| && e.card < |s.matched|
    && !Ignored(s, e.card) && s.first.Some?
  }

  /** How many pair attempts a sequence of events makes. */
  function Attempts(s: Round, events: seq<Event>): nat
    requires Inv(s)
    decreases |events|
  {
    if events == [] then 0
    else (if IsAttempt(s, events[0]) then 1 else 0) + Attempts(Step(s, events[0]), events[1..])
  }

  // ---------------------------------------------------- properties of runs

  /** Within a round, one step never lowers the score or the pair count, never un-matches a card and keeps the deck. */
  lemma StepMonotone(s: Round, e: Event)
    requires Inv(s) && !e.RestartClick?
    ensures Step(s, e).deck == s.deck
    ensures Step(s, e).score >= s.score && Step(s, e).matchedPairs >= s.matchedPairs
    ensures forall k :: 0 <= k < |s.matched| && s.matched[k] ==> Step(s, e).matched[k]
  {
  }

  /** Within a round, score and pair count only grow, and matched cards stay matched. */
  lemma {:induction false} RunMonotone(s: Round, events: seq<Event>)
    requires Inv(s) && NoRestart(events)
    ensures Run(s, events).deck == s.deck
    ensures Run(s, events).score >= s.score
    ensures Run(s, events).matchedPairs >= s.matchedPairs
    ensures forall k :: 0 <= k < |s.matched| && s.matched[k] ==> Run(s, events).matched[k]
    decreases |events|
  {
    if events != [] {
      StepMonotone(s, events[0]);
      RunMonotone(Step(s, events[0]), events[1..]);
    }
  }

  /** One step other than a restart raises the score by one exactly when it completes a pair attempt. */
  lemma StepScore(s: Round, e: Event)
    requires Inv(s) && !e.RestartClick?
    ensures Step(s, e).score == s.score + (if IsAttempt(s, e) then 1 else 0)
  {
    if IsAttempt(s, e) {
      FlipPairAttempt(s, e.card);
    }
  }

  /** Within a round, the score rises by exactly one per pair attempt and in no other way. */
  lemma {:induction false} ScoreCountsAttempts(s: Round, events: seq<Event>)
    requires Inv(s) && NoRestart(events)
    ensures Run(s, events).score == s.score + Attempts(s, events)
    decreases |events|
  {
    if events != [] {
      StepScore(s, events[0]);
      ScoreCountsAttempts(Step(s, events[0]), events[1..]);
    }
  }

  lemma StepKeepsCards(s: Round, e: Event)
    requires Inv(s)
    ensures multiset(Step(s, e).deck) == multiset(s.deck)
  {
    if Enabled(s, e) && e.RestartClick? {
      RestartResets(s, e.picks);
    }
  }

  /** Every event, restart included, only reorders the cards on the board. */
  lemma {:induction false} RunKeepsCards(s: Round, events: seq<Event>)
    requires Inv(s)
    ensures multiset(Run(s, events).deck) == multiset(s.deck)
    decreases |events|
  {
    if events != [] {
      StepKeepsCards(s, events[0]);
      RunKeepsCards(Step(s, events[0]), events[1..]);
    }
  }

  /** A board of pairs stays a board of pairs, however the round goes and however often it restarts. */
  lemma RunKeepsPairs(s: Round, events: seq<Event>)
    requires Inv(s) && EachTwice(s.deck)
    ensures EachTwice(Run(s, events).deck) && |Run(s, events).deck| == |s.deck|
  {
    RunKeepsCards(s, events);
    EachTwicePermuted(s.deck, Run(s, events).deck);
  }

  /** Once the round has ended, until a restart, the board, score and pair count are frozen. */
  lemma {:induction false} EndedRoundIsFrozen(s: Round, events: seq<Event>)
    requires Inv(s) && s.gameEnded && NoRestart(events)
    ensures Run(s, events).gameEnded
    ensures Run(s, events).score == s.score
    ensures Run(s, events).matchedPairs == s.matchedPairs
    ensures Run(s, events).matched == s.matched
    decreases |events|
  {
    if events != [] {
      ghost var t := Step(s, events[0]);
      assert t.gameEnded && t.score == s.score && t.matchedPairs == s.matchedPairs && t.matched == s.matched;
      EndedRoundIsFrozen(t, events[1..]);
    }
  }


  /**
   * The board the page starts with is a board of 24 cards in which every
   * name occurs exactly twice, and so is every board after it, however the
   * round goes and however often it restarts.
   */
  lemma StartingBoardIsPairs(catalogue: seq<Name>, arranged: seq<Name>, picks: seq<nat>, events: seq<Event>)
    requires multiset(arranged) == multiset(catalogue)
    requires Distinct(catalogue) && |arranged| >= PairCount
    requires ValidPicks(picks, 2 * PairCount)
    ensures var start := NewRound(Shuffled(BuildDeck(GetRandomCards(arranged, PairCount)), picks, |picks|));
      && |start.deck| == 2 * PairCount && EachTwice(start.deck)
      && |Run(start, events).deck| == 2 * PairCount && EachTwice(Run(start, events).deck)
  {
    var deck := BuildDeck(GetRandomCards(arranged, PairCount));
    assert |catalogue| == |multiset(catalogue)| == |arranged|;
    FullDeck(catalogue, arranged);
    ShuffledPermutes(deck, picks, |picks|);
    var start := NewRound(Shuffled(deck, picks, |picks|));
    EachTwicePermuted(deck, start.deck);
    RunKeepsPairs(start, events);
  }

  /**
   * The end-of-round callback stays enabled once the twelfth pair is found,
   * but running it again changes nothing.
   */
  lemma EndTimeoutOnce(s: Round)
    requires Inv(s)
    ensures Step(Step(s, EndTimeout), EndTimeout) == Step(s, EndTimeout)
  {
  }

  /**
   * The click that finds the twelfth pair leaves the timer running with at
   * least four seconds on the clock: a pair is only found while the round
   * runs, so at least one second was left, and the pair adds three.
   */
  lemma TwelfthPairLeavesTime(s: Round, i: nat)
    requires Inv(s) && i < |s.deck| && s.matchedPairs < PairCount
    requires Flip(s, i).matchedPairs == PairCount
    ensures Flip(s, i).ticking && Flip(s, i).timeLeft >= 1 + MatchBonus
  {
    FlipGuards(s, i);
  }

  /** No event of the sequence is the delayed unflip callback or a restart. */
  predicate NoUnflipNorRestart(events: seq<Event>) {
    forall k :: 0 <= k < |events| ==> !events[k].UnflipTimeout? && !events[k].RestartClick?
  }

  /**
   * While a mismatch waits for its callback, one step neither unlocks the
   * board nor turns its cards, and it counts no attempt and no pair.
   */
  lemma StepKeepsMismatch(s: Round, e: Event)
    requires Inv(s) && s.second.Some? && !e.UnflipTimeout? && !e.RestartClick?
    ensures Step(s, e).first == s.first && Step(s, e).second == s.second
    ensures Step(s, e).lockBoard && Step(s, e).flipped == s.flipped
    ensures Step(s, e).score == s.score && Step(s, e).matchedPairs == s.matchedPairs
  {
  }

  /**
   * A mismatched pair stays face up and the board stays locked, whatever is
   * clicked, until the unflip callback runs; score and pair count do not move.
   */
  lemma {:induction false} MismatchLockedUntilResolved(s: Round, events: seq<Event>)
    requires Inv(s) && s.second.Some? && NoUnflipNorRestart(events)
    ensures Run(s, events).first == s.first && Run(s, events).second == s.second
    ensures Run(s, events).lockBoard
    ensures Run(s, events).flipped[s.first.value] && Run(s, events).flipped[s.second.value]
    ensures Run(s, events).score == s.score && Run(s, events).matchedPairs == s.matchedPairs
    decreases |events|
  {
    if events != [] {
      StepKeepsMismatch(s, events[0]);
      MismatchLockedUntilResolved(Step(s, events[0]), events[1..]);
    }
  }
}
