/**
 * The higher/lower game engine: a map of active games, each a mutable state
 * record that a guess advances or ends.
 */
module Game {
  import opened Wrappers
  import opened Cards

  const WrongGuessMessage := "Wrong guess! Game over. "
  const DeckExhaustedMessage := "You've drawn all cards! Amazing"

  /** The value of a game state record at one moment. */
  datatype GameSnapshot = GameSnapshot(
    gameId: string,
    deck: seq<Card>,
    currentCard: Option<Card>,
    nextCard: Option<Card>,
    score: int,
    gameOver: bool,
    message: Option<string>)

  /** The mutable state record of one game; a guess updates its fields in place. */
  class GameState {
    const gameId: string
    const deck: CardList
    var currentCard: Option<Card>
    var nextCard: Option<Card>
    var score: int
    var gameOver: bool
    var message: Option<string>

    /** A new record filled in with its setters: no score, not over, no message yet. */
    constructor (gameId: string, deck: CardList, currentCard: Option<Card>, nextCard: Option<Card>)
      ensures this.gameId == gameId && this.deck == deck
      ensures this.currentCard == currentCard && this.nextCard == nextCard
      ensures score == 0 && !gameOver && message == None
    {
      this.gameId := gameId;
      this.deck := deck;
      this.currentCard := currentCard;
      this.nextCard := nextCard;
      score := 0;
      gameOver := false;
      message := None;
    }

    function View(): GameSnapshot
      reads this, deck
    {
      GameSnapshot(gameId, deck.cards, currentCard, nextCard, score, gameOver, message)
    }

    /**
     * Updates this record in place for a guess on the cards it shows;
     * the effect is `ApplyGuess`.
     */
    method Guess(guess: string)
      requires currentCard.Some? && nextCard.Some?
      modifies this, deck
      ensures View() == ApplyGuess(old(View()), guess)
    {
      var current := currentCard.value;
      var next := nextCard.value;
      var isCorrect := false;
      if guess == "higher" {
        isCorrect := next.value > current.value;
      } else if guess == "lower" {
        isCorrect := next.value < current.value;
      } else if guess == "equals" {
        isCorrect := next.value == current.value;
      }
      if isCorrect {
        score := score + 1;
        currentCard := nextCard;
        var drawn := DrawCard(deck);
        nextCard := drawn;
        if nextCard == None {
          gameOver := true;
          message := Some(DeckExhaustedMessage);
        }
      } else {
        gameOver := true;
        message := Some(WrongGuessMessage);
      }
    }
  }

  /**
   * Whether a guess is right about the next card: "higher", "lower" and
   * "equals" compare values; any other guess is wrong.
   */
  predicate IsCorrect(guess: string, current: Card, next: Card)
    ensures IsCorrect(guess, current, next) ==> guess in {"higher", "lower", "equals"}
  {
    if guess == "higher" then next.value > current.value
    else if guess == "lower" then next.value < current.value
    else if guess == "equals" then next.value == current.value
    else false
  }

  /**
   * What a guess does to a game that is still running: a right guess scores a
   * point and moves the cards along one place, ending the game when no card is
   * left to draw; a wrong guess ends it as it stands.
   */
  function ApplyGuess(s: GameSnapshot, guess: string): (t: GameSnapshot)
    requires s.currentCard.Some? && s.nextCard.Some?
    ensures t.gameId == s.gameId && t.currentCard.Some?
    ensures t.gameOver <==> s.gameOver || !IsCorrect(guess, s.currentCard.value, s.nextCard.value) || s.deck == []
    ensures t.score == s.score + (if IsCorrect(guess, s.currentCard.value, s.nextCard.value) then 1 else 0)
    ensures t.score + CardsAhead(t) == s.score + CardsAhead(s)
    ensures !t.gameOver ==> t.nextCard.Some? && t.message == s.message
  {
    if IsCorrect(guess, s.currentCard.value, s.nextCard.value) then
      if s.deck == [] then
        s.(score := s.score + 1, currentCard := s.nextCard, nextCard := None,
           gameOver := true, message := Some(DeckExhaustedMessage))
      else
        s.(score := s.score + 1, currentCard := s.nextCard, nextCard := Some(s.deck[0]),
           deck := s.deck[1..])
    else
      s.(gameOver := true, message := Some(WrongGuessMessage))
  }

  /** The number of cards still to be dealt as next cards, the next card included. */
  function CardsAhead(s: GameSnapshot): nat
  {
    |s.deck| + (if s.nextCard.Some? then 1 else 0)
  }

  /**
   * The invariant of every stored game: a current card is always shown, a
   * running game also shows a next card, score plus cards ahead is 51 (the
   * deck minus the first current card), and a message is set exactly when the
   * game is over.
   */
  predicate GameInvariant(s: GameSnapshot)
  {
    && s.currentCard.Some?
    && (!s.gameOver ==> s.nextCard.Some?)
    && s.score >= 0
    && s.score + CardsAhead(s) == 51
    && (s.gameOver <==> s.message.Some?)
  }

  /** A guess's outcome for each guess word. */
  lemma GuessCorrectness(guess: string, current: Card, next: Card)
    ensures guess == "higher" ==> (IsCorrect(guess, current, next) <==> next.value > current.value)
    ensures guess == "lower" ==> (IsCorrect(guess, current, next) <==> next.value < current.value)
    ensures guess == "equals" ==> (IsCorrect(guess, current, next) <==> next.value == current.value)
    ensures guess !in {"higher", "lower", "equals"} ==> !IsCorrect(guess, current, next)
  {
  }

  /** A right guess with cards left: one more point, the cards move along, the game goes on. */
  lemma CorrectGuessAdvances(s: GameSnapshot, guess: string)
    requires s.currentCard.Some? && s.nextCard.Some? && s.deck != []
    requires IsCorrect(guess, s.currentCard.value, s.nextCard.value)
    ensures ApplyGuess(s, guess) ==
      s.(score := s.score + 1, currentCard := s.nextCard, nextCard := Some(s.deck[0]), deck := s.deck[1..])
  {
  }

  /** A right guess on an empty deck: one more point, no next card, and the game is won. */
  lemma CorrectGuessExhaustsDeck(s: GameSnapshot, guess: string)
    requires s.currentCard.Some? && s.nextCard.Some? && s.deck == []
    requires IsCorrect(guess, s.currentCard.value, s.nextCard.value)
    ensures var t := ApplyGuess(s, guess);
      t.score == s.score + 1 && t.currentCard == s.nextCard && t.nextCard == None &&
      t.deck == [] && t.gameOver && t.message == Some(DeckExhaustedMessage)
  {
  }

  /** A wrong guess ends the game and changes nothing but the flag and the message. */
  lemma WrongGuessEnds(s: GameSnapshot, guess: string)
    requires s.currentCard.Some? && s.nextCard.Some?
    requires !IsCorrect(guess, s.currentCard.value, s.nextCard.value)
    ensures ApplyGuess(s, guess) == s.(gameOver := true, message := Some(WrongGuessMessage))
  {
  }

  /**
   * A guess keeps the game invariant, keeps the id, never reopens a game, and
   * either ends the game or scores exactly one point.
   */
  lemma ApplyGuessKeepsInvariant(s: GameSnapshot, guess: string)
    requires GameInvariant(s) && !s.gameOver
    ensures GameInvariant(ApplyGuess(s, guess))
    ensures ApplyGuess(s, guess).gameId == s.gameId
    ensures ApplyGuess(s, guess).gameOver || ApplyGuess(s, guess).score == s.score + 1
  {
  }

  /** What a run of guesses does to a game: a guess on a finished game changes nothing. */
  function Play(s: GameSnapshot, guesses: seq<string>): GameSnapshot
    requires GameInvariant(s)
    decreases |guesses|
  {
    if guesses == [] || s.gameOver then s
    else
      ApplyGuessKeepsInvariant(s, guesses[0]);
      Play(ApplyGuess(s, guesses[0]), guesses[1..])
  }

  /**
   * Every run of guesses keeps the invariant (so score plus cards ahead stays
   * 51), never changes the id, and keeps a finished game finished.
   */
  lemma {:induction false} PlayKeepsInvariant(s: GameSnapshot, guesses: seq<string>)
    requires GameInvariant(s)
    ensures GameInvariant(Play(s, guesses))
    ensures Play(s, guesses).gameId == s.gameId
    ensures s.gameOver ==> Play(s, guesses) == s
    ensures Play(s, guesses).score >= s.score
    decreases |guesses|
  {
    if guesses != [] && !s.gameOver {
      ApplyGuessKeepsInvariant(s, guesses[0]);
      PlayKeepsInvariant(ApplyGuess(s, guesses[0]), guesses[1..]);
    }
  }

  /** While a game is running, every guess so far has scored. */
  lemma {:induction false} RunningGameScoresEveryGuess(s: GameSnapshot, guesses: seq<string>)
    requires GameInvariant(s)
    requires !Play(s, guesses).gameOver
    ensures Play(s, guesses).score == s.score + |guesses|
    decreases |guesses|
  {
    if guesses != [] {
      ApplyGuessKeepsInvariant(s, guesses[0]);
      RunningGameScoresEveryGuess(ApplyGuess(s, guesses[0]), guesses[1..]);
    }
  }

  /** No game survives 51 guesses: the deck runs out first. */
  lemma GameEndsWithin51Guesses(s: GameSnapshot, guesses: seq<string>)
    requires GameInvariant(s)
    requires |guesses| >= 51
    ensures Play(s, guesses).gameOver
  {
    PlayKeepsInvariant(s, guesses);
    if !Play(s, guesses).gameOver {
      RunningGameScoresEveryGuess(s, guesses);
    }
  }

  /** Builds, shuffles and deals a fresh game record: the first two cards are shown, the rest stay in the deck. */
  method Deal(newGameId: string, randomIndex: nat -> nat) returns (g: GameState, ghost shuffled: seq<Card>)
    ensures fresh(g) && fresh(g.deck)
    ensures multiset(shuffled) == multiset(StandardDeck()) && |shuffled| == 52
    ensures g.View() == GameSnapshot(newGameId, shuffled[2..], Some(shuffled[0]), Some(shuffled[1]), 0, false, None)
    ensures GameInvariant(g.View())
  {
    var deck := CreateDeck();
    deck := ShuffleDeck(deck, randomIndex);
    shuffled := deck.cards;
    var currentCard := DrawCard(deck);
    var nextCard := DrawCard(deck);
    assert deck.cards == shuffled[2..];
    g := new GameState(newGameId, deck, currentCard, nextCard);
  }

  /** The games in play, keyed by id. */
  class GameService {
    var activeGames: map<string, GameState>
    ghost var GameRepr: set<GameState>
    ghost var DeckRepr: set<CardList>

    /**
     * Each stored game sits under its own id, keeps the game invariant, and
     * owns its record and its deck alone.
     */
    ghost predicate Valid()
      reads this, GameRepr, DeckRepr
    {
      && (forall id :: id in activeGames ==>
            && activeGames[id] in GameRepr
            && activeGames[id].deck in DeckRepr
            && activeGames[id].gameId == id
            && GameInvariant(activeGames[id].View()))
      && (forall a, b :: a in activeGames && b in activeGames && a != b ==>
            activeGames[a].deck != activeGames[b].deck)
    }

    /** The stored games as values, keyed by id. */
    ghost function Games(): (m: map<string, GameSnapshot>)
      requires Valid()
      reads this, GameRepr, DeckRepr
      ensures m.Keys == activeGames.Keys
      ensures forall id :: id in m ==> m[id].gameId == id && GameInvariant(m[id])
    {
      map id | id in activeGames :: activeGames[id].View()
    }

    constructor ()
      ensures Valid() && activeGames == map[]
      ensures GameRepr == {} && DeckRepr == {}
    {
      activeGames := map[];
      GameRepr, DeckRepr := {}, {};
    }

    /**
     * Deals a new game from a freshly built and shuffled deck and stores it
     * under `newGameId` (the random id; a clash replaces the older game).
     * `shuffled` is the deck after shuffling.
     */
    method StartNewGame(newGameId: string, randomIndex: nat -> nat) returns (g: GameState, ghost shuffled: seq<Card>)
      requires Valid()
      modifies this
      ensures Valid()
      ensures fresh(g) && fresh(g.deck)
      ensures activeGames == old(activeGames)[newGameId := g]
      ensures GameRepr == old(GameRepr) + {g} && DeckRepr == old(DeckRepr) + {g.deck}
      ensures multiset(shuffled) == multiset(StandardDeck()) && |shuffled| == 52
      ensures g.View() == GameSnapshot(newGameId, shuffled[2..], Some(shuffled[0]), Some(shuffled[1]), 0, false, None)
      ensures Games() == old(Games())[newGameId := g.View()]
    {
      g, shuffled := Deal(newGameId, randomIndex);
      activeGames := activeGames[newGameId := g];
      GameRepr, DeckRepr := GameRepr + {g}, DeckRepr + {g.deck};
      OneGameReplaced(newGameId);
    }

    /**
     * Applies a guess to the stored game: an unknown id or a finished game
     * yields null and nothing changes; otherwise the record is updated in
     * place as `ApplyGuess` says and returned. No other game changes.
     */
    method MakeGuess(gameId: string, guess: string) returns (r: GameState?)
      requires Valid()
      modifies if gameId in activeGames then {activeGames[gameId], activeGames[gameId].deck} else {}
      ensures Valid()
      ensures activeGames == old(activeGames) && GameRepr == old(GameRepr) && DeckRepr == old(DeckRepr)
      ensures gameId !in old(Games()) || old(Games())[gameId].gameOver ==>
        r == null && Games() == old(Games())
      ensures gameId in old(Games()) && !old(Games())[gameId].gameOver ==>
        r == activeGames[gameId] &&
        Games() == old(Games())[gameId := ApplyGuess(old(Games())[gameId], guess)]
    {
      if gameId !in activeGames {
        return null;
      }
      var g := activeGames[gameId];
      if g.gameOver {
        return null;
      }
      ApplyGuessKeepsInvariant(g.View(), guess);
      g.Guess(guess);
      r := g;
      OneGameReplaced(gameId);
    }

    /**
     * When the stored games differ in one id alone, and no other stored record
     * or deck changed, the stored games as values differ in that game alone.
     */
    twostate lemma OneGameReplaced(gameId: string)
      requires old(Valid()) && Valid()
      requires gameId in activeGames && activeGames == old(activeGames)[gameId := activeGames[gameId]]
      requires forall id :: id in old(activeGames) && id != gameId ==>
        unchanged(old(activeGames)[id], old(activeGames)[id].deck)
      ensures Games() == old(Games())[gameId := activeGames[gameId].View()]
    {
    }

    /** The stored game for the id, or null when there is none. */
    method GetGameState(gameId: string) returns (r: GameState?)
      ensures gameId in activeGames ==> r == activeGames[gameId]
      ensures gameId !in activeGames ==> r == null
    {
      r := if gameId in activeGames then activeGames[gameId] else null;
    }
  }
}
