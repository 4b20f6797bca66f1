/**
 * The server side of browser-detected gestures: a set of registered sessions,
 * and a dispatcher that turns a gesture into at most one game operation and at
 * most one message to the session's own topic.
 */
module TensorFlowGesture {
  import opened Wrappers
  import opened Cards
  import opened Game
  import opened Messages

  /** The branch a gesture takes through the dispatcher. */
  datatype Route =
    | Dropped      // the session is not registered
    | GuessRoute   // "higher" or "lower" with a game id: make a guess
    | ResetRoute   // "reset" with a game id: start a new game
    | Silent       // any other gesture with a game id: nothing happens
    | Echo         // no game id (null or empty): confirm the gesture

  /** A game id is usable when it is present and not empty. */
  predicate HasGameId(gameId: Option<string>)
  {
    gameId.Some? && gameId.value != ""
  }

  /** The branch a gesture takes: the session check first, then the game id, then the gesture word. */
  function RouteOf(registered: bool, gesture: string, gameId: Option<string>): (r: Route)
    ensures r == Dropped <==> !registered
    ensures r == GuessRoute <==> registered && HasGameId(gameId) && gesture in {"higher", "lower"}
    ensures r == ResetRoute <==> registered && HasGameId(gameId) && gesture == "reset"
    ensures r == Silent <==> registered && HasGameId(gameId) && gesture !in {"higher", "lower", "reset"}
    ensures r == Echo <==> registered && !HasGameId(gameId)
  {
    if !registered then Dropped
    else if HasGameId(gameId) then
      if gesture == "higher" || gesture == "lower" then GuessRoute
      else if gesture == "reset" then ResetRoute
      else Silent
    else Echo
  }

  /** The reply to a guess: the gesture and game id echoed, with the game's updated state. */
  function GuessReply(sessionId: string, gesture: string, gameId: string, s: GameSnapshot, now: int): GestureMessage
  {
    GestureMessage(sessionId, gesture, s.message, now, Some(gameId),
                   s.currentCard, s.nextCard, Some(s.score), Some(s.gameOver))
  }

  /** The reply to a reset: the new game's id and its opening state. */
  function ResetReply(sessionId: string, s: GameSnapshot, now: int): GestureMessage
  {
    GestureMessage(sessionId, "reset", Some("Game reset! New game started."), now, Some(s.gameId),
                   s.currentCard, s.nextCard, Some(s.score), Some(s.gameOver))
  }

  /** The reply when the guess found no running game and reading its result failed. */
  function ErrorReply(sessionId: string, failureDetail: string, now: int): GestureMessage
  {
    StatusMessage(sessionId, "error", "Error: " + failureDetail, now)
  }

  /** The plain confirmation sent when no game id came with the gesture. */
  function EchoReply(sessionId: string, gesture: string, gameId: Option<string>, now: int): GestureMessage
  {
    GestureMessage(sessionId, gesture, Some("Gesture detected: " + gesture), now, gameId,
                   None, None, None, None)
  }

  class TensorFlowGestureService {
    const gameService: GameService
    var activeSessions: set<string>
    var outbox: seq<Outgoing<GestureMessage>>

    ghost predicate Valid()
      reads this, gameService, gameService.GameRepr, gameService.DeckRepr
    {
      gameService.Valid()
    }

    constructor (gameService: GameService)
      requires gameService.Valid()
      ensures Valid()
      ensures this.gameService == gameService
      ensures activeSessions == {} && outbox == []
    {
      this.gameService := gameService;
      activeSessions := {};
      outbox := [];
    }

    /** Adds the session (again, if need be) and confirms the connection on its topic. */
    method RegisterSession(sessionId: string, now: int)
      requires Valid()
      modifies this
      ensures Valid()
      ensures activeSessions == old(activeSessions) + {sessionId}
      ensures outbox == old(outbox) +
        [Outgoing(Topic(sessionId), StatusMessage(sessionId, "connected", "WebSocket connection established", now))]
    {
      activeSessions := activeSessions + {sessionId};
      outbox := outbox + [Outgoing(Topic(sessionId),
        StatusMessage(sessionId, "connected", "WebSocket connection established", now))];
    }

    /** Removes the session; nothing is sent. */
    method UnregisterSession(sessionId: string)
      requires Valid()
      modifies this
      ensures Valid()
      ensures activeSessions == old(activeSessions) - {sessionId}
      ensures outbox == old(outbox)
    {
      activeSessions := activeSessions - {sessionId};
    }

    /**
     * Handles a gesture from the browser. `newGameId` and `randomIndex` stand
     * for the random id and shuffle of a game started by "reset", and
     * `failureDetail` for the text of the exception raised when a guess finds
     * no running game.
     */
    method ProcessGestureFromFrontend(sessionId: string, gesture: string, gameId: Option<string>,
                                      newGameId: string, randomIndex: nat -> nat,
                                      failureDetail: string, now: int)
      requires Valid()
      modifies this, gameService, gameService.GameRepr, gameService.DeckRepr
      ensures Valid()
      ensures activeSessions == old(activeSessions)
      ensures |old(outbox)| <= |outbox| <= |old(outbox)| + 1
      ensures outbox[..|old(outbox)|] == old(outbox)
      ensures forall k :: |old(outbox)| <= k < |outbox| ==> outbox[k].topic == Topic(sessionId)
      ensures var route := RouteOf(old(sessionId in activeSessions), gesture, gameId);
        route in {Dropped, Silent, Echo} ==> gameService.Games() == old(gameService.Games())
      ensures var route := RouteOf(old(sessionId in activeSessions), gesture, gameId);
        route in {Dropped, Silent} ==> outbox == old(outbox)
      ensures RouteOf(old(sessionId in activeSessions), gesture, gameId) == Echo ==>
        outbox == old(outbox) + [Outgoing(Topic(sessionId), EchoReply(sessionId, gesture, gameId, now))]
      ensures RouteOf(old(sessionId in activeSessions), gesture, gameId) == GuessRoute ==>
        var id := gameId.value;
        if id in old(gameService.Games()) && !old(gameService.Games())[id].gameOver then
          && gameService.Games() == old(gameService.Games())[id := ApplyGuess(old(gameService.Games())[id], gesture)]
          && outbox == old(outbox) +
               [Outgoing(Topic(sessionId), GuessReply(sessionId, gesture, id, gameService.Games()[id], now))]
        else
          && gameService.Games() == old(gameService.Games())
          && outbox == old(outbox) + [Outgoing(Topic(sessionId), ErrorReply(sessionId, failureDetail, now))]
      ensures RouteOf(old(sessionId in activeSessions), gesture, gameId) == ResetRoute ==>
        && newGameId in gameService.Games()
        && var s := gameService.Games()[newGameId];
        && gameService.Games() == old(gameService.Games())[newGameId := s]
        && s.score == 0 && !s.gameOver && s.currentCard.Some? && s.nextCard.Some? && |s.deck| == 50
        && outbox == old(outbox) + [Outgoing(Topic(sessionId), ResetReply(sessionId, s, now))]
    {
      if sessionId !in activeSessions {
        return;
      }
      if HasGameId(gameId) {
        if gesture == "higher" || gesture == "lower" {
          GuessAndReply(sessionId, gesture, gameId.value, failureDetail, now);
        } else if gesture == "reset" {
          ResetAndReply(sessionId, newGameId, randomIndex, now);
        }
      } else {
        outbox := outbox + [Outgoing(Topic(sessionId), EchoReply(sessionId, gesture, gameId, now))];
      }
    }

    /** The guess branch: make the guess and send its result, or the error when there is none. */
    method GuessAndReply(sessionId: string, gesture: string, gameId: string, failureDetail: string, now: int)
      requires Valid()
      modifies this, gameService, gameService.GameRepr, gameService.DeckRepr
      ensures Valid()
      ensures activeSessions == old(activeSessions)
      ensures if gameId in old(gameService.Games()) && !old(gameService.Games())[gameId].gameOver then
          && gameService.Games() == old(gameService.Games())[gameId := ApplyGuess(old(gameService.Games())[gameId], gesture)]
          && outbox == old(outbox) +
               [Outgoing(Topic(sessionId), GuessReply(sessionId, gesture, gameId, gameService.Games()[gameId], now))]
        else
          && gameService.Games() == old(gameService.Games())
          && outbox == old(outbox) + [Outgoing(Topic(sessionId), ErrorReply(sessionId, failureDetail, now))]
    {
      var updated := gameService.MakeGuess(gameId, gesture);
      var reply;
      if updated == null {
        // reading the result of a refused guess dereferences null; the handler reports it
        reply := ErrorReply(sessionId, failureDetail, now);
      } else {
        assert updated.View() == gameService.Games()[gameId];
        reply := GuessReply(sessionId, gesture, gameId, updated.View(), now);
      }
      outbox := outbox + [Outgoing(Topic(sessionId), reply)];
    }

    /** The reset branch: start a new game and send its opening state. */
    method ResetAndReply(sessionId: string, newGameId: string, randomIndex: nat -> nat, now: int)
      requires Valid()
      modifies this, gameService
      ensures Valid()
      ensures activeSessions == old(activeSessions)
      ensures newGameId in gameService.Games()
      ensures var s := gameService.Games()[newGameId];
        && gameService.Games() == old(gameService.Games())[newGameId := s]
        && s.score == 0 && !s.gameOver && s.currentCard.Some? && s.nextCard.Some? && |s.deck| == 50
        && outbox == old(outbox) + [Outgoing(Topic(sessionId), ResetReply(sessionId, s, now))]
    {
      var newGame, _ := gameService.StartNewGame(newGameId, randomIndex);
      outbox := outbox + [Outgoing(Topic(sessionId), ResetReply(sessionId, newGame.View(), now))];
    }

    /** Announces that recognition started, for a registered session only. */
    method StartRecognition(sessionId: string, cameraIndex: int, now: int)
      requires Valid()
      modifies this
      ensures Valid()
      ensures activeSessions == old(activeSessions)
      ensures old(sessionId in activeSessions) ==>
        outbox == old(outbox) + [Outgoing(Topic(sessionId), StatusMessage(sessionId, "started",
          "Gesture recognition started with camera " + IntToString(cameraIndex), now))]
      ensures old(sessionId !in activeSessions) ==> outbox == old(outbox)
    {
      if sessionId in activeSessions {
        outbox := outbox + [Outgoing(Topic(sessionId), StatusMessage(sessionId, "started",
          "Gesture recognition started with camera " + IntToString(cameraIndex), now))];
      }
    }

    /** Announces that recognition stopped, for a registered session only. */
    method StopRecognition(sessionId: string, now: int)
      requires Valid()
      modifies this
      ensures Valid()
      ensures activeSessions == old(activeSessions)
      ensures old(sessionId in activeSessions) ==>
        outbox == old(outbox) + [Outgoing(Topic(sessionId),
          StatusMessage(sessionId, "stopped", "Gesture recognition stopped", now))]
      ensures old(sessionId !in activeSessions) ==> outbox == old(outbox)
    {
      if sessionId in activeSessions {
        outbox := outbox + [Outgoing(Topic(sessionId),
          StatusMessage(sessionId, "stopped", "Gesture recognition stopped", now))];
      }
    }
  }
}
