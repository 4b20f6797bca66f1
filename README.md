# HawkEye card game: a Dafny model of its core

HawkEye is a higher/lower card game played with hand gestures. The server
deals a shuffled 52-card deck and keeps every game in a map from game id to a
mutable game record. A guess of "higher", "lower" or "equals" about the next
card either scores a point and moves the cards along, or ends the game.
Gestures reach the game in two ways:

- the browser component recognises a hand with a landmark model, counts the
  extended fingers, steadies the gesture over its last five frames, and sends
  a steady gesture over a WebSocket. The code means to space sends by an
  800 ms cooldown, but as written the cooldown never throttles repeated sends
  (see Findings);
- a server-side dispatcher turns each such gesture into a guess, a reset or
  a plain confirmation, and pushes at most one message to the session's own
  topic.

There is also a server-side live recognition service. It holds one camera
capture per session, reads frames on a schedule, and classifies the largest
hand contour of a frame by its finger count (convexity defects), its aspect
ratio and its extent.

The code sends the stop notice of live recognition with the gesture word
"stopeed"; that spelling is modelled as written.

Files and modules:

- `wrappers.dfy` (`Wrappers`): the `Option` type, standing for Java's null.
- `cards.dfy` (`Cards`): cards, the standard deck, and the deck operations.
  Building, shuffling and drawing all work in place on a `CardList`.
- `game.dfy` (`Game`): the mutable `GameState` record and its value
  `GameSnapshot`; the guess rule `ApplyGuess` and the game invariant; and
  the `GameService` map of active games.
- `messages.dfy` (`Messages`): the gesture message record, per-session
  topics, and decimal rendering of numbers.
- `tensorflow_gesture.dfy` (`TensorFlowGesture`): the session set and the
  dispatcher for gestures detected in the browser.
- `live_recognition.dfy` (`LiveRecognition`): camera captures, the contour
  rules, and the session registry of live recognition.
- `gesture_client.dfy` (`GestureClient`): the browser component's finger
  counting, gesture table, five-frame steadying, send rule and detection
  state.

Conventions:

- Objects that the code updates in place are classes: the deck, the game
  record, both services, the camera capture and the browser component. Each
  method states the whole new state. The exceptions are the two cooldown
  harnesses `PassIntended` and `DetectFramesIntended`. They state the sends,
  the game id and the detection flag (`PassIntended` also the send time), but
  not the history.
- Each message sent through the messaging template becomes an entry appended
  to the service's `outbox`. Each gesture sent by the browser becomes an
  entry in the component's `sent`.
- Randomness and clocks are parameters:
  - `randomIndex` is the shuffle's random source;
  - `newGameId` is the random game id;
  - `now` is the clock;
  - `cameraOpens` says whether a camera device opens;
  - `failureDetail` is an exception's message text.

## Model

| member | source | states |
|---|---|---|
| Cards.StandardDeck | cardgame/src/main/java/com/hawkeye/cardgame/service/CardService.java:15-24 | the standard deck has one card per suit and rank: 4 suits times 13 ranks, 52 cards |
| Cards.CardList.constructor | cardgame/src/main/java/com/hawkeye/cardgame/service/CardService.java:15 | a new list is empty |
| Cards.CreateDeck | cardgame/src/main/java/com/hawkeye/cardgame/service/CardService.java:14-25 | the nested loop over suits and ranks yields a fresh list holding exactly the standard deck, suit by suit |
| Cards.DeckAt | cardgame/src/main/java/com/hawkeye/cardgame/service/CardService.java:19-22 | the card of suit s and rank index i sits at position 13s + i and has value i + 2 |
| Cards.RankValues | cardgame/src/main/java/com/hawkeye/cardgame/service/CardService.java:17-21 | each card's value is its rank index plus 2, so values run 2..14 and only the ace has value 14 |
| Cards.NamesDistinct | cardgame/src/main/java/com/hawkeye/cardgame/service/CardService.java:16-17 | the four suit names are distinct, and so are the thirteen rank names |
| Cards.EachPairOnce | cardgame/src/main/java/com/hawkeye/cardgame/service/CardService.java:19-23 | every suit and rank pair occurs in the standard deck exactly once, at position 13s + r |
| Cards.EachValueFourTimes | cardgame/src/main/java/com/hawkeye/cardgame/service/CardService.java:19-23 | every value 2..14 occurs exactly four times, once per suit, at positions 13 apart |
| Cards.ValuePositionsOnePerSuit | cardgame/src/main/java/com/hawkeye/cardgame/service/CardService.java:19-23 | the positions holding a given value are exactly v - 2, v + 11, v + 24 and v + 37 |
| Cards.FourDistinct | cardgame/src/main/java/com/hawkeye/cardgame/service/CardService.java:19-23 | four strictly increasing positions form a set of four (the counting step behind the four-per-value fact) |
| Cards.ShuffleDeck | cardgame/src/main/java/com/hawkeye/cardgame/service/CardService.java:27-31 | the shuffle works in place and returns the same list, with the same length and the same multiset of cards |
| Cards.DrawCard | cardgame/src/main/java/com/hawkeye/cardgame/service/CardService.java:33-36 | a null or empty deck yields null and is left unchanged; otherwise the first card is removed and returned, and the rest stays in order |
| Game.GameState.constructor | cardgame/src/main/java/com/hawkeye/cardgame/service/GameService.java:28-34 | a new record holds the given id, deck and cards, with score 0, not over, and no message |
| Game.GameState.Guess | cardgame/src/main/java/com/hawkeye/cardgame/service/GameService.java:46-73 | updating the record in place has exactly the effect of `ApplyGuess` on its previous value, and it draws from the record's own deck |
| Game.IsCorrect | cardgame/src/main/java/com/hawkeye/cardgame/service/GameService.java:49-57 | only "higher", "lower" and "equals" can be right |
| Game.ApplyGuess | cardgame/src/main/java/com/hawkeye/cardgame/service/GameService.java:49-71 | the id is kept and a current card remains; the game is over afterwards exactly when it already was, the guess was wrong, or the deck was empty; the score rises by one exactly on a right guess; score plus cards ahead is unchanged; a game still running has a next card and no new message |
| Game.GuessCorrectness | cardgame/src/main/java/com/hawkeye/cardgame/service/GameService.java:49-57 | "higher", "lower" and "equals" are right exactly when the next value is greater, smaller or equal; any other word is wrong |
| Game.CorrectGuessAdvances | cardgame/src/main/java/com/hawkeye/cardgame/service/GameService.java:59-62 | a right guess with cards left scores one point, turns the next card into the current one, and draws the new next card from the deck's head |
| Game.CorrectGuessExhaustsDeck | cardgame/src/main/java/com/hawkeye/cardgame/service/GameService.java:59-67 | a right guess on an empty deck scores, leaves no next card, and ends the game with "You've drawn all cards! Amazing" |
| Game.WrongGuessEnds | cardgame/src/main/java/com/hawkeye/cardgame/service/GameService.java:68-71 | a wrong guess ends the game with "Wrong guess! Game over. " and changes nothing else |
| Game.ApplyGuessKeepsInvariant | cardgame/src/main/java/com/hawkeye/cardgame/service/GameService.java:59-71 | on a running game, a guess keeps the invariant (score plus cards ahead is 51, a message exactly when over) and the id, and either scores one point or ends the game |
| Game.PlayKeepsInvariant | cardgame/src/main/java/com/hawkeye/cardgame/service/GameService.java:40-75 | any run of guesses keeps the invariant and the id, never lowers the score, and leaves a finished game exactly as it was |
| Game.RunningGameScoresEveryGuess | cardgame/src/main/java/com/hawkeye/cardgame/service/GameService.java:59-71 | while a game is still running, every guess made so far has scored |
| Game.GameEndsWithin51Guesses | cardgame/src/main/java/com/hawkeye/cardgame/service/GameService.java:59-71 | no game survives 51 guesses, because the deck runs out first |
| Game.Deal | cardgame/src/main/java/com/hawkeye/cardgame/service/GameService.java:21-34 | a fresh record over a fresh deck that is a permutation of the standard deck, showing its first two cards with the other 50 left in the deck; the record satisfies the game invariant |
| Game.GameService.Games | cardgame/src/main/java/com/hawkeye/cardgame/service/GameService.java:14-16 | the stored games, as values, are keyed by their own ids and each satisfies the game invariant |
| Game.GameService.constructor | cardgame/src/main/java/com/hawkeye/cardgame/service/GameService.java:14 | the service starts with no active games and owns no records or decks |
| Game.GameService.StartNewGame | cardgame/src/main/java/com/hawkeye/cardgame/service/GameService.java:20-38 | the new game is stored under its id, and no other stored game changes; it opens on the first two cards of a shuffled standard deck with score 0 |
| Game.GameService.MakeGuess | cardgame/src/main/java/com/hawkeye/cardgame/service/GameService.java:40-75 | an unknown id or a finished game yields null and no stored game changes; otherwise the stored record is updated in place by `ApplyGuess` and returned, and no other game changes |
| Game.GameService.OneGameReplaced | cardgame/src/main/java/com/hawkeye/cardgame/service/GameService.java:36 | storing or updating one game in place changes the stored-games view at that id alone |
| Game.GameService.GetGameState | cardgame/src/main/java/com/hawkeye/cardgame/service/GameService.java:77-79 | returns the stored record for the id, or null when there is none |
| Messages.Topic | cardgame/src/main/java/com/hawkeye/cardgame/service/TensorFlowGestureService.java:33 | a session's topic is "/topic/gesture/" followed by the session id |
| Messages.TopicInjective | cardgame/src/main/java/com/hawkeye/cardgame/service/TensorFlowGestureService.java:72 | distinct sessions never share a topic, so a reply reaches only its own session |
| Messages.NatToString | cardgame/src/main/java/com/hawkeye/cardgame/service/TensorFlowGestureService.java:139 | the decimal text of a number is non-empty and made of digits only |
| Messages.NatToStringValue | cardgame/src/main/java/com/hawkeye/cardgame/service/TensorFlowGestureService.java:139 | reading the digits back, most significant first, gives the number |
| Messages.NatToStringNoLeadingZero | cardgame/src/main/java/com/hawkeye/cardgame/service/TensorFlowGestureService.java:139 | a positive number is written without a leading zero |
| Messages.NatToStringInjective | cardgame/src/main/java/com/hawkeye/cardgame/service/TensorFlowGestureService.java:139 | different numbers are written differently |
| Messages.IntToStringValue | cardgame/src/main/java/com/hawkeye/cardgame/service/TensorFlowGestureService.java:139 | a non-negative integer is written as its decimal digits; a negative one as "-" followed by the digits of its magnitude |
| TensorFlowGesture.RouteOf | cardgame/src/main/java/com/hawkeye/cardgame/service/TensorFlowGestureService.java:41-131 | each branch exactly: an unregistered session drops the gesture; with a non-empty game id, "higher" or "lower" guesses, "reset" resets, and any other word does nothing; with no game id, the gesture is echoed |
| TensorFlowGesture.TensorFlowGestureService.constructor | cardgame/src/main/java/com/hawkeye/cardgame/service/TensorFlowGestureService.java:15-21 | a new dispatcher over the given game service, with no sessions and nothing sent |
| TensorFlowGesture.TensorFlowGestureService.RegisterSession | cardgame/src/main/java/com/hawkeye/cardgame/service/TensorFlowGestureService.java:23-34 | the session joins the set, and "connected" / "WebSocket connection established" is sent to its topic |
| TensorFlowGesture.TensorFlowGestureService.UnregisterSession | cardgame/src/main/java/com/hawkeye/cardgame/service/TensorFlowGestureService.java:36-39 | the session leaves the set and nothing is sent |
| TensorFlowGesture.TensorFlowGestureService.ProcessGestureFromFrontend | cardgame/src/main/java/com/hawkeye/cardgame/service/TensorFlowGestureService.java:41-132 | at most one message is sent, only to the session's own topic, and the sessions are unchanged. Dropped and silent gestures send nothing, and only a guess or a reset changes the games. A guess on a running game sends its updated state; otherwise it sends "error". A reset stores a new 50-card game and sends its opening state; an echo sends "Gesture detected: " + the gesture |
| TensorFlowGesture.TensorFlowGestureService.GuessAndReply | cardgame/src/main/java/com/hawkeye/cardgame/service/TensorFlowGestureService.java:51-84 | the guess is made; its game's updated state is sent, or "Error: " + the failure text when the guess was refused and its null result was read |
| TensorFlowGesture.TensorFlowGestureService.ResetAndReply | cardgame/src/main/java/com/hawkeye/cardgame/service/TensorFlowGestureService.java:87-110 | a new game is started and its id and opening state are sent with "Game reset! New game started." |
| TensorFlowGesture.TensorFlowGestureService.StartRecognition | cardgame/src/main/java/com/hawkeye/cardgame/service/TensorFlowGestureService.java:134-144 | for a registered session only, "started" and the camera number are sent to its topic |
| TensorFlowGesture.TensorFlowGestureService.StopRecognition | cardgame/src/main/java/com/hawkeye/cardgame/service/TensorFlowGestureService.java:146-156 | for a registered session only, "stopped" is sent to its topic |
| LiveRecognition.VideoCapture.constructor | cardgame/src/main/java/com/hawkeye/cardgame/service/LiveGestureRecognitionService.java:48 | a new capture on the given camera, open exactly when the device opens, never released |
| LiveRecognition.VideoCapture.Release | cardgame/src/main/java/com/hawkeye/cardgame/service/LiveGestureRecognitionService.java:70 | releasing closes the capture and counts one more release |
| LiveRecognition.ResponseFields | cardgame/src/main/java/com/hawkeye/cardgame/service/LiveGestureRecognitionService.java:192-199 | the response map carries the given gesture and message, and its timestamp text reads back as the clock value in milliseconds |
| LiveRecognition.DeepDefects | cardgame/src/main/java/com/hawkeye/cardgame/service/LiveGestureRecognitionService.java:178-187 | at most one deep defect per defect quadruple |
| LiveRecognition.IsDeepThreshold | cardgame/src/main/java/com/hawkeye/cardgame/service/LiveGestureRecognitionService.java:182-184 | a depth over 20 pixels in 8-bit fixed point is exactly a raw depth above 5120 |
| LiveRecognition.CountFingersFromDefects | cardgame/src/main/java/com/hawkeye/cardgame/service/LiveGestureRecognitionService.java:169-190 | the stride-4 loop counts `FingerCount`: no defects gives 0; otherwise one more than the deep defects, capped at 5, always 1..5 |
| LiveRecognition.GestureRule | cardgame/src/main/java/com/hawkeye/cardgame/service/LiveGestureRecognitionService.java:158-166 | the classifier answers "higher", "lower" or "uncertain" and nothing else |
| LiveRecognition.GestureRuleCases | cardgame/src/main/java/com/hawkeye/cardgame/service/LiveGestureRecognitionService.java:158-166 | "higher" exactly when at least four fingers and aspect ratio above 0.8; "lower" exactly when that fails and one of the two fist rules holds |
| LiveRecognition.AspectRatio | cardgame/src/main/java/com/hawkeye/cardgame/service/LiveGestureRecognitionService.java:138 | the aspect ratio is positive, and times the height it gives the width |
| LiveRecognition.Extent | cardgame/src/main/java/com/hawkeye/cardgame/service/LiveGestureRecognitionService.java:142-144 | the extent is non-negative, times the box area it gives the contour area, and it is at most 1 when the contour fits in its box |
| LiveRecognition.QuotientCompare | cardgame/src/main/java/com/hawkeye/cardgame/service/LiveGestureRecognitionService.java:138 | comparing width over height with a bound is comparing width with the bound times height |
| LiveRecognition.ContourGestureByCrossProducts | cardgame/src/main/java/com/hawkeye/cardgame/service/LiveGestureRecognitionService.java:133-167 | a contour reads "higher" exactly when it has four or more fingers and 5 * width > 4 * height; three fingers always read "uncertain"; no fingers with 5 * width < 6 * height read "lower" |
| LiveRecognition.ClassifyHandGesture | cardgame/src/main/java/com/hawkeye/cardgame/service/LiveGestureRecognitionService.java:133-167 | the gesture of the contour's aspect ratio, extent and finger count under the ordered rules, one of three words |
| LiveRecognition.FrameGesture | cardgame/src/main/java/com/hawkeye/cardgame/service/LiveGestureRecognitionService.java:116-128 | "none" exactly when there is no contour or the largest is under 1000 square pixels; otherwise the contour's gesture |
| LiveRecognition.AnalyseFrame | cardgame/src/main/java/com/hawkeye/cardgame/service/LiveGestureRecognitionService.java:93-131 | the contour stage of frame analysis yields `FrameGesture` of the largest contour |
| LiveRecognition.LiveGestureRecognitionService.constructor | cardgame/src/main/java/com/hawkeye/cardgame/service/LiveGestureRecognitionService.java:23-28 | the registry starts with no captures, no flags and nothing sent |
| LiveRecognition.LiveGestureRecognitionService.StartLiveRecognition | cardgame/src/main/java/com/hawkeye/cardgame/service/LiveGestureRecognitionService.java:44-64 | a running session is left alone; a camera that does not open sends "error" and stores nothing; otherwise a fresh open capture is stored, the session is marked running, and "started" is sent; the registry invariant is kept |
| LiveRecognition.LiveGestureRecognitionService.StopLiveRecognition | cardgame/src/main/java/com/hawkeye/cardgame/service/LiveGestureRecognitionService.java:66-75 | the flag is cleared and the capture is removed and released exactly once; the "stopeed" notice is sent whether or not the session was known |
| LiveRecognition.LiveGestureRecognitionService.ProcessFrame | cardgame/src/main/java/com/hawkeye/cardgame/service/LiveGestureRecognitionService.java:77-91 | analysis runs exactly when the session is running, has an open capture and a non-empty frame was read; its result is `FrameGesture`, and nothing changes or is sent |
| LiveRecognition.LiveGestureRecognitionService.Cleanup | cardgame/src/main/java/com/hawkeye/cardgame/service/LiveGestureRecognitionService.java:37-42 | every stored capture is released exactly once and the capture map is emptied; the flags and the outbox are untouched |
| GestureClient.ExtendedFingers | cardgame/src/main/resources/static/card-game-frontend/src/components/LiveGestureGame.js:290-313 | a hand shows at most five extended fingers |
| GestureClient.CountExtendedFingers | cardgame/src/main/resources/static/card-game-frontend/src/components/LiveGestureGame.js:290-313 | the loop over the five tip and joint pairs counts the thumb by x and the other fingers by y, giving `ExtendedFingers`, 0..5 |
| GestureClient.GestureForCount | cardgame/src/main/resources/static/card-game-frontend/src/components/LiveGestureGame.js:323-331 | a finger count names one of "higher", "lower", "reset" or "none" |
| GestureClient.GestureTable | cardgame/src/main/resources/static/card-game-frontend/src/components/LiveGestureGame.js:323-331 | 0 or 1 fingers mean "lower", 2 "reset", 3 "none", and 4 or 5 "higher" |
| GestureClient.ClassifyGesture | cardgame/src/main/resources/static/card-game-frontend/src/components/LiveGestureGame.js:315-332 | the gesture shown by a hand is the table entry for its extended fingers |
| GestureClient.Window | cardgame/src/main/resources/static/card-game-frontend/src/components/LiveGestureGame.js:162 | the kept history is the last five entries, or all of them when there are fewer |
| GestureClient.TwoCountsBounded | cardgame/src/main/resources/static/card-game-frontend/src/components/LiveGestureGame.js:166-169 | two different gestures together occur no more often than the history is long |
| GestureClient.SteadyIsUnique | cardgame/src/main/resources/static/card-game-frontend/src/components/LiveGestureGame.js:165-176 | in five entries at most one gesture occurs three times, so the order in which the counts are scanned cannot matter |
| GestureClient.FirstSteadyFromMeaning | cardgame/src/main/resources/static/card-game-frontend/src/components/LiveGestureGame.js:172-178 | the scan returns a steady gesture, or "none" only when no later entry is steady |
| GestureClient.StableOfMeaning | cardgame/src/main/resources/static/card-game-frontend/src/components/LiveGestureGame.js:160-179 | the steady gesture of a window is the unique gesture other than "none" occurring at least three times, and "none" exactly when there is no such gesture |
| GestureClient.CountBounded | cardgame/src/main/resources/static/card-game-frontend/src/components/LiveGestureGame.js:166-169 | no gesture occurs more often than the history is long |
| GestureClient.NoneRightAfterReset | cardgame/src/main/resources/static/card-game-frontend/src/components/LiveGestureGame.js:198 | once the history is cleared, the next two frames never yield a steady gesture |
| GestureClient.FirstAppearancesMeaning | cardgame/src/main/resources/static/card-game-frontend/src/components/LiveGestureGame.js:166-172 | the listed keys are exactly the gestures of the history, each listed once |
| GestureClient.CountGestures | cardgame/src/main/resources/static/card-game-frontend/src/components/LiveGestureGame.js:166-169 | the counts dictionary holds exactly the gestures of the history, each with its number of occurrences; its keys are listed in order of first appearance, as the scan of `Object.entries` sees them |
| GestureClient.ScanCounts | cardgame/src/main/resources/static/card-game-frontend/src/components/LiveGestureGame.js:165-178 | scanning the counts of a window returns its steady gesture: one other than "none" counted three times, or "none" exactly when there is none |
| GestureClient.MaySendRule | cardgame/src/main/resources/static/card-game-frontend/src/components/LiveGestureGame.js:252 | only a steady gesture with a non-empty game id is sent; nothing is sent within 800 ms of the last send time it reads; with no earlier send, a steady gesture with a game is sent |
| GestureClient.LiveGestureGame.constructor | cardgame/src/main/resources/static/card-game-frontend/src/components/LiveGestureGame.js:22-28 | the component starts with no history, no game, no detection, a zero send time and nothing sent |
| GestureClient.LiveGestureGame.GameStarted | cardgame/src/main/resources/static/card-game-frontend/src/components/LiveGestureGame.js:106-111 | the new game's id is remembered and nothing else changes |
| GestureClient.LiveGestureGame.RestartGame | cardgame/src/main/resources/static/card-game-frontend/src/components/LiveGestureGame.js:150-157 | the history is cleared and the game id forgotten; detection, the send times and the sends are untouched |
| GestureClient.LiveGestureGame.StartGestureDetection | cardgame/src/main/resources/static/card-game-frontend/src/components/LiveGestureGame.js:181-202 | with the model loaded, the camera available and the socket connected: detection starts and the cooldown and history reset, while the loop keeps the pre-reset send time; otherwise nothing changes; the component invariant is kept |
| GestureClient.LiveGestureGame.StopGestureDetection | cardgame/src/main/resources/static/card-game-frontend/src/components/LiveGestureGame.js:204-212 | detection stops and the history is cleared; the game id and the sends are untouched |
| GestureClient.LiveGestureGame.GetStableGesture | cardgame/src/main/resources/static/card-game-frontend/src/components/LiveGestureGame.js:160-179 | the history becomes the last five of the old history plus the new gesture; the result is the gesture other than "none" that fills three of them, or "none" exactly when none does |
| GestureClient.LiveGestureGame.ObserveHand | cardgame/src/main/resources/static/card-game-frontend/src/components/LiveGestureGame.js:234-238 | a found hand is classified and its gesture joins the history; the result is the history's steady gesture, and nothing else changes |
| GestureClient.LiveGestureGame.DetectFrame | cardgame/src/main/resources/static/card-game-frontend/src/components/LiveGestureGame.js:214-278 | one pass, as written. Without detection or a ready video it does nothing; with no hand it clears the history. With a hand, the gesture joins the history, and the steady gesture is sent (and the send time set) when there is a game and the cooldown test passes. That test reads the loop's copy of the send time, which a send never refreshes |
| GestureClient.LiveGestureGame.DetectFrameIntended | cardgame/src/main/resources/static/card-game-frontend/src/components/LiveGestureGame.js:248-255 | one pass with the cooldown as intended: a send happens only when the last send was more than 800 ms earlier, or there was none |
| GestureClient.LiveGestureGame.PassIntended | cardgame/src/main/resources/static/card-game-frontend/src/components/LiveGestureGame.js:248-255 | a pass with the intended cooldown sends at most one gesture, stamped with its clock reading, and only when there was no earlier send or the last was more than 800 ms before |
| GestureClient.LiveGestureGame.DetectFramesIntended | cardgame/src/main/resources/static/card-game-frontend/src/components/LiveGestureGame.js:248-255 | over any run of passes with the intended cooldown, the sends only extend the earlier ones, every two of them are more than 800 ms apart, and the first is more than 800 ms after an earlier send |
| GestureClient.SpacedAppend | cardgame/src/main/resources/static/card-game-frontend/src/components/LiveGestureGame.js:252 | a send more than 800 ms after every earlier one keeps the sends spaced |
| GestureClient.OpenPalmIsHigher | cardgame/src/main/resources/static/card-game-frontend/src/components/LiveGestureGame.js:290-331 | an example open palm, with every fingertip beyond its joint, reads "higher" |
| GestureClient.HeldHigher | cardgame/src/main/resources/static/card-game-frontend/src/components/LiveGestureGame.js:160-179 | an example of a held "higher" from an empty history: frames 1 and 2 give "none", frames 3 and 4 give "higher" |
| GestureClient.CooldownBypassedAsWritten | cardgame/src/main/resources/static/card-game-frontend/src/components/LiveGestureGame.js:248-255 | as written, an open palm held for four frames 100 ms apart is sent twice, 100 ms apart |
| GestureClient.CooldownHeldAsIntended | cardgame/src/main/resources/static/card-game-frontend/src/components/LiveGestureGame.js:248-255 | with the intended cooldown, the same four frames send the gesture once |

## Left out

- The image pipeline of live recognition is left out: resizing, greyscale, blur, Otsu threshold, contour search, convex hull and convexity defects. Its output is the `Contour` value that the contour rules consume (area, bounding box, defect quadruples).
- The scheduler, threads and concurrent maps are left out. Each scheduled frame tick is one call of `ProcessFrame`. The scheduled task is never cancelled on stop; the model cannot show this, because a stopped session's ticks return at once.
- Overlapping detection loops in the browser are left out. While detection runs, the button shows Stop (LiveGestureGame.js:497). Two `setTimeout` chains run side by side only when Stop and then Start are clicked before the old chain's pending pass checks `detectionRef`. Each pass is one call of `DetectFrame`.
- Loading OpenCV at start-up and loading the hand-landmark model are left out: they are I/O. Whether the model is loaded is the `modelLoaded` parameter.
- Landmark inference, drawing on the canvas, and the displayed gesture, message and debug texts are left out: they are UI.
- The WebSocket and STOMP transport and the REST controllers are left out. Each modelled send is an outbox or `sent` entry.
- Not every send is recorded. The browser's `startRecognition(0)` and `stopRecognition()` sends (LiveGestureGame.js:200, 211) do not appear in `sent`. The WebSocket client's register and unregister publishes (websocketService.js:31, 79) are not recorded either. Only gestures appear in `sent`.
- GestureClient.LiveGestureGame.DetectFramesIntended: clock readings are taken to be positive, as `Date.now()` is after the epoch. The code uses a send time of 0 as "nothing sent yet", so a send at time 0 would switch the cooldown off.
- Clocks, UUIDs, the shuffle's random source and camera opening are parameters, not models. `ShuffleDeck` states only that the result is a permutation, not that the shuffle is uniform.
- Floating point: ratios and depths are exact reals. Java doubles round, but the thresholds used are far from rounding error for bounding boxes of 640 by 480.
- `LiveRecognition.LiveGestureRecognitionService.ProcessFrame`: the gesture the analysis produces is discarded by the code (nothing is sent), and the model returns it just so it can be stated.
- `getGestureMessage` (LiveGestureRecognitionService.java:201-210) is never called, so it is not modelled.
- TensorFlowGesture.TensorFlowGestureService.GuessAndReply: the text of the null-dereference exception is the parameter `failureDetail`; the model does not predict the JVM's wording.
- The catch branch of the reset path (TensorFlowGestureService.java:112-120) is not modelled. Starting a game cannot fail in the model, so "Error resetting game: " is never sent.
- Timestamps are an opaque number `now`. The gesture message's `LocalDateTime` and the response map's milliseconds text are not rendered as calendar dates.
- The landmarks' depth coordinate is not used by the code, so `Point` has only x and y.
- A null gesture or session id from a client is not modelled; strings are always present.
- The browser's `makeGuess` REST path and the WebSocket client service are not part of the core modelled here.
- Game.GameState: the setters for the id and the deck are called only while a game is built, so `gameId` and `deck` are constants of the record.
- Java's `Integer` comparison by `==` for "equals" compares cached boxes. Card values 2..14 lie in the cache, so it behaves like a comparison of values, and the model compares values.

## Findings

| source | as written | input that shows it | evidently intended | confidence | as-written member | corrected member |
|---|---|---|---|---|---|---|
| cardgame/src/main/resources/static/card-game-frontend/src/components/LiveGestureGame.js:248-255 | the detection loop re-schedules the same closure with `setTimeout`, so its cooldown test reads the `lastGestureTime` of the render in which detection started; `setLastGestureTime(now)` never reaches the running loop | after Start, an open palm held for four frames 100 ms apart: the steady "higher" is sent at 1200 ms and again at 1300 ms | no two sends within 800 ms of each other | not executed | GestureClient.CooldownBypassedAsWritten | GestureClient.LiveGestureGame.DetectFrameIntended |
