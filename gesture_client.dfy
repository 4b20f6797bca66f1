/**
 * The browser side of gesture play: counting extended fingers from hand
 * landmarks, naming the gesture, steadying it over the last five frames, and
 * sending steady gestures to the server. An 800 ms cooldown is meant to space
 * the sends, but as written it does not (see `CooldownBypassedAsWritten`).
 */
module GestureClient {
  import opened Wrappers

  /** A hand landmark in image coordinates (depth is not used). */
  datatype Point = Point(x: real, y: real)

  const LandmarkCount := 21
  const FingerTips: seq<nat> := [4, 8, 12, 16, 20]
  const FingerJoints: seq<nat> := [2, 5, 9, 13, 17]
  const HistoryLength := 5
  const StableThreshold := 3
  const CooldownMs := 800

  function Bit(b: bool): nat
  {
    if b then 1 else 0
  }

  /**
   * The extended fingers of a hand: the thumb when its tip (4) lies right of
   * its joint (2), each other finger when its tip lies above its base joint.
   */
  function ExtendedFingers(lm: seq<Point>): (n: nat)
    requires |lm| >= LandmarkCount
    ensures n <= 5
  {
    Bit(lm[4].x > lm[2].x) + Bit(lm[8].y < lm[5].y) + Bit(lm[12].y < lm[9].y) +
    Bit(lm[16].y < lm[13].y) + Bit(lm[20].y < lm[17].y)
  }

  /** The extended fingers among the first `k` fingers, thumb first. */
  function ExtendedAmong(lm: seq<Point>, k: nat): nat
    requires |lm| >= LandmarkCount && k <= 5
  {
    if k == 0 then 0
    else
      ExtendedAmong(lm, k - 1) +
      Bit(if k == 1 then lm[FingerTips[0]].x > lm[FingerJoints[0]].x
          else lm[FingerTips[k - 1]].y < lm[FingerJoints[k - 1]].y)
  }

  /** Counts the extended fingers, one finger at a time. */
  method CountExtendedFingers(landmarks: seq<Point>) returns (extendedCount: int)
    requires |landmarks| >= LandmarkCount
    ensures extendedCount == ExtendedFingers(landmarks)
    ensures 0 <= extendedCount <= 5
  {
    extendedCount := 0;
    for i := 0 to 5
      invariant extendedCount == ExtendedAmong(landmarks, i)
    {
      var tip := landmarks[FingerTips[i]];
      var joint := landmarks[FingerJoints[i]];
      if i == 0 {
        if tip.x > joint.x {
          extendedCount := extendedCount + 1;
        }
      } else {
        if tip.y < joint.y {
          extendedCount := extendedCount + 1;
        }
      }
    }
    assert ExtendedAmong(landmarks, 1) == Bit(landmarks[4].x > landmarks[2].x);
    assert ExtendedAmong(landmarks, 3) == ExtendedAmong(landmarks, 1) +
      Bit(landmarks[8].y < landmarks[5].y) + Bit(landmarks[12].y < landmarks[9].y);
    assert ExtendedAmong(landmarks, 5) == ExtendedAmong(landmarks, 3) +
      Bit(landmarks[16].y < landmarks[13].y) + Bit(landmarks[20].y < landmarks[17].y);
  }

  /** The gesture a finger count stands for. */
  function GestureForCount(extendedFingers: int): (g: string)
    ensures g in {"higher", "lower", "reset", "none"}
  {
    if extendedFingers >= 4 then "higher"
    else if extendedFingers <= 1 then "lower"
    else if extendedFingers == 2 then "reset"
    else "none"
  }

  /** The table over every count a hand can show. */
  lemma GestureTable()
    ensures GestureForCount(0) == "lower" && GestureForCount(1) == "lower"
    ensures GestureForCount(2) == "reset" && GestureForCount(3) == "none"
    ensures GestureForCount(4) == "higher" && GestureForCount(5) == "higher"
  {
  }

  /** Names the gesture a hand shows. */
  method ClassifyGesture(landmarks: seq<Point>) returns (g: string)
    requires |landmarks| >= LandmarkCount
    ensures g == GestureForCount(ExtendedFingers(landmarks))
    ensures g in {"higher", "lower", "reset", "none"}
  {
    var extendedFingers := CountExtendedFingers(landmarks);
    g := GestureForCount(extendedFingers);
  }

  // ---------------------------------------------------------------------------
  // Steadying: three of the last five frames
  // ---------------------------------------------------------------------------

  /** The last five entries of a history (all of it when shorter). */
  function Window(h: seq<string>): (w: seq<string>)
    ensures |w| == if |h| <= HistoryLength then |h| else HistoryLength
    ensures w == h[|h| - |w|..]
  {
    if |h| <= HistoryLength then h else h[|h| - HistoryLength..]
  }

  /** A gesture is steady in a history when it is not "none" and fills at least three entries. */
  predicate Steady(h: seq<string>, g: string)
  {
    g != "none" && multiset(h)[g] >= StableThreshold
  }

  /**
   * The steady gesture of a history: the first entry (in order of first
   * occurrence) that is steady, or "none".
   */
  function StableOf(h: seq<string>): string
  {
    FirstSteadyFrom(h, 0)
  }

  function FirstSteadyFrom(h: seq<string>, i: nat): string
    requires i <= |h|
    decreases |h| - i
  {
    if i == |h| then "none"
    else if Steady(h, h[i]) then h[i]
    else FirstSteadyFrom(h, i + 1)
  }

  /** Two different gestures together fill no more entries than the history has. */
  lemma {:induction false} TwoCountsBounded(h: seq<string>, a: string, b: string)
    requires a != b
    ensures multiset(h)[a] + multiset(h)[b] <= |h|
  {
    if h != [] {
      TwoCountsBounded(h[..|h| - 1], a, b);
      assert h == h[..|h| - 1] + [h[|h| - 1]];
    }
  }

  /** In five entries or fewer at most one gesture is steady, whatever order the counts are read in. */
  lemma SteadyIsUnique(h: seq<string>, a: string, b: string)
    requires |h| <= HistoryLength
    requires Steady(h, a) && Steady(h, b)
    ensures a == b
  {
    if a != b {
      TwoCountsBounded(h, a, b);
    }
  }

  /** The positional scan finds a steady gesture exactly when there is one. */
  lemma {:induction false} FirstSteadyFromMeaning(h: seq<string>, i: nat)
    requires i <= |h|
    ensures FirstSteadyFrom(h, i) != "none" ==> Steady(h, FirstSteadyFrom(h, i))
    ensures FirstSteadyFrom(h, i) == "none" ==> forall k :: i <= k < |h| ==> !Steady(h, h[k])
    decreases |h| - i
  {
    if i < |h| && !Steady(h, h[i]) {
      FirstSteadyFromMeaning(h, i + 1);
    }
  }

  /**
   * The steady gesture of a window is the unique steady gesture, or "none"
   * when no gesture other than "none" fills three entries.
   */
  lemma StableOfMeaning(h: seq<string>)
    requires |h| <= HistoryLength
    ensures StableOf(h) != "none" ==> Steady(h, StableOf(h))
    ensures StableOf(h) == "none" <==> forall g :: !Steady(h, g)
    ensures forall g :: Steady(h, g) ==> StableOf(h) == g
  {
    FirstSteadyFromMeaning(h, 0);
    forall g | Steady(h, g)
      ensures StableOf(h) == g
    {
      assert g in multiset(h);
      var k :| 0 <= k < |h| && h[k] == g;
      assert StableOf(h) != "none";
      SteadyIsUnique(h, StableOf(h), g);
    }
  }

  /** No gesture fills an entry more often than the history is long. */
  lemma {:induction false} CountBounded(h: seq<string>, g: string)
    ensures multiset(h)[g] <= |h|
  {
    if h != [] {
      CountBounded(h[..|h| - 1], g);
      assert h == h[..|h| - 1] + [h[|h| - 1]];
    }
  }

  /** The first two frames after the history is emptied never yield a steady gesture. */
  lemma NoneRightAfterReset(g1: string, g2: string)
    ensures StableOf(Window([] + [g1])) == "none"
    ensures StableOf(Window(Window([] + [g1]) + [g2])) == "none"
  {
    var h1 := Window([] + [g1]);
    var h2 := Window(h1 + [g2]);
    forall g ensures !Steady(h1, g) && !Steady(h2, g) {
      CountBounded(h1, g);
      CountBounded(h2, g);
    }
    StableOfMeaning(h1);
    StableOfMeaning(h2);
  }

  /** The distinct entries of a history, in order of first appearance. */
  function FirstAppearances(h: seq<string>): seq<string>
    decreases |h|
  {
    if h == [] then []
    else
      var prev := FirstAppearances(h[..|h| - 1]);
      if h[|h| - 1] in prev then prev else prev + [h[|h| - 1]]
  }

  /** The listed gestures are exactly the entries of the history, none listed twice. */
  lemma {:induction false} FirstAppearancesMeaning(h: seq<string>)
    ensures forall g :: g in FirstAppearances(h) <==> g in h
    ensures forall i, j :: 0 <= i < j < |FirstAppearances(h)| ==> FirstAppearances(h)[i] != FirstAppearances(h)[j]
    decreases |h|
  {
    if h != [] {
      FirstAppearancesMeaning(h[..|h| - 1]);
      assert h == h[..|h| - 1] + [h[|h| - 1]];
    }
  }

  /**
   * The counts dictionary of a history: how often each gesture occurs, with
   * the gestures listed in order of first appearance, as a dictionary with
   * string keys enumerates them.
   */
  method CountGestures(h: seq<string>) returns (counts: map<string, nat>, keys: seq<string>)
    ensures forall g :: g in counts <==> g in h
    ensures forall g :: g in counts ==> counts[g] == multiset(h)[g]
    ensures keys == FirstAppearances(h)
    ensures forall g :: g in counts <==> g in keys
  {
    counts, keys := map[], [];
    for i := 0 to |h|
      invariant forall g :: g in counts <==> g in h[..i]
      invariant forall g :: g in counts ==> counts[g] == multiset(h[..i])[g]
      invariant forall g :: g in counts <==> g in keys
      invariant keys == FirstAppearances(h[..i])
    {
      var g := h[i];
      assert h[..i + 1] == h[..i] + [g];
      assert h[..i + 1][..i] == h[..i];
      if g !in counts {
        keys := keys + [g];
      }
      counts := counts[g := (if g in counts then counts[g] else 0) + 1];
    }
    assert h[..|h|] == h;
  }

  /**
   * Scans the counts dictionary of a window of at most five entries for a
   * gesture other than "none" counted at least three times.
   */
  method ScanCounts(h: seq<string>) returns (r: string)
    requires |h| <= HistoryLength
    ensures r == StableOf(h)
    ensures r != "none" ==> Steady(h, r)
    ensures r == "none" ==> forall g :: !Steady(h, g)
  {
    StableOfMeaning(h);
    var counts, keys := CountGestures(h);
    for j := 0 to |keys|
      invariant forall k :: 0 <= k < j ==> !Steady(h, keys[k])
    {
      if counts[keys[j]] >= StableThreshold && keys[j] != "none" {
        assert Steady(h, keys[j]);
        return keys[j];
      }
    }
    forall g
      ensures !Steady(h, g)
    {
      if g in h {
        var k :| 0 <= k < |keys| && keys[k] == g;
      }
    }
    r := "none";
  }

  /** Whether a steady gesture goes to the server now: there is a game and the cooldown has run out. */
  predicate MaySend(stable: string, gameId: Option<string>, lastGestureTime: int, now: int)
  {
    stable != "none" && gameId.Some? && gameId.value != "" &&
    (lastGestureTime == 0 || now - lastGestureTime > CooldownMs)
  }

  /**
   * Only a steady gesture with a game goes out, and never within the cooldown
   * of the send time the pass reads.
   */
  lemma MaySendRule(stable: string, gameId: Option<string>, lastGestureTime: int, now: int)
    ensures MaySend(stable, gameId, lastGestureTime, now) ==> stable != "none" && gameId.Some? && gameId.value != ""
    ensures lastGestureTime != 0 && now - lastGestureTime <= CooldownMs ==> !MaySend(stable, gameId, lastGestureTime, now)
    ensures stable != "none" && gameId.Some? && gameId.value != "" && lastGestureTime == 0 ==>
      MaySend(stable, gameId, lastGestureTime, now)
  {
  }

  /** One gesture sent to the server, with the game it is for. */
  datatype Sent = Sent(gesture: string, gameId: string, at: int)

  /**
   * The detection state of the game component. `lastGestureTime` is the
   * component's state; `loopLastGestureTime` is the copy of it that the
   * running detection loop reads, captured when detection was started.
   */
  class LiveGestureGame {
    var history: seq<string>
    var gameId: Option<string>
    var detecting: bool
    var lastGestureTime: int
    var loopLastGestureTime: int
    var sent: seq<Sent>

    ghost predicate Valid()
      reads this
    {
      |history| <= HistoryLength
    }

    constructor ()
      ensures Valid()
      ensures history == [] && gameId == None && !detecting
      ensures lastGestureTime == 0 && loopLastGestureTime == 0 && sent == []
    {
      history, gameId, detecting := [], None, false;
      lastGestureTime, loopLastGestureTime, sent := 0, 0, [];
    }

    /** A new game was started on the server and its id is remembered. */
    method GameStarted(newGameId: string)
      requires Valid()
      modifies this
      ensures Valid()
      ensures gameId == Some(newGameId)
      ensures history == old(history) && detecting == old(detecting) && sent == old(sent)
      ensures lastGestureTime == old(lastGestureTime) && loopLastGestureTime == old(loopLastGestureTime)
    {
      gameId := Some(newGameId);
    }

    /** Restarting clears the history and forgets the game until the new one is started. */
    method RestartGame()
      modifies this
      ensures Valid()
      ensures history == [] && gameId == None
      ensures detecting == old(detecting) && sent == old(sent)
      ensures lastGestureTime == old(lastGestureTime) && loopLastGestureTime == old(loopLastGestureTime)
    {
      history := [];
      gameId := None;
    }

    /**
     * Starts detection when the hand model is loaded, the camera is available
     * and the socket is connected; the cooldown and the history are reset. The
     * loop that starts reads the cooldown time as it was before the reset.
     */
    method StartGestureDetection(modelLoaded: bool, cameraAvailable: bool, wsConnected: bool)
      requires Valid()
      modifies this
      ensures Valid()
      ensures !(modelLoaded && cameraAvailable && wsConnected) ==>
        history == old(history) && detecting == old(detecting) &&
        lastGestureTime == old(lastGestureTime) && loopLastGestureTime == old(loopLastGestureTime)
      ensures modelLoaded && cameraAvailable && wsConnected ==>
        detecting && history == [] && lastGestureTime == 0 && loopLastGestureTime == old(lastGestureTime)
      ensures gameId == old(gameId) && sent == old(sent)
    {
      if !modelLoaded || !cameraAvailable || !wsConnected {
        return;
      }
      detecting := true;
      loopLastGestureTime := lastGestureTime;
      lastGestureTime := 0;
      history := [];
    }

    /** Stops detection and clears the history. */
    method StopGestureDetection()
      modifies this
      ensures Valid()
      ensures !detecting && history == []
      ensures gameId == old(gameId) && sent == old(sent)
      ensures lastGestureTime == old(lastGestureTime) && loopLastGestureTime == old(loopLastGestureTime)
    {
      detecting := false;
      history := [];
    }

    /**
     * Adds a frame's gesture to the history, keeps the last five, and returns
     * the gesture that fills at least three of them (not "none"), or "none".
     */
    method GetStableGesture(currentGesture: string) returns (r: string)
      modifies this
      ensures Valid()
      ensures history == Window(old(history) + [currentGesture])
      ensures r == StableOf(history)
      ensures r != "none" ==> Steady(history, r)
      ensures r == "none" ==> forall g :: !Steady(history, g)
      ensures gameId == old(gameId) && detecting == old(detecting) && sent == old(sent)
      ensures lastGestureTime == old(lastGestureTime) && loopLastGestureTime == old(loopLastGestureTime)
    {
      history := Window(history + [currentGesture]);
      r := ScanCounts(history);
    }

    /** The hand-found part of a pass: classify the hand, then steady the result. */
    method ObserveHand(landmarks: seq<Point>) returns (stable: string)
      requires Valid()
      requires |landmarks| >= LandmarkCount
      modifies this
      ensures Valid()
      ensures history == Window(old(history) + [GestureForCount(ExtendedFingers(landmarks))])
      ensures stable == StableOf(history)
      ensures gameId == old(gameId) && detecting == old(detecting) && sent == old(sent)
      ensures lastGestureTime == old(lastGestureTime) && loopLastGestureTime == old(loopLastGestureTime)
    {
      var rawGesture := ClassifyGesture(landmarks);
      stable := GetStableGesture(rawGesture);
    }

    /**
     * One pass of the detection loop, as written. `videoReady` says whether
     * the webcam has a frame, `hand` is the first hand found in it (if any)
     * and `now` the clock. The cooldown test reads the loop's copy of the
     * last send time, which sending does not refresh.
     */
    method DetectFrame(videoReady: bool, hand: Option<seq<Point>>, now: int)
      requires Valid()
      requires hand.Some? ==> |hand.value| >= LandmarkCount
      modifies this
      ensures Valid()
      ensures gameId == old(gameId) && detecting == old(detecting)
      ensures loopLastGestureTime == old(loopLastGestureTime)
      ensures !detecting || !videoReady ==>
        history == old(history) && sent == old(sent) && lastGestureTime == old(lastGestureTime)
      ensures detecting && videoReady && hand.None? ==>
        history == [] && sent == old(sent) && lastGestureTime == old(lastGestureTime)
      ensures detecting && videoReady && hand.Some? ==>
        && history == Window(old(history) + [GestureForCount(ExtendedFingers(hand.value))])
        && var stable := StableOf(history);
        && (if MaySend(stable, gameId, loopLastGestureTime, now) then
              sent == old(sent) + [Sent(stable, gameId.value, now)] && lastGestureTime == now
            else
              sent == old(sent) && lastGestureTime == old(lastGestureTime))
    {
      if !detecting || !videoReady {
        return;
      }
      if hand.None? {
        history := [];
        return;
      }
      var stableGesture := ObserveHand(hand.value);
      if MaySend(stableGesture, gameId, loopLastGestureTime, now) {
        sent := sent + [Sent(stableGesture, gameId.value, now)];
        lastGestureTime := now;
      }
    }

    /**
     * One pass of the detection loop with the cooldown the code intends: the
     * test reads the current last send time, and a send refreshes it.
     */
    method DetectFrameIntended(videoReady: bool, hand: Option<seq<Point>>, now: int)
      requires Valid()
      requires hand.Some? ==> |hand.value| >= LandmarkCount
      modifies this
      ensures Valid()
      ensures gameId == old(gameId) && detecting == old(detecting)
      ensures !detecting || !videoReady ==>
        history == old(history) && sent == old(sent) && lastGestureTime == old(lastGestureTime)
      ensures detecting && videoReady && hand.None? ==>
        history == [] && sent == old(sent) && lastGestureTime == old(lastGestureTime)
      ensures detecting && videoReady && hand.Some? ==>
        && history == Window(old(history) + [GestureForCount(ExtendedFingers(hand.value))])
        && var stable := StableOf(history);
        && (if MaySend(stable, gameId, old(lastGestureTime), now) then
              sent == old(sent) + [Sent(stable, gameId.value, now)] && lastGestureTime == now
            else
              sent == old(sent) && lastGestureTime == old(lastGestureTime))
      ensures loopLastGestureTime == (if |sent| > |old(sent)| then now else old(loopLastGestureTime))
    {
      if !detecting || !videoReady {
        return;
      }
      if hand.None? {
        history := [];
        return;
      }
      var stableGesture := ObserveHand(hand.value);
      if MaySend(stableGesture, gameId, lastGestureTime, now) {
        sent := sent + [Sent(stableGesture, gameId.value, now)];
        lastGestureTime := now;
        loopLastGestureTime := now;
      }
    }

    /** One pass with the intended cooldown, seen only through what it sends. */
    method PassIntended(f: Frame)
      requires Valid()
      requires f.hand.Some? ==> |f.hand.value| >= LandmarkCount
      modifies this
      ensures Valid()
      ensures |sent| == |old(sent)| || |sent| == |old(sent)| + 1
      ensures |sent| == |old(sent)| ==> sent == old(sent) && lastGestureTime == old(lastGestureTime)
      ensures |sent| != |old(sent)| ==>
        && sent == old(sent) + [sent[|old(sent)|]]
        && sent[|old(sent)|].at == f.at && lastGestureTime == f.at
        && (old(lastGestureTime) == 0 || f.at - old(lastGestureTime) > CooldownMs)
      ensures gameId == old(gameId) && detecting == old(detecting)
    {
      DetectFrameIntended(f.videoReady, f.hand, f.at);
    }

    /**
     * Successive passes of the detection loop with the intended cooldown, on
     * clock readings after the epoch: the sends they make are pairwise more
     * than 800 ms apart, and the first is more than 800 ms after an earlier send.
     */
    method DetectFramesIntended(frames: seq<Frame>)
      requires Valid()
      requires forall k :: 0 <= k < |frames| ==> frames[k].at > 0
      requires forall k :: 0 <= k < |frames| ==> frames[k].hand.Some? ==> |frames[k].hand.value| >= LandmarkCount
      modifies this
      ensures Valid()
      ensures |sent| >= |old(sent)| && sent[..|old(sent)|] == old(sent)
      ensures Spaced(sent[|old(sent)|..])
      ensures |sent| > |old(sent)| && old(lastGestureTime) != 0 ==>
        sent[|old(sent)|].at - old(lastGestureTime) > CooldownMs
      ensures gameId == old(gameId) && detecting == old(detecting)
    {
      ghost var added: seq<Sent> := [];
      for i := 0 to |frames|
        invariant Valid()
        invariant gameId == old(gameId) && detecting == old(detecting)
        invariant sent == old(sent) + added
        invariant Spaced(added)
        invariant added == [] ==> lastGestureTime == old(lastGestureTime)
        invariant added != [] ==> lastGestureTime == added[|added| - 1].at && lastGestureTime > 0
        invariant forall k :: 0 <= k < |added| ==> added[k].at <= lastGestureTime
        invariant added != [] && old(lastGestureTime) != 0 ==> added[0].at - old(lastGestureTime) > CooldownMs
      {
        ghost var before := sent;
        PassIntended(frames[i]);
        if |sent| != |before| {
          var x := sent[|before|];
          SpacedAppend(added, x);
          added := added + [x];
        }
      }
      assert sent[|old(sent)|..] == added;
    }
  }

  /** One webcam pass: whether the video was ready, the first hand found, and the clock. */
  datatype Frame = Frame(videoReady: bool, hand: Option<seq<Point>>, at: int)

  /** Any two sends are more than the cooldown apart. */
  predicate Spaced(s: seq<Sent>)
  {
    forall i, j :: 0 <= i < j < |s| ==> s[j].at - s[i].at > CooldownMs
  }

  /** A send more than the cooldown after every earlier one keeps the sends spaced. */
  lemma SpacedAppend(s: seq<Sent>, x: Sent)
    requires Spaced(s)
    requires forall k :: 0 <= k < |s| ==> x.at - s[k].at > CooldownMs
    ensures Spaced(s + [x])
  {
  }

  /** A hand with all five fingers extended. */
  const OpenPalm: seq<Point> := seq(21, i => Point(i as real, (21 - i) as real))

  lemma OpenPalmIsHigher()
    ensures |OpenPalm| == LandmarkCount
    ensures GestureForCount(ExtendedFingers(OpenPalm)) == "higher"
  {
    assert OpenPalm[4].x > OpenPalm[2].x && OpenPalm[8].y < OpenPalm[5].y;
    assert OpenPalm[12].y < OpenPalm[9].y && OpenPalm[16].y < OpenPalm[13].y;
    assert OpenPalm[20].y < OpenPalm[17].y;
  }

  /** The steady gesture while "higher" is held: none for two frames, then "higher". */
  lemma HeldHigher()
    ensures Window([] + ["higher"]) == ["higher"] && StableOf(["higher"]) == "none"
    ensures Window(["higher"] + ["higher"]) == ["higher", "higher"] && StableOf(["higher", "higher"]) == "none"
    ensures Window(["higher", "higher"] + ["higher"]) == ["higher", "higher", "higher"]
    ensures StableOf(["higher", "higher", "higher"]) == "higher"
    ensures Window(["higher", "higher", "higher"] + ["higher"]) == ["higher", "higher", "higher", "higher"]
    ensures StableOf(["higher", "higher", "higher", "higher"]) == "higher"
  {
    assert multiset(["higher"])["higher"] == 1;
    assert multiset(["higher", "higher"])["higher"] == 2;
    assert multiset(["higher", "higher", "higher"])["higher"] == 3;
    assert multiset(["higher", "higher", "higher", "higher"])["higher"] == 4;
  }

  /**
   * As written: with detection started from a fresh component, an open palm
   * held for four frames 100 ms apart is sent on the third frame and again on
   * the fourth, 100 ms later, although the cooldown is 800 ms.
   */
  method CooldownBypassedAsWritten() returns (sends: seq<Sent>)
    ensures sends == [Sent("higher", "g", 1200), Sent("higher", "g", 1300)]
  {
    OpenPalmIsHigher();
    HeldHigher();
    var game := new LiveGestureGame();
    game.GameStarted("g");
    game.StartGestureDetection(true, true, true);
    game.DetectFrame(true, Some(OpenPalm), 1000);
    assert game.history == ["higher"] && game.sent == [];
    game.DetectFrame(true, Some(OpenPalm), 1100);
    assert game.history == ["higher", "higher"] && game.sent == [];
    MaySendRule("higher", Some("g"), 0, 1200);
    game.DetectFrame(true, Some(OpenPalm), 1200);
    assert game.history == ["higher", "higher", "higher"];
    assert game.sent == [Sent("higher", "g", 1200)];
    MaySendRule("higher", Some("g"), 0, 1300);
    game.DetectFrame(true, Some(OpenPalm), 1300);
    sends := game.sent;
  }

  /** With the intended cooldown the same four frames send the gesture once. */
  method CooldownHeldAsIntended() returns (sends: seq<Sent>)
    ensures sends == [Sent("higher", "g", 1200)]
  {
    OpenPalmIsHigher();
    HeldHigher();
    var game := new LiveGestureGame();
    game.GameStarted("g");
    game.StartGestureDetection(true, true, true);
    game.DetectFrameIntended(true, Some(OpenPalm), 1000);
    assert game.history == ["higher"] && game.sent == [];
    game.DetectFrameIntended(true, Some(OpenPalm), 1100);
    assert game.history == ["higher", "higher"] && game.sent == [];
    MaySendRule("higher", Some("g"), 0, 1200);
    game.DetectFrameIntended(true, Some(OpenPalm), 1200);
    assert game.history == ["higher", "higher", "higher"];
    assert game.sent == [Sent("higher", "g", 1200)] && game.lastGestureTime == 1200;
    MaySendRule("higher", Some("g"), 1200, 1300);
    game.DetectFrameIntended(true, Some(OpenPalm), 1300);
    sends := game.sent;
  }
}
