/**
 * Server-side live recognition: a registry of per-session camera captures and
 * running flags, and the rules that turn the largest hand contour of a frame
 * into a gesture word.
 */
module LiveRecognition {
  import opened Wrappers
  import opened Messages

  /** The response map sent to a session: gesture word, text and the send time in milliseconds. */
  datatype GestureResponse = GestureResponse(gesture: string, message: string, timestamp: string)

  function Response(gesture: string, message: string, now: int): GestureResponse
  {
    GestureResponse(gesture, message, IntToString(now))
  }

  /** A response carries the gesture and text it was given, and a clock reading after the epoch as its decimal digits. */
  lemma ResponseFields(gesture: string, message: string, now: int)
    ensures var r := Response(gesture, message, now);
      && r.gesture == gesture && r.message == message
      && (now >= 0 ==> AllDigits(r.timestamp) && DigitsValue(r.timestamp) == now)
  {
    IntToStringValue(now);
  }

  /**
   * A camera handle. Whether the device opens is decided when it is created;
   * `releases` counts how often it was released.
   */
  class VideoCapture {
    const cameraIndex: int
    var isOpen: bool
    var releases: nat

    constructor (cameraIndex: int, opens: bool)
      ensures this.cameraIndex == cameraIndex && isOpen == opens && releases == 0
    {
      this.cameraIndex := cameraIndex;
      isOpen := opens;
      releases := 0;
    }

    method Release()
      modifies this
      ensures !isOpen && releases == old(releases) + 1
    {
      isOpen := false;
      releases := releases + 1;
    }
  }

  // ---------------------------------------------------------------------------
  // Features of the largest contour and the rules over them
  // ---------------------------------------------------------------------------

  /**
   * What the image pipeline reports about the largest contour of a frame: its
   * area, the size of its bounding box, and its convexity defects flattened
   * into quadruples (start, end, farthest point, fixed-point depth).
   */
  datatype Contour = Contour(area: real, width: int, height: int, defects: seq<int>)

  /** Bounding boxes of contours are at least one pixel each way; defects come in quadruples. */
  predicate WellFormed(c: Contour)
  {
    c.width >= 1 && c.height >= 1 && c.area >= 0.0 && |c.defects| % 4 == 0
  }

  const MinHandArea: real := 1000.0

  /** A defect counts as a gap between fingers when its depth, in pixels, exceeds 20. */
  predicate IsDeep(rawDepth: int)
  {
    rawDepth as real / 256.0 > 20.0
  }

  /** The number of deep defects among the quadruples of `d`. */
  function DeepDefects(d: seq<int>): (n: nat)
    requires |d| % 4 == 0
    ensures n <= |d| / 4
    decreases |d|
  {
    if d == [] then 0
    else DeepDefects(d[..|d| - 4]) + (if IsDeep(d[|d| - 1]) then 1 else 0)
  }

  /** No defects means no fingers; otherwise one more than the deep defects, at most five. */
  function FingerCount(d: seq<int>): int
    requires |d| % 4 == 0
  {
    if d == [] then 0
    else if DeepDefects(d) + 1 < 5 then DeepDefects(d) + 1 else 5
  }

  /** The depth test on the fixed-point depth is an integer threshold. */
  lemma IsDeepThreshold(rawDepth: int)
    ensures IsDeep(rawDepth) <==> rawDepth > 5120
  {
    if rawDepth > 5120 {
      assert rawDepth as real >= 5121.0;
      assert rawDepth as real / 256.0 >= 5121.0 / 256.0;
    } else {
      assert rawDepth as real <= 5120.0;
      assert rawDepth as real / 256.0 <= 5120.0 / 256.0;
    }
  }

  /** Counts fingers from the flattened defect quadruples, four entries at a time. */
  method CountFingersFromDefects(defects: seq<int>) returns (fingerCount: int)
    requires |defects| % 4 == 0
    ensures fingerCount == FingerCount(defects)
    ensures defects == [] ==> fingerCount == 0
    ensures defects != [] ==> 1 <= fingerCount <= 5
  {
    if defects == [] {
      return 0;
    }
    var deep := 0;
    var i := 0;
    while i < |defects|
      invariant 0 <= i <= |defects| && i % 4 == 0
      invariant deep == DeepDefects(defects[..i])
    {
      var depth := defects[i + 3] as real / 256.0;
      if depth > 20.0 {
        deep := deep + 1;
      }
      assert defects[..i + 4][..i] == defects[..i];
      i := i + 4;
    }
    assert defects[..i] == defects;
    fingerCount := if deep + 1 < 5 then deep + 1 else 5;
  }

  /** Width over height of the bounding box. */
  function AspectRatio(c: Contour): (r: real)
    requires WellFormed(c)
    ensures r > 0.0
    ensures r * c.height as real == c.width as real
  {
    c.width as real / c.height as real
  }

  /** The share of the bounding box that the contour fills. */
  function Extent(c: Contour): (e: real)
    requires WellFormed(c)
    ensures e >= 0.0
    ensures e * (c.width * c.height) as real == c.area
    ensures c.area <= (c.width * c.height) as real ==> e <= 1.0
  {
    var rect := c.width * c.height;
    ProductAtLeastOne(c.width, c.height);
    QuotientCompare(c.area, rect as real, 1.0);
    c.area / rect as real
  }

  /** A bounding box of at least one pixel each way has a positive area, so the extent's division is defined. */
  lemma ProductAtLeastOne(w: int, h: int)
    requires w >= 1 && h >= 1
    ensures w * h >= 1
  {
    assert w * h >= 1 * h;
  }

  /** The ordered rules: open palm first, then a compact blob, then a fingerless squat blob. */
  function GestureRule(fingerCount: int, aspectRatio: real, extent: real): (g: string)
    ensures g in {"higher", "lower", "uncertain"}
  {
    if fingerCount >= 4 && aspectRatio > 0.8 then "higher"
    else if fingerCount <= 2 && extent > 0.7 then "lower"
    else if fingerCount == 0 && aspectRatio < 1.2 then "lower"
    else "uncertain"
  }

  /** Each rule of the chain fires exactly when the rules before it did not. */
  lemma GestureRuleCases(fingerCount: int, aspectRatio: real, extent: real)
    ensures GestureRule(fingerCount, aspectRatio, extent) == "higher" <==>
      fingerCount >= 4 && aspectRatio > 0.8
    ensures GestureRule(fingerCount, aspectRatio, extent) == "lower" <==>
      !(fingerCount >= 4 && aspectRatio > 0.8) &&
      ((fingerCount <= 2 && extent > 0.7) || (fingerCount == 0 && aspectRatio < 1.2))
  {
  }

  /** The gesture of a well-formed contour whose features are measured. */
  function ContourGesture(c: Contour): string
    requires WellFormed(c)
  {
    GestureRule(FingerCount(c.defects), AspectRatio(c), Extent(c))
  }

  /** Comparing a quotient with a bound is comparing the dividend with the scaled bound. */
  lemma QuotientCompare(x: real, h: real, k: real)
    requires h > 0.0
    ensures x / h > k <==> x > k * h
    ensures x / h < k <==> x < k * h
  {
    var q := x / h;
    assert q * h == x;
    if q > k {
      assert q * h > k * h;
    } else {
      assert q * h <= k * h;
    }
    if q < k {
      assert q * h < k * h;
    } else {
      assert q * h >= k * h;
    }
  }

  /**
   * Over the integer bounding box the ratio tests are cross-multiplications:
   * "higher" needs four fingers and 5 * width > 4 * height, and a contour
   * with three fingers never reads as "lower".
   */
  lemma ContourGestureByCrossProducts(c: Contour)
    requires WellFormed(c)
    ensures ContourGesture(c) == "higher" <==> FingerCount(c.defects) >= 4 && 5 * c.width > 4 * c.height
    ensures FingerCount(c.defects) == 3 ==> ContourGesture(c) == "uncertain"
    ensures FingerCount(c.defects) == 0 && 5 * c.width < 6 * c.height ==> ContourGesture(c) == "lower"
  {
    QuotientCompare(c.width as real, c.height as real, 0.8);
    QuotientCompare(c.width as real, c.height as real, 1.2);
  }

  /** Classifies a contour from its bounding box, its area and its defects. */
  method ClassifyHandGesture(contour: Contour) returns (g: string)
    requires WellFormed(contour)
    ensures g == ContourGesture(contour)
    ensures g in {"higher", "lower", "uncertain"}
  {
    var aspectRatio := contour.width as real / contour.height as real;
    var rectArea := contour.width * contour.height;
    var extent := contour.area / rectArea as real;
    var fingerCount := CountFingersFromDefects(contour.defects);
    g := GestureRule(fingerCount, aspectRatio, extent);
  }

  /** The gesture read from a frame's largest contour: none without a contour big enough to be a hand. */
  function FrameGesture(largest: Option<Contour>): (g: string)
    requires largest.Some? ==> WellFormed(largest.value)
    ensures g in {"none", "higher", "lower", "uncertain"}
    ensures g == "none" <==> largest.None? || largest.value.area < MinHandArea
  {
    if largest.None? || largest.value.area < MinHandArea then "none"
    else ContourGesture(largest.value)
  }

  /** The contour stage of frame analysis, given the largest contour found (if any). */
  method AnalyseFrame(largest: Option<Contour>) returns (g: string)
    requires largest.Some? ==> WellFormed(largest.value)
    ensures g == FrameGesture(largest)
  {
    if largest.None? {
      return "none";
    }
    if largest.value.area < MinHandArea {
      return "none";
    }
    g := ClassifyHandGesture(largest.value);
  }

  // ---------------------------------------------------------------------------
  // The session registry
  // ---------------------------------------------------------------------------

  class LiveGestureRecognitionService {
    var userSessions: map<string, VideoCapture>
    var sessionStatus: map<string, bool>
    var outbox: seq<Outgoing<GestureResponse>>
    /** Every capture this service has released. */
    ghost var Retired: set<VideoCapture>

    /**
     * A stored capture belongs to a running session, is open, has never been
     * released and is stored under one id only; every retired capture was
     * released exactly once.
     */
    ghost predicate Valid()
      reads this, userSessions.Values, Retired
    {
      && (forall id :: id in userSessions ==> Running(id))
      && (forall id :: id in userSessions ==>
            userSessions[id].isOpen && userSessions[id].releases == 0 && userSessions[id] !in Retired)
      && (forall a, b :: a in userSessions && b in userSessions && a != b ==> userSessions[a] != userSessions[b])
      && (forall c :: c in Retired ==> c.releases == 1)
    }

    /** The running flag of a session, false when it was never set. */
    predicate Running(sessionId: string)
      reads this
    {
      sessionId in sessionStatus && sessionStatus[sessionId]
    }

    constructor ()
      ensures Valid()
      ensures userSessions == map[] && sessionStatus == map[] && outbox == [] && Retired == {}
    {
      userSessions, sessionStatus, outbox := map[], map[], [];
      Retired := {};
    }

    /**
     * Starts recognition for a session with the given camera; `cameraOpens`
     * says whether the device opens. A running session is left alone.
     */
    method StartLiveRecognition(sessionId: string, cameraIndex: int, cameraOpens: bool, now: int)
      requires Valid()
      modifies this
      ensures Valid()
      ensures Retired == old(Retired)
      ensures old(Running(sessionId)) ==>
        userSessions == old(userSessions) && sessionStatus == old(sessionStatus) && outbox == old(outbox)
      ensures !old(Running(sessionId)) && !cameraOpens ==>
        && userSessions == old(userSessions) && sessionStatus == old(sessionStatus)
        && outbox == old(outbox) + [Outgoing(Topic(sessionId), Response("error", "Could not open camera", now))]
      ensures !old(Running(sessionId)) && cameraOpens ==>
        && sessionId !in old(userSessions)
        && sessionId in userSessions && fresh(userSessions[sessionId])
        && userSessions[sessionId].cameraIndex == cameraIndex
        && userSessions == old(userSessions)[sessionId := userSessions[sessionId]]
        && sessionStatus == old(sessionStatus)[sessionId := true]
        && outbox == old(outbox) + [Outgoing(Topic(sessionId), Response("started", "Live recognition started", now))]
    {
      if Running(sessionId) {
        return;
      }
      var capture := new VideoCapture(cameraIndex, cameraOpens);
      if !capture.isOpen {
        outbox := outbox + [Outgoing(Topic(sessionId), Response("error", "Could not open camera", now))];
        return;
      }
      userSessions := userSessions[sessionId := capture];
      sessionStatus := sessionStatus[sessionId := true];
      outbox := outbox + [Outgoing(Topic(sessionId), Response("started", "Live recognition started", now))];
    }

    /**
     * Stops recognition: the flag is cleared, a stored capture is removed and
     * released, and the stop notice is sent whether or not the session was known.
     */
    method StopLiveRecognition(sessionId: string, now: int)
      requires Valid()
      modifies this, if sessionId in userSessions then {userSessions[sessionId]} else {}
      ensures Valid()
      ensures sessionStatus == old(sessionStatus)[sessionId := false]
      ensures userSessions == old(userSessions) - {sessionId}
      ensures sessionId in old(userSessions) ==>
        var c := old(userSessions)[sessionId];
        c.releases == 1 && !c.isOpen && Retired == old(Retired) + {c}
      ensures sessionId !in old(userSessions) ==> Retired == old(Retired)
      ensures outbox == old(outbox) + [Outgoing(Topic(sessionId), Response("stopeed", "Live recognition stopped", now))]
    {
      sessionStatus := sessionStatus[sessionId := false];
      if sessionId in userSessions {
        var capture := userSessions[sessionId];
        userSessions := userSessions - {sessionId};
        assert forall id :: id in userSessions ==> userSessions[id] != capture;
        capture.Release();
        Retired := Retired + {capture};
      }
      outbox := outbox + [Outgoing(Topic(sessionId), Response("stopeed", "Live recognition stopped", now))];
    }

    /**
     * One scheduled tick. `frameRead` says whether a non-empty frame was read
     * and `largest` is the largest contour found in it. The result is the
     * gesture the analysis produced, if it ran; the service discards it and
     * nothing is sent.
     */
    method ProcessFrame(sessionId: string, frameRead: bool, largest: Option<Contour>) returns (analysed: Option<string>)
      requires largest.Some? ==> WellFormed(largest.value)
      ensures analysed.Some? <==>
        Running(sessionId) && sessionId in userSessions && userSessions[sessionId].isOpen && frameRead
      ensures analysed.Some? ==> analysed.value == FrameGesture(largest)
    {
      if !Running(sessionId) {
        return None;
      }
      if sessionId !in userSessions || !userSessions[sessionId].isOpen {
        return None;
      }
      if frameRead {
        var gesture := AnalyseFrame(largest);
        return Some(gesture);
      }
      return None;
    }

    /** Shutdown: every stored capture is released and the capture map is emptied. */
    method Cleanup()
      requires Valid()
      modifies this, userSessions.Values
      ensures Valid()
      ensures userSessions == map[]
      ensures sessionStatus == old(sessionStatus) && outbox == old(outbox)
      ensures forall c :: c in old(userSessions).Values ==> c.releases == 1 && !c.isOpen
      ensures Retired == old(Retired) + old(userSessions).Values
    {
      var remaining := userSessions.Values;
      while remaining != {}
        invariant remaining <= old(userSessions).Values
        invariant userSessions == old(userSessions) && Retired == old(Retired)
        invariant sessionStatus == old(sessionStatus) && outbox == old(outbox)
        invariant forall c :: c in remaining ==> c.releases == 0 && c.isOpen
        invariant forall c :: c in old(userSessions).Values - remaining ==> c.releases == 1 && !c.isOpen
        invariant forall c :: c in Retired ==> c.releases == 1
        decreases remaining
      {
        var c :| c in remaining;
        c.Release();
        remaining := remaining - {c};
      }
      Retired := Retired + userSessions.Values;
      userSessions := map[];
    }
  }
}
