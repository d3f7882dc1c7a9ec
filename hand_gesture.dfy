/**
 * Hand-gesture classifier of the 3D tree scene: one hand's landmark list
 * (MediaPipe's 21 points in normalised image coordinates) becomes one of
 * three gesture categories, and the wrist becomes the tracked hand position.
 */
module HandGesture {
  /** One landmark in normalised image coordinates; y grows downwards. */
  datatype Landmark = Landmark(x: real, y: real, z: real)

  datatype GestureType = Pinch | Open | None

  datatype HandPosition = HandPosition(x: real, y: real)

  // Landmark indices used by the classifier.
  const Wrist: nat := 0
  const ThumbTip: nat := 4
  const IndexBase: nat := 5
  const IndexTip: nat := 8
  const MiddleTip: nat := 12
  const RingTip: nat := 16
  const PinkyTip: nat := 20
  const LandmarkCount: nat := 21

  /** Thumb-tip to index-tip distance below which the hand pinches. */
  const PinchThreshold: real := 0.05

  /** Squared distance of two landmarks in the image plane; depth is not used. */
  function SquaredDistance2D(a: Landmark, b: Landmark): (d: real)
    ensures d >= 0.0
  {
    (a.x - b.x) * (a.x - b.x) + (a.y - b.y) * (a.y - b.y)
  }

  /** Fingertip `tip` is higher on screen than the index base. */
  predicate Extended(landmarks: seq<Landmark>, tip: nat)
    requires |landmarks| >= LandmarkCount && tip < LandmarkCount
  {
    landmarks[tip].y < landmarks[IndexBase].y
  }

  /**
   * The classifier. The distance test compares squares, so that the
   * Euclidean distance itself is never needed (see PinchIffHypotBelowThreshold).
   */
  function DetectGestureType(landmarks: seq<Landmark>): (g: GestureType)
    requires |landmarks| >= LandmarkCount
  {
    if SquaredDistance2D(landmarks[ThumbTip], landmarks[IndexTip]) < PinchThreshold * PinchThreshold then
      Pinch
    else if Extended(landmarks, IndexTip) && Extended(landmarks, MiddleTip)
         && Extended(landmarks, RingTip) && Extended(landmarks, PinkyTip) then
      Open
    else
      None
  }

  /** `d` is the Euclidean thumb-index distance that `Math.hypot` computes. */
  predicate IsThumbIndexDistance(landmarks: seq<Landmark>, d: real)
    requires |landmarks| >= LandmarkCount
  {
    d >= 0.0 && d * d == SquaredDistance2D(landmarks[ThumbTip], landmarks[IndexTip])
  }

  lemma SquareBelowThreshold(d: real)
    requires d >= 0.0
    ensures d < PinchThreshold <==> d * d < PinchThreshold * PinchThreshold
  {
    if d < PinchThreshold {
      assert d * d <= d * PinchThreshold;
      assert d * PinchThreshold < PinchThreshold * PinchThreshold;
    } else {
      assert d * d >= d * PinchThreshold;
      assert d * PinchThreshold >= PinchThreshold * PinchThreshold;
    }
  }

  /**
   * Pinch is decided by the Euclidean distance alone, strictly below 0.05,
   * whatever the other fingers do; a distance of exactly 0.05 is no pinch.
   */
  lemma PinchIffHypotBelowThreshold(landmarks: seq<Landmark>, d: real)
    requires |landmarks| >= LandmarkCount
    requires IsThumbIndexDistance(landmarks, d)
    ensures DetectGestureType(landmarks) == Pinch <==> d < 0.05
    ensures d == 0.05 ==> DetectGestureType(landmarks) != Pinch
  {
    SquareBelowThreshold(d);
  }

  /**
   * Without a pinch, the hand is open exactly when the four fingertips are
   * all strictly above the index base, and otherwise no gesture is seen.
   */
  lemma OpenIffFingersAboveIndexBase(landmarks: seq<Landmark>, d: real)
    requires |landmarks| >= LandmarkCount
    requires IsThumbIndexDistance(landmarks, d) && d >= 0.05
    ensures DetectGestureType(landmarks) == Open <==>
      landmarks[8].y < landmarks[5].y && landmarks[12].y < landmarks[5].y &&
      landmarks[16].y < landmarks[5].y && landmarks[20].y < landmarks[5].y
    ensures DetectGestureType(landmarks) == None <==>
      !(landmarks[8].y < landmarks[5].y && landmarks[12].y < landmarks[5].y &&
        landmarks[16].y < landmarks[5].y && landmarks[20].y < landmarks[5].y)
  {
    SquareBelowThreshold(d);
  }

  /**
   * The classification depends only on the x and y of the landmarks: two
   * hands that differ only in depth (or in unused points) classify alike.
   */
  lemma ClassificationIgnoresDepth(a: seq<Landmark>, b: seq<Landmark>)
    requires |a| >= LandmarkCount && |b| >= LandmarkCount
    requires forall i :: 0 <= i < LandmarkCount ==> a[i].x == b[i].x && a[i].y == b[i].y
    ensures DetectGestureType(a) == DetectGestureType(b)
  {
    forall i | i in [ThumbTip, IndexBase, IndexTip, MiddleTip, RingTip, PinkyTip]
      ensures a[i] == Landmark(b[i].x, b[i].y, a[i].z)
    {
    }
    assert SquaredDistance2D(a[ThumbTip], a[IndexTip]) == SquaredDistance2D(b[ThumbTip], b[IndexTip]);
  }

  /** The hook's observable state: the last gesture, the hand position and readiness. */
  class HandTracker {
    var gesture: GestureType
    var handPosition: HandPosition
    var isReady: bool

    constructor ()
      ensures gesture == None && handPosition == HandPosition(0.5, 0.5) && !isReady
    {
      gesture := None;
      handPosition := HandPosition(0.5, 0.5);
      isReady := false;
    }

    /**
     * One detection result: `hands` holds the landmark lists of the detected
     * hands (at most one is requested); only the first is used.
     */
    method ProcessHandResults(hands: seq<seq<Landmark>>)
      requires |hands| > 0 ==> |hands[0]| >= LandmarkCount
      modifies this
      ensures |hands| > 0 ==>
        handPosition == HandPosition(hands[0][Wrist].x, hands[0][Wrist].y) &&
        gesture == DetectGestureType(hands[0])
      ensures |hands| == 0 ==> gesture == None && handPosition == old(handPosition)
      ensures isReady == old(isReady)
    {
      if |hands| > 0 {
        var landmarks := hands[0];
        var wrist := landmarks[Wrist];
        handPosition := HandPosition(wrist.x, wrist.y);
        gesture := DetectGestureType(landmarks);
      } else {
        gesture := None;
      }
    }
  }
}
