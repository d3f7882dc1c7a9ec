/**
 * The scene hosts. `GestureScene` is the host with gesture control (the
 * page-embedded tree scene and the stand-alone app share this wiring);
 * `ClickOnlyScene` is the variant with gesture control switched off.
 */
module TreeScene {
  import opened Wrappers
  import opened SceneState
  import opened HandGesture
  import opened GestureControl

  /**
   * A host holding the animation state and the user rotation, together
   * with its gesture-control child (the hand tracker and the rotation refs).
   * Both the click and the gesture callbacks write `animationState`; only
   * the gesture callback writes `userRotation`.
   */
  class GestureScene {
    var animationState: AnimationState
    var userRotation: real
    const tracker: HandTracker
    const control: GestureController

    ghost predicate Valid()
      reads this, control
    {
      control.Valid() && userRotation == control.rotation
    }

    constructor ()
      ensures Valid()
      ensures animationState == Tree && userRotation == 0.0
      ensures fresh(tracker) && fresh(control)
      ensures tracker.gesture == GestureType.None && !tracker.isReady
      ensures control.Refs() == InitialRefs
    {
      animationState := Tree;
      userRotation := 0.0;
      tracker := new HandTracker();
      control := new GestureController();
    }

    /**
     * The state-sync effect, which re-runs whenever the gesture or the
     * state changes; a request goes through `onStateChange`.
     */
    method SyncState()
      modifies this`animationState
      ensures animationState == Honour(old(animationState), RequestedState(tracker.gesture, old(animationState)))
    {
      var req := RequestedState(tracker.gesture, animationState);
      if req.Some? {
        animationState := req.value;
      }
    }

    /**
     * A click on the canvas: the state flips unconditionally, and then the
     * state-sync effect runs again against the gesture still being held.
     */
    method Click()
      requires Valid()
      modifies this`animationState
      ensures Valid()
      ensures tracker.gesture == GestureType.None ==> animationState == Toggle(old(animationState))
      ensures tracker.gesture == Open ==> animationState == Explode
      ensures tracker.gesture == Pinch ==> animationState == Tree
      ensures userRotation == old(userRotation)
    {
      animationState := Toggle(animationState);
      SyncState();
    }

    /**
     * One detection tick: the tracker takes in the result, then the
     * rotation effect and the state-sync effect run.
     */
    method DetectionTick(hands: seq<seq<Landmark>>)
      requires Valid()
      requires |hands| > 0 ==> |hands[0]| >= LandmarkCount
      modifies this, tracker, control
      ensures Valid()
      ensures |hands| > 0 ==> tracker.gesture == DetectGestureType(hands[0])
      ensures |hands| == 0 ==> tracker.gesture == GestureType.None
      ensures |hands| > 0 ==> tracker.handPosition == HandPosition(hands[0][Wrist].x, hands[0][Wrist].y)
      ensures |hands| == 0 ==> tracker.handPosition == old(tracker.handPosition)
      ensures tracker.isReady == old(tracker.isReady)
      ensures control.Refs() == RotationStep(old(control.Refs()), Sample(tracker.gesture, tracker.handPosition.x))
      ensures animationState == Honour(old(animationState), RequestedState(tracker.gesture, old(animationState)))
    {
      tracker.ProcessHandResults(hands);
      var notified := control.OnHandMove(Sample(tracker.gesture, tracker.handPosition.x));
      if notified.Some? {
        userRotation := notified.value;
      }
      SyncState();
    }
  }

  /** The click-only host: no gesture control, and no setter for the rotation. */
  class ClickOnlyScene {
    var animationState: AnimationState
    const userRotation: real := 0.0

    constructor ()
      ensures animationState == Tree && userRotation == 0.0
    {
      animationState := Tree;
    }

    method Click()
      modifies this`animationState
      ensures animationState == Toggle(old(animationState))
      ensures userRotation == 0.0
    {
      animationState := Toggle(animationState);
    }

    /** The status indicator's text. */
    function Status(): (text: string)
      reads this
      ensures text == "🎄 Tree Mode" <==> animationState == Tree
    {
      StatusLabel(animationState)
    }
  }
}
