/**
 * GestureControl: turns the tracked gesture into requests to change the
 * scene state, and accumulates a rotation from horizontal hand motion while
 * the hand is open.
 */
module GestureControl {
  import opened Wrappers
  import opened SceneState
  import opened HandGesture

  /** Rotation added per unit of horizontal hand motion. */
  const RotationSpeed: real := 8.0
  /** Initial value of the component's own last-x reference. */
  const InitialHandX: real := 0.5

  /**
   * The state-sync effect: the state the gesture asks the host to switch
   * to, if any. Only a gesture that disagrees with the current state asks.
   */
  function RequestedState(g: GestureType, current: AnimationState): (req: Option<AnimationState>)
    ensures req.Some? ==> req.value != current
    ensures req == Some(Tree) <==> g == Pinch && current == Explode
    ensures req == Some(Explode) <==> g == Open && current == Tree
  {
    if g.Pinch? && !current.Tree? then Some(Tree)
    else if g.Open? && !current.Explode? then Some(Explode)
    else Option.None
  }

  /** The host's state after it honours a request (the `onStateChange` write). */
  function Honour(current: AnimationState, req: Option<AnimationState>): AnimationState
  {
    if req.Some? then req.value else current
  }

  /**
   * One run of the state-sync effect settles the state: afterwards a pinch
   * means Tree, an open hand Explode, no gesture leaves it alone, and
   * running the effect again asks for nothing.
   */
  lemma SyncSettles(g: GestureType, s: AnimationState)
    ensures var s' := Honour(s, RequestedState(g, s));
      && RequestedState(g, s') == Option.None
      && (g == Pinch ==> s' == Tree)
      && (g == Open ==> s' == Explode)
      && (g == GestureType.None ==> s' == s)
  {
  }

  /** The two refs of the rotation effect. */
  datatype RotationRefs = RotationRefs(lastHandX: real, rotation: real)

  const InitialRefs := RotationRefs(InitialHandX, 0.0)

  /** One input of the rotation effect: the current gesture and hand x. */
  datatype Sample = Sample(gesture: GestureType, x: real)

  /** The rotation effect on one sample. */
  function RotationStep(refs: RotationRefs, s: Sample): (r: RotationRefs)
    ensures r != refs ==> s.gesture == Open && s.x != refs.lastHandX
    ensures s.gesture == Open ==> r.lastHandX == s.x
    ensures r.rotation - refs.rotation == RotationSpeed * (r.lastHandX - refs.lastHandX)
  {
    if s.gesture.Open? && s.x != refs.lastHandX then
      RotationRefs(s.x, refs.rotation + (s.x - refs.lastHandX) * RotationSpeed)
    else
      refs
  }

  /** The refs after a run of samples, in order. */
  function Replay(refs: RotationRefs, samples: seq<Sample>): RotationRefs
    decreases |samples|
  {
    if samples == [] then refs else Replay(RotationStep(refs, samples[0]), samples[1..])
  }

  /**
   * The rotation telescopes: whatever the samples, the accumulated rotation
   * is the sensitivity times the net horizontal motion since the start.
   */
  lemma {:induction false} ReplayTelescopes(refs: RotationRefs, samples: seq<Sample>)
    ensures Replay(refs, samples).rotation - refs.rotation
         == RotationSpeed * (Replay(refs, samples).lastHandX - refs.lastHandX)
    decreases |samples|
  {
    if samples != [] {
      ReplayTelescopes(RotationStep(refs, samples[0]), samples[1..]);
    }
  }

  /** Samples without an open hand change neither ref. */
  lemma {:induction false} ClosedHandSamplesKeepRefs(refs: RotationRefs, samples: seq<Sample>)
    requires forall i :: 0 <= i < |samples| ==> samples[i].gesture != Open
    ensures Replay(refs, samples) == refs
    decreases |samples|
  {
    if samples != [] {
      assert samples[0].gesture != Open;
      ClosedHandSamplesKeepRefs(refs, samples[1..]);
    }
  }

  /** An open hand at x = 0.5, 0.6, 0.6 from the start yields rotation 0.8. */
  lemma OpenHandExample()
    ensures Replay(InitialRefs, [Sample(Open, 0.5), Sample(Open, 0.6), Sample(Open, 0.6)]).rotation == 0.8
  {
    var s := [Sample(Open, 0.5), Sample(Open, 0.6), Sample(Open, 0.6)];
    assert RotationStep(InitialRefs, s[0]) == InitialRefs;
    assert s[1..][1..][1..] == [];
  }

  /** The component's refs, updated in place by the rotation effect. */
  class GestureController {
    var lastHandX: real
    var rotation: real

    /** The rotation is always the sensitivity times the net motion since mount. */
    ghost predicate Valid()
      reads this
    {
      rotation == RotationSpeed * (lastHandX - InitialHandX)
    }

    function Refs(): RotationRefs
      reads this
    {
      RotationRefs(lastHandX, rotation)
    }

    constructor ()
      ensures Valid() && Refs() == InitialRefs
    {
      lastHandX := InitialHandX;
      rotation := 0.0;
    }

    /**
     * The rotation effect (`useEffect` on hand position and gesture). It
     * returns the value passed to `onRotationChange`, if it was called.
     */
    method OnHandMove(s: Sample) returns (notified: Option<real>)
      requires Valid()
      modifies this
      ensures Valid()
      ensures Refs() == RotationStep(old(Refs()), s)
      ensures notified.Some? <==> s.gesture == Open && s.x != old(lastHandX)
      ensures notified.Some? ==> notified.value == rotation
    {
      if s.gesture.Open? && s.x != lastHandX {
        var deltaX := s.x - lastHandX;
        rotation := rotation + deltaX * RotationSpeed;
        notified := Some(rotation);
        lastHandX := s.x;
      } else {
        notified := Option.None;
      }
    }
  }
}
