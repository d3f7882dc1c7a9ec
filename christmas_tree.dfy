/**
 * The scene root: a group holding every particle group and the star,
 * turned each frame by a slow drift followed by a lerp toward the user
 * rotation. The one animation state reaches every particle group.
 */
module ChristmasTree {
  import opened SceneState
  import opened Particles
  import TreeLeaves
  import TreeDecorations
  import SpiralRibbon
  import StarTopper

  const DriftSpeed: real := 0.1
  const RotationLerp: real := 0.1

  /** Three.js's scalar lerp: the weighted mean (1 - t) x + t y. */
  function MathLerp(x: real, y: real, t: real): real
  {
    (1.0 - t) * x + t * y
  }

  /** One frame of the group rotation: drift by `delta * 0.1`, then lerp 0.1 toward the user rotation. */
  function NextRotation(r: real, delta: real, user: real): (next: real)
    ensures next == 0.9 * (r + 0.1 * delta) + 0.1 * user
    ensures next - user == 0.9 * (r + 0.1 * delta - user)
  {
    var drifted := r + delta * DriftSpeed;
    MathLerp(drifted, user, RotationLerp)
  }

  /** Without drift, a rotation at the user rotation stays there. */
  lemma RotationFixedPoint(user: real)
    ensures NextRotation(user, 0.0, user) == user
  {
  }

  /** `k` frames without drift toward a fixed user rotation. */
  function StillFrames(r: real, user: real, k: nat): real
    decreases k
  {
    if k == 0 then r else StillFrames(NextRotation(r, 0.0, user), user, k - 1)
  }

  /** Without drift, the distance to the user rotation shrinks to 0.9 of itself each frame. */
  lemma {:induction false} StillFramesClosedForm(r: real, user: real, k: nat)
    ensures StillFrames(r, user, k) == user - Pow(0.9, k) * (user - r)
    decreases k
  {
    if k > 0 {
      var r' := NextRotation(r, 0.0, user);
      var f := Pow(0.9, k - 1);
      StillFramesClosedForm(r', user, k - 1);
      assert user - r' == 0.9 * (user - r);
      calc {
        StillFrames(r, user, k);
        StillFrames(r', user, k - 1);
        user - f * (user - r');
        user - f * (0.9 * (user - r));
        user - (0.9 * f) * (user - r);
      }
    }
  }

  /** The whole tree: the root group's rotation and every animated child. */
  class TreeRoot {
    /** Whether the group ref is attached. */
    const groupMounted: bool
    var rotationY: real
    const leaves: ParticleGroup
    const decorations: TreeDecorations.Decorations
    const ribbon: ParticleGroup
    const star: StarTopper.StarMesh

    ghost predicate Valid()
    {
      && leaves.Valid() && decorations.Valid() && ribbon.Valid()
      && leaves.count == TreeLeaves.Count && ribbon.count == SpiralRibbon.Count
      && leaves.Repr() !! decorations.Repr()
      && leaves.Repr() !! ribbon.Repr()
      && ribbon.Repr() !! decorations.Repr()
    }

    constructor (groupMounted: bool, starMounted: bool, leafRand: seq<real>, cubeRand: seq<real>,
                 icoRand: seq<real>, ribbonRand: seq<real>, trig: Trig)
      requires TreeLeaves.DrawsPerLeaf * TreeLeaves.Count <= |leafRand|
      requires TreeDecorations.DrawsPerOrnament * TreeDecorations.CubeCount <= |cubeRand|
      requires TreeDecorations.DrawsPerOrnament * TreeDecorations.IcoCount <= |icoRand|
      requires SpiralRibbon.DrawsPerSegment * SpiralRibbon.Count <= |ribbonRand|
      ensures Valid() && this.groupMounted == groupMounted && rotationY == 0.0
      ensures leaves.currentPos[..] == leaves.treePos[..] && ribbon.currentPos[..] == ribbon.treePos[..]
      ensures decorations.cubes.currentPos[..] == decorations.cubes.treePos[..]
      ensures decorations.icosahedra.currentPos[..] == decorations.icosahedra.treePos[..]
      ensures fresh(star) && star.mounted == starMounted
    {
      this.groupMounted := groupMounted;
      rotationY := 0.0;
      var l := TreeLeaves.Build(leafRand, trig);
      var d := new TreeDecorations.Decorations(cubeRand, icoRand, trig);
      var r := SpiralRibbon.Build(ribbonRand, trig);
      leaves, decorations, ribbon := l, d, r;
      star := new StarTopper.StarMesh(starMounted);
    }

    /**
     * One rendered frame: every frame callback of the tree runs once, and
     * every particle group lerps toward the targets of the same state `s`.
     */
    method Frame(s: AnimationState, delta: real, userRotation: real, elapsed: real, trig: Trig)
      requires Valid()
      modifies this`rotationY, leaves.currentPos, decorations.cubes.currentPos,
        decorations.icosahedra.currentPos, ribbon.currentPos, star
      ensures Valid()
      ensures groupMounted ==> rotationY == NextRotation(old(rotationY), delta, userRotation)
      ensures !groupMounted ==> rotationY == old(rotationY)
      ensures leaves.currentPos[..] == FrameStep(old(leaves.currentPos[..]), old(leaves.Target(s)[..]))
      ensures ribbon.currentPos[..] == FrameStep(old(ribbon.currentPos[..]), old(ribbon.Target(s)[..]))
      ensures var c := decorations.cubes;
        c.currentPos[..] == FrameStep(old(c.currentPos[..]), old(c.Target(s)[..]))
      ensures var c := decorations.icosahedra;
        c.currentPos[..] == FrameStep(old(c.currentPos[..]), old(c.Target(s)[..]))
      ensures !star.mounted ==>
        star.rotationZ == old(star.rotationZ) && star.positionY == old(star.positionY) && star.scale == old(star.scale)
      ensures star.mounted ==> star.rotationZ == old(star.rotationZ) + 0.01
      ensures star.mounted ==>
        star.positionY == StarTopper.BobHeight(trig.sin(elapsed * 1.5)) && star.scale == StarTopper.PulseScale(trig.sin(elapsed * 2.0))
    {
      if groupMounted {
        rotationY := rotationY + delta * DriftSpeed;
        rotationY := MathLerp(rotationY, userRotation, RotationLerp);
      }
      leaves.Frame(s);
      decorations.Frame(s);
      ribbon.Frame(s);
      star.Frame(elapsed, trig);
    }
  }
}
