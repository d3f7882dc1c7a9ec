/**
 * The particle-field engine shared by every particle group: three
 * fixed-length position arrays per group (tree targets, explode targets and
 * current positions) and the per-frame exponential smoothing of the current
 * positions toward the targets selected by the scene state.
 */
module Particles {
  import opened SceneState

  datatype Vec3 = Vec3(x: real, y: real, z: real)

  /** `Math.cos` and `Math.sin`, left uninterpreted. */
  datatype Trig = Trig(cos: real -> real, sin: real -> real)

  /** `Math.PI` as the double the source uses. */
  const Pi: real := 3.141592653589793

  /** Fraction of the remaining way covered each frame. */
  const LerpFactor: real := 0.05

  /** One draw of `Math.random`. */
  predicate IsDraw(u: real)
  {
    0.0 <= u < 1.0
  }

  /** The layout parameter of instance i of a group of `count`: i / count. */
  function IndexFraction(i: nat, count: nat): (t: real)
    requires count > 0
    ensures i < count ==> 0.0 <= t < 1.0
  {
    i as real / count as real
  }

  /** One coordinate of `Vector3.lerp`: move the fraction alpha of the way from a to b. */
  function LerpScalar(a: real, b: real, alpha: real): (r: real)
    ensures r - b == (1.0 - alpha) * (a - b)
  {
    a + (b - a) * alpha
  }

  /** With a factor in [0, 1] the step stays between the start and the target: no overshoot. */
  lemma LerpScalarBetween(a: real, b: real, alpha: real)
    requires 0.0 <= alpha <= 1.0
    ensures a <= b ==> a <= LerpScalar(a, b, alpha) <= b
    ensures b <= a ==> b <= LerpScalar(a, b, alpha) <= a
  {
    var d := if a <= b then b - a else a - b;
    assert d * alpha >= 0.0;
    assert d - d * alpha == d * (1.0 - alpha);
    assert d * (1.0 - alpha) >= 0.0;
  }

  /** `Vector3.lerp`, component by component. */
  function Lerp(v: Vec3, target: Vec3, alpha: real): Vec3
  {
    Vec3(LerpScalar(v.x, target.x, alpha), LerpScalar(v.y, target.y, alpha), LerpScalar(v.z, target.z, alpha))
  }

  /** A position already at its target stays there. */
  lemma LerpAtTarget(t: Vec3, alpha: real)
    ensures Lerp(t, t, alpha) == t
  {
  }

  /** One frame of every instance of a group: each moves toward its own target. */
  function FrameStep(current: seq<Vec3>, target: seq<Vec3>): (r: seq<Vec3>)
    requires |current| == |target|
    ensures |r| == |current|
  {
    seq(|current|, i requires 0 <= i < |current| => Lerp(current[i], target[i], LerpFactor))
  }

  /** `k` frames with a fixed target. */
  function Frames(current: seq<Vec3>, target: seq<Vec3>, k: nat): (r: seq<Vec3>)
    requires |current| == |target|
    ensures |r| == |current|
    decreases k
  {
    if k == 0 then current else Frames(FrameStep(current, target), target, k - 1)
  }

  function Pow(b: real, k: nat): real
  {
    if k == 0 then 1.0 else b * Pow(b, k - 1)
  }

  /** One coordinate after `k` frames toward the fixed target `b`. */
  function ScalarFrames(a: real, b: real, k: nat): real
    decreases k
  {
    if k == 0 then a else ScalarFrames(LerpScalar(a, b, LerpFactor), b, k - 1)
  }

  /** After `k` frames the offset from the target is 0.95^k times the initial offset. */
  lemma {:induction false} ScalarFramesClosedForm(a: real, b: real, k: nat)
    ensures ScalarFrames(a, b, k) == b - Pow(0.95, k) * (b - a)
    decreases k
  {
    if k > 0 {
      var a' := LerpScalar(a, b, LerpFactor);
      var f := Pow(0.95, k - 1);
      ScalarFramesClosedForm(a', b, k - 1);
      assert b - a' == 0.95 * (b - a);
      calc {
        ScalarFrames(a, b, k);
        ScalarFrames(a', b, k - 1);
        b - f * (b - a');
        b - f * (0.95 * (b - a));
        b - (0.95 * f) * (b - a);
        b - Pow(0.95, k) * (b - a);
      }
    }
  }

  /** The factor 0.95^k lies in (0, 1]: the approach neither overshoots nor stalls. */
  lemma {:induction false} PowBounds(k: nat)
    ensures 0.0 < Pow(0.95, k) <= 1.0
    ensures k > 0 ==> Pow(0.95, k) < 1.0
  {
    if k > 0 {
      PowBounds(k - 1);
    }
  }

  /** Frames act on each instance and each coordinate independently. */
  lemma {:induction false} FramesAt(current: seq<Vec3>, target: seq<Vec3>, k: nat, i: nat)
    requires |current| == |target| && i < |current|
    ensures Frames(current, target, k)[i]
         == Vec3(ScalarFrames(current[i].x, target[i].x, k),
                 ScalarFrames(current[i].y, target[i].y, k),
                 ScalarFrames(current[i].z, target[i].z, k))
    decreases k
  {
    if k > 0 {
      var next := FrameStep(current, target);
      FramesAt(next, target, k - 1, i);
    }
  }

  /** The point that keeps the fraction f of the offset from p to t. */
  function Approach(p: Vec3, t: Vec3, f: real): Vec3
  {
    Vec3(t.x - f * (t.x - p.x), t.y - f * (t.y - p.y), t.z - f * (t.z - p.z))
  }

  /**
   * Convergence in closed form: with a fixed target T and start P, instance
   * i is at T - 0.95^k (T - P) after k frames.
   */
  lemma FramesClosedForm(current: seq<Vec3>, target: seq<Vec3>, k: nat, i: nat)
    requires |current| == |target| && i < |current|
    ensures Frames(current, target, k)[i] == Approach(current[i], target[i], Pow(0.95, k))
  {
    FramesAt(current, target, k, i);
    VecFramesClosedForm(current[i], target[i], k);
  }

  lemma VecFramesClosedForm(p: Vec3, t: Vec3, k: nat)
    ensures Vec3(ScalarFrames(p.x, t.x, k), ScalarFrames(p.y, t.y, k), ScalarFrames(p.z, t.z, k))
         == Approach(p, t, Pow(0.95, k))
  {
    ScalarFramesClosedForm(p.x, t.x, k);
    ScalarFramesClosedForm(p.y, t.y, k);
    ScalarFramesClosedForm(p.z, t.z, k);
  }

  /** A point at radius r in the direction given by polar angle theta and azimuth phi. */
  function SphericalPoint(r: real, theta: real, phi: real, trig: Trig): Vec3
  {
    Vec3(r * trig.sin(theta) * trig.cos(phi), r * trig.sin(theta) * trig.sin(phi), r * trig.cos(theta))
  }

  /** Where sin^2 + cos^2 = 1 holds, the explode target lies at distance r from the origin. */
  lemma SphericalPointNorm(r: real, theta: real, phi: real, trig: Trig)
    requires trig.sin(theta) * trig.sin(theta) + trig.cos(theta) * trig.cos(theta) == 1.0
    requires trig.sin(phi) * trig.sin(phi) + trig.cos(phi) * trig.cos(phi) == 1.0
    ensures var p := SphericalPoint(r, theta, phi, trig);
      p.x * p.x + p.y * p.y + p.z * p.z == r * r
  {
    var st, ct, sp, cp := trig.sin(theta), trig.cos(theta), trig.sin(phi), trig.cos(phi);
    calc {
      (r * st * cp) * (r * st * cp) + (r * st * sp) * (r * st * sp) + (r * ct) * (r * ct);
      (r * r) * (st * st) * (cp * cp + sp * sp) + (r * r) * (ct * ct);
      (r * r) * (st * st + ct * ct);
      r * r;
    }
  }

  /** A point at height y on the horizontal circle of the given radius. */
  function OnCircle(angle: real, radius: real, y: real, trig: Trig): Vec3
  {
    Vec3(trig.cos(angle) * radius, y, trig.sin(angle) * radius)
  }

  /** Where sin^2 + cos^2 = 1 holds, the point is at horizontal distance `radius` from the axis. */
  lemma OnCircleNorm(angle: real, radius: real, y: real, trig: Trig)
    requires trig.sin(angle) * trig.sin(angle) + trig.cos(angle) * trig.cos(angle) == 1.0
    ensures var p := OnCircle(angle, radius, y, trig);
      p.x * p.x + p.z * p.z == radius * radius && p.y == y
  {
    var c, s := trig.cos(angle), trig.sin(angle);
    assert (c * radius) * (c * radius) + (s * radius) * (s * radius) == (radius * radius) * (s * s + c * c);
  }

  /**
   * One particle group: the three arrays never change identity or length;
   * the target arrays are written only while the group is built.
   */
  class ParticleGroup {
    const count: nat
    const treePos: array<Vec3>
    const explodePos: array<Vec3>
    const currentPos: array<Vec3>

    ghost predicate Valid()
    {
      && treePos.Length == count && explodePos.Length == count && currentPos.Length == count
      && currentPos != treePos && currentPos != explodePos
    }

    /** Every object the group owns. */
    ghost function Repr(): set<object>
    {
      {treePos, explodePos, currentPos}
    }

    /** The targets the state selects: the tree positions in Tree, the explode positions otherwise. */
    function Target(s: AnimationState): (a: array<Vec3>)
      ensures a == treePos || a == explodePos
    {
      if s.Tree? then treePos else explodePos
    }

    constructor (tree: array<Vec3>, explode: array<Vec3>, current: array<Vec3>)
      requires tree.Length == explode.Length == current.Length
      requires current != tree && current != explode
      ensures Valid() && count == tree.Length
      ensures treePos == tree && explodePos == explode && currentPos == current
    {
      count := tree.Length;
      treePos, explodePos, currentPos := tree, explode, current;
    }

    /**
     * The per-frame loop: every current position moves 0.05 of the way to
     * its target under the state of this frame; nothing else is written.
     */
    method Frame(s: AnimationState)
      requires Valid()
      modifies currentPos
      ensures currentPos[..] == FrameStep(old(currentPos[..]), Target(s)[..])
      ensures treePos[..] == old(treePos[..]) && explodePos[..] == old(explodePos[..])
    {
      var target := Target(s);
      var i := 0;
      while i < count
        invariant 0 <= i <= count
        invariant forall j :: 0 <= j < i ==> currentPos[j] == Lerp(old(currentPos[j]), target[j], LerpFactor)
        invariant forall j :: i <= j < count ==> currentPos[j] == old(currentPos[j])
        invariant target[..] == old(target[..])
      {
        currentPos[i] := Lerp(currentPos[i], target[i], LerpFactor);
        i := i + 1;
      }
    }
  }
}
