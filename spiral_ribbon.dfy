/**
 * The ribbon group: 300 instances on a deterministic three-turn helix
 * around the tree, exploding to a spherical shell of radius 25 to 35.
 */
module SpiralRibbon {
  import opened Particles

  const Count: nat := 300
  const Turns: nat := 3
  const HeightRange: real := 14.0
  /** `Math.random` draws per segment, all for the explode target: phi, theta, radius. */
  const DrawsPerSegment: nat := 3

  /** The segment height 14 t - 7, where t = i / 300 is the segment's layout parameter. */
  function Height(i: nat): (y: real)
    ensures i < Count ==> -7.0 <= y < 7.0
  {
    IndexFraction(i, Count) * HeightRange - 7.0
  }

  function Radius(i: nat): (r: real)
    ensures i < Count ==> 1.0 < r <= 4.5
  {
    (1.0 - IndexFraction(i, Count)) * 3.5 + 1.0
  }

  /** The helix climbs and narrows strictly along the ribbon. */
  lemma HelixMonotone(i: nat, j: nat)
    requires i < j
    ensures Height(i) < Height(j)
    ensures Radius(i) > Radius(j)
  {
    assert IndexFraction(i, Count) < IndexFraction(j, Count);
  }

  /** The angle `t * 2pi * turns`: three full turns over the ribbon. */
  function Angle(i: nat): real
  {
    IndexFraction(i, Count) * Pi * 2.0 * Turns as real
  }

  /** The tree target uses no random draw: it is a function of the index alone. */
  function TreeTarget(i: nat, trig: Trig): Vec3
  {
    OnCircle(Angle(i), Radius(i), Height(i), trig)
  }

  /** The explode radius `25 + random * 10`. */
  function ShellRadius(u: real): (r: real)
    ensures IsDraw(u) ==> 25.0 <= r < 35.0
  {
    25.0 + u * 10.0
  }

  function Draws(rand: seq<real>, i: nat): (u: seq<real>)
    requires DrawsPerSegment * (i + 1) <= |rand|
    ensures |u| == DrawsPerSegment
  {
    rand[DrawsPerSegment * i .. DrawsPerSegment * (i + 1)]
  }

  function ExplodeTarget(u: seq<real>, trig: Trig): Vec3
    requires |u| == DrawsPerSegment
  {
    SphericalPoint(ShellRadius(u[2]), u[1] * Pi, u[0] * Pi * 2.0, trig)
  }

  /**
   * Segment i lies on the helix: at height 14t - 7 and (where
   * sin^2 + cos^2 = 1) at distance (1 - t) 3.5 + 1 from the axis.
   */
  lemma TreeTargetOnHelix(i: nat, trig: Trig)
    requires i < Count
    requires trig.sin(Angle(i)) * trig.sin(Angle(i)) + trig.cos(Angle(i)) * trig.cos(Angle(i)) == 1.0
    ensures var p := TreeTarget(i, trig);
      && -7.0 <= p.y < 7.0
      && p.x * p.x + p.z * p.z == Radius(i) * Radius(i)
  {
    OnCircleNorm(Angle(i), Radius(i), Height(i), trig);
  }

  /** The generation loop. */
  method Build(rand: seq<real>, trig: Trig) returns (g: ParticleGroup)
    requires DrawsPerSegment * Count <= |rand|
    ensures fresh(g.Repr()) && g.Valid() && g.count == Count
    ensures forall i :: 0 <= i < Count ==>
      && g.treePos[i] == TreeTarget(i, trig)
      && g.explodePos[i] == ExplodeTarget(Draws(rand, i), trig)
    ensures g.currentPos[..] == g.treePos[..]
  {
    var tree := new Vec3[Count];
    var explode := new Vec3[Count];
    var current := new Vec3[Count];
    for i := 0 to Count
      invariant forall j :: 0 <= j < i ==>
        && tree[j] == TreeTarget(j, trig)
        && explode[j] == ExplodeTarget(Draws(rand, j), trig)
        && current[j] == tree[j]
    {
      tree[i] := TreeTarget(i, trig);
      explode[i] := ExplodeTarget(Draws(rand, i), trig);
      current[i] := tree[i];
    }
    g := new ParticleGroup(tree, explode, current);
  }
}
