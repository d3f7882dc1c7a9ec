/**
 * The two ornament groups, cubes and icosahedra: 1000 instances each at a
 * random height on a cone, exploding to a spherical shell. Each group has
 * its own generation loop and its own per-frame loop.
 */
module TreeDecorations {
  import opened SceneState
  import opened Particles

  datatype Ornament = Cube | Icosahedron

  const CubeCount: nat := 1000
  const IcoCount: nat := 1000
  /** `Math.random` draws per ornament: height, angle, phi, theta, radius. */
  const DrawsPerOrnament: nat := 5

  function Count(k: Ornament): nat
  {
    if k.Cube? then CubeCount else IcoCount
  }

  /** Lowest tree height of the kind: `t * 17 - 10` for cubes, `t * 17 - 9` for icosahedra. */
  function BaseY(k: Ornament): real
  {
    if k.Cube? then -10.0 else -9.0
  }

  function MaxRadius(k: Ornament): real
  {
    if k.Cube? then 4.8 else 4.5
  }

  function Height(k: Ornament, t: real): (y: real)
    ensures IsDraw(t) ==> BaseY(k) <= y < BaseY(k) + 17.0
  {
    t * 17.0 + BaseY(k)
  }

  function Radius(k: Ornament, t: real): (r: real)
    ensures IsDraw(t) ==> 0.0 < r <= MaxRadius(k)
  {
    (1.0 - t) * MaxRadius(k)
  }

  /** The cube cone spans heights [-10, 7) and radii (0, 4.8]; the icosahedron cone [-9, 8) and (0, 4.5]. */
  lemma TreeLayoutBounds(t: real)
    requires IsDraw(t)
    ensures -10.0 <= Height(Cube, t) < 7.0 && 0.0 < Radius(Cube, t) <= 4.8
    ensures -9.0 <= Height(Icosahedron, t) < 8.0 && 0.0 < Radius(Icosahedron, t) <= 4.5
  {
  }

  /** The explode radius: `20 + random * 15` for cubes, `18 + random * 12` for icosahedra. */
  function ShellRadius(k: Ornament, u: real): (r: real)
    ensures IsDraw(u) && k.Cube? ==> 20.0 <= r < 35.0
    ensures IsDraw(u) && k.Icosahedron? ==> 18.0 <= r < 30.0
  {
    if k.Cube? then 20.0 + u * 15.0 else 18.0 + u * 12.0
  }

  /** The five draws of instance i. */
  function Draws(rand: seq<real>, i: nat): (u: seq<real>)
    requires DrawsPerOrnament * (i + 1) <= |rand|
    ensures |u| == DrawsPerOrnament
  {
    rand[DrawsPerOrnament * i .. DrawsPerOrnament * (i + 1)]
  }

  function TreeTarget(k: Ornament, u: seq<real>, trig: Trig): Vec3
    requires |u| == DrawsPerOrnament
  {
    OnCircle(u[1] * Pi * 2.0, Radius(k, u[0]), Height(k, u[0]), trig)
  }

  function ExplodeTarget(k: Ornament, u: seq<real>, trig: Trig): Vec3
    requires |u| == DrawsPerOrnament
  {
    SphericalPoint(ShellRadius(k, u[4]), u[3] * Pi, u[2] * Pi * 2.0, trig)
  }

  /**
   * An ornament's tree target sits on the cone surface: at its height, and
   * (where sin^2 + cos^2 = 1) exactly its radius away from the axis.
   */
  lemma TreeTargetOnCone(k: Ornament, u: seq<real>, trig: Trig)
    requires |u| == DrawsPerOrnament && IsDraw(u[0])
    requires var a := u[1] * Pi * 2.0; trig.sin(a) * trig.sin(a) + trig.cos(a) * trig.cos(a) == 1.0
    ensures var p, r := TreeTarget(k, u, trig), Radius(k, u[0]);
      && BaseY(k) <= p.y < BaseY(k) + 17.0
      && p.x * p.x + p.z * p.z == r * r
      && 0.0 < r <= MaxRadius(k)
  {
    OnCircleNorm(u[1] * Pi * 2.0, Radius(k, u[0]), Height(k, u[0]), trig);
  }

  /** One generation loop: targets from the draws, current positions at the tree targets. */
  method Build(k: Ornament, rand: seq<real>, trig: Trig) returns (g: ParticleGroup)
    requires DrawsPerOrnament * Count(k) <= |rand|
    ensures fresh(g.Repr()) && g.Valid() && g.count == Count(k)
    ensures forall i :: 0 <= i < Count(k) ==>
      && g.treePos[i] == TreeTarget(k, Draws(rand, i), trig)
      && g.explodePos[i] == ExplodeTarget(k, Draws(rand, i), trig)
    ensures g.currentPos[..] == g.treePos[..]
  {
    var n := Count(k);
    var tree := new Vec3[n];
    var explode := new Vec3[n];
    var current := new Vec3[n];
    for i := 0 to n
      invariant forall j :: 0 <= j < i ==>
        && tree[j] == TreeTarget(k, Draws(rand, j), trig)
        && explode[j] == ExplodeTarget(k, Draws(rand, j), trig)
        && current[j] == tree[j]
    {
      var u := Draws(rand, i);
      tree[i] := TreeTarget(k, u, trig);
      explode[i] := ExplodeTarget(k, u, trig);
      current[i] := tree[i];
    }
    g := new ParticleGroup(tree, explode, current);
  }

  /** The component: both ornament groups, which share no array. */
  class Decorations {
    const cubes: ParticleGroup
    const icosahedra: ParticleGroup

    ghost predicate Valid()
    {
      && cubes.Valid() && icosahedra.Valid()
      && cubes.count == CubeCount && icosahedra.count == IcoCount
      && cubes.Repr() !! icosahedra.Repr()
    }

    ghost function Repr(): set<object>
    {
      cubes.Repr() + icosahedra.Repr()
    }

    constructor (cubeRand: seq<real>, icoRand: seq<real>, trig: Trig)
      requires DrawsPerOrnament * CubeCount <= |cubeRand| && DrawsPerOrnament * IcoCount <= |icoRand|
      ensures Valid() && fresh(Repr())
      ensures forall i :: 0 <= i < CubeCount ==>
        cubes.treePos[i] == TreeTarget(Cube, Draws(cubeRand, i), trig) && cubes.currentPos[i] == cubes.treePos[i]
      ensures forall i :: 0 <= i < IcoCount ==>
        icosahedra.treePos[i] == TreeTarget(Icosahedron, Draws(icoRand, i), trig) && icosahedra.currentPos[i] == icosahedra.treePos[i]
    {
      var c := Build(Cube, cubeRand, trig);
      var d := Build(Icosahedron, icoRand, trig);
      cubes, icosahedra := c, d;
    }

    /**
     * The two frame callbacks: each lerps its own group toward the target
     * set the same state selects; neither touches the other group.
     */
    method Frame(s: AnimationState)
      requires Valid()
      modifies cubes.currentPos, icosahedra.currentPos
      ensures Valid()
      ensures cubes.currentPos[..] == FrameStep(old(cubes.currentPos[..]), old(cubes.Target(s)[..]))
      ensures icosahedra.currentPos[..] == FrameStep(old(icosahedra.currentPos[..]), old(icosahedra.Target(s)[..]))
      ensures cubes.treePos[..] == old(cubes.treePos[..]) && cubes.explodePos[..] == old(cubes.explodePos[..])
      ensures icosahedra.treePos[..] == old(icosahedra.treePos[..])
      ensures icosahedra.explodePos[..] == old(icosahedra.explodePos[..])
    {
      cubes.Frame(s);
      icosahedra.Frame(s);
    }
  }
}
