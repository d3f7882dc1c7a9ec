/**
 * The foliage group: 5000 instances on a cone with a helical angle and a
 * random jitter, exploding to a thick spherical shell of radius 15 to 25.
 */
module TreeLeaves {
  import opened Particles

  const Count: nat := 5000
  /** `Math.random` draws per leaf: angle jitter, x and z jitter, phi, theta, radius. */
  const DrawsPerLeaf: nat := 6

  /** The leaf height 15 t - 8.5, where t = i / 5000 is the leaf's layout parameter. */
  function Height(i: nat): (y: real)
    ensures i < Count ==> -8.5 <= y < 6.5
  {
    IndexFraction(i, Count) * 15.0 - 8.5
  }

  /** The cone radius: wider at the bottom. */
  function Radius(i: nat): (r: real)
    ensures i < Count ==> 0.9 < r <= 6.7
  {
    (1.0 - IndexFraction(i, Count)) * 5.8 + 0.9
  }

  /** Leaves climb and the cone narrows as the index grows. */
  lemma LayoutMonotone(i: nat, j: nat)
    requires i < j
    ensures Height(i) < Height(j)
    ensures Radius(i) > Radius(j)
  {
    assert IndexFraction(i, Count) < IndexFraction(j, Count);
  }

  /** The explode radius `15 + random * 10`. */
  function ShellRadius(u: real): (r: real)
    ensures IsDraw(u) ==> 15.0 <= r < 25.0
  {
    15.0 + u * 10.0
  }

  /** The six draws of leaf i. */
  function Draws(rand: seq<real>, i: nat): (u: seq<real>)
    requires DrawsPerLeaf * (i + 1) <= |rand|
    ensures |u| == DrawsPerLeaf
  {
    rand[DrawsPerLeaf * i .. DrawsPerLeaf * (i + 1)]
  }

  function TreeTarget(i: nat, u: seq<real>, trig: Trig): (p: Vec3)
    requires |u| == DrawsPerLeaf
    ensures p.y == Height(i)
  {
    var t := IndexFraction(i, Count);
    var angle := t * Pi * 8.0 + u[0] * Pi * 0.5;
    Vec3(trig.cos(angle) * Radius(i) + (u[1] - 0.5) * 0.3,
         Height(i),
         trig.sin(angle) * Radius(i) + (u[2] - 0.5) * 0.3)
  }

  function ExplodeTarget(u: seq<real>, trig: Trig): Vec3
    requires |u| == DrawsPerLeaf
  {
    SphericalPoint(ShellRadius(u[5]), u[4] * Pi, u[3] * Pi * 2.0, trig)
  }

  /** With genuine draws and sin^2 + cos^2 = 1, explode targets lie in the shell 15 <= |p| < 25. */
  lemma ExplodeTargetInShell(u: seq<real>, trig: Trig)
    requires |u| == DrawsPerLeaf && IsDraw(u[5])
    requires var theta, phi := u[4] * Pi, u[3] * Pi * 2.0;
      && trig.sin(theta) * trig.sin(theta) + trig.cos(theta) * trig.cos(theta) == 1.0
      && trig.sin(phi) * trig.sin(phi) + trig.cos(phi) * trig.cos(phi) == 1.0
    ensures var p := ExplodeTarget(u, trig);
      15.0 * 15.0 <= p.x * p.x + p.y * p.y + p.z * p.z < 25.0 * 25.0
  {
    var r := ShellRadius(u[5]);
    SphericalPointNorm(r, u[4] * Pi, u[3] * Pi * 2.0, trig);
    assert 15.0 * 15.0 <= r * r < 25.0 * 25.0 by {
      assert 15.0 * 15.0 <= 15.0 * r <= r * r;
      assert r * r < 25.0 * r < 25.0 * 25.0;
    }
  }

  /**
   * The generation loop: instance i gets its tree target, its explode
   * target and a current position equal to the tree target.
   */
  method Build(rand: seq<real>, trig: Trig) returns (g: ParticleGroup)
    requires DrawsPerLeaf * Count <= |rand|
    ensures fresh(g.Repr()) && g.Valid() && g.count == Count
    ensures forall i :: 0 <= i < Count ==>
      && g.treePos[i] == TreeTarget(i, Draws(rand, i), trig)
      && g.explodePos[i] == ExplodeTarget(Draws(rand, i), trig)
    ensures g.currentPos[..] == g.treePos[..]
  {
    var tree := new Vec3[Count];
    var explode := new Vec3[Count];
    var current := new Vec3[Count];
    for i := 0 to Count
      invariant forall j :: 0 <= j < i ==>
        && tree[j] == TreeTarget(j, Draws(rand, j), trig)
        && explode[j] == ExplodeTarget(Draws(rand, j), trig)
        && current[j] == tree[j]
    {
      var u := Draws(rand, i);
      tree[i] := TreeTarget(i, u, trig);
      explode[i] := ExplodeTarget(u, trig);
      current[i] := tree[i];
    }
    g := new ParticleGroup(tree, explode, current);
  }
}
