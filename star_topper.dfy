/**
 * The star on top of the tree: a ten-vertex outline with alternating outer
 * and inner radii, and a per-frame spin, bob and pulse.
 */
module StarTopper {
  import opened Particles

  const OuterRadius: real := 1.2
  const InnerRadius: real := 0.5
  const Points: nat := 5

  /** The commands issued on the mutable outline shape. */
  datatype PathCommand = MoveTo(x: real, y: real) | LineTo(x: real, y: real) | ClosePath

  /** Vertex i points at `i pi / points - pi / 2`: the first one straight down the y axis. */
  function VertexAngle(i: nat): real
  {
    (i as real * Pi) / Points as real - Pi / 2.0
  }

  /** Consecutive vertices are pi/5 apart, so ten of them go once around. */
  lemma VertexAngleStep(i: nat)
    ensures VertexAngle(i + 1) - VertexAngle(i) == Pi / 5.0
    ensures VertexAngle(2 * Points) - VertexAngle(0) == 2.0 * Pi
  {
  }

  /** Even vertices are tips, odd vertices notches. */
  function VertexRadius(i: nat): (r: real)
    ensures r == OuterRadius <==> i % 2 == 0
    ensures r == InnerRadius <==> i % 2 == 1
  {
    if i % 2 == 0 then OuterRadius else InnerRadius
  }

  function VertexX(i: nat, trig: Trig): real
  {
    trig.cos(VertexAngle(i)) * VertexRadius(i)
  }

  function VertexY(i: nat, trig: Trig): real
  {
    trig.sin(VertexAngle(i)) * VertexRadius(i)
  }

  /**
   * The outline loop: one `moveTo` to vertex 0, a `lineTo` to each of the
   * nine other vertices in order, then one `closePath`.
   */
  method BuildOutline(trig: Trig) returns (commands: seq<PathCommand>)
    ensures |commands| == 2 * Points + 1
    ensures commands[0] == MoveTo(VertexX(0, trig), VertexY(0, trig))
    ensures forall i :: 1 <= i < 2 * Points ==> commands[i] == LineTo(VertexX(i, trig), VertexY(i, trig))
    ensures commands[2 * Points] == ClosePath
    ensures forall i :: 0 <= i < 2 * Points ==> !commands[i].ClosePath?
  {
    commands := [];
    for i := 0 to Points * 2
      invariant |commands| == i
      invariant i > 0 ==> commands[0] == MoveTo(VertexX(0, trig), VertexY(0, trig))
      invariant forall j :: 1 <= j < i ==> commands[j] == LineTo(VertexX(j, trig), VertexY(j, trig))
    {
      var angle := (i as real * Pi) / Points as real - Pi / 2.0;
      var radius := if i % 2 == 0 then OuterRadius else InnerRadius;
      var x := trig.cos(angle) * radius;
      var y := trig.sin(angle) * radius;
      if i == 0 {
        commands := commands + [MoveTo(x, y)];
      } else {
        commands := commands + [LineTo(x, y)];
      }
    }
    commands := commands + [ClosePath];
  }

  /** The bobbing height: 8 plus a fifth of the given sine. */
  function BobHeight(s: real): (y: real)
    ensures -1.0 <= s <= 1.0 ==> 7.8 <= y <= 8.2
  {
    8.0 + s * 0.2
  }

  /** The pulsing scale: 1 plus a tenth of the given sine. */
  function PulseScale(s: real): (k: real)
    ensures -1.0 <= s <= 1.0 ==> 0.9 <= k <= 1.1
  {
    1.0 + s * 0.1
  }

  /** The star mesh's transform, written by the frame callback. */
  class StarMesh {
    /** Whether the mesh ref is attached. */
    const mounted: bool
    var rotationZ: real
    var positionY: real
    var scale: real

    constructor (mounted: bool)
      ensures this.mounted == mounted && rotationZ == 0.0 && positionY == 0.0 && scale == 1.0
    {
      this.mounted := mounted;
      rotationZ, positionY, scale := 0.0, 0.0, 1.0;
    }

    /** One frame at clock time `elapsed`: spin by 0.01, bob and pulse. */
    method Frame(elapsed: real, trig: Trig)
      modifies this
      ensures !mounted ==> rotationZ == old(rotationZ) && positionY == old(positionY) && scale == old(scale)
      ensures mounted ==> rotationZ == old(rotationZ) + 0.01
      ensures mounted ==> positionY == BobHeight(trig.sin(elapsed * 1.5)) && scale == PulseScale(trig.sin(elapsed * 2.0))
    {
      if !mounted {
        return;
      }
      rotationZ := rotationZ + 0.01;
      positionY := 8.0 + trig.sin(elapsed * 1.5) * 0.2;
      scale := 1.0 + trig.sin(elapsed * 2.0) * 0.1;
    }
  }
}
