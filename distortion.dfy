/**
 `Observer2Ideal`: the camera's radial-distortion correction of one image
 point, as three Newton passes on the distorted radius with a guard for the
 distortion centre.

 The floating-point square root and all divisions, the scaling of the
 coefficient by 10^8 among them, are uninterpreted (`FloatOps`): the model
 keeps the order of the operations and the control flow, not the numeric
 values.  Additions, subtractions and products are real arithmetic.
 */
module Distortion {

  /** The camera's `dist_factor[4]`: the distortion centre, the distortion coefficient and the scale. */
  datatype DistFactor = DistFactor(centerX: real, centerY: real, coefficient: real, scale: real)

  /** The square root and the division of the floating-point type. */
  datatype FloatOps = FloatOps(sqrt: real -> real, div: (real, real) -> real)

  /** `a / b` in the floating-point type. */
  function Div(ops: FloatOps, a: real, b: real): real
  {
    ops.div(a, b)
  }

  /** `sqrt(a)` in the floating-point type. */
  function Sqrt(ops: FloatOps, a: real): real
  {
    ops.sqrt(a)
  }

  /** Number of Newton passes (PD_LOOP). */
  const PdLoop := 3

  /** The Newton update of the radius z0 (squared radius z02) towards the observed radius q. */
  function NewRadius(z0: real, z02: real, p: real, q: real, ops: FloatOps): real
  {
    z0 - Div(ops, (1.0 - p * z02) * z0 - q, 1.0 - 3.0 * p * z02)
  }

  /** A coordinate moved from radius z0 to radius z: `c * z / z0`. */
  function Rescale(c: real, z: real, z0: real, ops: FloatOps): real
  {
    Div(ops, c * z, z0)
  }

  /** One Newton pass on the point (px, py) at radius z0, squared radius z02, towards the observed radius q. */
  function Pass(px: real, py: real, z0: real, z02: real, p: real, q: real, ops: FloatOps): (real, real)
  {
    var z := NewRadius(z0, z02, p, q, ops);
    (Rescale(px, z, z0, ops), Rescale(py, z, z0, ops))
  }

  /** Squared distance of a point from the distortion centre. */
  function Norm2(px: real, py: real): real
  {
    px * px + py * py
  }

  /**
   Passes `i` to PdLoop, started on a point whose radius and squared radius
   are z0 and z02: a pass runs only while the radius is not zero, and a
   zero radius sends the point to the centre and ends the passes.
   */
  function Passes(i: int, px: real, py: real, z0: real, z02: real, p: real, q: real, ops: FloatOps): (r: (real, real))
    requires 1 <= i <= PdLoop
    decreases PdLoop - i
  {
    if z0 == 0.0 then (0.0, 0.0)
    else
      var (px', py') := Pass(px, py, z0, z02, p, q, ops);
      if i == PdLoop then (px', py')
      else Passes(i + 1, px', py', Sqrt(ops, Norm2(px', py')), Norm2(px', py'), p, q, ops)
  }

  /** The ideal point of the observed point (ox, oy). */
  function Ideal(d: DistFactor, ox: real, oy: real, ops: FloatOps): (real, real)
  {
    var px := ox - d.centerX;
    var py := oy - d.centerY;
    var z0 := Sqrt(ops, Norm2(px, py));
    var (qx, qy) := Passes(1, px, py, z0, Norm2(px, py), Div(ops, d.coefficient, 100000000.0), z0, ops);
    (Div(ops, qx, d.scale) + d.centerX, Div(ops, qy, d.scale) + d.centerY)
  }

  /** The loop of `Observer2Ideal`, with its early exit at a zero radius and its exit after the last pass. */
  method Observer2Ideal(d: DistFactor, ox: real, oy: real, ops: FloatOps) returns (ix: real, iy: real)
    ensures (ix, iy) == Ideal(d, ox, oy, ops)
  {
    var px := ox - d.centerX;
    var py := oy - d.centerY;
    var p := Div(ops, d.coefficient, 100000000.0);
    var z02 := px * px + py * py;
    var z0 := Sqrt(ops, px * px + py * py);
    var q := z0;
    ghost var goal := Passes(1, px, py, z0, z02, p, q, ops);
    var i := 1;
    while true
      invariant 1 <= i <= PdLoop
      invariant z02 == Norm2(px, py)
      invariant goal == Passes(i, px, py, z0, z02, p, q, ops)
      decreases PdLoop - i
    {
      if z0 != 0.0 {
        var z := NewRadius(z0, z02, p, q, ops);
        px := Rescale(px, z, z0, ops);
        py := Rescale(py, z, z0, ops);
      } else {
        px := 0.0;
        py := 0.0;
        break;
      }
      if i == PdLoop {
        break;
      }
      z02 := px * px + py * py;
      z0 := Sqrt(ops, px * px + py * py);
      i := i + 1;
    }
    ix := Div(ops, px, d.scale) + d.centerX;
    iy := Div(ops, py, d.scale) + d.centerY;
  }

  /** `n` plain Newton passes, each on the radius of the current point, with no zero-radius guard. */
  function NewtonIterate(n: nat, px: real, py: real, p: real, q: real, ops: FloatOps): (real, real)
  {
    if n == 0 then (px, py)
    else
      var (px', py') := Pass(px, py, Sqrt(ops, Norm2(px, py)), Norm2(px, py), p, q, ops);
      NewtonIterate(n - 1, px', py', p, q, ops)
  }

  /** The radius is never zero from `NewtonIterate`'s start point over its next `n` passes. */
  predicate NonZeroRadii(n: nat, px: real, py: real, p: real, q: real, ops: FloatOps)
  {
    Sqrt(ops, Norm2(px, py)) != 0.0
    && (n > 1 ==>
          var (px', py') := Pass(px, py, Sqrt(ops, Norm2(px, py)), Norm2(px, py), p, q, ops);
          NonZeroRadii(n - 1, px', py', p, q, ops))
  }

  /**
   Away from the centre, the passes are PdLoop plain Newton passes, each on
   the radius of the current point; the observed radius q stays that of the
   starting point.
   */
  lemma {:induction false} PassesCount(i: int, px: real, py: real, p: real, q: real, ops: FloatOps)
    requires 1 <= i <= PdLoop
    requires NonZeroRadii(PdLoop - i + 1, px, py, p, q, ops)
    ensures Passes(i, px, py, Sqrt(ops, Norm2(px, py)), Norm2(px, py), p, q, ops)
         == NewtonIterate(PdLoop - i + 1, px, py, p, q, ops)
    decreases PdLoop - i
  {
    var (px', py') := Pass(px, py, Sqrt(ops, Norm2(px, py)), Norm2(px, py), p, q, ops);
    if i < PdLoop {
      PassesCount(i + 1, px', py', p, q, ops);
    }
    assert NewtonIterate(0, px', py', p, q, ops) == (px', py');
  }

  /**
   The distortion centre maps to itself when the square root of zero is
   zero and zero divided by the scale is zero.
   */
  lemma CenterIsFixed(d: DistFactor, ops: FloatOps)
    requires Sqrt(ops, 0.0) == 0.0 && Div(ops, 0.0, d.scale) == 0.0
    ensures Ideal(d, d.centerX, d.centerY, ops) == (d.centerX, d.centerY)
  {
    assert Norm2(0.0, 0.0) == 0.0;
  }
}
