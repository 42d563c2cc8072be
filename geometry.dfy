/** Vectors, glyph quads, the rigid transform built by Matrix4x4.TRS, and the two
    easing helpers (Mathf.PingPong, Mathf.SmoothStep) the animations use.
    Positions are `real`: float rounding is not modelled. */
module Geometry {

  datatype Vec3 = Vec3(x: real, y: real, z: real)

  const Origin := Vec3(0.0, 0.0, 0.0)

  function Add(a: Vec3, b: Vec3): Vec3 { Vec3(a.x + b.x, a.y + b.y, a.z + b.z) }

  function Sub(a: Vec3, b: Vec3): Vec3 { Vec3(a.x - b.x, a.y - b.y, a.z - b.z) }

  function Scale(s: real, a: Vec3): Vec3 { Vec3(s * a.x, s * a.y, s * a.z) }

  function DistSq(a: Vec3, b: Vec3): real
  {
    (a.x - b.x) * (a.x - b.x) + (a.y - b.y) * (a.y - b.y) + (a.z - b.z) * (a.z - b.z)
  }

  /** The four corners of one glyph, in TextMeshPro's vertex order:
      bottom-left, top-left, top-right, bottom-right. */
  datatype Quad = Quad(bl: Vec3, tl: Vec3, tr: Vec3, br: Vec3)

  /** Adds `d` to all four corners (the `+=` on four consecutive vertices). */
  function Translate(q: Quad, d: Vec3): Quad
  {
    Quad(Add(q.bl, d), Add(q.tl, d), Add(q.tr, d), Add(q.br, d))
  }

  /** The corners of `q` relative to `p` (subtracting the pivot from four vertices). */
  function Relative(q: Quad, p: Vec3): Quad
  {
    Quad(Sub(q.bl, p), Sub(q.tl, p), Sub(q.tr, p), Sub(q.br, p))
  }

  /** Cosine and sine of an angle given in degrees, as Quaternion.Euler uses them.
      Trigonometry lies outside the model, so these are parameters. */
  datatype Trig = Trig(cosDeg: real -> real, sinDeg: real -> real)

  /** The arguments of Matrix4x4.TRS with a rotation about Z and a uniform scale:
      translation, angle in degrees, scale factor. */
  datatype Motion = Motion(translation: Vec3, degrees: real, size: real)

  /** Rotation about the Z axis (Quaternion.Euler(0, 0, deg)). */
  function RotateZ(trig: Trig, deg: real, p: Vec3): Vec3
  {
    var c := trig.cosDeg(deg);
    var s := trig.sinDeg(deg);
    Vec3(c * p.x - s * p.y, s * p.x + c * p.y, p.z)
  }

  /** Matrix4x4.TRS(t, Euler(0, 0, deg), one * size).MultiplyPoint3x4(p):
      scale first, then rotate, then translate. */
  function Apply(trig: Trig, m: Motion, p: Vec3): Vec3
  {
    Add(m.translation, RotateZ(trig, m.degrees, Scale(m.size, p)))
  }

  /** Moves one corner to pivot-relative coordinates, transforms it, and moves it back. */
  function AboutPivot(trig: Trig, m: Motion, pivot: Vec3, v: Vec3): Vec3
  {
    Add(Apply(trig, m, Sub(v, pivot)), pivot)
  }

  /** MultiplyPoint3x4 on each of the four corners. */
  function MoveQuad(trig: Trig, m: Motion, q: Quad): Quad
  {
    Quad(Apply(trig, m, q.bl), Apply(trig, m, q.tl), Apply(trig, m, q.tr), Apply(trig, m, q.br))
  }

  /** The per-glyph step of Jitter and Dangle: pivot + T(corner - pivot) for each corner. */
  function TransformAbout(trig: Trig, m: Motion, pivot: Vec3, q: Quad): Quad
  {
    Quad(AboutPivot(trig, m, pivot, q.bl), AboutPivot(trig, m, pivot, q.tl),
         AboutPivot(trig, m, pivot, q.tr), AboutPivot(trig, m, pivot, q.br))
  }

  /** A motion that neither moves, turns nor resizes leaves the quad where it is. */
  lemma TransformAboutIdentity(trig: Trig, m: Motion, pivot: Vec3, q: Quad)
    requires m.translation == Origin && m.size == 1.0
    requires trig.cosDeg(m.degrees) == 1.0 && trig.sinDeg(m.degrees) == 0.0
    ensures TransformAbout(trig, m, pivot, q) == q
  {
  }

  /** A planar rotation by (c, s) with c² + s² = 1 keeps the squared distance between
      (x1, y1) and (x2, y2). */
  lemma RotationKeepsDistance(c: real, s: real, x1: real, y1: real, x2: real, y2: real)
    requires c * c + s * s == 1.0
    ensures var dx, dy := (c * x1 - s * y1) - (c * x2 - s * y2), (s * x1 + c * y1) - (s * x2 + c * y2);
      dx * dx + dy * dy == (x1 - x2) * (x1 - x2) + (y1 - y2) * (y1 - y2)
  {
    var x, y := x1 - x2, y1 - y2;
    assert (c * x1 - s * y1) - (c * x2 - s * y2) == c * x - s * y;
    assert (s * x1 + c * y1) - (s * x2 + c * y2) == s * x + c * y;
    calc {
      (c * x - s * y) * (c * x - s * y) + (s * x + c * y) * (s * x + c * y);
      (c * c + s * s) * (x * x) + (c * c + s * s) * (y * y);
    }
  }

  /** With unit scale and a genuine rotation (cos² + sin² = 1), the transform is rigid:
      it keeps the distance between any two points. */
  lemma ApplyIsRigid(trig: Trig, m: Motion, a: Vec3, b: Vec3)
    requires m.size == 1.0
    requires trig.cosDeg(m.degrees) * trig.cosDeg(m.degrees)
             + trig.sinDeg(m.degrees) * trig.sinDeg(m.degrees) == 1.0
    ensures DistSq(Apply(trig, m, a), Apply(trig, m, b)) == DistSq(a, b)
  {
    assert Scale(m.size, a) == a && Scale(m.size, b) == b;
    RotationKeepsDistance(trig.cosDeg(m.degrees), trig.sinDeg(m.degrees), a.x, a.y, b.x, b.y);
  }

  /** Hence every pair of corners of a glyph keeps its distance under Jitter or Dangle with unit scale. */
  lemma TransformAboutIsRigid(trig: Trig, m: Motion, pivot: Vec3, a: Vec3, b: Vec3)
    requires m.size == 1.0
    requires trig.cosDeg(m.degrees) * trig.cosDeg(m.degrees)
             + trig.sinDeg(m.degrees) * trig.sinDeg(m.degrees) == 1.0
    ensures DistSq(AboutPivot(trig, m, pivot, a), AboutPivot(trig, m, pivot, b)) == DistSq(a, b)
  {
    ApplyIsRigid(trig, m, Sub(a, pivot), Sub(b, pivot));
  }

  /** Two glyphs whose corners sit the same way around their own pivots end up, after one
      shared motion, sitting the same way around those pivots again. */
  lemma TransformAboutRelative(trig: Trig, m: Motion, p1: Vec3, q1: Quad, p2: Vec3, q2: Quad)
    requires Relative(q1, p1) == Relative(q2, p2)
    ensures Relative(TransformAbout(trig, m, p1, q1), p1) == Relative(TransformAbout(trig, m, p2, q2), p2)
  {
    assert Sub(q1.bl, p1) == Sub(q2.bl, p2) && Sub(q1.tl, p1) == Sub(q2.tl, p2);
    assert Sub(q1.tr, p1) == Sub(q2.tr, p2) && Sub(q1.br, p1) == Sub(q2.br, p2);
  }

  // ---------------------------------------------------------------------
  // Easing (Mathf.Repeat, Mathf.PingPong, Mathf.SmoothStep)
  // ---------------------------------------------------------------------

  /** Mathf.Repeat(t, length): t folded into [0, length). Unity clamps the result to
      [0, length]; over the reals the clamp never bites. */
  function Repeat(t: real, length: real): (r: real)
    requires length > 0.0
    ensures 0.0 <= r < length
  {
    var k := (t / length).Floor;
    var f := t / length - k as real;
    assert 0.0 <= f < 1.0;
    assert t - k as real * length == f * length by {
      assert t == (t / length) * length;
    }
    MulBelow(f, 1.0, length);
    t - k as real * length
  }

  /** Mathf.PingPong(t, length): a triangle wave bouncing between 0 and `length`. */
  function PingPong(t: real, length: real): (r: real)
    requires length > 0.0
    ensures 0.0 <= r <= length
  {
    var d := Repeat(t, length * 2.0) - length;
    length - (if d < 0.0 then -d else d)
  }

  function Clamp01(t: real): real { if t < 0.0 then 0.0 else if t > 1.0 then 1.0 else t }

  /** Mathf.SmoothStep(from, to, t): cubic Hermite interpolation 3t² - 2t³ on the clamped t. */
  function SmoothStep(from: real, to: real, t: real): real
  {
    var u := Clamp01(t);
    var w := -2.0 * u * u * u + 3.0 * u * u;
    to * w + from * (1.0 - w)
  }

  /** Products of non-negative reals are non-negative. */
  lemma MulNonNegative(a: real, b: real)
    requires a >= 0.0 && b >= 0.0
    ensures a * b >= 0.0
  {
  }

  /** Multiplying by a positive factor keeps a strict order. */
  lemma MulBelow(a: real, b: real, c: real)
    requires a < b && c > 0.0
    ensures a * c < b * c
  {
  }

  /** The Hermite weight stays in [0, 1] on [0, 1]. */
  lemma HermiteWeightInUnit(u: real)
    requires 0.0 <= u <= 1.0
    ensures 0.0 <= -2.0 * u * u * u + 3.0 * u * u <= 1.0
  {
    var w := -2.0 * u * u * u + 3.0 * u * u;
    assert u * u >= 0.0;
    assert w == (u * u) * (3.0 - 2.0 * u);
    MulNonNegative(u * u, 3.0 - 2.0 * u);
    assert 1.0 - w == ((1.0 - u) * (1.0 - u)) * (1.0 + 2.0 * u);
    MulNonNegative(1.0 - u, 1.0 - u);
    MulNonNegative((1.0 - u) * (1.0 - u), 1.0 + 2.0 * u);
  }

  /** SmoothStep never leaves the interval between its two ends, whatever t is. */
  lemma SmoothStepBetween(from: real, to: real, t: real)
    ensures from <= to ==> from <= SmoothStep(from, to, t) <= to
    ensures to <= from ==> to <= SmoothStep(from, to, t) <= from
  {
    var u := Clamp01(t);
    var w := -2.0 * u * u * u + 3.0 * u * u;
    HermiteWeightInUnit(u);
    assert SmoothStep(from, to, t) == from + (to - from) * w;
    if from <= to {
      MulNonNegative(to - from, w);
      MulNonNegative(to - from, 1.0 - w);
    } else {
      MulNonNegative(from - to, w);
      MulNonNegative(from - to, 1.0 - w);
    }
  }

  /** SmoothStep starts at `from` and ends at `to`. */
  lemma SmoothStepEnds(from: real, to: real)
    ensures SmoothStep(from, to, 0.0) == from
    ensures SmoothStep(from, to, 1.0) == to
  {
  }
}
