/**
 * Derivation of the Polar curve: one point per consecutive pair of Original
 * points, interpolated at T1.
 */
module PolarDerivation {
  import opened BezierModel

  /** Colour of every derived point, marking it as not editable. */
  const POLAR_POINT_COLOR := Color3(0.1, 0.2, 0.8)

  function Lerp(a: Vec2, b: Vec2, t: real): Vec2 {
    a.Plus(b.Minus(a).Times(t))
  }

  function PolarPoint(p: ControlPoint, q: ControlPoint, t1: real): ControlPoint {
    ControlPoint(Lerp(p.position, q.position, t1), POLAR_POINT_COLOR)
  }

  /** Number of derived points for `n` Original points: max(n - 1, 0). */
  function PolarCount(n: nat): nat {
    if n == 0 then 0 else n - 1
  }

  /** The Polar points for the given Original points (reference definition). */
  function DerivePolar(points: seq<ControlPoint>, t1: real): (polar: seq<ControlPoint>)
    ensures |polar| == PolarCount(|points|)
  {
    if |points| < 2 then []
    else [PolarPoint(points[0], points[1], t1)] + DerivePolar(points[1..], t1)
  }

  lemma {:induction false} DerivePolarAt(points: seq<ControlPoint>, t1: real, i: nat)
    requires i + 1 < |points|
    ensures i < |DerivePolar(points, t1)|
    ensures DerivePolar(points, t1)[i] == PolarPoint(points[i], points[i + 1], t1)
  {
    if i > 0 {
      DerivePolarAt(points[1..], t1, i - 1);
    }
  }

  /** Any sequence with the right length and the right point at every index is the derivation. */
  lemma DerivePolarCharacterized(points: seq<ControlPoint>, t1: real, r: seq<ControlPoint>)
    requires |r| == PolarCount(|points|)
    requires forall i {:trigger r[i]} :: 0 <= i < |r| ==> i + 1 < |points| && r[i] == PolarPoint(points[i], points[i + 1], t1)
    ensures r == DerivePolar(points, t1)
  {
    var d := DerivePolar(points, t1);
    forall i | 0 <= i < |r|
      ensures r[i] == d[i]
    {
      DerivePolarAt(points, t1, i);
    }
  }

  /** The derived point sits at `P[i] + (P[i+1] - P[i]) * T1`, coordinate by coordinate. */
  lemma DerivePolarPosition(points: seq<ControlPoint>, t1: real, i: nat)
    requires i + 1 < |points|
    ensures var p, q := points[i].position, points[i + 1].position;
      && DerivePolar(points, t1)[i].position == Vec2(p.x + (q.x - p.x) * t1, p.y + (q.y - p.y) * t1)
      && DerivePolar(points, t1)[i].color == POLAR_POINT_COLOR
  {
    DerivePolarAt(points, t1, i);
  }

  /** T1 = 0 reproduces the first point of each pair, T1 = 1 the second. */
  lemma DerivePolarEndpoints(points: seq<ControlPoint>, i: nat)
    requires i + 1 < |points|
    ensures DerivePolar(points, 0.0)[i].position == points[i].position
    ensures DerivePolar(points, 1.0)[i].position == points[i + 1].position
  {
    DerivePolarAt(points, 0.0, i);
    DerivePolarAt(points, 1.0, i);
  }

  lemma NonNegativeProduct(x: real, y: real)
    requires x >= 0.0 && y >= 0.0
    ensures x * y >= 0.0
  {
  }

  lemma CoordinateInRange(a: real, b: real, t: real)
    requires -1.0 <= a <= 1.0 && -1.0 <= b <= 1.0 && 0.0 <= t <= 1.0
    ensures -1.0 <= a + (b - a) * t <= 1.0
  {
    var v := a + (b - a) * t;
    NonNegativeProduct(a + 1.0, 1.0 - t);
    NonNegativeProduct(b + 1.0, t);
    NonNegativeProduct(1.0 - a, 1.0 - t);
    NonNegativeProduct(1.0 - b, t);
    assert v + 1.0 == (a + 1.0) * (1.0 - t) + (b + 1.0) * t;
    assert 1.0 - v == (1.0 - a) * (1.0 - t) + (1.0 - b) * t;
  }

  /** Interpolating inside the editing square stays inside it. */
  lemma {:induction false} DerivePolarInRange(points: seq<ControlPoint>, t1: real)
    requires PointsInRange(points) && T1InRange(t1)
    ensures PointsInRange(DerivePolar(points, t1))
  {
    if |points| >= 2 {
      var p, q := points[0].position, points[1].position;
      CoordinateInRange(p.x, q.x, t1);
      CoordinateInRange(p.y, q.y, t1);
      assert PointsInRange(points[1..]) by {
        forall c | c in points[1..] ensures PositionInRange(c.position) {
          assert c in points;
        }
      }
      DerivePolarInRange(points[1..], t1);
      var head, rest := PolarPoint(points[0], points[1], t1), DerivePolar(points[1..], t1);
      assert DerivePolar(points, t1) == [head] + rest;
      forall c | c in DerivePolar(points, t1) ensures PositionInRange(c.position) {
        assert c == head || c in rest;
      }
    }
  }

  /** Three points at T1 = 0.5 give the two midpoints. */
  lemma MidpointScenario(original: seq<ControlPoint>)
    requires |original| == 3
    requires original[0].position.x == 0.0 && original[0].position.y == 0.0
    requires original[1].position.x == 1.0 && original[1].position.y == 0.0
    requires original[2].position.x == 1.0 && original[2].position.y == 1.0
    ensures DerivePolar(original, 0.5) == [ControlPoint(Vec2(0.5, 0.0), POLAR_POINT_COLOR), ControlPoint(Vec2(1.0, 0.5), POLAR_POINT_COLOR)]
  {
    var expected := [ControlPoint(Vec2(0.5, 0.0), POLAR_POINT_COLOR), ControlPoint(Vec2(1.0, 0.5), POLAR_POINT_COLOR)];
    DerivePolarCharacterized(original, 0.5, expected);
  }

  // The loop bound `size() - 1` is computed in size_t.

  const SIZE_T_MODULUS: int := 0x1_0000_0000_0000_0000

  /** Unsigned 64-bit subtraction, wrapping below zero. */
  function SizeSub(a: nat, b: nat): (r: nat)
    requires a < SIZE_T_MODULUS && b < SIZE_T_MODULUS
    ensures r < SIZE_T_MODULUS
    ensures a >= b ==> r == a - b
    ensures a < b ==> r == SIZE_T_MODULUS + a - b
  {
    (a - b) % SIZE_T_MODULUS
  }

  /**
   * For an empty Original the loop bound wraps to SIZE_MAX, so the guard
   * `0 < size() - 1` holds and the first iteration reads element 1 of an
   * empty vector.
   */
  lemma EmptyOriginalLoopOverruns(points: seq<ControlPoint>)
    requires points == []
    ensures SizeSub(|points|, 1) == SIZE_T_MODULUS - 1
    ensures 0 < SizeSub(|points|, 1)
    ensures !(0 + 1 < |points|)
  {
  }
}
