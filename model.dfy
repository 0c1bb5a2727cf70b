/**
 * The editor's data model: control points, the two curve slots, the
 * process-wide settings and the record the compute shader reads as constants.
 * Positions, colours, thickness and T1 are single-precision floats in the
 * program; here they are `real`, so interpolation is exact.
 */
module BezierModel {

  datatype Option<T> = None | Some(value: T)

  /** Capacity of each curve's control-point buffer. */
  const MAX_CONTROL_POINTS: nat := 5

  datatype Vec2 = Vec2(x: real, y: real)
  {
    function Plus(o: Vec2): Vec2 { Vec2(x + o.x, y + o.y) }
    function Minus(o: Vec2): Vec2 { Vec2(x - o.x, y - o.y) }
    function Times(t: real): Vec2 { Vec2(x * t, y * t) }
  }

  datatype Color3 = Color3(r: real, g: real, b: real)

  const WHITE := Color3(1.0, 1.0, 1.0)

  datatype ControlPoint = ControlPoint(position: Vec2, color: Color3)

  /** A value-initialised control point: at the origin, red. */
  const DEFAULT_CONTROL_POINT := ControlPoint(Vec2(0.0, 0.0), Color3(1.0, 0.0, 0.0))

  /** The two curve slots. */
  datatype CurveType = Original | Polar

  const NUM_CURVE_TYPES: nat := 2
  const ORIGINAL: nat := 0
  const POLAR: nat := 1

  /** The index of a slot in the application's curve array. */
  function Slot(t: CurveType): (i: nat)
    ensures i < NUM_CURVE_TYPES
    ensures i == ORIGINAL <==> t == Original
    ensures i == POLAR <==> t == Polar
  {
    match t
    case Original => 0
    case Polar => 1
  }

  /**
   * One curve: its display attributes, its points and whether its GPU point
   * buffer is stale.
   */
  datatype Curve = Curve(color: Color3, thickness: real, points: seq<ControlPoint>, needsBufferUpdate: bool)

  /** A value-initialised curve: white, thickness 1, no points, not dirty. */
  const NEW_CURVE := Curve(WHITE, 1.0, [], false)

  datatype GlobalSettings = GlobalSettings(drawBezierCurve: bool, drawPolar: bool, numSamples: int, t1: real)

  /** Both curves drawn, 50 samples, T1 = 0.5. */
  const DEFAULT_SETTINGS := GlobalSettings(true, true, 50, 0.5)

  /** The constant-buffer record; the draw switches travel as 1 or 0. */
  datatype ShaderConstants = ShaderConstants(
    bezierColor: Color3,
    bezierThickness: real,
    polarColor: Color3,
    polarThickness: real,
    numControlPoints: int,
    numSamples: int,
    t1: real,
    drawBezierCurve: int,
    drawPolar: int)

  /** Pixel dimensions of the viewport panel and of the texture behind it. */
  datatype Extent = Extent(width: nat, height: nat)

  // The ranges the editing widgets clamp their values to.

  predicate PositionInRange(v: Vec2) {
    -1.0 <= v.x <= 1.0 && -1.0 <= v.y <= 1.0
  }

  predicate SamplesInRange(n: int) {
    25 <= n <= 100
  }

  predicate T1InRange(t: real) {
    0.0 <= t <= 1.0
  }

  predicate ThicknessInRange(w: real) {
    1.0 <= w <= 3.0
  }

  predicate SettingsInRange(s: GlobalSettings) {
    SamplesInRange(s.numSamples) && T1InRange(s.t1)
  }

  predicate PointsInRange(points: seq<ControlPoint>) {
    forall p :: p in points ==> PositionInRange(p.position)
  }

  function FlagValue(b: bool): (v: int)
    ensures v == 1 <==> b
    ensures v == 0 <==> !b
  {
    if b then 1 else 0
  }

  /** Reads the global settings back out of a constants record. */
  function SettingsOf(constants: ShaderConstants): GlobalSettings {
    GlobalSettings(constants.drawBezierCurve == 1, constants.drawPolar == 1, constants.numSamples, constants.t1)
  }

  /** The snapshot uploaded to the constant buffer; the draw flags become 1 or 0. */
  function BuildConstants(original: Curve, polar: Curve, settings: GlobalSettings): (r: ShaderConstants)
    ensures SettingsOf(r) == settings
    ensures r.numControlPoints == |original.points|
    ensures r.bezierColor == original.color && r.bezierThickness == original.thickness
    ensures r.polarColor == polar.color && r.polarThickness == polar.thickness
  {
    ShaderConstants(
      original.color, original.thickness,
      polar.color, polar.thickness,
      |original.points|,
      settings.numSamples,
      settings.t1,
      FlagValue(settings.drawBezierCurve),
      FlagValue(settings.drawPolar))
  }
}
