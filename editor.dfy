/**
 * The editor state machine: the two curves, the settings, the dirty flags
 * that say which GPU resources are stale, and the update step that consumes
 * them. Each edit the properties panel can make in a frame is one method;
 * widget results arrive as parameters (a method runs only when its widget
 * reported an edit). What the GPU holds is recorded in ghost fields.
 */
module Editor {
  import opened BezierModel
  import opened PolarDerivation
  import opened Removal
  import opened Dispatch

  /** What a position control reports in one frame: reset buttons and dragged values per axis. */
  datatype Vec2Input = Vec2Input(resetX: bool, dragX: Option<real>, resetY: bool, dragY: Option<real>)

  /** The drag widgets clamp coordinates to [-1, 1]. */
  predicate DragsInRange(input: Vec2Input) {
    && (input.dragX.Some? ==> -1.0 <= input.dragX.value <= 1.0)
    && (input.dragY.Some? ==> -1.0 <= input.dragY.value <= 1.0)
  }

  /**
   * The two-axis position control: a reset button that sets the coordinate
   * to 0, then a drag field, for X and then for Y. Returns the new value and
   * whether anything was edited.
   */
  function DrawVec2Control(values: Vec2, input: Vec2Input): (result: (Vec2, bool))
    ensures result.1 <==> input.resetX || input.dragX.Some? || input.resetY || input.dragY.Some?
    ensures !result.1 ==> result.0 == values
    ensures input.dragX.None? ==> result.0.x == (if input.resetX then 0.0 else values.x)
    ensures input.dragY.None? ==> result.0.y == (if input.resetY then 0.0 else values.y)
    ensures input.dragX.Some? ==> result.0.x == input.dragX.value
    ensures input.dragY.Some? ==> result.0.y == input.dragY.value
    ensures PositionInRange(values) && DragsInRange(input) ==> PositionInRange(result.0)
  {
    var afterResetX := if input.resetX then values.(x := 0.0) else values;
    var afterX := if input.dragX.Some? then afterResetX.(x := input.dragX.value) else afterResetX;
    var afterResetY := if input.resetY then afterX.(y := 0.0) else afterX;
    var afterY := if input.dragY.Some? then afterResetY.(y := input.dragY.value) else afterResetY;
    (afterY, input.resetX || input.dragX.Some? || input.resetY || input.dragY.Some?)
  }

  /** Changing a point's colour changes nothing in the derivation. */
  lemma {:induction false} DerivePolarIgnoresColors(a: seq<ControlPoint>, b: seq<ControlPoint>, t1: real)
    requires |a| == |b|
    requires forall i :: 0 <= i < |a| ==> a[i].position == b[i].position
    ensures DerivePolar(a, t1) == DerivePolar(b, t1)
  {
    if |a| >= 2 {
      DerivePolarIgnoresColors(a[1..], b[1..], t1);
    }
  }

  lemma PointsInRangeUpdate(points: seq<ControlPoint>, i: nat, p: ControlPoint)
    requires i < |points| && PointsInRange(points) && PositionInRange(p.position)
    ensures PointsInRange(points[i := p])
  {
    forall q | q in points[i := p] ensures PositionInRange(q.position) {
      var k :| 0 <= k < |points[i := p]| && points[i := p][k] == q;
      if k != i { assert q == points[k]; }
    }
  }

  class Application {
    var viewportSize: Extent
    var needsResize: bool
    var needsConstantBufferUpdate: bool
    var settings: GlobalSettings
    /** The curve slots, indexed by `Slot`: Original at 0, Polar at 1. */
    const curves: array<Curve>

    /** The point sequence last written to each curve's GPU buffer. */
    ghost var uploadedPoints: seq<seq<ControlPoint>>
    /** The record last written to the constant buffer; None before the first write. */
    ghost var uploadedConstants: Option<ShaderConstants>
    /** Dimensions of the viewport texture, and how many times it has been created. */
    ghost var textureSize: Extent
    ghost var textureCreations: nat

    function Snapshot(): ShaderConstants
      reads this, curves
      requires curves.Length == NUM_CURVE_TYPES
    {
      BuildConstants(curves[ORIGINAL], curves[POLAR], settings)
    }

    /** The constant buffer, once written, differs from the current snapshot at most in T1. */
    ghost predicate ConstantsCurrentExceptT1()
      reads this, curves
      requires curves.Length == NUM_CURVE_TYPES
    {
      uploadedConstants.Some? ==> uploadedConstants.value == Snapshot().(t1 := uploadedConstants.value.t1)
    }

    ghost predicate PointsSynced(c: nat)
      reads this, curves
      requires curves.Length == NUM_CURVE_TYPES && |uploadedPoints| == NUM_CURVE_TYPES && c < NUM_CURVE_TYPES
    {
      uploadedPoints[c] == curves[c].points
    }

    ghost predicate Valid()
      reads this, curves
    {
      && curves.Length == NUM_CURVE_TYPES
      && |uploadedPoints| == NUM_CURVE_TYPES
      // The widget ranges and the capacity of Original.
      && SettingsInRange(settings)
      && ThicknessInRange(curves[ORIGINAL].thickness) && ThicknessInRange(curves[POLAR].thickness)
      && |curves[ORIGINAL].points| <= MAX_CONTROL_POINTS
      && PointsInRange(curves[ORIGINAL].points)
      // Polar is always the derivation of Original.
      && curves[POLAR].points == DerivePolar(curves[ORIGINAL].points, settings.t1)
      // Every upload fits the fixed-capacity point buffers.
      && |uploadedPoints[ORIGINAL]| <= MAX_CONTROL_POINTS && |uploadedPoints[POLAR]| <= MAX_CONTROL_POINTS
      // A clear point-buffer or resize flag means the GPU copy is current.
      && (!curves[ORIGINAL].needsBufferUpdate ==> PointsSynced(ORIGINAL))
      && (!curves[POLAR].needsBufferUpdate ==> PointsSynced(POLAR))
      && (!needsResize ==> textureSize == viewportSize)
      // A clear constants flag: the buffer, once written, matches the snapshot up to T1.
      && (!needsConstantBufferUpdate ==> ConstantsCurrentExceptT1())
    }

    /** What holds once every flag is clear. */
    ghost predicate Synced()
      reads this, curves
      requires Valid()
    {
      && PointsSynced(ORIGINAL) && PointsSynced(POLAR)
      && textureSize == viewportSize
      && ConstantsCurrentExceptT1()
    }

    twostate predicate GpuUnchanged()
      reads this
    {
      && uploadedPoints == old(uploadedPoints)
      && uploadedConstants == old(uploadedConstants)
      && textureSize == old(textureSize)
      && textureCreations == old(textureCreations)
    }

    /** The start-up state: default settings, two empty white curves, a 1x1 viewport. */
    constructor ()
      ensures Valid()
      ensures fresh(curves)
      ensures viewportSize == Extent(1, 1) && !needsResize && !needsConstantBufferUpdate
      ensures settings == DEFAULT_SETTINGS
      ensures curves[ORIGINAL] == NEW_CURVE && curves[POLAR] == NEW_CURVE
      ensures uploadedPoints == [[], []] && uploadedConstants == None
      ensures textureSize == viewportSize && textureCreations == 1
    {
      viewportSize := Extent(1, 1);
      needsResize := false;
      needsConstantBufferUpdate := false;
      settings := DEFAULT_SETTINGS;
      curves := new Curve[NUM_CURVE_TYPES](_ => NEW_CURVE);
      uploadedPoints := [[], []];
      uploadedConstants := None;
      // The viewport texture is created once during start-up.
      textureSize := Extent(1, 1);
      textureCreations := 1;
    }

    /**
     * Rebuilds the Polar points from the Original points at T1 and marks the
     * Polar buffer dirty. The loop bound is `size() - 1` in size_t, so the
     * Original curve must hold a point.
     */
    method RecalculatePolar()
      requires curves.Length == NUM_CURVE_TYPES
      requires 1 <= |curves[ORIGINAL].points| < SIZE_T_MODULUS
      modifies curves
      ensures curves[ORIGINAL] == old(curves[ORIGINAL])
      ensures curves[POLAR] == old(curves[POLAR]).(points := DerivePolar(curves[ORIGINAL].points, settings.t1), needsBufferUpdate := true)
    {
      var original := curves[ORIGINAL];
      var t1 := settings.t1;
      curves[POLAR] := curves[POLAR].(points := []);
      var count := SizeSub(|original.points|, 1);
      var i := 0;
      while i < count
        invariant 0 <= i <= count
        invariant curves[ORIGINAL] == original
        invariant curves[POLAR] == old(curves[POLAR]).(points := curves[POLAR].points)
        invariant |curves[POLAR].points| == i
        invariant forall k :: 0 <= k < i ==> curves[POLAR].points[k] == PolarPoint(original.points[k], original.points[k + 1], t1)
      {
        var direction := original.points[i + 1].position.Minus(original.points[i].position);
        var p := ControlPoint(original.points[i].position.Plus(direction.Times(t1)), POLAR_POINT_COLOR);
        curves[POLAR] := curves[POLAR].(points := curves[POLAR].points + [p]);
        i := i + 1;
      }
      DerivePolarCharacterized(original.points, t1, curves[POLAR].points);
      curves[POLAR] := curves[POLAR].(needsBufferUpdate := true);
    }

    /** The "Draw Bezier" checkbox was clicked. */
    method ToggleDrawBezierCurve()
      requires Valid()
      modifies this
      ensures Valid() && GpuUnchanged()
      ensures settings == old(settings).(drawBezierCurve := !old(settings.drawBezierCurve))
      ensures needsConstantBufferUpdate
      ensures viewportSize == old(viewportSize) && needsResize == old(needsResize)
    {
      settings := settings.(drawBezierCurve := !settings.drawBezierCurve);
      needsConstantBufferUpdate := true;
    }

    /** The "Draw Polar" checkbox was clicked. */
    method ToggleDrawPolar()
      requires Valid()
      modifies this
      ensures Valid() && GpuUnchanged()
      ensures settings == old(settings).(drawPolar := !old(settings.drawPolar))
      ensures needsConstantBufferUpdate
      ensures viewportSize == old(viewportSize) && needsResize == old(needsResize)
    {
      settings := settings.(drawPolar := !settings.drawPolar);
      needsConstantBufferUpdate := true;
    }

    /** The sample-count field was dragged to `n`. */
    method SetNumSamples(n: int)
      requires Valid() && SamplesInRange(n)
      modifies this
      ensures Valid() && GpuUnchanged()
      ensures settings == old(settings).(numSamples := n)
      ensures needsConstantBufferUpdate
      ensures viewportSize == old(viewportSize) && needsResize == old(needsResize)
    {
      settings := settings.(numSamples := n);
      needsConstantBufferUpdate := true;
    }

    /**
     * The T1 field was dragged to `t`: the Polar curve is rebuilt, but the
     * constants flag is left as it was, so the new T1 reaches the constant
     * buffer only with the next edit that sets that flag. The rebuild is
     * skipped while Original is empty.
     */
    method EditT1(t: real)
      requires Valid() && T1InRange(t)
      modifies this, curves
      ensures Valid() && GpuUnchanged()
      ensures settings == old(settings).(t1 := t)
      ensures needsConstantBufferUpdate == old(needsConstantBufferUpdate)
      ensures curves[ORIGINAL] == old(curves[ORIGINAL])
      ensures |curves[ORIGINAL].points| >= 1 ==>
        curves[POLAR] == old(curves[POLAR]).(points := DerivePolar(curves[ORIGINAL].points, t), needsBufferUpdate := true)
      ensures |curves[ORIGINAL].points| == 0 ==> curves[POLAR] == old(curves[POLAR])
      ensures viewportSize == old(viewportSize) && needsResize == old(needsResize)
    {
      settings := settings.(t1 := t);
      if |curves[ORIGINAL].points| >= 1 {
        RecalculatePolar();
      }
    }

    /** A curve's colour was edited. */
    method EditCurveColor(which: CurveType, color: Color3)
      requires Valid()
      modifies this, curves
      ensures Valid() && GpuUnchanged()
      ensures curves[Slot(which)] == old(curves[Slot(which)]).(color := color)
      ensures forall c :: 0 <= c < NUM_CURVE_TYPES && c != Slot(which) ==> curves[c] == old(curves[c])
      ensures needsConstantBufferUpdate
      ensures settings == old(settings) && viewportSize == old(viewportSize) && needsResize == old(needsResize)
    {
      var i := Slot(which);
      curves[i] := curves[i].(color := color);
      needsConstantBufferUpdate := true;
    }

    /** A curve's thickness was dragged to `thickness`. */
    method EditCurveThickness(which: CurveType, thickness: real)
      requires Valid() && ThicknessInRange(thickness)
      modifies this, curves
      ensures Valid() && GpuUnchanged()
      ensures curves[Slot(which)] == old(curves[Slot(which)]).(thickness := thickness)
      ensures forall c :: 0 <= c < NUM_CURVE_TYPES && c != Slot(which) ==> curves[c] == old(curves[c])
      ensures needsConstantBufferUpdate
      ensures settings == old(settings) && viewportSize == old(viewportSize) && needsResize == old(needsResize)
    {
      var i := Slot(which);
      curves[i] := curves[i].(thickness := thickness);
      needsConstantBufferUpdate := true;
    }

    /** The "Add" button was pressed: append a default point unless Original is full. */
    method AddControlPoint()
      requires Valid()
      modifies this, curves
      ensures Valid() && GpuUnchanged()
      ensures settings == old(settings) && viewportSize == old(viewportSize) && needsResize == old(needsResize)
      ensures old(|curves[ORIGINAL].points|) < MAX_CONTROL_POINTS ==>
        && curves[ORIGINAL] == old(curves[ORIGINAL]).(points := old(curves[ORIGINAL].points) + [DEFAULT_CONTROL_POINT], needsBufferUpdate := true)
        && curves[POLAR] == old(curves[POLAR]).(points := DerivePolar(curves[ORIGINAL].points, settings.t1), needsBufferUpdate := true)
        && needsConstantBufferUpdate
      ensures old(|curves[ORIGINAL].points|) >= MAX_CONTROL_POINTS ==>
        unchanged(curves) && needsConstantBufferUpdate == old(needsConstantBufferUpdate)
    {
      if |curves[ORIGINAL].points| < MAX_CONTROL_POINTS {
        var original := curves[ORIGINAL];
        curves[ORIGINAL] := original.(points := original.points + [DEFAULT_CONTROL_POINT], needsBufferUpdate := true);
        needsConstantBufferUpdate := true;
        assert PointsInRange(curves[ORIGINAL].points) by {
          forall q | q in curves[ORIGINAL].points ensures PositionInRange(q.position) {
            assert q in original.points || q == DEFAULT_CONTROL_POINT;
          }
        }
        RecalculatePolar();
      }
    }

    /** The position control of point `i` reported `input`. */
    method EditControlPointPosition(i: nat, input: Vec2Input)
      requires Valid() && i < |curves[ORIGINAL].points| && DragsInRange(input)
      modifies this, curves
      ensures Valid() && GpuUnchanged()
      ensures settings == old(settings) && needsConstantBufferUpdate == old(needsConstantBufferUpdate)
      ensures viewportSize == old(viewportSize) && needsResize == old(needsResize)
      ensures var (position, edited) := DrawVec2Control(old(curves[ORIGINAL].points[i].position), input);
        if edited then
          && curves[ORIGINAL] == old(curves[ORIGINAL]).(
               points := old(curves[ORIGINAL].points)[i := old(curves[ORIGINAL].points[i]).(position := position)],
               needsBufferUpdate := true)
          && curves[POLAR] == old(curves[POLAR]).(points := DerivePolar(curves[ORIGINAL].points, settings.t1), needsBufferUpdate := true)
        else
          unchanged(curves)
    {
      var original := curves[ORIGINAL];
      var (position, edited) := DrawVec2Control(original.points[i].position, input);
      if edited {
        assert original.points[i] in original.points;
        PointsInRangeUpdate(original.points, i, original.points[i].(position := position));
        curves[ORIGINAL] := original.(points := original.points[i := original.points[i].(position := position)], needsBufferUpdate := true);
        RecalculatePolar();
      }
    }

    /** The colour control of point `i` was edited: only Original's buffer becomes stale. */
    method EditControlPointColor(i: nat, color: Color3)
      requires Valid() && i < |curves[ORIGINAL].points|
      modifies curves
      ensures Valid()
      ensures curves[ORIGINAL] == old(curves[ORIGINAL]).(
        points := old(curves[ORIGINAL].points)[i := old(curves[ORIGINAL].points[i]).(color := color)],
        needsBufferUpdate := true)
      ensures curves[POLAR] == old(curves[POLAR])
    {
      var original := curves[ORIGINAL];
      var edited := original.points[i].(color := color);
      assert original.points[i] in original.points;
      PointsInRangeUpdate(original.points, i, edited);
      DerivePolarIgnoresColors(original.points, original.points[i := edited], settings.t1);
      curves[ORIGINAL] := original.(points := original.points[i := edited], needsBufferUpdate := true);
    }

    /** Erases the indices of `batch` one at a time, each from the vector the previous erase left. */
    method EraseControlPoints(batch: seq<nat>)
      requires curves.Length == NUM_CURVE_TYPES
      requires ErasableInOrder(|curves[ORIGINAL].points|, batch)
      modifies curves
      ensures curves[ORIGINAL] == old(curves[ORIGINAL]).(points := EraseInOrder(old(curves[ORIGINAL].points), batch))
      ensures curves[POLAR] == old(curves[POLAR])
    {
      ghost var before := curves[ORIGINAL].points;
      for j := 0 to |batch|
        invariant ErasableInOrder(|before|, batch[..j])
        invariant curves[ORIGINAL] == old(curves[ORIGINAL]).(points := EraseInOrder(before, batch[..j]))
        invariant curves[POLAR] == old(curves[POLAR])
      {
        assert batch[..j + 1][..j] == batch[..j];
        curves[ORIGINAL] := curves[ORIGINAL].(points := EraseAt(curves[ORIGINAL].points, batch[j]));
      }
      assert batch[..|batch|] == batch;
    }

    /**
     * The points whose remove buttons were pressed, collected in ascending
     * order, are erased one at a time from the shrinking vector. The Polar
     * curve is rebuilt only if Original still holds a point.
     */
    method RemoveControlPoints(batch: seq<nat>)
      requires Valid()
      requires StrictlyAscending(batch) && ErasableInOrder(|curves[ORIGINAL].points|, batch)
      modifies this, curves
      ensures Valid() && GpuUnchanged()
      ensures settings == old(settings) && viewportSize == old(viewportSize) && needsResize == old(needsResize)
      ensures batch == [] ==> unchanged(curves) && needsConstantBufferUpdate == old(needsConstantBufferUpdate)
      ensures batch != [] ==>
        && curves[ORIGINAL] == old(curves[ORIGINAL]).(points := EraseInOrder(old(curves[ORIGINAL].points), batch), needsBufferUpdate := true)
        && needsConstantBufferUpdate
        && (|curves[ORIGINAL].points| >= 1 ==>
              curves[POLAR] == old(curves[POLAR]).(points := DerivePolar(curves[ORIGINAL].points, settings.t1), needsBufferUpdate := true))
        && (|curves[ORIGINAL].points| == 0 ==> curves[POLAR] == old(curves[POLAR]))
    {
      if |batch| > 0 {
        ghost var before := curves[ORIGINAL].points;
        EraseControlPoints(batch);
        needsConstantBufferUpdate := true;
        curves[ORIGINAL] := curves[ORIGINAL].(needsBufferUpdate := true);
        EraseInOrderSubset(before, batch);
        if |curves[ORIGINAL].points| > 0 {
          RecalculatePolar();
        } else {
          ErasedToEmptyOnlyFromOne(before, batch);
        }
      }
    }

    /** The viewport panel reported its size: a change is recorded and marks the texture stale. */
    method UpdateViewportSize(panel: Extent)
      requires Valid()
      modifies this
      ensures Valid() && GpuUnchanged()
      ensures viewportSize == panel
      ensures needsResize == (old(needsResize) || panel != old(viewportSize))
      ensures settings == old(settings) && needsConstantBufferUpdate == old(needsConstantBufferUpdate)
    {
      if viewportSize != panel {
        viewportSize := panel;
        needsResize := true;
      }
    }

    /**
     * The per-frame sync: recreate the texture, rewrite the constant buffer
     * and rewrite each stale point buffer, clearing each flag right after
     * its write.
     */
    method OnUpdate()
      requires Valid()
      modifies this, curves
      ensures Valid() && Synced()
      ensures !needsResize && !needsConstantBufferUpdate
      ensures forall c :: 0 <= c < NUM_CURVE_TYPES ==> curves[c] == old(curves[c]).(needsBufferUpdate := false)
      ensures settings == old(settings) && viewportSize == old(viewportSize)
      ensures old(needsResize) ==> textureSize == viewportSize && textureCreations == old(textureCreations) + 1
      ensures !old(needsResize) ==> textureSize == old(textureSize) && textureCreations == old(textureCreations)
      ensures old(needsConstantBufferUpdate) ==> uploadedConstants == Some(Snapshot())
      ensures !old(needsConstantBufferUpdate) ==> uploadedConstants == old(uploadedConstants)
      ensures forall c :: 0 <= c < NUM_CURVE_TYPES ==>
        uploadedPoints[c] == if old(curves[c].needsBufferUpdate) then curves[c].points else old(uploadedPoints[c])
    {
      if needsResize {
        // The texture and its two views are recreated at the viewport size.
        textureSize := viewportSize;
        textureCreations := textureCreations + 1;
        needsResize := false;
      }
      if needsConstantBufferUpdate {
        uploadedConstants := Some(Snapshot());
        needsConstantBufferUpdate := false;
      }
      UploadControlPoints();
    }

    /** Writes each stale point buffer and clears its flag. */
    method UploadControlPoints()
      requires curves.Length == NUM_CURVE_TYPES && |uploadedPoints| == NUM_CURVE_TYPES
      modifies this`uploadedPoints, curves
      ensures |uploadedPoints| == NUM_CURVE_TYPES
      ensures forall c :: 0 <= c < NUM_CURVE_TYPES ==> curves[c] == old(curves[c]).(needsBufferUpdate := false)
      ensures forall c :: 0 <= c < NUM_CURVE_TYPES ==>
        uploadedPoints[c] == if old(curves[c].needsBufferUpdate) then curves[c].points else old(uploadedPoints[c])
    {
      for i := 0 to NUM_CURVE_TYPES
        invariant |uploadedPoints| == NUM_CURVE_TYPES
        invariant forall c :: 0 <= c < i ==> curves[c] == old(curves[c]).(needsBufferUpdate := false)
        invariant forall c :: i <= c < NUM_CURVE_TYPES ==> curves[c] == old(curves[c])
        invariant forall c :: 0 <= c < i ==>
          uploadedPoints[c] == if old(curves[c].needsBufferUpdate) then curves[c].points else old(uploadedPoints[c])
        invariant forall c :: i <= c < NUM_CURVE_TYPES ==> uploadedPoints[c] == old(uploadedPoints[c])
      {
        if curves[i].needsBufferUpdate {
          uploadedPoints := uploadedPoints[i := curves[i].points];
          curves[i] := curves[i].(needsBufferUpdate := false);
        }
      }
    }

    /** The compute pass is dispatched over tiles of THREAD_COUNT x THREAD_COUNT pixels covering the viewport. */
    method RenderBezierCurves() returns (groupsX: nat, groupsY: nat)
      ensures groupsX * THREAD_COUNT >= viewportSize.width && (groupsX - 1) * THREAD_COUNT < viewportSize.width
      ensures groupsY * THREAD_COUNT >= viewportSize.height && (groupsY - 1) * THREAD_COUNT < viewportSize.height
      ensures Valid() && !needsResize ==>
        groupsX * THREAD_COUNT >= textureSize.width && groupsY * THREAD_COUNT >= textureSize.height
    {
      groupsX := ThreadGroupCount(viewportSize.width);
      groupsY := ThreadGroupCount(viewportSize.height);
    }
  }
}
