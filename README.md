# BezierCurveEditor: the editor state machine

BezierCurveEditor is a small Windows tool that draws a Bezier curve and its
polar curve with a Direct3D 11 compute shader. The control points are edited
in an ImGui panel. Beneath the windowing and GPU glue sits a sequential state
machine. This project models that machine in Dafny and proves properties
about it.

- **State.** The `Application` holds two curve slots, Original and Polar. Each
  slot has a colour, a thickness, a vector of at most five control points and
  a "point buffer is stale" flag. The `Application` also holds the global
  settings (draw flags, sample count, `T1`), the viewport size and two more
  dirty flags: constant buffer stale, viewport texture stale.
- **Edits.** Every edit made through the properties panel updates that state
  and sets the matching flags.
- **Polar derivation.** The Polar curve is rebuilt from the Original points by
  linear interpolation at `T1`.
- **Sync step.** Once per frame, `OnUpdate` consumes the flags. It recreates
  the texture if the resize flag is set, writes the constant buffer if its
  flag is set, and writes each stale point buffer.
- **Two integer helpers.** The tile count of the compute dispatch, and the
  `Align` macro that sizes the constant buffer.

Modules:

- `BezierModel` (`model.dfy`): the records of `src/application.h` with their
  default values and the widget ranges. It also holds the snapshot written to
  the constant buffer.
- `PolarDerivation` (`polar.dfy`): the derivation as a function, its
  pointwise characterisation, the `T1 = 0` and `T1 = 1` endpoints, and the
  fact that it stays inside the [-1, 1] square. It also holds the `size_t`
  subtraction in the loop bound.
- `Removal` (`removal.dfy`): batch removal as the code does it, which erases
  indices in ascending order from a vector that shrinks as it goes. An
  independent reference filter is proved equal to it.
- `Dispatch` (`dispatch.dfy`): the ceiling division for the tile grid, and
  `Align` over 32-bit words.
- `Editor` (`editor.dfy`): the `Application` class. It keeps the curves in an
  array of two slots. Each panel edit is a method, and so are
  `RecalculatePolar` and `OnUpdate`.

What the GPU holds is recorded in ghost fields:

- the point sequence last written to each buffer;
- the last constant snapshot;
- the texture size;
- a count of texture creations.

The class invariant `Valid()` ties these records to the flags. A clear
point-buffer flag means that buffer holds the curve's current points. A clear
resize flag means the texture has the viewport's size. A clear constants flag
means the constant buffer, once written, equals the current snapshot except
possibly in `T1`. The invariant also states:

- Original holds at most `MAX_CONTROL_POINTS` points, all inside [-1, 1].
- Polar is always the derivation of Original.

Every edit method and `OnUpdate` preserve `Valid()`. After `OnUpdate`, every
flag is clear, both point buffers and the texture are current, and the
constant buffer, once written, equals the current snapshot except possibly in
`T1`.

In four places the code behaves differently from what a reader might
expect; the model follows the code:

- **Removal.** `RemoveControlPoints` erases the collected indices one by one
  from the shrinking vector (`src/application.cpp:496-497`). Pressing the
  buttons of points 1 and 3 of `[A, B, C, D, E]` therefore gives `[A, C, D]`,
  not `[A, C, E]` (`Removal.TwoIndexScenario`). The general result is
  `Removal.EraseInOrderKeeps`: with ascending indices `b`, the positions
  actually removed are `b[j] + j`. An index must still be in range when its
  turn comes, which `ErasableInOrder` requires.
- **T1 edits.** A `T1` edit rebuilds Polar but does not set the constants
  flag (`src/application.cpp:420-421`), yet `T1` is part of the snapshot
  (`src/application.cpp:591`). So the constant-buffer part of the invariant
  holds only up to `T1`: once written, the uploaded record equals the
  current snapshot with its own `T1` put back
  (`Application.ConstantsCurrentExceptT1`).
- **Removing the last point.** Removal skips the Polar rebuild when Original
  becomes empty (`src/application.cpp:502-503`). This never leaves stale Polar
  points. A removal can empty Original only when it held a single point
  (`Removal.ErasedToEmptyOnlyFromOne`), and a single point already derives an
  empty Polar.
- **The constant buffer at start-up.** It is created without initial data and
  written only by the first edit that sets the constants flag. Until then
  `uploadedConstants` is `None`, and the invariant says nothing about it.

## Model

| member | source | states |
|---|---|---|
| BezierModel.Slot | src/application.h:55-60 | There are exactly two curve slots: Original is slot 0, Polar is slot 1, and the two are distinct. |
| BezierModel.FlagValue | src/application.cpp:592-593 | A draw flag is stored in the snapshot as 1 when set and 0 when clear. |
| BezierModel.BuildConstants | src/application.cpp:584-593 | The snapshot carries both curves' colour and thickness and Original's point count. The global settings (both draw flags, the sample count, T1) can be read back from it unchanged. |
| PolarDerivation.DerivePolar | src/application.cpp:299-307 | An Original of n >= 1 points derives exactly n - 1 Polar points; an empty one derives none. |
| PolarDerivation.DerivePolarAt | src/application.cpp:302-306 | Polar point i is the interpolation of Original points i and i + 1 at T1, with the fixed Polar colour. |
| PolarDerivation.DerivePolarCharacterized | src/application.cpp:299-307 | Any sequence of n - 1 points that matches the interpolation at every index is the derivation. This is what the loop of `RecalculatePolar` is proved against. |
| PolarDerivation.DerivePolarPosition | src/application.cpp:302-306 | Coordinate by coordinate, `polar[i] = orig[i] + (orig[i+1] - orig[i]) * T1`, and its colour is (0.1, 0.2, 0.8). |
| PolarDerivation.DerivePolarEndpoints | src/application.cpp:305 | At T1 = 0 each Polar point is `orig[i]`; at T1 = 1 it is `orig[i+1]`. |
| PolarDerivation.DerivePolarInRange | src/application.cpp:305 | If the Original points lie in [-1, 1]² and T1 lies in [0, 1], every Polar point lies in [-1, 1]² too. |
| PolarDerivation.MidpointScenario | src/application.cpp:299-307 | Original (0,0), (1,0), (1,1) at T1 = 0.5 derives exactly (0.5,0) and (1,0.5). |
| PolarDerivation.SizeSub | src/application.cpp:300 | `size() - 1` is computed modulo 2^64: the exact difference when no borrow occurs, and the difference plus 2^64 otherwise. |
| PolarDerivation.EmptyOriginalLoopOverruns | src/application.cpp:300 | For an empty Original the loop bound is SIZE_MAX. The guard admits index 0, and element 1 does not exist. |
| Removal.EraseAt | src/application.cpp:497 | One erase removes exactly one element. |
| Removal.EraseInOrder | src/application.cpp:496-497 | Erasing a batch in order removes exactly as many elements as the batch holds. |
| Removal.EraseInOrderKeeps | src/application.cpp:496-497 | For a strictly ascending batch b, erasing in order equals the reference filter that drops positions `b[j] + j` of the original vector. |
| Removal.EraseSingle | src/application.cpp:496-497 | A one-index batch equals the vector with that single position removed. |
| Removal.TwoIndexScenario | src/application.cpp:496-497 | Removing {1, 3} from [A, B, C, D, E] gives [A, C, D], whereas dropping positions 1 and 3 would give [A, C, E]. |
| Removal.AscendingAtLeastPosition | src/application.cpp:476-484 | In a strictly ascending batch of indices, the j-th entry is at least j. |
| Removal.ErasedToEmptyOnlyFromOne | src/application.cpp:502-503 | A valid batch can erase the vector to empty only if it held at most one element. |
| Removal.EraseInOrderSubset | src/application.cpp:496-497 | Every element left after the erases was in the original vector. |
| Removal.CollectRemovals | src/application.cpp:476-484 | The collected indices are strictly ascending and are exactly the points whose remove button was pressed. |
| Dispatch.ThreadGroupCount | src/application.cpp:542-543 | The tile count per axis is the ceiling of w / 8: `groups * 8 >= w` and `(groups - 1) * 8 < w`. |
| Dispatch.ThreadGroupCountIsLeast | src/application.cpp:542-543 | No smaller tile count covers w. |
| Dispatch.Align | src/directx11.h:59 | The result has every bit below the alignment boundary clear, for any alignment. |
| Dispatch.AlignIsAligned | src/directx11.h:59 | For a power-of-two alignment, `Align` yields a multiple of it (remainder 0). The proof goes through `MaskMeansMultiple`, one case per 32-bit power of two. |
| Dispatch.MaskMeansMultiple | src/directx11.h:59 | For a power-of-two boundary, a word whose bits below the boundary are clear is a multiple of it. |
| Dispatch.AlignRoundsUp | src/directx11.h:59 | Without unsigned wrap-around, `Align(size, a) >= size` and `Align(size, a) - size < a`. |
| Dispatch.MultipleMeansMask | src/directx11.h:59 | Conversely, a multiple of a power-of-two boundary has its bits below the boundary clear. |
| Dispatch.AlignIdempotent | src/directx11.h:59 | A size whose bits below the boundary are clear is returned unchanged, and aligning twice equals aligning once. |
| Dispatch.AlignKeepsMultiple | src/directx11.h:59 | A size that is already a multiple of a power-of-two alignment is returned unchanged. |
| Dispatch.ConstantBufferByteWidth | src/application.cpp:211 | The constant buffer's byte width is a multiple of 16, at least the 52-byte constants record and less than 16 bytes larger. |
| Editor.DrawVec2Control | src/application.cpp:35-72 | The control reports an edit exactly when a reset button was pressed or a field was dragged. With no edit the value is unchanged. A drag sets that coordinate to the dragged value; a reset without a drag sets it to 0. Inputs inside [-1, 1] keep a position inside [-1, 1]. |
| Editor.DerivePolarIgnoresColors | src/application.cpp:490 | Changing the colours of Original points does not change the derived Polar points. |
| Editor.Application.constructor | src/application.h:102-107 | Start-up state: viewport (1, 1); both flags false; default settings (both draws on, 50 samples, T1 = 0.5, lines 30-33); two white curves of thickness 1 with no points and clear flags (lines 64-67). The invariant holds from the start. |
| Editor.Application.RecalculatePolar | src/application.cpp:294-310 | Polar's points are replaced by the derivation of Original at T1, and Polar's buffer flag is set. Original and Polar's colour and thickness are unchanged. Original must hold a point. |
| Editor.Application.ToggleDrawBezierCurve | src/application.cpp:399 | The checkbox flips the draw-Bezier flag and sets only the constants flag. |
| Editor.Application.ToggleDrawPolar | src/application.cpp:406 | The checkbox flips the draw-Polar flag and sets only the constants flag. |
| Editor.Application.SetNumSamples | src/application.cpp:413 | The sample count takes the dragged value and only the constants flag is set. |
| Editor.Application.EditT1 | src/application.cpp:420-421 | T1 takes the dragged value. If Original is non-empty, Polar becomes its derivation at the new T1 and is marked stale. The constants flag is left as it was. |
| Editor.Application.EditCurveColor | src/application.cpp:433-452 | Only the chosen curve's colour changes, and the constants flag is set. |
| Editor.Application.EditCurveThickness | src/application.cpp:440-459 | Only the chosen curve's thickness changes, and the constants flag is set. |
| Editor.Application.AddControlPoint | src/application.cpp:467-474 | Below five points: one default point ((0,0), red) is appended, Original's buffer flag and the constants flag are set, and Polar is rebuilt. At five points nothing changes, so Original never exceeds `MAX_CONTROL_POINTS`. |
| Editor.Application.EditControlPointPosition | src/application.cpp:485-489 | An edited position is written to point i, Original is marked stale and Polar is rebuilt. Without an edit nothing changes. |
| Editor.Application.EditControlPointColor | src/application.cpp:490 | Point i takes the new colour and only Original's buffer flag is set. Polar is unchanged. |
| Editor.Application.EraseControlPoints | src/application.cpp:496-497 | Original's points become the in-order erase of the batch. Polar is untouched. |
| Editor.Application.RemoveControlPoints | src/application.cpp:494-504 | A non-empty batch erases in order and sets the constants flag and Original's buffer flag. It rebuilds Polar only if Original is still non-empty. An empty batch changes nothing. |
| Editor.Application.UpdateViewportSize | src/application.cpp:512-518 | The viewport takes the panel size. The resize flag is set if the size differed and is otherwise left as it was. |
| Editor.Application.OnUpdate | src/application.cpp:574-615 | Afterwards every flag is clear. Both point buffers and the texture are current, and the constant buffer, once written, equals the current snapshot except possibly in T1. The texture is recreated at the viewport size only if the resize flag was set. The snapshot is written only if the constants flag was set. Each point buffer is written only if its curve's flag was set. |
| Editor.Application.UploadControlPoints | src/application.cpp:603-614 | Each stale curve's points are written to its buffer and its flag cleared. Other buffers keep their contents. |
| Editor.Application.RenderBezierCurves | src/application.cpp:537-555 | The dispatched tile grid covers the viewport with the fewest 8x8 tiles. While the texture is current, it covers the texture. |

## Left out

- Win32 window creation, the message pump and the window procedures are not modelled: they are platform I/O.
- Direct3D 11 is represented only by ghost records: the last data written to each buffer, the texture size and a creation count. Resource creation, Map/Unmap, views, shader binding, `Dispatch`, `Present` and swap-chain resizing are not modelled.
- ImGui layout and styling, `DrawColorEdit` and fonts are not modelled. A widget's result becomes a method parameter. The widget clamps (positions in [-1, 1], samples 25..100, T1 0..1, thickness 1..3) become preconditions, because the library enforces them.
- Shader loading and the HLSL kernel are not part of this model. What the GPU draws from the buffers is not stated.
- `DXCall` error reporting and `main` are not modelled.
- `m_Running` is not modelled.
- Floats: positions, colours, thicknesses and T1 are `real`, so IEEE rounding is not modelled. The interpolation and the float-to-integer tile division are exact.
- `Editor.Application.UpdateViewportSize`: the viewport size is modelled as whole pixels (`nat`), not as the float pair the code compares.
- Frame order: one panel pass is modelled as separate methods, one per widget that reported an edit. Within a pass the code handles position and colour edits point by point and removes points after the loop. A caller of the methods has to respect that order.
- `Dispatch.AlignRoundsUp`: `Align` is stated over 32-bit words, the width of the `ByteWidth` field it feeds. The 64-bit `size_t` version is not modelled.
- `Editor.Application.EditT1` guards the rebuild with a non-empty Original. The code calls the rebuild unguarded, which is the finding below.
- `Editor.Application.RemoveControlPoints` requires each index to be in range when its turn comes (`Removal.ErasableInOrder`). The code has no such check. Removing {3, 4} from five points, for example, erases at `end()` of a four-element vector on the second step (src/application.cpp:497), which is undefined behaviour in C++. The model does not describe that case. ImGui normally reports at most one button press per frame, so batches of two or more, and with them both the index shift and this case, are latent.

## Findings

| source | as written | input that shows it | evidently intended | confidence | as-written member | corrected member |
|---|---|---|---|---|---|---|
| src/application.cpp:300 and src/application.cpp:420-421 | A T1 edit calls the Polar rebuild unconditionally. The loop bound `size() - 1` is unsigned, so for an empty Original it wraps to SIZE_MAX and the first iteration reads `ControlPoints[1]` of an empty vector. | Drag T1 at start-up, before any point is added (curves start empty, src/application.h:66). | Rebuild only when Original holds a point, as the removal path does (src/application.cpp:502-503). Polar then stays the (empty) derivation and the invariant holds. | not executed | PolarDerivation.EmptyOriginalLoopOverruns | Editor.Application.EditT1 |
