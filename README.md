# Self-healing watermark overlay

A Dafny model of the `WaterMark` React component in
`src/components/water-mark/component.tsx`. The component paints its text
once onto a canvas tile. It mounts one overlay `div` that carries the tile
as a repeating background over the container's children. It also watches
the container with a `MutationObserver`: when a batch of mutation records
shows that the overlay was removed or had its attributes changed, it
destroys the overlay and renders it again. A suppression flag
(`stopObserver`) is on while the component's own DOM changes are reported,
and a `setTimeout` clears it afterwards.

The model has six modules:

- `Wrappers` (`wrappers.dfy`): `Option`, which stands for a React ref whose `current` may be `undefined`.
- `Dom` (`dom.dfy`): an abstract DOM. Nodes are numbers. It holds the container's
  child list, the document's node allocation (`createElement`), inline styles,
  and the observer's queue of records. It has one pure function per DOM
  operation (`Created`, `Removed`, `Styled`, `Appended`) and a class
  `Container` whose methods apply those operations in place. The two record
  rules that matter here:
  - `appendChild` of a node that is already attached first removes it, and
    that removal is recorded.
  - A style change is recorded only while the node is inside the observed
    subtree.
- `Geometry` (`geometry.dfy`): the tile geometry and the ratio `window.devicePixelRatio | 1`.
  Bitwise OR and ECMAScript ToInt32 are written out on integers.
- `WaterMark` (`watermark.dfy`): the engine state as a value, `EngineState`.
  It has one step function per operation: `Destroyed`, `Rendered`,
  `Reconciled` (the callback), `Delivered` (the observer delivers the queue)
  and `Cleared` (the timer fires). It also has the invariant `Invariant`, the
  matching rule `Qualifies`, and `Next`/`Run` over every step the component or
  the page can take.
- `WaterMarkProperties` (`properties.dfy`): the lemmas.
- `Component` (`component.dfy`): the loop of `observerCallBack` as the method
  `ScanMutations`, and the class `Engine`. Its fields are `watermarkRef`,
  `stopObserver` and the pending clears. Each method changes the `Container`
  in place, keeps `Valid()`, and ends in the state that its step function
  gives. The file ends with a client scenario on the classes
  (`TamperRestorationScenario`): render, a script removes the overlay, one
  restoration follows, and both the restoration's own batch and a change to
  other content are ignored.

Inputs that come from outside the model are parameters:

- the result of `canvas.getContext("2d")` and `canvas.toDataURL()`, as
  `raster: Option<string>` (`None` when no 2D context is available);
- the device pixel ratio;
- the batches of mutation records.

Three behaviours of the code worth noting:

- On a configuration change, the effect calls only `renderWatermark`
  (component.tsx:159-172). The existing overlay is then reused, moved and
  restyled. It is not destroyed and recreated.
- The callback does not set the flag before `destroyWatermark`. The flag is
  set inside `renderWatermark` (component.tsx:130), after the destroy.
- While the flag is on, the callback drops every batch (component.tsx:48),
  including one that reports a script removing the overlay. That removal is
  then never acted on (see "## Findings"). The engine and its invariant model
  the code as written. The corrected callback `CheckedReconciled` and its
  run `CheckedRun` stand beside them.

## Model

| member | source | states |
|---|---|---|
| `Dom.Without` | src/components/water-mark/component.tsx:154 | taking a node out of a child list keeps exactly the other nodes and keeps them distinct, with one fewer element when the node was there |
| `Dom.WithoutIsSplice` | src/components/water-mark/component.tsx:154 | in a duplicate-free child list, removal splices out exactly that node's position and keeps the order of the rest |
| `Dom.Created` | src/components/water-mark/component.tsx:76 | definition of `document.createElement`: the fresh node is the next unused number; used at lines 76 and 87; its properties are in `RenderMounts` and `RenderWithoutText` |
| `Dom.Removed` | src/components/water-mark/component.tsx:154 | `node.remove()` detaches the node, keeps the other children in order, and records one removal; on a detached node it changes nothing; other children, styles and well-formedness are kept |
| `Dom.Styled` | src/components/water-mark/component.tsx:141 | assigning the style sets that node's style and no other node's; it queues an attributes record for `n` exactly when `n` is attached and its style changes, and nothing otherwise |
| `Dom.Appended` | src/components/water-mark/component.tsx:143 | `appendChild` makes the node the last child after the others in their order, adds no duplicate, and records a removal first when the node was already attached |
| `Dom.Container.constructor` | src/components/water-mark/component.tsx:175-183 | a new container is empty and well-formed |
| `Dom.Container.CreateElement` | src/components/water-mark/component.tsx:76 | `createElement` returns the next unused node and attaches nothing |
| `Dom.Container.Remove` | src/components/water-mark/component.tsx:154 | carries out `Removed` in place |
| `Dom.Container.SetStyle` | src/components/water-mark/component.tsx:141 | carries out `Styled` in place |
| `Dom.Container.AppendChild` | src/components/water-mark/component.tsx:143 | carries out `Appended` in place |
| `Dom.Container.TakeRecords` | src/components/water-mark/useMutationObserver.ts:15-16 | the observer receives every queued record, in order, and the queue is emptied |
| `Geometry.OffsetLeft` | src/components/water-mark/component.tsx:29 | definition: half the horizontal gap; its properties are in `TileCentred` and `DefaultGeometry` |
| `Geometry.OffsetTop` | src/components/water-mark/component.tsx:30 | definition: half the vertical gap; its properties are in `TileCentred` and `DefaultGeometry` |
| `Geometry.CanvasWidth` | src/components/water-mark/component.tsx:43 | definition: gap plus glyph width, times the ratio; its properties are in `TileCentred`, `TileScaled` and `DefaultGeometry` |
| `Geometry.CanvasHeight` | src/components/water-mark/component.tsx:44 | definition: gap plus glyph height, times the ratio; its properties are in `TileCentred`, `TileScaled` and `DefaultGeometry` |
| `Geometry.MarkWidth` | src/components/water-mark/component.tsx:113 | definition: glyph width times the ratio; its properties are in `TileCentred` and `DefaultGeometry` |
| `Geometry.MarkHeight` | src/components/water-mark/component.tsx:114 | definition: glyph height times the ratio; its properties are in `TileCentred` and `DefaultGeometry` |
| `Geometry.MarkSize` | src/components/water-mark/component.tsx:121 | definition: font size times the ratio; its value at the defaults is in `DefaultGeometry` |
| `Geometry.BackgroundSize` | src/components/water-mark/component.tsx:137 | definition: the logical tile width `gapX + width`; its properties are in `TileScaled`, `DefaultGeometry` and `OverlayStyle` |
| `Geometry.Ratio` | src/components/water-mark/component.tsx:33 | definition of the device ratio bitwise OR 1, through ToInt32; its properties are in `RatioOdd`, `RatioOfTwoIsThree` and `DefaultGeometry` |
| `Geometry.TileCentred` | src/components/water-mark/component.tsx:101-116 | after translating by half a gap times the ratio, the glyph box leaves equal half-gaps on both sides of the canvas, in both directions |
| `Geometry.TileScaled` | src/components/water-mark/component.tsx:43-44 | the canvas is the logical background tile (`x + width`) scaled by the ratio |
| `Geometry.DefaultGeometry` | src/components/water-mark/component.tsx:7-44 | with the defaults 220/210/120/60/16 and ratio 1: canvas 340 by 270, offsets 110 and 105, glyph box 120 by 60, font size 16, background size 340 |
| `Geometry.ToInt32` | src/components/water-mark/component.tsx:33 | the ToInt32 conversion lands in the signed 32-bit range, agrees with its input modulo 2^32, and is the identity on non-negative values below 2^31 |
| `Geometry.BitOrOne` | src/components/water-mark/component.tsx:33 | the bitwise OR of `a` with 1 is `a` for odd `a` and `a + 1` for even `a` |
| `Geometry.OrOneValue` | src/components/water-mark/component.tsx:33 | the same on a signed 32-bit integer through its two's-complement bit pattern |
| `Geometry.RatioOdd` | src/components/water-mark/component.tsx:33 | the device ratio bitwise OR 1 is always odd; below 2^31 it is at least 1: the truncated ratio when odd, one more when even |
| `Geometry.RatioOfTwoIsThree` | src/components/water-mark/component.tsx:33 | a device pixel ratio of 2 gives a ratio of 3 |
| `Geometry.IntendedRatio` | src/components/water-mark/component.tsx:33 | the device ratio logically OR 1 equals the device ratio whenever that is positive, and is 1 when it is 0 |
| `Geometry.IntendedRatioOfTwo` | src/components/water-mark/component.tsx:33 | with the intended ratio, a ratio-2 display gets a 680-pixel canvas for the default tile |
| `WaterMark.Matches` | src/components/water-mark/component.tsx:51-66 | definition: a childList record whose removed nodes include the overlay, or an attributes record whose target is the overlay; its loop is `ScanMutations` |
| `WaterMark.Qualifies` | src/components/water-mark/component.tsx:49-67 | definition: some record of the batch matches; its properties are in `ScanMutations`, `OneRestorationPerBatch` and `RestoresExactlyWhenQualifying` |
| `WaterMark.Destroyed` | src/components/water-mark/component.tsx:152-157 | definition of `destroyWatermark`; its properties are in `DestroyWithoutOverlay` and `DestroyDetaches` |
| `WaterMark.Rendered` | src/components/water-mark/component.tsx:75-150 | definition of `renderWatermark`; its properties are in `RenderWithoutText`, `RenderMounts` and `RepeatRenderNeedsSuppression` |
| `WaterMark.Reconciled` | src/components/water-mark/component.tsx:47-73 | definition of `observerCallBack`; its properties are in `SuppressedBatchIgnored`, `UnrelatedBatchIgnored`, `OneRestorationPerBatch`, `RestoresExactlyWhenQualifying` and `RestorationIsFresh` |
| `WaterMark.Delivered` | src/components/water-mark/useMutationObserver.ts:15-16 | definition: the queued records go to the callback as one batch and the queue is emptied; its properties are in `RepeatRenderNeedsSuppression` and `SuppressedTamperIsLost` |
| `WaterMark.Cleared` | src/components/water-mark/component.tsx:146-148 | definition of the `setTimeout` callback; its properties are in `SuppressionHeldUntilClear` and `StepKeepsInvariant` |
| `WaterMark.CheckedReconciled` | src/components/water-mark/component.tsx:47-73 | definition of the corrected callback, which skips a suppressed batch only while the overlay is in the container; its properties are in `CheckedAgreesWhileInPlace` and `CheckedOverlayKept` |
| `WaterMark.OverlayStyle` | src/components/water-mark/component.tsx:131-139 | the overlay's background tile is the canvas width at ratio 1, and its image is the exported canvas |
| `WaterMarkProperties.SuppressedBatchIgnored` | src/components/water-mark/component.tsx:48 | while `stopObserver` is set, a batch changes nothing: no destroy, no render, same overlay and container |
| `WaterMarkProperties.UnrelatedBatchIgnored` | src/components/water-mark/component.tsx:49-67 | a batch none of whose records mentions the current overlay node causes no destroy or render |
| `WaterMarkProperties.OneRestorationPerBatch` | src/components/water-mark/component.tsx:49-72 | adding records to a batch that already qualifies, before or after it or a copy of it, changes nothing: one destroy and one render per batch |
| `WaterMarkProperties.RestoresExactlyWhenQualifying` | src/components/water-mark/component.tsx:47-73 | for an engine not suppressed, a batch changes the state if and only if a childList record removes the overlay or an attributes record targets it |
| `WaterMarkProperties.DestroyWithoutOverlay` | src/components/water-mark/component.tsx:152-157 | destroy with no overlay is a no-op |
| `WaterMarkProperties.DestroyDetaches` | src/components/water-mark/component.tsx:152-157 | destroy clears the reference, leaves no overlay in the container, keeps the other children in order and the flag as it was, keeps the invariant, and a second destroy changes nothing |
| `WaterMarkProperties.RenderWithoutText` | src/components/water-mark/component.tsx:75-85 | with empty text or no 2D context, render leaves the children, styles, records, reference, flag and scheduled clears unchanged |
| `WaterMarkProperties.RenderMounts` | src/components/water-mark/component.tsx:86-148 | after a successful render the overlay is the last child, appears once, has the current style, other children keep their order, the flag is on with one clear scheduled; the node is the existing overlay on a repeat render and a fresh node on a first render |
| `WaterMarkProperties.InvariantGivesOneOverlay` | src/components/water-mark/component.tsx:86-157 | under the invariant the container holds at most one overlay node |
| `WaterMarkProperties.RestorationIsFresh` | src/components/water-mark/component.tsx:86-88 | after a restoration the overlay is a fresh node, different from every earlier overlay, and the last child; a removal record for the old node no longer matches, and the restoration's own records do not match the new node |
| `WaterMarkProperties.RepeatRenderNeedsSuppression` | src/components/water-mark/component.tsx:130-148 | a repeat render over an attached overlay queues records that match it; with the flag on, delivering them only empties the queue; delivered after a premature clear, they would replace the overlay |
| `WaterMarkProperties.SuppressionHeldUntilClear` | src/components/water-mark/component.tsx:130-148 | once the flag is on, every step other than the deferred clear leaves it on |
| `WaterMarkProperties.StepKeepsInvariant` | src/components/water-mark/component.tsx:75-157 | every step keeps the invariant: render, callback, delivery, the timer, and a script removing, restyling or inserting nodes |
| `WaterMarkProperties.RunKeepsInvariant` | src/components/water-mark/component.tsx:159-173 | the invariant holds after any sequence of steps |
| `WaterMarkProperties.NeverTwoOverlays` | src/components/water-mark/component.tsx:159-173 | from any well-formed container, no sequence of steps puts two overlay nodes in it |
| `WaterMarkProperties.QualifiesExtended` | src/components/water-mark/component.tsx:49-67 | records queued after a qualifying record leave the batch qualifying |
| `WaterMarkProperties.SuppressedTamperIsLost` | src/components/water-mark/component.tsx:48 | as written: render, a script removes the overlay, the batch arrives while suppressed, the timer clears the flag; the reference then names a detached node, nothing is queued, and any later delivery changes nothing; a later render puts the same node back after the content |
| `WaterMarkProperties.CheckedAgreesWhileInPlace` | src/components/water-mark/component.tsx:48 | the corrected callback behaves like the source's whenever the flag is off or the overlay is still in the container |
| `WaterMarkProperties.CheckedStepKeepsInvariant` | src/components/water-mark/component.tsx:47-157 | with the corrected callback every step keeps the invariant, and a detached overlay always has a qualifying record queued |
| `WaterMarkProperties.CheckedRunKeepsInvariant` | src/components/water-mark/component.tsx:159-173 | the same after any sequence of steps |
| `WaterMarkProperties.CheckedOverlayKept` | src/components/water-mark/component.tsx:159-173 | with the corrected callback, after any steps from a well-formed container: at most one overlay, and once every record has been delivered the reference, if set, names a node in the container |
| `Component.ScanMutations` | src/components/water-mark/component.tsx:49-67 | the loop over records and removed nodes sets `rerender` if and only if the batch qualifies |
| `Component.Engine.constructor` | src/components/water-mark/component.tsx:35-37 | the refs start with no overlay and with suppression off |
| `Component.Engine.DestroyWatermark` | src/components/water-mark/component.tsx:152-157 | carries out `Destroyed` in place and keeps `Valid()` |
| `Component.Engine.RenderWatermark` | src/components/water-mark/component.tsx:75-150 | carries out `Rendered` in place and keeps `Valid()` |
| `Component.Engine.ObserverCallBack` | src/components/water-mark/component.tsx:47-73 | carries out `Reconciled` in place and keeps `Valid()` |
| `Component.Engine.Deliver` | src/components/water-mark/useMutationObserver.ts:15-16 | one delivery of the queued batch to the callback, the `Delivered` step, keeping `Valid()` |
| `Component.Engine.ClearSuppression` | src/components/water-mark/component.tsx:146-148 | the deferred clear turns the flag off and uses up one scheduled clear |
| `Component.FirstRenderOverContent` | src/components/water-mark/component.tsx:159-161 | the first render over one content child mounts a fresh overlay right after it, with the flag on |
| `Component.Mount` | src/components/water-mark/component.tsx:159-161 | mounting over one content child leaves the content followed by the overlay |
| `Component.DeliverSuppressed` | src/components/water-mark/component.tsx:48 | on the classes: a suppressed delivery keeps the overlay and the children |
| `Component.RemoveAndRestore` | src/components/water-mark/component.tsx:53-72 | on the classes: a script removes the overlay, and the next delivery puts a new overlay back after the content |
| `Component.TouchUnrelated` | src/components/water-mark/component.tsx:60-67 | on the classes: restyling other content and delivering changes neither the overlay nor the children |
| `Component.TamperRestorationScenario` | src/components/water-mark/component.tsx:159-173 | a client run on the classes whose asserts check that the overlay is restored by a fresh node after a script removes it, and is kept through an unrelated change |

## Left out

- Canvas rasterisation (component.tsx:90-128 and 138): `translate`, `rotate`, `globalAlpha`, `fillRect`, `font`, `fillText` and `toDataURL`. These are browser calls on floating-point values. The exported image is the opaque `raster` string, and a missing 2D context is `raster == None`.
- `console.warn` on empty text (component.tsx:81): console output.
- `useMutationObserver.ts`: constructing the observer, `observe`, `disconnect`, and re-subscribing whenever the callback changes. A delivery is an input step (`Deliver`, or `Callback` with any batch, for records from deeper descendants).
- React wiring: prop defaulting (only the defaults the geometry uses appear, in `DefaultProps`), the effect's dependency list (modelled as "render may run again at any time"), and the JSX container. While the engine runs, the container is always mounted, so the `containerRef.current?.` null case at component.tsx:143 is not modelled.
- Event-loop timing: the `setTimeout` clear is the explicit `ClearSuppression` step. The model chooses no order between clears and deliveries. `RepeatRenderNeedsSuppression` shows why the order matters.
- Number arithmetic: the geometry is exact rational arithmetic on `real`, not IEEE doubles. The ratio takes the truncated integer part of the device ratio.
- `Invariant`: states only the first half of the overlay invariant (at most one overlay attached, and an attached overlay is the referenced one). The second half, "the reference, if set, names a node in the container", is false for the code as written (`SuppressedTamperIsLost`). It is proved for the corrected callback in `CheckedOverlayKept`.
- `StepKeepsInvariant`: preserves `Invariant` only, so it does not promise that the referenced overlay is attached, for the reason above.
- `RunKeepsInvariant`: likewise. The attached-reference half holds only for `CheckedRun`.
- `Dom.Styled`: `Object.assign` sets seven style properties, and each one that changes queues its own record. The model queues one attributes record when the style changes.
- A page script that keeps a reference to a removed overlay and appends it again: the foreign steps only remove, restyle or insert fresh nodes. In the source such a re-append draws no reaction (it is an addition, not a removal), and the container would then hold two overlays.
- `type.ts` declares `content`, while the component reads `watermarkContent.text`. So the demo in `src/App.tsx:7` passes text that the component never draws. Type declarations and the demo are not part of this model.

## Findings

| source | as written | input that shows it | evidently intended | confidence | as-written member | corrected member |
|---|---|---|---|---|---|---|
| src/components/water-mark/component.tsx:33 | the ratio is the device ratio bitwise OR 1, which truncates it and sets its lowest bit | `devicePixelRatio = 2` gives a ratio of 3, so the canvas is drawn at three times the logical size instead of two | the device ratio logically OR 1: the device ratio itself, with 1 as a fallback, as the comment above the line says ("get the device pixel ratio") | medium, not executed | `Geometry.RatioOfTwoIsThree` | `Geometry.IntendedRatio` |
| src/components/water-mark/component.tsx:48 | while `stopObserver` is on (from line 130 until the `setTimeout` at 146-148 runs), the callback drops the whole batch | render; before the timer fires a script calls `remove()` on the overlay; the batch reporting it is dropped, the timer clears the flag, and the overlay stays detached until a configuration change renders again | a removal of the overlay during the suppression window is still repaired: the callback skips a batch only while the overlay is still in the container (a script's restyle of the attached overlay during the window is still absorbed) | low, not executed | `WaterMarkProperties.SuppressedTamperIsLost` | `WaterMarkProperties.CheckedOverlayKept` |
